/** Large SFTP reads and writes, sent as requests no larger than a packet one after another. */
module SplitIo {
  import opened Common

  const PKT_RW_OVERHEAD: nat := 2 * 1024

  function Min(a: nat, b: nat): nat {
    if a < b then a else b
  }

  /** Byte `k` of a file with `data` written at `pos`; a gap reads as zeros. */
  function ByteAt(file: Bytes, pos: nat, data: Bytes, k: nat): byte {
    if pos <= k < pos + |data| then data[k - pos] else if k < |file| then file[k] else 0
  }

  /** The file. */
  function Patch(file: Bytes, pos: nat, data: Bytes): (r: Bytes)
    ensures |r| == if data == [] then |file| else if |file| < pos + |data| then pos + |data| else |file|
  {
    if data == [] then file
    else
      var n := if |file| < pos + |data| then pos + |data| else |file|;
      seq(n, (k: nat) => ByteAt(file, pos, data, k))
  }

  lemma PatchAt(file: Bytes, pos: nat, data: Bytes, k: nat)
    requires data != [] && k < |Patch(file, pos, data)|
    ensures Patch(file, pos, data)[k] == ByteAt(file, pos, data, k)
  {
  }

  lemma NoPatch(file: Bytes, position: nat)
    ensures Patch(file, position, []) == file
  {
  }

  /** Two writes one behind the other are one write. */
  lemma PatchTwice(file: Bytes, pos: nat, a: Bytes, b: Bytes)
    ensures Patch(Patch(file, pos, a), pos + |a|, b) == Patch(file, pos, a + b)
  {
    hide Patch;
    if a == [] {
      assert a + b == b;
      NoPatch(file, pos);
    } else if b == [] {
      assert a + b == a;
      NoPatch(Patch(file, pos, a), pos + |a|);
    } else {
      var first := Patch(file, pos, a);
      var l, r := Patch(first, pos + |a|, b), Patch(file, pos, a + b);
      assert |l| == |r|;
      forall k | 0 <= k < |r| ensures l[k] == r[k] {
        PatchAt(first, pos + |a|, b, k);
        PatchAt(file, pos, a + b, k);
        if k < |first| {
          PatchAt(file, pos, a, k);
        }
      }
    }
  }

  // ----- write -----

  /** A WRITE request as the server gets it. */
  datatype WriteReq = WriteReq(position: nat, data: Bytes)

  datatype Outcome = Pending | Done(result: nat) | Failed

  /** - off, len, position: of the request under way
      - overflow: how much is left for later requests
      - sent: all requests so far */
  datatype WriteOp = WriteOp(
    buf: Bytes,
    off: nat,
    len: nat,
    overflow: nat,
    position: nat,
    sent: seq<WriteReq>,
    outcome: Outcome)

  /** One call of `write`, the first or one for the rest. */
  function SendWrite(buf: Bytes, off: nat, len: nat, position: nat, maxData: nat, sent: seq<WriteReq>): WriteOp
    requires off + len <= |buf|
  {
    var n := Min(len, maxData);
    WriteOp(buf, off, n, len - n, position,
            if len == 0 then sent else sent + [WriteReq(position, buf[off..off + n])],
            if len == 0 then Done(0) else Pending)
  }

  ghost predicate Sane(op: WriteOp) {
    op.off + op.len + op.overflow <= |op.buf|
  }

  /** The server's answer. */
  function WriteAnswered(op: WriteOp, ok: bool, maxData: nat): WriteOp
    requires Sane(op)
  {
    if !ok then op.(outcome := Failed)
    else if op.overflow > 0 then
      SendWrite(op.buf, op.off + op.len, op.overflow, op.position + op.len, maxData, op.sent)
    else op.(outcome := Done(op.off + op.len))
  }

  /** What the requests do to a file, in order. */
  function Apply(file: Bytes, reqs: seq<WriteReq>): Bytes {
    if reqs == [] then file
    else
      var last := reqs[|reqs| - 1];
      Patch(Apply(file, reqs[..|reqs| - 1]), last.position, last.data)
  }

  /** Bytes the requests carry. */
  function Carried(reqs: seq<WriteReq>): nat {
    if reqs == [] then 0 else Carried(reqs[..|reqs| - 1]) + |reqs[|reqs| - 1].data|
  }

  /** The requests so far are the pieces of `buf` from `off` on, each behind the one before, none
      empty and none larger than a packet holds. */
  ghost predicate Tiles(reqs: seq<WriteReq>, buf: Bytes, off: nat, position: nat, maxData: nat)
    decreases |reqs|
  {
    reqs != [] ==>
      var init, last := reqs[..|reqs| - 1], reqs[|reqs| - 1];
      && Tiles(init, buf, off, position, maxData)
      && 1 <= |last.data| <= maxData
      && last.position == position + Carried(init)
      && off + Carried(init) + |last.data| <= |buf|
      && last.data == buf[off + Carried(init)..off + Carried(init) + |last.data|]
  }

  /** Where a write of `len` bytes at `off`, to go to `position`, has got to. */
  ghost predicate WriteOk(op: WriteOp, buf: Bytes, off: nat, len: nat, position: nat, maxData: nat) {
    && op.buf == buf && off + len <= |buf| && len > 0 && maxData > 0
    && |op.sent| > 0 && Tiles(op.sent, buf, off, position, maxData)
    && op.off + op.len == off + Carried(op.sent) && op.position + op.len == position + Carried(op.sent)
    && op.len > 0 && op.overflow == len - Carried(op.sent)
    && (op.outcome.Done? ==> op.overflow == 0 && op.outcome.result == off + len)
  }

  lemma OneMoreReq(reqs: seq<WriteReq>, r: WriteReq)
    ensures Carried(reqs + [r]) == Carried(reqs) + |r.data|
    ensures (reqs + [r])[..|reqs + [r]| - 1] == reqs
  {
    assert (reqs + [r])[..|reqs|] == reqs;
  }

  lemma OneMoreTile(sent: seq<WriteReq>, buf: Bytes, off: nat, position: nat, maxData: nat, n: nat)
    requires Tiles(sent, buf, off, position, maxData) && 1 <= n <= maxData && off + Carried(sent) + n <= |buf|
    ensures var c := Carried(sent);
            var more := sent + [WriteReq(position + c, buf[off + c..off + c + n])];
            Tiles(more, buf, off, position, maxData) && Carried(more) == c + n
  {
    var c := Carried(sent);
    OneMoreReq(sent, WriteReq(position + c, buf[off + c..off + c + n]));
  }

  lemma SendWriteOk(buf: Bytes, off: nat, len: nat, position: nat, maxData: nat, sent: seq<WriteReq>, op: WriteOp)
    requires off + len <= |buf| && len > 0 && maxData > 0 && Carried(sent) < len
    requires Tiles(sent, buf, off, position, maxData)
    requires op == SendWrite(buf, off + Carried(sent), len - Carried(sent), position + Carried(sent), maxData, sent)
    ensures WriteOk(op, buf, off, len, position, maxData)
  {
    hide Tiles, Carried;
    OneMoreTile(sent, buf, off, position, maxData, Min(len - Carried(sent), maxData));
  }

  lemma AnsweredOk(op: WriteOp, ok: bool, buf: Bytes, off: nat, len: nat, position: nat, maxData: nat)
    requires WriteOk(op, buf, off, len, position, maxData) && op.outcome == Pending
    ensures Sane(op)
    ensures var t := WriteAnswered(op, ok, maxData);
            && WriteOk(t, buf, off, len, position, maxData)
            && (t.outcome == Pending ==> t.overflow < op.overflow)
  {
    if ok && op.overflow > 0 {
      SendWriteOk(buf, off, len, position, maxData, op.sent, WriteAnswered(op, ok, maxData));
    }
  }

  lemma {:induction false} TilesArePatch(reqs: seq<WriteReq>, buf: Bytes, off: nat, position: nat, maxData: nat, file: Bytes)
    requires Tiles(reqs, buf, off, position, maxData) && off <= |buf|
    ensures off + Carried(reqs) <= |buf|
    ensures Apply(file, reqs) == Patch(file, position, buf[off..off + Carried(reqs)])
    decreases |reqs|
  {
    hide Patch;
    if reqs != [] {
      var init, last := reqs[..|reqs| - 1], reqs[|reqs| - 1];
      TilesArePatch(init, buf, off, position, maxData, file);
      var done := buf[off..off + Carried(init)];
      PatchTwice(file, position, done, last.data);
      OneBehindTheOther(buf, off, off + Carried(init), off + Carried(reqs));
    } else {
      NoPatch(file, position);
      assert buf[off..off] == [];
    }
  }

  lemma OneBehindTheOther(buf: Bytes, a: nat, b: nat, c: nat)
    requires a <= b <= c <= |buf|
    ensures buf[a..b] + buf[b..c] == buf[a..c]
  {
  }

  /** The state after the first `n` answers, all of them good. */
  function AfterAnswers(buf: Bytes, off: nat, len: nat, position: nat, maxData: nat, n: nat): (op: WriteOp)
    requires off + len <= |buf| && len > 0 && maxData > 0
    ensures WriteOk(op, buf, off, len, position, maxData)
  {
    if n == 0 then
      SendWriteOk(buf, off, len, position, maxData, [], SendWrite(buf, off, len, position, maxData, []));
      SendWrite(buf, off, len, position, maxData, [])
    else
      var before := AfterAnswers(buf, off, len, position, maxData, n - 1);
      if before.outcome != Pending then before
      else
        AnsweredOk(before, true, buf, off, len, position, maxData);
        WriteAnswered(before, true, maxData)
  }

  /** A write is finished after at most as many answers as it has bytes; then the file is as after
      one write of all of it, and every request was a contiguous piece that fits. When a request
      fails instead, the file holds what the requests before it (and perhaps it) carried. */
  lemma WriteIsOneWrite(buf: Bytes, off: nat, len: nat, position: nat, maxData: nat, n: nat, file: Bytes, op: WriteOp)
    requires off + len <= |buf| && len > 0 && maxData > 0
    requires op == AfterAnswers(buf, off, len, position, maxData, n)
    ensures n >= len ==> op.outcome.Done?
    ensures Tiles(op.sent, buf, off, position, maxData) && Carried(op.sent) <= len
    ensures Apply(file, op.sent) == Patch(file, position, buf[off..off + Carried(op.sent)])
    ensures op.outcome.Done? ==> Apply(file, op.sent) == Patch(file, position, buf[off..off + len])
  {
    EndsInTime(buf, off, len, position, maxData, n);
    WriteSoFar(op, buf, off, len, position, maxData, file);
    hide *;
  }

  lemma WriteSoFar(op: WriteOp, buf: Bytes, off: nat, len: nat, position: nat, maxData: nat, file: Bytes)
    requires WriteOk(op, buf, off, len, position, maxData)
    ensures Tiles(op.sent, buf, off, position, maxData) && Carried(op.sent) <= len
    ensures Apply(file, op.sent) == Patch(file, position, buf[off..off + Carried(op.sent)])
    ensures op.outcome.Done? ==> Apply(file, op.sent) == Patch(file, position, buf[off..off + len])
  {
    hide Apply, Tiles, Carried, Patch;
    TilesArePatch(op.sent, buf, off, position, maxData, file);
  }

  lemma {:induction false} EndsInTime(buf: Bytes, off: nat, len: nat, position: nat, maxData: nat, n: nat)
    requires off + len <= |buf| && len > 0 && maxData > 0
    ensures var op := AfterAnswers(buf, off, len, position, maxData, n);
            op.outcome.Done? || (op.outcome == Pending && op.overflow + n < len)
  {
    hide WriteOk, Sane;
    if n > 0 {
      EndsInTime(buf, off, len, position, maxData, n - 1);
      var before := AfterAnswers(buf, off, len, position, maxData, n - 1);
      if before.outcome == Pending {
        AnsweredOk(before, true, buf, off, len, position, maxData);
      }
    }
  }

  /** The state after these answers, some of them failures. */
  function AfterStatuses(buf: Bytes, off: nat, len: nat, position: nat, maxData: nat, oks: seq<bool>): (op: WriteOp)
    requires off + len <= |buf| && len > 0 && maxData > 0
    ensures WriteOk(op, buf, off, len, position, maxData)
    decreases |oks|
  {
    if oks == [] then
      SendWriteOk(buf, off, len, position, maxData, [], SendWrite(buf, off, len, position, maxData, []));
      SendWrite(buf, off, len, position, maxData, [])
    else
      var before := AfterStatuses(buf, off, len, position, maxData, oks[..|oks| - 1]);
      if before.outcome != Pending then before
      else
        AnsweredOk(before, oks[|oks| - 1], buf, off, len, position, maxData);
        WriteAnswered(before, oks[|oks| - 1], maxData)
  }

  /** How many answers are good before the first that is not. */
  function GoodOnes(oks: seq<bool>): (k: nat)
    ensures k <= |oks|
  {
    if oks == [] || !oks[0] then 0 else 1 + GoodOnes(oks[1..])
  }

  lemma {:induction false} GoodOnesOf(init: seq<bool>, last: bool)
    ensures GoodOnes(init + [last]) ==
            if GoodOnes(init) == |init| && last then |init| + 1 else GoodOnes(init)
    decreases |init|
  {
    if init != [] {
      assert (init + [last])[1..] == init[1..] + [last];
      GoodOnesOf(init[1..], last);
    }
  }

  /** The first failure that comes while the write goes on is its result, and nothing is sent after it;
      otherwise the write is as with good answers only. */
  lemma {:induction false} FailureEndsWrite(buf: Bytes, off: nat, len: nat, position: nat, maxData: nat, oks: seq<bool>)
    requires off + len <= |buf| && len > 0 && maxData > 0
    ensures var good := AfterAnswers(buf, off, len, position, maxData, GoodOnes(oks));
            AfterStatuses(buf, off, len, position, maxData, oks) ==
            if GoodOnes(oks) < |oks| && good.outcome == Pending then good.(outcome := Failed) else good
    decreases |oks|
  {
    hide WriteOk, GoodOnes, SendWrite;
    if oks == [] {
      NoAnswers();
    } else {
      var init, last := oks[..|oks| - 1], oks[|oks| - 1];
      assert oks == init + [last];
      GoodOnesOf(init, last);
      FailureEndsWrite(buf, off, len, position, maxData, init);
      var before := AfterStatuses(buf, off, len, position, maxData, init);
      if before.outcome == Pending {
        AnsweredOk(before, last, buf, off, len, position, maxData);
      }
    }
  }

  lemma NoAnswers()
    ensures GoodOnes([]) == 0
  {
  }

  /** What the callback is told is the end of the data in the buffer; it is the number of bytes
      written exactly when the data is at the start of it. */
  lemma ReportedLength(buf: Bytes, off: nat, len: nat, position: nat, maxData: nat, n: nat)
    requires off + len <= |buf| && len > 0 && maxData > 0
    ensures var op := AfterAnswers(buf, off, len, position, maxData, n);
            op.outcome.Done? ==> (op.outcome.result == len <==> off == 0)
  {
    hide AfterAnswers, Tiles, Carried;
  }

  /** The packet length of a WRITE, and that a full piece fits a packet exactly for handles of at
      most 2027 bytes (the protocol allows 256). */
  function WritePacketLength(handleLen: nat, dataLen: nat): nat {
    1 + 4 + 4 + handleLen + 8 + 4 + dataLen
  }

  lemma RequestsFit(handleLen: nat, maxPktLen: nat)
    requires maxPktLen > PKT_RW_OVERHEAD
    ensures (forall n | 0 <= n <= maxPktLen - PKT_RW_OVERHEAD :: WritePacketLength(handleLen, n) <= maxPktLen)
            <==> handleLen <= 2027
  {
    var full: nat := maxPktLen - PKT_RW_OVERHEAD;
    assert WritePacketLength(handleLen, full) <= maxPktLen <==> handleLen <= 2027;
  }

  // ----- read -----

  datatype ReadReq = ReadReq(position: nat, len: nat)

  /** - off, len, position: of the request under way; overflow: how much is left for later ones
      - nb: what earlier requests have got; sent: all requests so far */
  datatype ReadOp = ReadOp(
    buf: Bytes,
    off: nat,
    len: nat,
    overflow: nat,
    position: nat,
    nb: nat,
    sent: seq<ReadReq>,
    outcome: Outcome)

  /** One pass through `read_`. */
  function SendRead(buf: Bytes, off: nat, len: nat, position: nat, maxData: nat, nb: nat, sent: seq<ReadReq>): ReadOp {
    var n := Min(len, maxData);
    ReadOp(buf, off, n, len - n, position, nb, sent + [ReadReq(position, n)], Pending)
  }

  /** The server's answer: data, the end of the file, or another error. */
  datatype Answer = Data(data: Bytes) | Eof | Error

  /** `data` over `buf` from `at` on, as much of it as `room` allows. */
  function Filled(buf: Bytes, at: nat, data: Bytes, room: nat): (r: Bytes)
    requires at + room <= |buf|
    ensures |r| == |buf|
  {
    var n := Min(|data|, room);
    buf[..at] + data[..n] + buf[at + n..]
  }

  function ReadAnswered(op: ReadOp, a: Answer, maxData: nat): ReadOp
    requires op.off + op.len <= |op.buf|
  {
    match a
    case Error => op.(outcome := Failed)
    case Eof => op.(outcome := Done(op.nb))
    case Data(data) =>
      var nb := Min(|data|, op.len);
      var buf := Filled(op.buf, op.off, data, op.len);
      if nb == op.len && op.overflow > 0 then
        SendRead(buf, op.off + nb, op.overflow, op.position + nb, maxData, op.nb + nb, op.sent)
      else op.(buf := buf, outcome := Done(op.nb + nb))
  }

  /** A server that answers with bytes of `file`, as many as it likes. */
  predicate Honest(file: Bytes, op: ReadOp, a: Answer) {
    a.Data? ==> op.position + |a.data| <= |file| && a.data == file[op.position..op.position + |a.data|]
  }

  /** How many bytes have been got by now. */
  function Got(op: ReadOp): nat {
    if op.outcome.Done? then op.outcome.result else op.nb
  }

  function FilePart(file: Bytes, position: nat, n: nat): Bytes {
    if position + n <= |file| then file[position..position + n] else []
  }

  /** The first `n` bytes of the file from `position` on, of which there may be none. */
  function Part(file: Bytes, position: nat, n: nat): Bytes {
    if n == 0 then [] else FilePart(file, position, n)
  }

  /** `part` over `before` from `off` on. */
  function Loaded(before: Bytes, off: nat, part: Bytes): (r: Bytes)
    requires off + |part| <= |before|
    ensures |r| == |before|
  {
    before[..off] + part + before[off + |part|..]
  }

  /** The first `n` bytes of the place in the buffer are those of the file, and all the others of
      the buffer are as before. */
  ghost predicate HoldsFile(now: Bytes, before: Bytes, off: nat, file: Bytes, position: nat, n: nat) {
    && off + n <= |before| && (n > 0 ==> position + n <= |file|)
    && now == Loaded(before, off, Part(file, position, n))
  }

  ghost predicate ReadOk(op: ReadOp, file: Bytes, before: Bytes, off: nat, len: nat, position: nat, maxData: nat) {
    && maxData > 0 && off + len <= |before|
    && op.off == off + op.nb && op.position == position + op.nb
    && op.nb + op.len + op.overflow == len && op.len <= maxData
    && op.len == Min(op.len + op.overflow, maxData)
    && |op.sent| > 0 && op.sent[|op.sent| - 1] == ReadReq(op.position, op.len)
    && ReadTiles(op.sent, position, maxData) && Asked(op.sent) == op.nb + op.len
    && Got(op) <= len && HoldsFile(op.buf, before, off, file, position, Got(op))
  }

  function Asked(reqs: seq<ReadReq>): nat {
    if reqs == [] then 0 else Asked(reqs[..|reqs| - 1]) + reqs[|reqs| - 1].len
  }

  /** Each request is for what lies behind the one before, and fits. */
  ghost predicate ReadTiles(reqs: seq<ReadReq>, position: nat, maxData: nat)
    decreases |reqs|
  {
    reqs != [] ==>
      var init, last := reqs[..|reqs| - 1], reqs[|reqs| - 1];
      && ReadTiles(init, position, maxData) && last.len <= maxData && last.position == position + Asked(init)
  }

  lemma OneMoreRead(reqs: seq<ReadReq>, r: ReadReq)
    ensures Asked(reqs + [r]) == Asked(reqs) + r.len
    ensures (reqs + [r])[..|reqs + [r]| - 1] == reqs
  {
    assert (reqs + [r])[..|reqs|] == reqs;
  }

  lemma OneMoreReadTile(reqs: seq<ReadReq>, r: ReadReq, position: nat, maxData: nat)
    requires ReadTiles(reqs, position, maxData) && r.len <= maxData && r.position == position + Asked(reqs)
    ensures ReadTiles(reqs + [r], position, maxData) && Asked(reqs + [r]) == Asked(reqs) + r.len
  {
    OneMoreRead(reqs, r);
    hide Asked;
  }

  lemma PartMore(file: Bytes, position: nat, n: nat, data: Bytes, m: nat)
    requires m <= |data| && position + n + |data| <= |file|
    requires data == file[position + n..position + n + |data|]
    ensures Part(file, position, n) + data[..m] == Part(file, position, n + m)
    ensures n > 0 ==> |Part(file, position, n)| == n
  {
    assert data[..m] == file[position + n..position + n + m];
    OneBehindTheOther(file, position, position + n, position + n + m);
  }

  lemma FilledHolds(now: Bytes, before: Bytes, off: nat, file: Bytes, position: nat, n: nat, data: Bytes, room: nat)
    requires HoldsFile(now, before, off, file, position, n) && off + n + room <= |now|
    requires position + n + |data| <= |file| && data == file[position + n..position + n + |data|]
    ensures HoldsFile(Filled(now, off + n, data, room), before, off, file, position, n + Min(|data|, room))
  {
    hide Loaded, Filled, FilePart;
    var m := Min(|data|, room);
    PartMore(file, position, n, data, m);
    LoadedMore(before, off, Part(file, position, n), data, room);
  }

  lemma LoadedMore(before: Bytes, off: nat, part: Bytes, data: Bytes, room: nat)
    requires off + |part| + room <= |before|
    ensures Filled(Loaded(before, off, part), off + |part|, data, room)
            == Loaded(before, off, part + data[..Min(|data|, room)])
  {
  }

  lemma ReadStarts(buf: Bytes, off: nat, len: nat, position: nat, maxData: nat, file: Bytes)
    requires maxData > 0 && off + len <= |buf|
    ensures ReadOk(SendRead(buf, off, len, position, maxData, 0, []), file, buf, off, len, position, maxData)
  {
    OneMoreRead([], ReadReq(position, Min(len, maxData)));
  }

  /** Every answer leaves the read in order, and as long as it goes on less is left. */
  lemma ReadKeeps(op: ReadOp, a: Answer, t: ReadOp, file: Bytes, before: Bytes, off: nat, len: nat, position: nat, maxData: nat)
    requires ReadOk(op, file, before, off, len, position, maxData) && op.outcome == Pending && Honest(file, op, a)
    requires op.off + op.len <= |op.buf| && t == ReadAnswered(op, a, maxData)
    ensures ReadOk(t, file, before, off, len, position, maxData)
    ensures t.outcome == Pending ==> t.overflow < op.overflow
    ensures t.outcome.Done? && t.outcome.result < len ==> a == Eof || (a.Data? && |a.data| < op.len)
  {
    hide HoldsFile, Filled, ReadOk, ReadTiles, Asked;
    BufferSize(op, file, before, off, len, position, maxData);
    if a.Data? {
      DataKeeps(op, a.data, file, before, off, len, position, maxData);
      AfterData(op, a.data, t, file, before, off, len, position, maxData);
    } else {
      DoneOk(op, op.buf, 0, if a == Eof then Done(op.nb) else Failed, file, before, off, len, position, maxData);
    }
  }

  lemma AfterData(op: ReadOp, data: Bytes, t: ReadOp, file: Bytes, before: Bytes, off: nat, len: nat, position: nat, maxData: nat)
    requires ReadOk(op, file, before, off, len, position, maxData) && op.outcome == Pending
    requires op.off + op.len <= |op.buf| && t == ReadAnswered(op, Data(data), maxData)
    requires HoldsFile(Filled(op.buf, op.off, data, op.len), before, off, file, position, op.nb + Min(|data|, op.len))
    ensures ReadOk(t, file, before, off, len, position, maxData)
    ensures t.outcome == Pending ==> t.overflow < op.overflow
    ensures t.outcome.Done? && t.outcome.result < len ==> |data| < op.len
  {
    hide *;
    BufferSize(op, file, before, off, len, position, maxData);
    var n, buf := Min(|data|, op.len), Filled(op.buf, op.off, data, op.len);
    AnsweredIs(op, data, maxData, n, buf);
    if n == op.len && op.overflow > 0 {
      NextReadOk(op, buf, file, before, off, len, position, maxData, t);
    } else {
      DoneOk(op, buf, n, Done(op.nb + n), file, before, off, len, position, maxData);
    }
  }

  lemma AnsweredIs(op: ReadOp, data: Bytes, maxData: nat, n: nat, buf: Bytes)
    requires op.off + op.len <= |op.buf| && n == Min(|data|, op.len) && buf == Filled(op.buf, op.off, data, op.len)
    ensures n <= op.len && n <= |data| && (n < op.len ==> |data| < op.len)
    ensures var t := ReadAnswered(op, Data(data), maxData);
            if n == op.len && op.overflow > 0 then
              && t == SendRead(buf, op.off + op.len, op.overflow, op.position + op.len, maxData, op.nb + op.len, op.sent)
              && t.outcome == Pending && (maxData > 0 ==> t.overflow < op.overflow)
            else t == op.(buf := buf, outcome := Done(op.nb + n))
  {
    hide Filled;
  }

  lemma BufferSize(op: ReadOp, file: Bytes, before: Bytes, off: nat, len: nat, position: nat, maxData: nat)
    requires ReadOk(op, file, before, off, len, position, maxData) && op.outcome == Pending
    ensures op.off + op.len <= |op.buf| && HoldsFile(op.buf, before, off, file, position, op.nb)
    ensures op.off == off + op.nb && op.position == position + op.nb && op.nb + op.len + op.overflow == len
    ensures op.len == Min(op.len + op.overflow, maxData) && maxData > 0
  {
  }

  /** The last answer. */
  lemma DoneOk(op: ReadOp, buf: Bytes, n: nat, outcome: Outcome, file: Bytes, before: Bytes, off: nat, len: nat,
               position: nat, maxData: nat)
    requires ReadOk(op, file, before, off, len, position, maxData) && op.outcome == Pending && n <= op.len
    requires HoldsFile(buf, before, off, file, position, op.nb + n)
    requires outcome == Done(op.nb + n) || (outcome == Failed && n == 0)
    ensures ReadOk(op.(buf := buf, outcome := outcome), file, before, off, len, position, maxData)
  {
    hide HoldsFile, ReadTiles, Asked;
  }

  lemma DataKeeps(op: ReadOp, data: Bytes, file: Bytes, before: Bytes, off: nat, len: nat, position: nat, maxData: nat)
    requires ReadOk(op, file, before, off, len, position, maxData) && op.outcome == Pending
    requires op.off + op.len <= |op.buf| && Honest(file, op, Data(data))
    ensures HoldsFile(Filled(op.buf, op.off, data, op.len), before, off, file, position, op.nb + Min(|data|, op.len))
  {
    hide *;
    BufferSize(op, file, before, off, len, position, maxData);
    HonestData(file, op, data);
    FilledHolds(op.buf, before, off, file, position, op.nb, data, op.len);
  }

  lemma HonestData(file: Bytes, op: ReadOp, data: Bytes)
    requires Honest(file, op, Data(data))
    ensures op.position + |data| <= |file| && data == file[op.position..op.position + |data|]
  {
  }

  lemma NextReadOk(op: ReadOp, buf: Bytes, file: Bytes, before: Bytes, off: nat, len: nat, position: nat, maxData: nat,
                   next: ReadOp)
    requires ReadOk(op, file, before, off, len, position, maxData) && op.outcome == Pending && op.overflow > 0
    requires HoldsFile(buf, before, off, file, position, op.nb + op.len)
    requires next == SendRead(buf, op.off + op.len, op.overflow, op.position + op.len, maxData, op.nb + op.len, op.sent)
    ensures ReadOk(next, file, before, off, len, position, maxData)
  {
    hide HoldsFile, Asked, ReadTiles;
    OneMoreReadTile(op.sent, ReadReq(op.position + op.len, Min(op.overflow, maxData)), position, maxData);
  }

  /** The read after these answers; answers after the last have no effect. */
  function AfterReads(buf: Bytes, off: nat, len: nat, position: nat, maxData: nat, file: Bytes,
                      answers: seq<Answer>): (op: ReadOp)
    requires maxData > 0 && off + len <= |buf|
    ensures ReadOk(op, file, buf, off, len, position, maxData)
    decreases |answers|
  {
    if answers == [] then
      ReadStarts(buf, off, len, position, maxData, file);
      SendRead(buf, off, len, position, maxData, 0, [])
    else
      var before := AfterReads(buf, off, len, position, maxData, file, answers[..|answers| - 1]);
      var a := answers[|answers| - 1];
      if before.outcome != Pending || !Honest(file, before, a) then before
      else
        BufferSize(before, file, buf, off, len, position, maxData);
        ReadKeeps(before, a, ReadAnswered(before, a, maxData), file, buf, off, len, position, maxData);
        ReadAnswered(before, a, maxData)
  }

  /** A read that reports `N` bytes has put exactly the first `N` bytes of the file from `position`
      on into their place and changed nothing else; the requests lie one behind the other and fit. */
  lemma ReadIsOneRead(buf: Bytes, off: nat, len: nat, position: nat, maxData: nat, file: Bytes, answers: seq<Answer>,
                      op: ReadOp)
    requires maxData > 0 && off + len <= |buf|
    requires op == AfterReads(buf, off, len, position, maxData, file, answers)
    ensures ReadTiles(op.sent, position, maxData) && Asked(op.sent) <= len
    ensures op.outcome.Done? ==>
              var n := op.outcome.result;
              && n <= len && (n > 0 ==> position + n <= |file|) && |op.buf| == |buf|
              && op.buf[off..off + n] == (if n > 0 then file[position..position + n] else [])
              && op.buf[..off] == buf[..off] && op.buf[off + n..] == buf[off + n..]
  {
    hide AfterReads, ReadTiles, Asked, Loaded, Part;
    if op.outcome.Done? {
      var n := op.outcome.result;
      assert n > 0 ==> Part(file, position, n) == file[position..position + n] by {
        PartIs(file, position, n);
      }
      assert n == 0 ==> Part(file, position, n) == [] by {
        PartIs(file, position, n);
      }
      PartsOfLoaded(buf, off, Part(file, position, n));
    }
  }

  /** A read fails only because of an answer that is an error: the end of the file is none, and what came
      before it is reported. */
  lemma {:induction false} OnlyErrorsFail(buf: Bytes, off: nat, len: nat, position: nat, maxData: nat, file: Bytes,
                                          answers: seq<Answer>)
    requires maxData > 0 && off + len <= |buf|
    ensures AfterReads(buf, off, len, position, maxData, file, answers).outcome == Failed ==> Error in answers
    decreases |answers|
  {
    hide ReadOk, Filled, Honest;
    if answers != [] {
      OnlyErrorsFail(buf, off, len, position, maxData, file, answers[..|answers| - 1]);
      var before := AfterReads(buf, off, len, position, maxData, file, answers[..|answers| - 1]);
      if before.outcome == Pending {
        BufferSize(before, file, buf, off, len, position, maxData);
      }
    }
  }

  /** The next answer of a read that goes on: an error is its result, the end of the file ends it with
      what the earlier requests asked for, all of which has come. */
  lemma LastAnswer(buf: Bytes, off: nat, len: nat, position: nat, maxData: nat, file: Bytes, answers: seq<Answer>)
    requires maxData > 0 && off + len <= |buf|
    requires AfterReads(buf, off, len, position, maxData, file, answers).outcome == Pending
    ensures AfterReads(buf, off, len, position, maxData, file, answers + [Error]).outcome == Failed
    ensures var op := AfterReads(buf, off, len, position, maxData, file, answers);
            |op.sent| > 0
            && AfterReads(buf, off, len, position, maxData, file, answers + [Eof])
               == op.(outcome := Done(Asked(op.sent[..|op.sent| - 1])))
  {
    var op := AfterReads(buf, off, len, position, maxData, file, answers);
    BufferSize(op, file, buf, off, len, position, maxData);
    GotSoFar(op, file, buf, off, len, position, maxData);
    hide Filled, ReadOk, Asked;
    OneMoreAnswer(buf, off, len, position, maxData, file, answers, Error);
    OneMoreAnswer(buf, off, len, position, maxData, file, answers, Eof);
  }

  lemma GotSoFar(op: ReadOp, file: Bytes, before: Bytes, off: nat, len: nat, position: nat, maxData: nat)
    requires ReadOk(op, file, before, off, len, position, maxData)
    ensures |op.sent| > 0 && op.nb == Asked(op.sent[..|op.sent| - 1])
  {
    hide HoldsFile, ReadTiles;
  }

  lemma OneMoreAnswer(buf: Bytes, off: nat, len: nat, position: nat, maxData: nat, file: Bytes, answers: seq<Answer>,
                      a: Answer)
    requires maxData > 0 && off + len <= |buf|
    requires var op := AfterReads(buf, off, len, position, maxData, file, answers);
             op.outcome == Pending && Honest(file, op, a) && op.off + op.len <= |op.buf|
    ensures AfterReads(buf, off, len, position, maxData, file, answers + [a])
            == ReadAnswered(AfterReads(buf, off, len, position, maxData, file, answers), a, maxData)
  {
    assert (answers + [a])[..|answers|] == answers;
    hide ReadOk, ReadAnswered, Honest;
  }

  /** How much of the file there is from `position` on. */
  function Available(file: Bytes, position: nat): nat {
    if position < |file| then |file| - position else 0
  }

  /** A server that gives all there is of what is asked for, or says that there is nothing. */
  function FullAnswer(file: Bytes, op: ReadOp): (a: Answer) {
    var n := Min(op.len, Available(file, op.position));
    if Available(file, op.position) == 0 then Eof else Data(file[op.position..op.position + n])
  }

  function FullAnswers(buf: Bytes, off: nat, len: nat, position: nat, maxData: nat, file: Bytes, n: nat): seq<Answer>
    requires maxData > 0 && off + len <= |buf|
  {
    if n == 0 then []
    else
      var before := FullAnswers(buf, off, len, position, maxData, file, n - 1);
      before + [FullAnswer(file, AfterReads(buf, off, len, position, maxData, file, before))]
  }

  lemma FullStep(op: ReadOp, file: Bytes, before: Bytes, off: nat, len: nat, position: nat, maxData: nat)
    requires ReadOk(op, file, before, off, len, position, maxData) && op.outcome == Pending
    ensures op.off + op.len <= |op.buf| && Honest(file, op, FullAnswer(file, op))
    ensures var t := ReadAnswered(op, FullAnswer(file, op), maxData);
            if t.outcome == Pending then t.overflow < op.overflow
            else t.outcome == Done(Min(len, Available(file, position)))
  {
    BufferSize(op, file, before, off, len, position, maxData);
    hide Filled, ReadTiles, Asked, Loaded;
  }

  /** From such a server, a read gets all there is: the smaller of what was asked for and what the file
      has from `position` on, after at most one answer more than bytes. */
  lemma {:induction false} FullRead(buf: Bytes, off: nat, len: nat, position: nat, maxData: nat, file: Bytes, n: nat)
    requires maxData > 0 && off + len <= |buf|
    ensures var op := AfterReads(buf, off, len, position, maxData, file,
                                 FullAnswers(buf, off, len, position, maxData, file, n));
            || op.outcome == Done(Min(len, Available(file, position)))
            || (op.outcome == Pending && op.overflow + n <= len)
    ensures n > len ==>
              AfterReads(buf, off, len, position, maxData, file,
                         FullAnswers(buf, off, len, position, maxData, file, n)).outcome
              == Done(Min(len, Available(file, position)))
    decreases n
  {
    hide ReadOk, ReadAnswered, FullAnswer, Honest, Available;
    if n > 0 {
      FullRead(buf, off, len, position, maxData, file, n - 1);
      var given := FullAnswers(buf, off, len, position, maxData, file, n - 1);
      var op := AfterReads(buf, off, len, position, maxData, file, given);
      var all := given + [FullAnswer(file, op)];
      assert all[..|all| - 1] == given;
      if op.outcome == Pending {
        FullStep(op, file, buf, off, len, position, maxData);
      }
    }
  }

  lemma PartIs(file: Bytes, position: nat, n: nat)
    ensures n > 0 && position + n <= |file| ==> Part(file, position, n) == file[position..position + n]
    ensures n == 0 ==> Part(file, position, n) == []
  {
  }

  lemma PartsOfLoaded(before: Bytes, off: nat, part: Bytes)
    requires off + |part| <= |before|
    ensures var now := Loaded(before, off, part);
            && |now| == |before| && now[..off] == before[..off]
            && now[off..off + |part|] == part && now[off + |part|..] == before[off + |part|..]
  {
  }

  // ----- The request objects -----

  /** `write` and the callback it leaves in `_requests`. */
  class Writer {
    const buf: Bytes
    const maxDataLen: nat
    var off: nat
    var len: nat
    var overflow: nat
    var position: nat
    var sent: seq<WriteReq>
    var outcome: Outcome

    ghost function View(): WriteOp
      reads this
    {
      WriteOp(buf, off, len, overflow, position, sent, outcome)
    }

    constructor (buf: Bytes, off: nat, len: nat, position: nat, maxPktLen: nat)
      requires off + len <= |buf| && maxPktLen > PKT_RW_OVERHEAD
      ensures View() == SendWrite(buf, off, len, position, maxDataLen, [])
      ensures maxDataLen == maxPktLen - PKT_RW_OVERHEAD
      ensures len == 0 ==> sent == [] && outcome == Done(0)
    {
      this.buf := buf;
      maxDataLen := maxPktLen - PKT_RW_OVERHEAD;
      this.off, this.len, overflow, this.position, sent, outcome := 0, 0, 0, 0, [], Pending;
      new;
      Send(off, len, position);
    }

    method Send(off: nat, len: nat, position: nat)
      requires off + len <= |buf|
      modifies this
      ensures View() == SendWrite(buf, off, len, position, maxDataLen, old(sent))
    {
      this.off, this.len, this.position, overflow, outcome := off, len, position, 0, Pending;
      if len == 0 {
        outcome := Done(0);
        return;
      }
      if len > maxDataLen {
        overflow := len - maxDataLen;
        this.len := maxDataLen;
      }
      sent := sent + [WriteReq(position, buf[off..off + this.len])];
    }

    /** The STATUS that answers the request under way. */
    method OnStatus(ok: bool)
      requires Sane(View())
      modifies this
      ensures View() == WriteAnswered(old(View()), ok, maxDataLen)
    {
      if !ok {
        outcome := Failed;
      } else if overflow > 0 {
        Send(off + len, overflow, position + len);
      } else {
        outcome := Done(off + len);
      }
    }
  }

  /** The `req` object of `read_`, and the buffer it reads into. */
  class Reader {
    const buf: array<byte>
    const maxDataLen: nat
    var off: nat
    var len: nat
    var overflow: nat
    var position: nat
    var nb: nat
    var sent: seq<ReadReq>
    var outcome: Outcome

    ghost function View(): ReadOp
      reads this, buf
    {
      ReadOp(buf[..], off, len, overflow, position, nb, sent, outcome)
    }

    constructor (buf: array<byte>, off: nat, len: nat, position: nat, maxPktLen: nat)
      requires maxPktLen > PKT_RW_OVERHEAD
      ensures this.buf == buf && maxDataLen == maxPktLen - PKT_RW_OVERHEAD
      ensures View() == SendRead(buf[..], off, len, position, maxDataLen, 0, [])
    {
      this.buf := buf;
      maxDataLen := maxPktLen - PKT_RW_OVERHEAD;
      this.off, this.len, overflow, this.position, nb, sent, outcome := off, 0, 0, position, 0, [], Pending;
      new;
      Send(len);
    }

    method Send(len: nat)
      modifies this`len, this`overflow, this`sent, this`outcome
      ensures View() == SendRead(buf[..], off, len, position, maxDataLen, nb, old(sent))
    {
      this.len, overflow, outcome := len, 0, Pending;
      if len > maxDataLen {
        overflow := len - maxDataLen;
        this.len := maxDataLen;
      }
      sent := sent + [ReadReq(position, this.len)];
    }

    /** DATA or STATUS for the request under way; `bufferCopy` takes no more than there is room for. */
    method OnAnswer(a: Answer)
      requires off + len <= buf.Length
      modifies this, buf
      ensures View() == ReadAnswered(old(View()), a, maxDataLen)
    {
      match a
      case Error =>
        outcome := Failed;
      case Eof =>
        outcome := Done(nb);
      case Data(data) =>
        var got := CopyIn(data);
        hide Filled;
        if got == len && overflow > 0 {
          nb := nb + got;
          position := position + got;
          off := off + got;
          Send(overflow);
        } else {
          outcome := Done(nb + got);
        }
    }

    method CopyIn(data: Bytes) returns (got: nat)
      requires off + len <= buf.Length
      modifies buf
      ensures got == Min(|data|, len) && buf[..] == Filled(old(buf[..]), off, data, len)
    {
      got := if |data| < len then |data| else len;
      forall i | 0 <= i < got {
        buf[off + i] := data[i];
      }
      assert buf[..] == old(buf[..off]) + data[..got] + old(buf[off + got..]);
    }
  }
}
