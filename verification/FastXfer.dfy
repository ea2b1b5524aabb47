/** `fastXfer`: a file copied in chunks by several reads and writes at once, all of them sharing
    one buffer. Reads and writes may complete in any order and reads may come back short. */
module FastXfer {
  import opened Common

  function Min(a: nat, b: nat): nat {
    if a < b then a else b
  }

  /** What a slot of the buffer is being used for: nothing, a read of `len` bytes of the source at
      `pos`, or, when `nb` of them have come, writing those. */
  datatype Op = Idle | Reading(pos: nat, len: nat) | Writing(pos: nat, nb: nat, len: nat)

  /** - at: where in `readbuf` each slot begins
      - dst: the destination file, None where nothing has been written
      - finished: how often the transfer has been completed */
  datatype Xfer = Xfer(
    chunkSize: nat,
    src: Bytes,
    readbuf: Bytes,
    dst: seq<Option<byte>>,
    at: seq<nat>,
    slots: seq<Op>,
    pdst: nat,
    total: nat,
    finished: nat)

  lemma MinIs(a: nat, b: nat)
    ensures Min(a, b) == if a < b then a else b
  {
  }

  /** A read completes with `nb` bytes, and they are written. */
  function ReadDone(x: Xfer, i: nat, nb: nat): Xfer
    requires CanRead(x, i, nb)
  {
    var op := x.slots[i];
    x.(readbuf := Put(x.readbuf, x.at[i], x.src[op.pos..op.pos + nb]),
       slots := x.slots[i := Writing(op.pos, nb, op.len)])
  }

  /** `data` over `buf` from `at` on. */
  function Put<T>(buf: seq<T>, at: nat, data: seq<T>): (r: seq<T>)
    requires at + |data| <= |buf|
    ensures |r| == |buf|
    ensures forall k | 0 <= k < |buf| :: r[k] == if at <= k < at + |data| then data[k - at] else buf[k]
  {
    buf[..at] + data + buf[at + |data|..]
  }

  function Somes(data: Bytes): (r: seq<Option<byte>>)
    ensures |r| == |data| && forall k | 0 <= k < |data| :: r[k] == Some(data[k])
  {
    seq(|data|, k requires 0 <= k < |data| => Some(data[k]))
  }

  /** What the slot of a completed write does next: read the rest of its chunk, or take the next
      chunk, or nothing. */
  function NextOp(x: Xfer, op: Op): Op
    requires op.Writing?
  {
    if op.nb < op.len then Reading(op.pos + op.nb, op.len - op.nb)
    else if x.total + op.nb == |x.src| || x.pdst >= |x.src| then Idle
    else Reading(x.pdst, Min(x.chunkSize, |x.src| - x.pdst))
  }

  function TakesChunk(x: Xfer, op: Op): bool
    requires op.Writing?
  {
    !(op.nb < op.len) && x.total + op.nb != |x.src| && x.pdst < |x.src|
  }

  /** A write completes. */
  function WriteDone(x: Xfer, i: nat): Xfer
    requires CanWrite(x, i)
  {
    var op := x.slots[i];
    x.(dst := Put(x.dst, op.pos, Somes(x.readbuf[x.at[i]..x.at[i] + op.nb])),
       total := x.total + op.nb,
       slots := x.slots[i := NextOp(x, op)],
       pdst := x.pdst + if TakesChunk(x, op) then Min(x.chunkSize, |x.src| - x.pdst) else 0,
       finished := x.finished + if !(op.nb < op.len) && x.total + op.nb == |x.src| then 1 else 0)
  }

  predicate CanRead(x: Xfer, i: nat, nb: nat) {
    && i < |x.slots| == |x.at| && x.slots[i].Reading? && 1 <= nb <= x.slots[i].len
    && x.slots[i].pos + nb <= |x.src| && x.at[i] + nb <= |x.readbuf|
  }

  predicate CanWrite(x: Xfer, i: nat) {
    && i < |x.slots| == |x.at| && x.slots[i].Writing?
    && x.slots[i].pos + x.slots[i].nb <= |x.dst| && x.at[i] + x.slots[i].nb <= |x.readbuf|
  }

  // ----- What holds throughout -----

  function Len(op: Op): nat {
    if op.Idle? then 0 else op.len
  }

  predicate Covers(op: Op, k: nat) {
    !op.Idle? && op.pos <= k < op.pos + op.len
  }

  function Sum(slots: seq<Op>): nat {
    if slots == [] then 0 else Len(slots[0]) + Sum(slots[1..])
  }

  /** The slots are apart from each other and inside the buffer, and every read fits its slot. */
  ghost predicate Apart(x: Xfer) {
    && |x.at| == |x.slots|
    && (forall i, j | 0 <= i < j < |x.at| :: x.at[i] + Cap(x) <= x.at[j])
    && (forall i | 0 <= i < |x.at| :: x.at[i] + Cap(x) <= |x.readbuf|)
    && (forall i | 0 <= i < |x.slots| :: Len(x.slots[i]) <= Cap(x))
  }

  /** The largest chunk there can be. */
  function Cap(x: Xfer): nat {
    Min(x.chunkSize, |x.src|)
  }

  /** Nothing has been taken twice, and no slot is idle as long as there is more to take. */
  ghost predicate Ranges(x: Xfer) {
    && x.chunkSize > 0 && x.pdst <= |x.src| == |x.dst|
    && (forall i | 0 <= i < |x.slots| :: OpOk(x, i))
    && (forall i, j, k: nat | 0 <= i < j < |x.slots| && Covers(x.slots[i], k) :: !Covers(x.slots[j], k))
  }

  ghost predicate OpOk(x: Xfer, i: nat)
    requires i < |x.slots|
  {
    match x.slots[i]
    case Idle => x.pdst == |x.src|
    case Reading(pos, len) => len > 0 && pos + len <= x.pdst
    case Writing(pos, nb, len) => 1 <= nb <= len && pos + len <= x.pdst
  }

  /** A byte of the destination is unwritten exactly if it has not been taken yet or is some
      slot's business; otherwise it is the byte of the source. */
  ghost predicate Copied(x: Xfer)
    requires |x.src| == |x.dst|
  {
    forall k | 0 <= k < |x.src| :: x.dst[k] == if StillOpen(x, k) then None else Some(x.src[k])
  }

  ghost predicate StillOpen(x: Xfer, k: nat) {
    k >= x.pdst || exists i :: 0 <= i < |x.slots| && Covers(x.slots[i], k)
  }

  /** What has been read is in the buffer until it is written. */
  ghost predicate Held(x: Xfer) {
    forall i | 0 <= i < |x.slots| && x.slots[i].Writing? :: HeldIn(x, i)
  }

  ghost predicate HeldIn(x: Xfer, i: nat)
    requires i < |x.slots| && x.slots[i].Writing?
  {
    var op := x.slots[i];
    && CanWrite(x, i) && op.pos + op.nb <= |x.src|
    && x.readbuf[x.at[i]..x.at[i] + op.nb] == x.src[op.pos..op.pos + op.nb]
  }

  ghost predicate Counted(x: Xfer) {
    && x.total + Sum(x.slots) == x.pdst
    && x.finished == if x.total == |x.src| then 1 else 0
  }

  ghost predicate Inv(x: Xfer) {
    Apart(x) && Ranges(x) && Copied(x) && Held(x) && Counted(x) && |x.slots| > 0 && |x.src| > 0
  }

  lemma {:induction false} SumUpdate(slots: seq<Op>, i: nat, op: Op)
    requires i < |slots|
    ensures Sum(slots[i := op]) + Len(slots[i]) == Sum(slots) + Len(op)
    decreases |slots|
  {
    var next := slots[i := op];
    if i == 0 {
      assert next[1..] == slots[1..];
    } else {
      SumUpdate(slots[1..], i - 1, op);
      assert next[1..] == slots[1..][i - 1 := op];
    }
  }

  lemma {:induction false} SumAtLeast(slots: seq<Op>, i: nat)
    requires i < |slots|
    ensures Sum(slots) >= Len(slots[i])
    decreases |slots|
  {
    if i > 0 {
      SumAtLeast(slots[1..], i - 1);
    }
  }

  // ----- A read completes -----

  lemma ReadKeepsRanges(x: Xfer, i: nat, nb: nat)
    requires Ranges(x) && CanRead(x, i, nb)
    ensures Ranges(ReadDone(x, i, nb))
    ensures forall k: nat :: StillOpen(ReadDone(x, i, nb), k) <==> StillOpen(x, k)
  {
    var y := ReadDone(x, i, nb);
    assert forall j | 0 <= j < |x.slots| :: forall k: nat :: Covers(y.slots[j], k) <==> Covers(x.slots[j], k);
    forall j | 0 <= j < |y.slots| ensures OpOk(y, j) {
      assert OpOk(x, j);
    }
    forall k: nat ensures StillOpen(y, k) <==> StillOpen(x, k) {
      if StillOpen(x, k) && k < x.pdst {
        var j :| 0 <= j < |x.slots| && Covers(x.slots[j], k);
        assert Covers(y.slots[j], k);
      }
      if StillOpen(y, k) && k < y.pdst {
        var j :| 0 <= j < |y.slots| && Covers(y.slots[j], k);
        assert Covers(x.slots[j], k);
      }
    }
  }

  /** What another slot holds is not touched. */
  lemma ReadKeepsHeld(x: Xfer, i: nat, nb: nat)
    requires Apart(x) && Ranges(x) && Held(x) && CanRead(x, i, nb)
    ensures Held(ReadDone(x, i, nb))
  {
    var y := ReadDone(x, i, nb);
    forall j | 0 <= j < |y.slots| && y.slots[j].Writing? ensures HeldIn(y, j) {
      assert OpOk(x, j);
      if j == i {
        assert y.readbuf[y.at[i]..y.at[i] + nb] == x.src[x.slots[i].pos..x.slots[i].pos + nb];
      } else {
        OtherHeld(x, i, nb, j);
      }
    }
  }

  lemma OtherHeld(x: Xfer, i: nat, nb: nat, j: nat)
    requires Apart(x) && Held(x) && CanRead(x, i, nb)
    requires j < |x.slots| && j != i && x.slots[j].Writing? && x.slots[j].nb <= x.slots[j].len
    ensures ReadDone(x, i, nb).slots[j] == x.slots[j] && HeldIn(ReadDone(x, i, nb), j)
  {
    hide Put;
    assert HeldIn(x, j);
    assert Len(x.slots[i]) <= Cap(x) && Len(x.slots[j]) <= Cap(x);
    OtherSlot(x, i, j);
    PutElsewhere(x.readbuf, x.at[i], x.src[x.slots[i].pos..x.slots[i].pos + nb], x.at[j], x.slots[j].nb);
  }

  lemma PutElsewhere<T>(buf: seq<T>, at: nat, data: seq<T>, from: nat, n: nat)
    requires at + |data| <= |buf| && from + n <= |buf|
    requires at + |data| <= from || from + n <= at
    ensures Put(buf, at, data)[from..from + n] == buf[from..from + n]
  {
  }

  lemma OtherSlot(x: Xfer, i: nat, j: nat)
    requires Apart(x) && i < |x.at| && j < |x.at| && i != j
    ensures x.at[i] + Cap(x) <= x.at[j] || x.at[j] + Cap(x) <= x.at[i]
  {
  }

  lemma ReadKeeps(x: Xfer, i: nat, nb: nat)
    requires Inv(x) && CanRead(x, i, nb)
    ensures Inv(ReadDone(x, i, nb))
  {
    ReadKeepsRanges(x, i, nb);
    ReadKeepsHeld(x, i, nb);
    SumUpdate(x.slots, i, Writing(x.slots[i].pos, nb, x.slots[i].len));
    hide Held, Ranges, StillOpen, Sum;
  }

  // ----- A write completes -----

  lemma WriteKeepsRanges(x: Xfer, i: nat)
    requires Ranges(x) && CanWrite(x, i) && Counted(x)
    ensures Ranges(WriteDone(x, i))
  {
    var y, op := WriteDone(x, i), x.slots[i];
    assert OpOk(x, i);
    forall j | 0 <= j < |y.slots| ensures OpOk(y, j) {
      assert OpOk(x, j);
      if j == i {
        LastWrite(x, i);
      } else {
        LastWrite(x, j);
      }
    }
    forall j, l, k: nat | 0 <= j < l < |y.slots| && Covers(y.slots[j], k) ensures !Covers(y.slots[l], k) {
      assert j != i ==> OpOk(x, j);
      assert l != i ==> OpOk(x, l);
      if k < x.pdst {
        assert Covers(x.slots[j], k);
        assert !Covers(x.slots[l], k);
      }
    }
  }

  /** When everything has been written there is nothing left to take. */
  lemma LastWrite(x: Xfer, i: nat)
    requires Ranges(x) && Counted(x) && i < |x.slots|
    ensures x.slots[i].Writing? && x.total + x.slots[i].nb == |x.src| ==> x.pdst == |x.src|
  {
    assert OpOk(x, i);
    SumAtLeast(x.slots, i);
  }

  lemma WriteKeepsCopied(x: Xfer, i: nat)
    requires Apart(x) && Ranges(x) && Copied(x) && Held(x) && CanWrite(x, i)
    ensures |x.src| == |x.dst| && Copied(WriteDone(x, i))
  {
    hide StillOpen, Somes, NextOp, Apart;
    var y, op := WriteDone(x, i), x.slots[i];
    assert OpOk(x, i) && HeldIn(x, i);
    forall k | 0 <= k < |y.src| ensures y.dst[k] == if StillOpen(y, k) then None else Some(y.src[k]) {
      if op.pos <= k < op.pos + op.nb {
        assert x.readbuf[x.at[i]..x.at[i] + op.nb][k - op.pos] == x.src[op.pos..op.pos + op.nb][k - op.pos];
        assert y.dst[k] == Some(x.src[k]);
        NowWritten(x, i, k);
      } else {
        assert y.dst[k] == x.dst[k];
        StaysOpen(x, i, k);
      }
    }
  }

  lemma NotBoth(x: Xfer, i: nat, j: nat, k: nat)
    requires Ranges(x) && i < |x.slots| && j < |x.slots| && i != j && Covers(x.slots[i], k)
    ensures !Covers(x.slots[j], k)
  {
  }

  lemma NowWritten(x: Xfer, i: nat, k: nat)
    requires Ranges(x) && CanWrite(x, i)
    requires x.slots[i].pos <= k < x.slots[i].pos + x.slots[i].nb
    ensures !StillOpen(WriteDone(x, i), k)
  {
    var y, op := WriteDone(x, i), x.slots[i];
    assert OpOk(x, i) && Covers(op, k);
    forall j | 0 <= j < |y.slots| ensures !Covers(y.slots[j], k) {
      if j != i {
        assert y.slots[j] == x.slots[j];
        NotBoth(x, i, j, k);
      }
    }
  }

  lemma StaysOpen(x: Xfer, i: nat, k: nat)
    requires Ranges(x) && CanWrite(x, i) && k < |x.src|
    requires !(x.slots[i].pos <= k < x.slots[i].pos + x.slots[i].nb)
    ensures StillOpen(WriteDone(x, i), k) <==> StillOpen(x, k)
  {
    var y, op := WriteDone(x, i), x.slots[i];
    assert OpOk(x, i);
    if StillOpen(x, k) {
      if k < x.pdst {
        var j :| 0 <= j < |x.slots| && Covers(x.slots[j], k);
        assert Covers(y.slots[j], k);
      } else if k < y.pdst {
        assert Covers(y.slots[i], k);
      }
    }
    if StillOpen(y, k) && k < y.pdst && k < x.pdst {
      var j :| 0 <= j < |y.slots| && Covers(y.slots[j], k);
      assert Covers(x.slots[j], k);
    }
  }

  lemma WriteKeepsHeld(x: Xfer, i: nat)
    requires Held(x) && CanWrite(x, i)
    ensures Held(WriteDone(x, i))
  {
    var y := WriteDone(x, i);
    forall j | 0 <= j < |y.slots| && y.slots[j].Writing? ensures HeldIn(y, j) {
      assert HeldIn(x, j);
    }
  }

  lemma WriteKeepsCounted(x: Xfer, i: nat)
    requires Ranges(x) && Counted(x) && CanWrite(x, i)
    ensures Counted(WriteDone(x, i))
  {
    var op := x.slots[i];
    assert OpOk(x, i);
    SumUpdate(x.slots, i, NextOp(x, op));
    SumAtLeast(x.slots, i);
    hide Sum;
  }

  lemma WriteKeeps(x: Xfer, i: nat)
    requires Inv(x) && CanWrite(x, i)
    ensures Inv(WriteDone(x, i))
  {
    WriteKeepsRanges(x, i);
    WriteKeepsCopied(x, i);
    WriteKeepsHeld(x, i);
    WriteKeepsCounted(x, i);
    assert Apart(WriteDone(x, i)) by {
      assert OpOk(x, i);
    }
    hide Apart, Ranges, Copied, Held, Counted;
  }

  // ----- Whole transfers -----

  datatype Event = Reads(i: nat, nb: nat) | Writes(i: nat)

  predicate Possible(x: Xfer, e: Event) {
    match e
    case Reads(i, nb) => CanRead(x, i, nb)
    case Writes(i) => CanWrite(x, i)
  }

  function After(x: Xfer, e: Event): Xfer
    requires Possible(x, e)
  {
    match e
    case Reads(i, nb) => ReadDone(x, i, nb)
    case Writes(i) => WriteDone(x, i)
  }

  /** The transfer after these completions, if they can come about in this order. */
  function Exec(x: Xfer, events: seq<Event>): Option<Xfer>
    decreases |events|
  {
    if events == [] then Some(x)
    else
      var before := Exec(x, events[..|events| - 1]);
      var e := events[|events| - 1];
      if before.None? || !Possible(before.value, e) then None else Some(After(before.value, e))
  }

  /** How many steps are left at most. */
  function Work(x: Xfer): int {
    2 * (|x.src| - x.total) - Writings(x.slots)
  }

  function Writings(slots: seq<Op>): nat {
    if slots == [] then 0 else (if slots[0].Writing? then 1 else 0) + Writings(slots[1..])
  }

  lemma {:induction false} WritingsUpdate(slots: seq<Op>, i: nat, op: Op)
    requires i < |slots|
    ensures Writings(slots[i := op]) + (if slots[i].Writing? then 1 else 0)
            == Writings(slots) + if op.Writing? then 1 else 0
    decreases |slots|
  {
    var next := slots[i := op];
    if i == 0 {
      assert next[1..] == slots[1..];
    } else {
      WritingsUpdate(slots[1..], i - 1, op);
      assert next[1..] == slots[1..][i - 1 := op];
    }
  }

  lemma {:induction false} WritingsAtMost(slots: seq<Op>)
    requires forall op <- slots :: op.Writing? ==> op.len > 0
    ensures Writings(slots) <= Sum(slots)
  {
    if slots != [] {
      WritingsAtMost(slots[1..]);
    }
  }

  lemma WorkLeft(x: Xfer)
    requires Inv(x)
    ensures Work(x) >= 0
  {
    forall op | op in x.slots ensures op.Writing? ==> op.len > 0 {
      var j :| 0 <= j < |x.slots| && x.slots[j] == op;
      assert OpOk(x, j);
    }
    WritingsAtMost(x.slots);
  }

  lemma OneStep(x: Xfer, e: Event)
    requires Inv(x) && Possible(x, e)
    ensures Inv(After(x, e)) && 0 <= Work(After(x, e)) < Work(x)
    ensures After(x, e).src == x.src
  {
    var y := After(x, e);
    match e {
      case Reads(i, nb) =>
        ReadKeeps(x, i, nb);
        WritingsUpdate(x.slots, i, y.slots[i]);
      case Writes(i) =>
        WriteKeeps(x, i);
        WritingsUpdate(x.slots, i, y.slots[i]);
        assert OpOk(x, i);
    }
    WorkLeft(y);
  }

  lemma {:induction false} AllIdle(slots: seq<Op>)
    requires Sum(slots) == 0 && forall op <- slots :: !op.Idle? ==> op.len > 0
    ensures forall op <- slots :: op.Idle?
  {
    if slots != [] {
      AllIdle(slots[1..]);
    }
  }

  /** Until it is complete, something can always happen next; once it is, nothing can. */
  lemma FinishedOrBusy(x: Xfer)
    requires Inv(x)
    ensures x.finished == 0 ==> exists e :: Possible(x, e)
    ensures x.finished == 1 ==> forall e :: !Possible(x, e)
    ensures x.finished == 1 ==> x.dst == Somes(x.src)
  {
    forall op | op in x.slots ensures !op.Idle? ==> op.len > 0 {
      var j :| 0 <= j < |x.slots| && x.slots[j] == op;
      assert OpOk(x, j);
    }
    if x.total == |x.src| {
      AllIdle(x.slots);
      forall k | 0 <= k < |x.src| ensures !StillOpen(x, k) {
      }
    } else {
      SomethingRuns(x);
    }
  }

  lemma SomethingRuns(x: Xfer)
    requires Inv(x) && x.total != |x.src|
    ensures exists e :: Possible(x, e)
  {
    if i :| 0 <= i < |x.slots| && !x.slots[i].Idle? {
      assert OpOk(x, i);
      assert Possible(x, if x.slots[i].Reading? then Reads(i, 1) else Writes(i));
    } else {
      assert OpOk(x, 0);
      Nothing(x.slots);
    }
  }

  lemma {:induction false} Nothing(slots: seq<Op>)
    requires forall i | 0 <= i < |slots| :: slots[i].Idle?
    ensures Sum(slots) == 0
  {
    if slots != [] {
      Nothing(slots[1..]);
    }
  }

  /** Whatever order the reads and writes complete in and however short the reads come back: the
      transfer never gets stuck, ends within a bounded number of steps, is completed exactly
      once, and then the destination is the source. */
  lemma {:induction false} TransferIsCorrect(start: Xfer, events: seq<Event>)
    requires Inv(start) && start.finished == 0 && Exec(start, events).Some?
    ensures var x := Exec(start, events).value;
            && Inv(x) && x.src == start.src
            && |events| + Work(x) <= Work(start) && 0 <= Work(x)
            && (x.finished == 0 ==> exists e :: Possible(x, e))
            && (x.finished != 0 ==> x.finished == 1 && x.total == |x.src| && x.dst == Somes(x.src)
                                    && forall e :: !Possible(x, e))
    decreases |events|
  {
    if events != [] {
      var init := events[..|events| - 1];
      TransferIsCorrect(start, init);
      hide Inv, Work, After;
      OneStep(Exec(start, init).value, events[|events| - 1]);
    } else {
      WorkLeft(start);
    }
    var x := Exec(start, events).value;
    FinishedOrBusy(x);
    assert Counted(x);
  }

  // ----- Starting -----

  /** `singleRead` for a new slot. */
  function AddSlot(x: Xfer, psrc: nat): Xfer {
    var chunk := Min(x.chunkSize, if x.pdst < |x.src| then |x.src| - x.pdst else 0);
    x.(at := x.at + [psrc], slots := x.slots + [Reading(x.pdst, chunk)], pdst := x.pdst + chunk)
  }

  /** The invariant without slots, too. */
  ghost predicate Starting(x: Xfer) {
    && Apart(x) && Ranges(x) && Copied(x) && |x.src| > 0
    && x.total == 0 && x.finished == 0 && Sum(x.slots) == x.pdst
    && forall i | 0 <= i < |x.slots| :: x.slots[i].Reading?
  }

  lemma {:induction false} SumAppend(slots: seq<Op>, op: Op)
    ensures Sum(slots + [op]) == Sum(slots) + Len(op)
    decreases |slots|
  {
    if slots == [] {
      assert [op][1..] == [];
    } else {
      assert (slots + [op])[1..] == slots[1..] + [op];
      SumAppend(slots[1..], op);
    }
  }

  lemma AddKeepsRanges(x: Xfer, psrc: nat)
    requires Starting(x) && x.pdst < |x.src|
    ensures Ranges(AddSlot(x, psrc))
  {
    var y := AddSlot(x, psrc);
    forall i | 0 <= i < |y.slots| ensures OpOk(y, i) {
      if i < |x.slots| {
        assert OpOk(x, i);
      }
    }
    forall i, j, k: nat | 0 <= i < j < |y.slots| && Covers(y.slots[i], k) ensures !Covers(y.slots[j], k) {
      assert OpOk(x, i);
      assert Covers(x.slots[i], k);
    }
  }

  lemma AddKeepsCopied(x: Xfer, psrc: nat)
    requires Starting(x) && x.pdst < |x.src|
    ensures Copied(AddSlot(x, psrc))
  {
    var y := AddSlot(x, psrc);
    forall k | 0 <= k < |x.src| ensures StillOpen(y, k) <==> StillOpen(x, k) {
      if StillOpen(x, k) {
        if k < x.pdst {
          var i :| 0 <= i < |x.slots| && Covers(x.slots[i], k);
          assert Covers(y.slots[i], k);
        } else if k < y.pdst {
          assert Covers(y.slots[|x.slots|], k);
        }
      }
      if StillOpen(y, k) && k < x.pdst {
        var i :| 0 <= i < |y.slots| && Covers(y.slots[i], k);
        assert Covers(x.slots[i], k);
      }
    }
  }

  lemma AddKeeps(x: Xfer, psrc: nat)
    requires Starting(x) && x.pdst < |x.src| && psrc + Cap(x) <= |x.readbuf|
    requires forall i | 0 <= i < |x.at| :: x.at[i] + Cap(x) <= psrc
    ensures Starting(AddSlot(x, psrc))
  {
    AddKeepsRanges(x, psrc);
    AddKeepsCopied(x, psrc);
    SumAppend(x.slots, Reading(x.pdst, Min(x.chunkSize, |x.src| - x.pdst)));
    hide Ranges, Copied, Sum;
  }

  lemma NothingStarted(x: Xfer)
    requires x.at == [] && x.slots == [] && x.pdst == 0 && x.total == 0 && x.finished == 0 && x.chunkSize > 0
    requires |x.dst| == |x.src| > 0 && forall k | 0 <= k < |x.src| :: x.dst[k].None?
    ensures Starting(x)
  {
    assert forall k: nat :: StillOpen(x, k);
  }

  lemma AllStarted(x: Xfer)
    requires Starting(x) && |x.slots| > 0
    ensures Inv(x)
  {
  }

  function Times(n: nat, m: nat): nat {
    if n == 0 then 0 else m + Times(n - 1, m)
  }

  lemma {:induction false} TimesIsProduct(n: nat, m: nat)
    ensures Times(n, m) == n * m
  {
    if n > 0 {
      TimesIsProduct(n - 1, m);
    }
  }

  class Transfer {
    const src: Bytes
    const chunkSize: nat
    var concurrency: nat
    var bufsize: nat
    var readbuf: array<byte>
    /** The destination file. */
    var dst: array<Option<byte>>
    /** The closures of `singleRead`: where each reads to, and what it has asked for. */
    var at: seq<nat>
    var slots: seq<Op>
    var pdst: nat
    var total: nat
    var finished: nat

    ghost function View(): Xfer
      reads this, readbuf, dst
    {
      Xfer(chunkSize, src, readbuf[..], dst[..], at, slots, pdst, total, finished)
    }

    constructor (src: Bytes, chunkSize: nat, concurrency: nat)
      requires src != [] && chunkSize > 0 && concurrency > 0
      ensures Inv(View()) && fresh(readbuf) && fresh(dst)
      ensures View().src == src && finished == 0 && total == 0
      ensures 1 <= |slots| <= concurrency
      ensures |slots| > 1 ==> Times(|slots|, chunkSize) <= |src|
      ensures |slots| < concurrency ==> Times(|slots| + 1, chunkSize) > |src|
    {
      this.src, this.chunkSize, this.concurrency := src, chunkSize, concurrency;
      bufsize, pdst, total, finished := chunkSize * concurrency, 0, 0, 0;
      at, slots := [], [];
      readbuf := new byte[0];
      dst := new Option<byte>[|src|](i => None);
      new;
      TimesIsProduct(concurrency, chunkSize);
      Shrink();
      readbuf := new byte[bufsize];
      StartReads();
    }

    /** Use less memory where possible. */
    method Shrink()
      requires src != [] && chunkSize > 0 && concurrency > 0 && bufsize == Times(concurrency, chunkSize)
      modifies this`bufsize, this`concurrency
      ensures concurrency > 0 && bufsize <= |src|
      ensures bufsize == Times(concurrency, chunkSize) || (concurrency == 1 && bufsize == |src| < chunkSize)
      ensures concurrency <= old(concurrency)
      ensures concurrency < old(concurrency) ==> Times(concurrency + 1, chunkSize) > |src|
    {
      while bufsize > |src|
        invariant 0 < concurrency <= old(concurrency) && bufsize == Times(concurrency, chunkSize)
        invariant concurrency < old(concurrency) ==> Times(concurrency + 1, chunkSize) > |src|
        decreases concurrency
      {
        if concurrency == 1 {
          assert Times(1, chunkSize) == chunkSize + Times(0, chunkSize);
          bufsize := |src|;
          break;
        }
        bufsize := bufsize - chunkSize;
        concurrency := concurrency - 1;
      }
    }

    method StartReads()
      requires chunkSize > 0 && concurrency > 0 && readbuf.Length == bufsize <= |src|
      requires bufsize == Times(concurrency, chunkSize) || (concurrency == 1 && bufsize == |src| < chunkSize)
      requires at == [] && slots == [] && pdst == 0 && total == 0 && finished == 0 && src != []
      requires dst.Length == |src| && forall k | 0 <= k < |src| :: dst[k].None?
      modifies this`at, this`slots, this`pdst
      ensures Inv(View()) && finished == 0 && |slots| == concurrency
    {
      hide Apart, Ranges, Copied, Sum, Times;
      ghost var cap := Min(chunkSize, |src|);
      NothingStarted(View());
      FirstSlotFits();
      var started, psrc := 0, 0;
      while pdst < |src| && started < concurrency
        invariant Starting(View()) && |slots| == |at| == started <= concurrency && psrc == pdst
        invariant started == 0 ==> pdst == 0
        invariant started < concurrency ==> pdst < |src| && psrc + cap <= bufsize
        invariant bufsize == Times(concurrency, chunkSize) ==> bufsize - psrc == Times(concurrency - started, chunkSize)
        invariant forall i | 0 <= i < |at| :: at[i] + cap <= psrc
        decreases concurrency - started
      {
        AddKeeps(View(), psrc);
        NextSlotFits(psrc, started);
        var chunk := if pdst + chunkSize > |src| then |src| - pdst else chunkSize;
        SingleRead(psrc, chunk);
        psrc := psrc + chunk;
        pdst := pdst + chunk;
        started := started + 1;
      }
      assert started > 0;
      AllStarted(View());
    }

    lemma FirstSlotFits()
      requires chunkSize > 0 && concurrency > 0 && bufsize <= |src|
      requires bufsize == Times(concurrency, chunkSize) || (concurrency == 1 && bufsize == |src| < chunkSize)
      ensures Min(chunkSize, |src|) <= bufsize
    {
    }

    /** As long as there are slots to fill, each gets a full chunk and leaves room for the next. */
    lemma NextSlotFits(psrc: nat, started: nat)
      requires chunkSize > 0 && started < concurrency && bufsize <= |src| && psrc < |src|
      requires bufsize == Times(concurrency, chunkSize) || (concurrency == 1 && bufsize == |src| < chunkSize)
      requires bufsize == Times(concurrency, chunkSize) ==> bufsize - psrc == Times(concurrency - started, chunkSize)
      requires started == 0 ==> psrc == 0
      ensures var chunk := if psrc + chunkSize > |src| then |src| - psrc else chunkSize;
              && chunk == Min(chunkSize, |src|)
              && (bufsize == Times(concurrency, chunkSize) ==>
                    bufsize - (psrc + chunk) == Times(concurrency - started - 1, chunkSize))
              && (started + 1 < concurrency ==> psrc + chunk < |src| && psrc + chunk + chunk <= bufsize)
    {
      if started + 1 < concurrency {
        assert Times(concurrency - started - 1, chunkSize) == chunkSize + Times(concurrency - started - 2, chunkSize);
      }
    }

    method SingleRead(psrc: nat, chunk: nat)
      modifies this`at, this`slots
      ensures at == old(at) + [psrc] && slots == old(slots) + [Reading(pdst, chunk)]
    {
      at := at + [psrc];
      slots := slots + [Reading(pdst, chunk)];
    }

    /** A read of slot `i` has put `nb` bytes into its place in the buffer: `onread`. */
    method OnRead(i: nat, nb: nat)
      requires CanRead(View(), i, nb) && dst.Length == |src|
      modifies this`slots, readbuf
      ensures View() == ReadDone(old(View()), i, nb)
    {
      var op := slots[i];
      forall k | 0 <= k < nb {
        readbuf[at[i] + k] := src[op.pos + k];
      }
      slots := slots[i := Writing(op.pos, nb, op.len)];
      assert readbuf[..] == Put(old(readbuf[..]), at[i], src[op.pos..op.pos + nb]);
    }

    /** The write of slot `i` is complete: `writeCb`. */
    method WriteCb(i: nat)
      requires CanWrite(View(), i)
      modifies this`slots, this`pdst, this`total, this`finished, dst
      ensures View() == WriteDone(old(View()), i)
    {
      hide Put, Somes, Min;
      MinIs(chunkSize, if pdst < |src| then |src| - pdst else 0);
      var op := slots[i];
      StoreWritten(op.pos, at[i], op.nb);
      total := total + op.nb;
      if op.nb < op.len {
        slots := slots[i := Reading(op.pos + op.nb, op.len - op.nb)];
        return;
      }
      if total == |src| {
        slots := slots[i := Idle];
        finished := finished + 1;
        return;
      }
      if pdst >= |src| {
        slots := slots[i := Idle];
        return;
      }
      var chunk := if pdst + chunkSize > |src| then |src| - pdst else chunkSize;
      slots := slots[i := Reading(pdst, chunk)];
      pdst := pdst + chunk;
    }

    /** What the write does to the destination file. */
    method StoreWritten(pos: nat, from: nat, nb: nat)
      requires pos + nb <= dst.Length && from + nb <= readbuf.Length
      modifies dst
      ensures dst[..] == Put(old(dst[..]), pos, Somes(readbuf[from..from + nb]))
    {
      forall k | 0 <= k < nb {
        dst[pos + k] := Some(readbuf[from + k]);
      }
    }
  }
}
