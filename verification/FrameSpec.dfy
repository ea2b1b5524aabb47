/** The binary packet protocol as a function of the bytes received: what a decipher delivers,
    however the bytes are cut, and what the matching cipher has to produce. The cryptography
    is a parameter. */
module FrameSpec {
  import opened Common

  // ----- Numbers on the wire -----

  function PutU32(n: uint32): (b: Bytes)
    ensures |b| == 4 && GetU32(b) == n
  {
    var high, low := n / 0x1_0000, n % 0x1_0000;
    assert n == high * 0x1_0000 + low;
    assert high == high / 0x100 * 0x100 + high % 0x100 && low == low / 0x100 * 0x100 + low % 0x100;
    [(high / 0x100) as byte, (high % 0x100) as byte, (low / 0x100) as byte, (low % 0x100) as byte]
  }

  function GetU32(b: Bytes): (n: nat)
    requires |b| >= 4
    ensures n < TWO_32
  {
    (b[0] as nat * 0x100 + b[1] as nat) * 0x1_0000 + (b[2] as nat * 0x100 + b[3] as nat)
  }

  lemma PutGet(b: Bytes)
    requires |b| == 4
    ensures PutU32(GetU32(b)) == b
  {
    Halves(b[0] as nat * 0x100 + b[1] as nat, b[2] as nat * 0x100 + b[3] as nat);
    TwoBytes(b[0], b[1]);
    TwoBytes(b[2], b[3]);
  }

  lemma Halves(high: nat, low: nat)
    requires low < 0x1_0000
    ensures (high * 0x1_0000 + low) / 0x1_0000 == high && (high * 0x1_0000 + low) % 0x1_0000 == low
  {
  }

  lemma TwoBytes(a: byte, b: byte)
    ensures var n := a as nat * 0x100 + b as nat; n < 0x1_0000 && (n / 0x100) as byte == a && (n % 0x100) as byte == b
  {
  }

  /** `x << 8` on a 32-bit signed number. */
  function Shl8(x: int): int {
    var r := (x * 256) % TWO_32;
    if r >= 0x8000_0000 then r - TWO_32 else r
  }

  /** `_len` after some of the length bytes; with four of them a signed number. */
  function Partial(header: Bytes): int {
    if header == [] then 0
    else Shl8(Partial(header[..|header| - 1])) + header[|header| - 1] as int
  }

  lemma PartialStep(header: Bytes, b: byte)
    ensures Partial(header + [b]) == Shl8(Partial(header)) + b as int
  {
    assert (header + [b])[..|header|] == header;
  }

  /** A length too large for a signed number comes out negative and is refused all the same. */
  lemma PartialWhole(header: Bytes)
    requires |header| == 4
    ensures Partial(header) == if GetU32(header) >= 0x8000_0000 then GetU32(header) - TWO_32 else GetU32(header)
  {
    hide Partial, Shl8;
    assert [] + [header[0]] == header[..1] && header[..1] + [header[1]] == header[..2];
    assert header[..2] + [header[2]] == header[..3] && header[..3] + [header[3]] == header;
    PartialNothing();
    PartialStep([], header[0]);
    PartialStep(header[..1], header[1]);
    PartialStep(header[..2], header[2]);
    PartialStep(header[..3], header[3]);
    Shl8Is(0);
    Shl8Is(header[0] as int);
    Shl8Is(header[0] as int * 256 + header[1] as int);
    Shl8Is((header[0] as int * 256 + header[1] as int) * 256 + header[2] as int);
  }

  lemma PartialNothing()
    ensures Partial([]) == 0
  {
  }

  /** Three bytes shifted: the highest bit becomes the sign. */
  lemma Shl8Is(x: int)
    requires 0 <= x < 0x100_0000
    ensures Shl8(x) == if x >= 0x80_0000 then x * 256 - TWO_32 else x * 256
  {
    assert (x * 256) % TWO_32 == x * 256;
  }

  // ----- One direction of an encrypted connection -----

  /** How packets are opened. `S` is whatever the cipher carries from packet to packet besides
      the sequence number.
      - header: how many bytes have to be there before the length is known
      - tag: bytes of authentication data after the packet
      - length: packet_length, from those first bytes
      - open: padding length, payload and padding of a whole packet with its tag, if authentic
      - advance: the cipher's state after a packet */
  datatype Suite<!S> = Suite(
    header: nat,
    tag: nat,
    length: (S, uint32, Bytes) -> nat,
    lengthOk: nat -> bool,
    open: (S, uint32, Bytes) -> Option<Bytes>,
    advance: (S, Bytes) -> S)

  datatype Parsed<S> = NeedMore | Invalid | Got(payload: Bytes, size: nat, state: S)

  /** The payload inside padding length, payload and padding. */
  function PayloadOf(body: Bytes): Option<Bytes> {
    if 1 <= |body| && 1 + body[0] as nat <= |body| then
      Some(body[1..|body| - body[0] as nat])
    else None
  }

  /** There is one exactly if what is inside ends in as much padding as its first byte says. */
  lemma PayloadIsFramed(body: Bytes, p: Bytes)
    ensures PayloadOf(body) == Some(p) <==>
              exists padding: Bytes :: |padding| < 256 && body == [|padding| as byte] + p + padding
  {
    if PayloadOf(body) == Some(p) {
      var padding := body[|body| - body[0] as nat..];
      assert body == [|padding| as byte] + p + padding;
    }
    if padding: Bytes :| |padding| < 256 && body == [|padding| as byte] + p + padding {
      assert body[1..|body| - |padding|] == p;
    }
  }

  /** The first packet of `w`. */
  function First<S>(su: Suite<S>, st: S, seqno: uint32, w: Bytes): (r: Parsed<S>)
    ensures r.Got? ==> 0 < r.size <= |w|
  {
    if |w| < su.header then NeedMore
    else
      var len := su.length(st, seqno, w[..su.header]);
      if !su.lengthOk(len) then Invalid
      else if |w| < 4 + len + su.tag then NeedMore
      else
        var packet := w[..4 + len + su.tag];
        var body := su.open(st, seqno, packet);
        if body.None? || PayloadOf(body.value).None? then Invalid
        else Got(PayloadOf(body.value).value, |packet|, su.advance(st, packet))
  }

  /** What `decrypt` comes to: all of the bytes used and the next packet incomplete, a payload
      handler that returned false, or an exception. */
  datatype Outcome<S> =
    | Waiting(out: seq<Bytes>, state: S, seqno: uint32, pending: Bytes)
    | Stopped(out: seq<Bytes>, state: S, seqno: uint32, rest: Bytes)
    | Failed(out: seq<Bytes>)

  function Prepend<S>(out: seq<Bytes>, o: Outcome<S>): Outcome<S> {
    o.(out := out + o.out)
  }

  /** `stops(k, p)`: the handler returns false on `p`, its `k`-th payload. */
  type Handler = (nat, Bytes) -> bool

  function Feed<S>(su: Suite<S>, stops: Handler, k: nat, st: S, seqno: uint32, w: Bytes): Outcome<S>
    decreases |w|
  {
    match First(su, st, seqno, w)
    case NeedMore => Waiting([], st, seqno, w)
    case Invalid => Failed([])
    case Got(payload, size, st1) =>
      if stops(k, payload) then Stopped([payload], st1, Wrap(seqno + 1), w[size..])
      else Prepend([payload], Feed(su, stops, k + 1, st1, Wrap(seqno + 1), w[size..]))
  }

  lemma PrependTwice<S>(a: seq<Bytes>, b: seq<Bytes>, o: Outcome<S>)
    ensures Prepend(a, Prepend(b, o)) == Prepend(a + b, o)
  {
    assert a + (b + o.out) == (a + b) + o.out;
  }

  lemma PrependNothing<S>(o: Outcome<S>)
    ensures Prepend([], o) == o
  {
    assert [] + o.out == o.out;
  }

  lemma FeedNothing<S>(su: Suite<S>, stops: Handler, k: nat, st: S, seqno: uint32, w: Bytes)
    requires First(su, st, seqno, w).NeedMore?
    ensures Feed(su, stops, k, st, seqno, w) == Waiting([], st, seqno, w)
  {
    hide First;
  }

  /** One packet off the front of what is fed. */
  lemma FeedOne<S>(su: Suite<S>, stops: Handler, k: nat, st: S, seqno: uint32, w: Bytes)
    requires First(su, st, seqno, w).Got?
    ensures var r := First(su, st, seqno, w);
            Feed(su, stops, k, st, seqno, w) ==
            if stops(k, r.payload) then Stopped([r.payload], r.state, Wrap(seqno + 1), w[r.size..])
            else Prepend([r.payload], Feed(su, stops, k + 1, r.state, Wrap(seqno + 1), w[r.size..]))
  {
  }

  /** Anything delivered means a whole packet at the front that opens. */
  lemma OutOpens<S>(su: Suite<S>, stops: Handler, k: nat, st: S, seqno: uint32, w: Bytes) returns (n: nat)
    ensures Feed(su, stops, k, st, seqno, w).Stopped? ==> Feed(su, stops, k, st, seqno, w).out != []
    ensures Feed(su, stops, k, st, seqno, w).out != [] ==> n <= |w| && su.open(st, seqno, w[..n]).Some?
  {
    var r := First(su, st, seqno, w);
    n := if r.Got? then r.size else 0;
  }

  /** What is waited with is the beginning of one packet of a permitted length. */
  lemma {:induction false} WaitsForOne<S>(su: Suite<S>, stops: Handler, k: nat, st: S, seqno: uint32, w: Bytes,
                                          max: nat)
    requires forall len: nat {:trigger su.lengthOk(len)} :: su.lengthOk(len) ==> len <= max
    ensures var o := Feed(su, stops, k, st, seqno, w);
            o.Waiting? ==> |o.pending| < su.header || |o.pending| < 4 + max + su.tag
    decreases |w|
  {
    if First(su, st, seqno, w).Got? {
      var r := First(su, st, seqno, w);
      hide First;
      FeedOne(su, stops, k, st, seqno, w);
      WaitsForOne(su, stops, k + 1, r.state, Wrap(seqno + 1), w[r.size..], max);
    }
  }

  // ----- A decipher half way through -----

  /** What `decrypt` returns: undefined, an offset, or it throws. */
  datatype Result = Undefined | Offset(p: nat) | Thrown

  /** How far reading one packet has come: all there, bytes missing, or out of range. */
  datatype Stage = Complete | Short | Bad

  /** The outcome `goal` is what has been delivered since the `k`-th payload, and then feeding
      `w`, the bytes not yet used. */
  ghost predicate Progress<S>(goal: Outcome<S>, su: Suite<S>, stops: Handler, k: nat,
                              done: seq<Bytes>, st: S, seqno: uint32, w: Bytes) {
    k <= |done| && goal == Prepend(done[k..], Feed(su, stops, |done|, st, seqno, w))
  }

  lemma ProgressAtStart<S>(su: Suite<S>, stops: Handler, done: seq<Bytes>, st: S, seqno: uint32, w: Bytes)
    ensures Progress(Feed(su, stops, |done|, st, seqno, w), su, stops, |done|, done, st, seqno, w)
  {
    PrependNothing(Feed(su, stops, |done|, st, seqno, w));
  }

  lemma ProgressByOne<S>(goal: Outcome<S>, su: Suite<S>, stops: Handler, k: nat,
                         done: seq<Bytes>, st: S, seqno: uint32, w: Bytes)
    requires Progress(goal, su, stops, k, done, st, seqno, w)
    requires First(su, st, seqno, w).Got?
    ensures var r := First(su, st, seqno, w);
            if stops(|done|, r.payload)
            then goal == Stopped((done + [r.payload])[k..], r.state, Wrap(seqno + 1), w[r.size..])
            else Progress(goal, su, stops, k, done + [r.payload], r.state, Wrap(seqno + 1), w[r.size..])
  {
    hide Feed, First;
    var r := First(su, st, seqno, w);
    FeedOne(su, stops, |done|, st, seqno, w);
    assert (done + [r.payload])[k..] == done[k..] + [r.payload];
    if !stops(|done|, r.payload) {
      PrependTwice(done[k..], [r.payload],
                   Feed(su, stops, |done| + 1, r.state, Wrap(seqno + 1), w[r.size..]));
    }
  }

  lemma ProgressEnds<S>(goal: Outcome<S>, su: Suite<S>, stops: Handler, k: nat,
                        done: seq<Bytes>, st: S, seqno: uint32, w: Bytes)
    requires Progress(goal, su, stops, k, done, st, seqno, w)
    ensures First(su, st, seqno, w) == Invalid ==> goal == Failed(done[k..])
    ensures First(su, st, seqno, w) == NeedMore ==> goal == Waiting(done[k..], st, seqno, w)
  {
    hide First;
  }

  /** Where reading goes on in `data` after a packet that ended at `q`. */
  lemma BehindPacket(pending: Bytes, data: Bytes, p: nat, q: nat)
    requires p <= q <= |data|
    ensures (pending + data[p..])[|pending| + q - p..] == data[q..] == [] + data[q..]
  {
  }

  /** One more piece of a body, none of what comes after it being there yet. */
  lemma PutBehind(header: Bytes, body: Bytes, more: Bytes, tag: Bytes)
    requires tag == []
    ensures header + (body + more) + tag == (header + body + tag) + more
  {
  }

  lemma NothingBehind(w: Bytes, data: Bytes, p: nat)
    requires p == |data|
    ensures w + data[p..] == w
  {
  }

  lemma Rejoined(a: seq<Bytes>, b: seq<Bytes>)
    requires a <= b
    ensures a + b[|a|..] == b
  {
  }

  // ----- Any cut into chunks -----

  lemma FirstMore<S>(su: Suite<S>, st: S, seqno: uint32, w: Bytes, more: Bytes)
    ensures var r := First(su, st, seqno, w);
            !r.NeedMore? ==> First(su, st, seqno, w + more) == r
  {
    var r := First(su, st, seqno, w);
    if !r.NeedMore? {
      assert (w + more)[..su.header] == w[..su.header];
      var len := su.length(st, seqno, w[..su.header]);
      if su.lengthOk(len) {
        assert (w + more)[..4 + len + su.tag] == w[..4 + len + su.tag];
      }
    }
  }

  /** Carry on from an outcome with more bytes. */
  function Resume<S>(su: Suite<S>, stops: Handler, k: nat, o: Outcome<S>, more: Bytes): Outcome<S> {
    match o
    case Waiting(out, st, seqno, pending) =>
      Prepend(out, Feed(su, stops, k + |out|, st, seqno, pending + more))
    case Stopped(out, st, seqno, rest) => Stopped(out, st, seqno, rest + more)
    case Failed(_) => o
  }

  lemma ResumePrepended<S>(su: Suite<S>, stops: Handler, k: nat, p: Bytes, o: Outcome<S>, more: Bytes)
    ensures Resume(su, stops, k, Prepend([p], o), more) == Prepend([p], Resume(su, stops, k + 1, o, more))
  {
    hide Feed;
    if o.Waiting? {
      PrependTwice([p], o.out, Feed(su, stops, k + 1 + |o.out|, o.state, o.seqno, o.pending + more));
    }
  }

  /** Feeding bytes in two pieces is feeding them at once. */
  lemma {:induction false} FeedInTwo<S>(su: Suite<S>, stops: Handler, k: nat, st: S, seqno: uint32,
                                        w: Bytes, more: Bytes)
    ensures Feed(su, stops, k, st, seqno, w + more)
            == Resume(su, stops, k, Feed(su, stops, k, st, seqno, w), more)
    decreases |w|
  {
    FirstMore(su, st, seqno, w, more);
    match First(su, st, seqno, w)
    case NeedMore =>
      hide First;
      PrependNothing(Feed(su, stops, k, st, seqno, w + more));
    case Invalid =>
      hide First;
    case Got(payload, size, st1) =>
      hide Feed, First, Resume;
      FeedOne(su, stops, k, st, seqno, w);
      FeedOne(su, stops, k, st, seqno, w + more);
      assert (w + more)[size..] == w[size..] + more;
      if stops(k, payload) {
        ResumeStopped(su, stops, k, [payload], st1, Wrap(seqno + 1), w[size..], more);
      } else {
        FeedInTwo(su, stops, k + 1, st1, Wrap(seqno + 1), w[size..], more);
        ResumePrepended(su, stops, k, payload,
                        Feed(su, stops, k + 1, st1, Wrap(seqno + 1), w[size..]), more);
      }
  }

  lemma ResumeStopped<S>(su: Suite<S>, stops: Handler, k: nat, out: seq<Bytes>, st: S, seqno: uint32,
                         rest: Bytes, more: Bytes)
    ensures Resume(su, stops, k, Stopped(out, st, seqno, rest), more) == Stopped(out, st, seqno, rest + more)
  {
  }

  function Join(chunks: seq<Bytes>): Bytes {
    if chunks == [] then [] else chunks[0] + Join(chunks[1..])
  }

  /** Chunk after chunk, until something other than `Waiting` happens. */
  function FeedChunks<S>(su: Suite<S>, stops: Handler, k: nat, st: S, seqno: uint32, pending: Bytes,
                         chunks: seq<Bytes>): Outcome<S>
    decreases |chunks|
  {
    if chunks == [] then Feed(su, stops, k, st, seqno, pending)
    else
      var first := Feed(su, stops, k, st, seqno, pending + chunks[0]);
      if first.Waiting? then
        Prepend(first.out, FeedChunks(su, stops, k + |first.out|, first.state, first.seqno,
                                      first.pending, chunks[1..]))
      else Resume(su, stops, k, first, Join(chunks[1..]))
  }

  /** How a stream is cut into chunks makes no difference. */
  lemma {:induction false} ChunksDoNotMatter<S>(su: Suite<S>, stops: Handler, k: nat, st: S, seqno: uint32,
                                                pending: Bytes, chunks: seq<Bytes>)
    ensures FeedChunks(su, stops, k, st, seqno, pending, chunks)
            == Feed(su, stops, k, st, seqno, pending + Join(chunks))
    decreases |chunks|
  {
    hide Feed;
    if chunks == [] {
      assert pending + Join(chunks) == pending;
    } else {
      var w := pending + chunks[0];
      var first := Feed(su, stops, k, st, seqno, w);
      FeedInTwo(su, stops, k, st, seqno, w, Join(chunks[1..]));
      assert w + Join(chunks[1..]) == pending + Join(chunks);
      if first.Waiting? {
        ChunksDoNotMatter(su, stops, k + |first.out|, first.state, first.seqno, first.pending, chunks[1..]);
      }
    }
  }

  // ----- The other end -----

  /** A packet as `allocPacket` and the caller fill it: length, padding length, payload, padding. */
  predicate IsPacket(packet: Bytes) {
    && 5 <= |packet| < TWO_32
    && GetU32(packet) == |packet| - 4
    && 5 + packet[4] as nat <= |packet|
  }

  function PacketPayload(packet: Bytes): Bytes
    requires IsPacket(packet)
  {
    packet[5..|packet| - packet[4] as nat]
  }

  /** How packets are sealed; the bytes written are also what moves the state on. */
  type Seal<!S> = (S, uint32, Bytes) -> Bytes

  /** A cipher and a decipher belong together: what one seals the other opens. `ready` are the
      states the cipher can be in between packets. */
  ghost predicate Matches<S(!new)>(su: Suite<S>, seal: Seal<S>, ready: S -> bool) {
    && (forall st: S, seqno: uint32, packet: Bytes
          {:trigger seal(st, seqno, packet)} ::
          ready(st) && IsPacket(packet) && su.lengthOk(|packet| - 4) ==>
            var w := seal(st, seqno, packet);
            && |w| == |packet| + su.tag
            && su.header <= |w|
            && su.length(st, seqno, w[..su.header]) == |packet| - 4
            && su.open(st, seqno, w) == Some(packet[4..])
            && ready(su.advance(st, w)))
  }

  predicate Packets<S>(su: Suite<S>, packets: seq<Bytes>) {
    forall i | 0 <= i < |packets| :: IsPacket(packets[i]) && su.lengthOk(|packets[i]| - 4)
  }

  function Payloads(packets: seq<Bytes>): seq<Bytes>
    requires forall i | 0 <= i < |packets| :: IsPacket(packets[i])
  {
    seq(|packets|, i requires 0 <= i < |packets| => PacketPayload(packets[i]))
  }

  /** The sender's stream, and its state afterwards. */
  function SealAll<S>(su: Suite<S>, seal: Seal<S>, st: S, seqno: uint32, packets: seq<Bytes>): (Bytes, S, uint32)
    decreases |packets|
  {
    if packets == [] then ([], st, seqno)
    else
      var w := seal(st, seqno, packets[0]);
      var rest := SealAll(su, seal, su.advance(st, w), Wrap(seqno + 1), packets[1..]);
      (w + rest.0, rest.1, rest.2)
  }

  lemma FirstSealed<S(!new)>(su: Suite<S>, seal: Seal<S>, ready: S -> bool, st: S, seqno: uint32,
                             packet: Bytes, tail: Bytes)
    requires Matches(su, seal, ready) && ready(st)
    requires IsPacket(packet) && su.lengthOk(|packet| - 4)
    ensures var w := seal(st, seqno, packet);
            First(su, st, seqno, w + tail) == Got(PacketPayload(packet), |w|, su.advance(st, w))
  {
    var w := seal(st, seqno, packet);
    assert (w + tail)[..su.header] == w[..su.header];
    assert (w + tail)[..|w|] == w;
    var body := packet[4..];
    assert body[1..|body| - body[0] as nat] == PacketPayload(packet);
  }

  predicate NoStop(stops: Handler, k: nat, payloads: seq<Bytes>)
    decreases |payloads|
  {
    payloads != [] ==> !stops(k, payloads[0]) && NoStop(stops, k + 1, payloads[1..])
  }

  lemma FeedSealed<S(!new)>(su: Suite<S>, seal: Seal<S>, ready: S -> bool, stops: Handler,
                            k: nat, st: S, seqno: uint32, packet: Bytes, tail: Bytes)
    requires Matches(su, seal, ready) && ready(st)
    requires IsPacket(packet) && su.lengthOk(|packet| - 4)
    ensures var w := seal(st, seqno, packet);
            var payload := PacketPayload(packet);
            var st1 := su.advance(st, w);
            && ready(st1)
            && Feed(su, stops, k, st, seqno, w + tail)
               == if stops(k, payload) then Stopped([payload], st1, Wrap(seqno + 1), tail)
                  else Prepend([payload], Feed(su, stops, k + 1, st1, Wrap(seqno + 1), tail))
  {
    hide Feed, First;
    var w := seal(st, seqno, packet);
    FirstSealed(su, seal, ready, st, seqno, packet, tail);
    FeedOne(su, stops, k, st, seqno, w + tail);
    assert (w + tail)[|w|..] == tail;
  }

  lemma FirstPayload<S>(su: Suite<S>, stops: Handler, k: nat, packets: seq<Bytes>)
    requires packets != [] && Packets(su, packets) && NoStop(stops, k, Payloads(packets))
    ensures IsPacket(packets[0]) && su.lengthOk(|packets[0]| - 4) && Packets(su, packets[1..])
    ensures forall i | 0 <= i < |packets[1..]| :: IsPacket(packets[1..][i])
    ensures Payloads(packets) == [PacketPayload(packets[0])] + Payloads(packets[1..])
    ensures !stops(k, PacketPayload(packets[0])) && NoStop(stops, k + 1, Payloads(packets[1..]))
  {
    hide IsPacket, PacketPayload;
    assert Payloads(packets)[0] == PacketPayload(packets[0]);
    assert Payloads(packets)[1..] == Payloads(packets[1..]);
  }

  lemma SealedNothing<S>(su: Suite<S>, seal: Seal<S>, st: S, seqno: uint32, tail: Bytes)
    ensures SealAll(su, seal, st, seqno, []) == ([], st, seqno) && Payloads([]) == [] && [] + tail == tail
  {
  }

  lemma FirstOfAll<S>(su: Suite<S>, seal: Seal<S>, st: S, seqno: uint32, packets: seq<Bytes>, tail: Bytes)
    requires packets != []
    ensures var (w, st1, seqno1) := SealAll(su, seal, st, seqno, packets);
            var one := seal(st, seqno, packets[0]);
            var rest := SealAll(su, seal, su.advance(st, one), Wrap(seqno + 1), packets[1..]);
            w + tail == one + (rest.0 + tail) && st1 == rest.1 && seqno1 == rest.2
  {
    var one := seal(st, seqno, packets[0]);
    var rest := SealAll(su, seal, su.advance(st, one), Wrap(seqno + 1), packets[1..]).0;
    assert (one + rest) + tail == one + (rest + tail);
  }

  /** Sealed packets followed by anything: each payload is delivered, in order, and the rest is
      then looked at with both ends' sequence numbers and states in step. */
  lemma {:induction false} RoundTrip<S(!new)>(su: Suite<S>, seal: Seal<S>, ready: S -> bool, stops: Handler,
                                              k: nat, st: S, seqno: uint32, packets: seq<Bytes>, tail: Bytes)
    requires Matches(su, seal, ready) && ready(st) && Packets(su, packets)
    requires NoStop(stops, k, Payloads(packets))
    ensures var (w, st1, seqno1) := SealAll(su, seal, st, seqno, packets);
            && ready(st1)
            && Feed(su, stops, k, st, seqno, w + tail)
               == Prepend(Payloads(packets), Feed(su, stops, k + |packets|, st1, seqno1, tail))
    decreases |packets|
  {
    hide *;
    if packets == [] {
      SealedNothing(su, seal, st, seqno, tail);
      PrependNothing(Feed(su, stops, k, st, seqno, tail));
    } else {
      FirstPayload(su, stops, k, packets);
      FirstOfAll(su, seal, st, seqno, packets, tail);
      var st1, seqno1 := SealAll(su, seal, st, seqno, packets).1, SealAll(su, seal, st, seqno, packets).2;
      var st2 := su.advance(st, seal(st, seqno, packets[0]));
      var rest := SealAll(su, seal, st2, Wrap(seqno + 1), packets[1..]).0;
      FeedSealed(su, seal, ready, stops, k, st, seqno, packets[0], rest + tail);
      RoundTrip(su, seal, ready, stops, k + 1, st2, Wrap(seqno + 1), packets[1..], tail);
      PrependTwice([PacketPayload(packets[0])], Payloads(packets[1..]),
                   Feed(su, stops, k + |packets|, st1, seqno1, tail));
    }
  }

  /** When the handler stops on the packet after `packets`, exactly what follows that packet is
      left unread. */
  lemma StopsAfter<S(!new)>(su: Suite<S>, seal: Seal<S>, ready: S -> bool, stops: Handler,
                            k: nat, st: S, seqno: uint32, packets: seq<Bytes>, last: Bytes, tail: Bytes)
    requires Matches(su, seal, ready) && ready(st) && Packets(su, packets)
    requires IsPacket(last) && su.lengthOk(|last| - 4)
    requires NoStop(stops, k, Payloads(packets)) && stops(k + |packets|, PacketPayload(last))
    ensures var (w, st1, seqno1) := SealAll(su, seal, st, seqno, packets);
            var one := seal(st1, seqno1, last);
            Feed(su, stops, k, st, seqno, w + (one + tail))
            == Stopped(Payloads(packets) + [PacketPayload(last)], su.advance(st1, one),
                       Wrap(seqno1 + 1), tail)
  {
    hide Feed, Matches;
    var (w, st1, seqno1) := SealAll(su, seal, st, seqno, packets);
    var one := seal(st1, seqno1, last);
    RoundTrip(su, seal, ready, stops, k, st, seqno, packets, one + tail);
    FeedSealed(su, seal, ready, stops, k + |packets|, st1, seqno1, last, tail);
  }
}
