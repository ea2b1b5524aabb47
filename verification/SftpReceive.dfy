/** SFTP packets put together again from channel data, however it was cut. */
module SftpReceive {
  import opened Common
  import opened FrameSpec

  predicate LengthOk(len: nat, max: nat) {
    1 <= len <= max
  }

  /** A length and that many bytes, as a suite without encryption, tag or padding: the padding
      length `open` puts in front is 0. */
  function TheSuite(max: nat): Suite<()> {
    Suite(4, 0,
          (st: (), n: uint32, header: Bytes) => if |header| == 4 then GetU32(header) else 0,
          (len: nat) => LengthOk(len, max),
          (st: (), n: uint32, w: Bytes) => if |w| < 4 then None else Some([0] + w[4..]),
          (st: (), w: Bytes) => ())
  }

  lemma FirstPacket(max: nat, n: uint32, w: Bytes)
    ensures First(TheSuite(max), (), n, w) ==
            if |w| < 4 then NeedMore
            else if !LengthOk(GetU32(w), max) then Invalid
            else if |w| < 4 + GetU32(w) then NeedMore
            else Got(w[4..4 + GetU32(w)], 4 + GetU32(w), ())
  {
    if |w| >= 4 {
      var len := GetU32(w);
      assert GetU32(w[..4]) == len;
      if LengthOk(len, max) && |w| >= 4 + len {
        var body := [0] + w[..4 + len][4..];
        assert body[1..|body|] == w[4..4 + len];
      }
    }
  }

  // ----- The sender -----

  predicate Sendable(packets: seq<Bytes>, max: nat) {
    max < TWO_32 && forall p <- packets :: LengthOk(|p|, max)
  }

  /** The packets as `sendOrBuffer` is given them. */
  function Frame(packet: Bytes): Bytes
    requires |packet| < TWO_32
  {
    PutU32(|packet|) + packet
  }

  function Frames(packets: seq<Bytes>): seq<Bytes>
    requires forall p <- packets :: |p| < TWO_32
  {
    if packets == [] then [] else [Frame(packets[0])] + Frames(packets[1..])
  }

  lemma FirstFrame(packet: Bytes, rest: Bytes, max: nat, n: uint32)
    requires max < TWO_32 && LengthOk(|packet|, max)
    ensures var w := Frame(packet) + rest;
            First(TheSuite(max), (), n, w) == Got(packet, |Frame(packet)|, ()) && w[|Frame(packet)|..] == rest
  {
    var w := Frame(packet) + rest;
    FirstPacket(max, n, w);
    assert w[..4] == PutU32(|packet|) && GetU32(w) == GetU32(w[..4]);
    assert w[4..4 + |packet|] == packet;
  }

  lemma JoinOne(one: Bytes, rest: seq<Bytes>)
    ensures Join([one] + rest) == one + Join(rest)
  {
    assert ([one] + rest)[1..] == rest;
  }

  lemma FirstIsSendable(packets: seq<Bytes>, max: nat, stops: Handler, k: nat)
    requires packets != [] && Sendable(packets, max) && NoStop(stops, k, packets)
    ensures max < TWO_32 && LengthOk(|packets[0]|, max) && |packets[0]| < TWO_32 && !stops(k, packets[0])
    ensures forall p <- packets[1..] :: |p| < TWO_32
    ensures Sendable(packets[1..], max) && NoStop(stops, k + 1, packets[1..])
    ensures Join(Frames(packets)) == Frame(packets[0]) + Join(Frames(packets[1..]))
  {
    hide Join, Frame;
    assert packets[0] in packets && forall p <- packets[1..] :: p in packets;
    JoinOne(Frame(packets[0]), Frames(packets[1..]));
  }

  lemma NoFrames()
    ensures Join(Frames([])) == []
  {
  }

  lemma PrependWaiting(first: Bytes, rest: seq<Bytes>, n: uint32)
    ensures Prepend([first], Waiting(rest, (), n, [])) == Waiting([first] + rest, (), n, [])
  {
  }

  /** Frames one after another come out as the packets they were made from. */
  lemma {:induction false} FramesRoundTrip(packets: seq<Bytes>, max: nat, stops: Handler, k: nat, n: uint32)
    returns (n1: uint32)
    requires Sendable(packets, max) && NoStop(stops, k, packets)
    ensures Feed(TheSuite(max), stops, k, (), n, Join(Frames(packets))) == Waiting(packets, (), n1, [])
    decreases |packets|
  {
    hide *;
    var su := TheSuite(max);
    if packets == [] {
      n1 := n;
      FirstPacket(max, n, []);
      FeedNothing(su, stops, k, (), n, []);
      NoFrames();
    } else {
      FirstIsSendable(packets, max, stops, k);
      var rest := Join(Frames(packets[1..]));
      n1 := FramesRoundTrip(packets[1..], max, stops, k + 1, Wrap(n + 1));
      FirstFrame(packets[0], rest, max, n);
      FeedOne(su, stops, k, (), n, Frame(packets[0]) + rest);
      PrependWaiting(packets[0], packets[1..], n1);
    }
  }

  lemma FramesOf(packet: Bytes, rest: seq<Bytes>)
    requires |packet| < TWO_32 && forall p <- rest :: |p| < TWO_32
    ensures forall p <- [packet] + rest :: |p| < TWO_32
    ensures Join(Frames([packet] + rest)) == Frame(packet) + Join(Frames(rest))
  {
    hide Join, Frame;
    assert ([packet] + rest)[1..] == rest;
    JoinOne(Frame(packet), Frames(rest));
  }

  /** The frame at the front of any bytes. */
  lemma FrontIsFrame(max: nat, n: uint32, w: Bytes)
    requires max < TWO_32
    ensures var r := First(TheSuite(max), (), n, w);
            match r
            case Got(packet, size, _) =>
              1 <= |packet| <= max && size <= |w| && w == Frame(packet) + w[size..]
            case NeedMore => |w| < 4 || (1 <= GetU32(w) <= max && |w| < 4 + GetU32(w))
            case Invalid => |w| >= 4 && (GetU32(w) < 1 || GetU32(w) > max)
  {
    FirstPacket(max, n, w);
    if First(TheSuite(max), (), n, w).Got? {
      PutGet(w[..4]);
      assert GetU32(w[..4]) == GetU32(w);
      assert w == w[..4] + w[4..4 + GetU32(w)] + w[4 + GetU32(w)..];
    }
  }

  /** `w` is the packets delivered, each of a permitted length, framed, and then `rest`: part of one
      more, or a length that is not permitted, or what follows the packet that was refused. */
  ghost predicate ReadAs(max: nat, o: Outcome<()>, w: Bytes, rest: Bytes) {
    && max < TWO_32 && (forall p <- o.out :: 1 <= |p| <= max)
    && w == Join(Frames(o.out)) + rest
    && match o
       case Waiting(_, _, _, pending) =>
         rest == pending && (|rest| < 4 || (1 <= GetU32(rest) <= max && |rest| < 4 + GetU32(rest)))
       case Stopped(_, _, _, left) => rest == left
       case Failed(_) => |rest| >= 4 && (GetU32(rest) < 1 || GetU32(rest) > max)
  }

  lemma AllPermitted(max: nat, packet: Bytes, out: seq<Bytes>)
    requires 1 <= |packet| <= max && forall p <- out :: 1 <= |p| <= max
    ensures forall p <- [packet] + out :: 1 <= |p| <= max
  {
  }

  lemma FramedMore(frame: Bytes, frames: Bytes, rest: Bytes)
    ensures frame + (frames + rest) == (frame + frames) + rest
  {
  }

  lemma ReadAsMore(max: nat, packet: Bytes, o: Outcome<()>, w: Bytes, rest: Bytes)
    requires ReadAs(max, o, w, rest) && 1 <= |packet| <= max
    ensures ReadAs(max, Prepend([packet], o), Frame(packet) + w, rest)
  {
    AllPermitted(max, packet, o.out);
    FramesOf(packet, o.out);
    FramedMore(Frame(packet), Join(Frames(o.out)), rest);
    hide Join, Frame, Frames, GetU32;
  }

  lemma ReadAsLast(max: nat, packet: Bytes, n: uint32, w: Bytes)
    requires max < TWO_32 && 1 <= |packet| <= max
    ensures ReadAs(max, Stopped([packet], (), n, w), Frame(packet) + w, w)
  {
    NoFrames();
    assert [] + w == w;
    ReadAsMore(max, packet, Stopped([], (), n, w), w, w);
  }

  /** Any bytes at all, in terms of what was read from them. */
  lemma {:induction false} WhatWasRead(max: nat, stops: Handler, k: nat, n: uint32, w: Bytes) returns (rest: Bytes)
    requires max < TWO_32
    ensures ReadAs(max, Feed(TheSuite(max), stops, k, (), n, w), w, rest)
    decreases |w|
  {
    hide *;
    var su := TheSuite(max);
    var r := First(su, (), n, w);
    FrontIsFrame(max, n, w);
    match r
    case Got(packet, size, st) =>
      assert st == ();
      FeedOne(su, stops, k, (), n, w);
      if stops(k, packet) {
        rest := w[size..];
        ReadAsLast(max, packet, Wrap(n + 1), rest);
      } else {
        rest := WhatWasRead(max, stops, k + 1, Wrap(n + 1), w[size..]);
        ReadAsMore(max, packet, Feed(su, stops, k + 1, (), Wrap(n + 1), w[size..]), w[size..], rest);
      }
    case NeedMore =>
      rest := w;
      FeedEnds(su, stops, k, n, w);
      NothingRead(max, Waiting([], (), n, w), w);
    case Invalid =>
      rest := w;
      FeedEnds(su, stops, k, n, w);
      NothingRead(max, Failed([]), w);
  }

  lemma NothingRead(max: nat, o: Outcome<()>, w: Bytes)
    requires max < TWO_32 && o.out == []
    requires match o
             case Waiting(_, _, _, pending) =>
               w == pending && (|w| < 4 || (1 <= GetU32(w) <= max && |w| < 4 + GetU32(w)))
             case Stopped(_, _, _, _) => false
             case Failed(_) => |w| >= 4 && (GetU32(w) < 1 || GetU32(w) > max)
    ensures ReadAs(max, o, w, w)
  {
    NoFrames();
    assert [] + w == w;
  }

  lemma FeedEnds(su: Suite<()>, stops: Handler, k: nat, n: uint32, w: Bytes)
    requires !First(su, (), n, w).Got?
    ensures Feed(su, stops, k, (), n, w) == if First(su, (), n, w).NeedMore? then Waiting([], (), n, w) else Failed([])
  {
    hide First;
  }

  // ----- push -----

  class SFTP {
    const maxPktLen: nat
    var pktLenBytes: nat
    var pktLen: int
    var pkt: array?<byte>
    var pktPos: nat
    /** The packets dispatched. */
    var delivered: seq<Bytes>
    /** The length bytes as they arrived, and how many packets have been read. */
    ghost var header: Bytes
    ghost var count: uint32

    ghost function Repr(): set<object>
      reads this
    {
      {this} + if pkt == null then {} else {pkt}
    }

    ghost predicate Valid()
      reads Repr()
    {
      && maxPktLen < 0x8000_0000
      && pktLenBytes == |header| <= 4
      && (pktLenBytes < 4 ==> pktLen == Partial(header) && pkt == null && pktPos == 0)
      && (pktLenBytes == 4 ==>
            pktLen == GetU32(header) && LengthOk(pktLen, maxPktLen) && pktPos <= pktLen)
      && (pkt == null ==> pktPos == 0)
      && (pkt != null ==> pkt.Length == pktLen)
    }

    ghost predicate Ready()
      reads Repr()
    {
      Valid() && (pktLenBytes == 4 ==> pktPos < pktLen)
    }

    ghost function Body(): Bytes
      requires pkt != null ==> pktPos <= pkt.Length
      reads this, pkt
    {
      if pkt == null then [] else pkt[..pktPos]
    }

    /** The bytes of the packet being read that have arrived so far. */
    ghost function Pending(): Bytes
      requires Valid()
      reads Repr()
    {
      header + Body()
    }

    constructor (maxPktLen: nat)
      requires maxPktLen < 0x8000_0000
      ensures Ready() && fresh(Repr()) && Pending() == [] && delivered == [] && this.maxPktLen == maxPktLen
    {
      this.maxPktLen := maxPktLen;
      pktLenBytes, pktLen, pkt, pktPos := 0, 0, null, 0;
      delivered, header, count := [], [], 0;
    }

    method AddLengthBytes(data: Bytes, start: nat, count: nat) returns (p: nat)
      requires start + count <= |data| && pktLen == Partial(header)
      modifies this`pktLen, this`header
      ensures p == start + count
      ensures header == old(header) + data[start..p] && pktLen == Partial(header)
    {
      hide Partial, Shl8;
      var nb := count;
      p := start;
      while nb > 0
        invariant 0 <= nb <= count && p == start + count - nb
        invariant header == old(header) + data[start..p] && pktLen == Partial(header)
      {
        assert data[start..p + 1] == data[start..p] + [data[p]];
        PartialStep(header, data[p]);
        pktLen := Shl8(pktLen) + data[p] as int;
        header := header + [data[p]];
        p := p + 1;
        nb := nb - 1;
      }
    }

    ghost predicate InvalidAt(w: Bytes) {
      |w| == 4 && !LengthOk(GetU32(w), maxPktLen)
    }

    method ReadLength(data: Bytes, start: nat) returns (p: nat, stage: Stage)
      requires Valid() && start < |data| && pktLenBytes < 4
      modifies this`pktLenBytes, this`pktLen, this`header
      ensures start < p <= |data|
      ensures stage != Bad ==> Ready() && Pending() == old(Pending()) + data[start..p]
      ensures stage == Complete ==> pktLenBytes == 4 && p < |data|
      ensures stage == Short ==> p == |data|
      ensures stage == Bad ==> InvalidAt(old(Pending()) + data[start..p])
    {
      var nb := if 4 - pktLenBytes < |data| - start then 4 - pktLenBytes else |data| - start;
      assert old(Pending()) == header;
      pktLenBytes := pktLenBytes + nb;
      p := AddLengthBytes(data, start, nb);
      if pktLenBytes < 4 {
        stage := Short;
        return;
      }
      PartialWhole(header);
      hide Partial;
      if pktLen <= 0 || pktLen > maxPktLen {
        stage := Bad;
      } else {
        stage := if p >= |data| then Short else Complete;
      }
    }

    method ReadBody(data: Bytes, start: nat) returns (p: nat, stage: Stage)
      requires Ready() && start < |data| && pktLenBytes == 4
      modifies this`pkt, this`pktPos, pkt
      ensures Valid() && fresh(Repr() - old(Repr()))
      ensures start < p <= |data| && stage != Bad
      ensures Pending() == old(Pending()) + data[start..p]
      ensures stage == Complete ==> pktPos == pktLen
      ensures stage == Short ==> p == |data| && Ready()
    {
      hide Partial, GetU32;
      var nb := if pktLen - pktPos < |data| - start then pktLen - pktPos else |data| - start;
      p := start + nb;
      Store(data[start..p]);
      stage := if pktPos < pktLen then Short else Complete;
    }

    /** A piece of the packet: kept as it is when it is all of it, copied otherwise. */
    method Store(chunk: Bytes)
      requires 0 <= pktPos && pktPos + |chunk| <= pktLen && chunk != []
      requires pkt == null ==> pktPos == 0
      requires pkt != null ==> pkt.Length == pktLen
      modifies this`pkt, this`pktPos, pkt
      ensures pkt != null && pkt.Length == pktLen && (pkt == old(pkt) || fresh(pkt))
      ensures pktPos == old(pktPos) + |chunk| && Body() == old(Body()) + chunk
    {
      if |chunk| == pktLen {
        pkt := new byte[|chunk|](i requires 0 <= i < |chunk| => chunk[i]);
        assert pkt[..|chunk|] == chunk;
      } else {
        if pkt == null {
          pkt := new byte[pktLen];
        }
        forall i | 0 <= i < |chunk| {
          pkt[pktPos + i] := chunk[i];
        }
      }
      pktPos := pktPos + |chunk|;
    }

    /** Make ready for the next packet and dispatch this one. */
    method Deliver() returns (payload: Bytes)
      requires Valid() && pktLenBytes == 4 && pktPos == pktLen
      modifies this
      ensures First(TheSuite(maxPktLen), (), old(count), old(Pending())) == Got(payload, |old(Pending())|, ())
      ensures Ready() && pkt == null && Pending() == [] && count == Wrap(old(count) + 1)
      ensures delivered == old(delivered) + [payload]
    {
      WholePacket();
      payload := pkt[..];
      hide First, GetU32, LengthOk;
      pktLen, pktLenBytes, pkt, pktPos := 0, 0, null, 0;
      header, count := [], Wrap(count + 1);
      delivered := delivered + [payload];
    }

    lemma WholePacket()
      requires Valid() && pktLenBytes == 4 && pktPos == pktLen
      ensures pkt != null
      ensures First(TheSuite(maxPktLen), (), count, Pending()) == Got(pkt[..], |Pending()|, ())
    {
      FirstPacket(maxPktLen, count, Pending());
      hide First;
      assert pkt[..pktPos] == pkt[..];
      assert GetU32(Pending()) == GetU32(header) == pktLen;
      assert Pending()[4..4 + pktLen] == pkt[..];
    }

    lemma FirstOfPart()
      requires Ready()
      ensures First(TheSuite(maxPktLen), (), count, Pending()) == NeedMore
    {
      FirstPacket(maxPktLen, count, Pending());
      hide First;
      if pktLenBytes == 4 {
        assert GetU32(Pending()) == GetU32(header);
      }
    }

    lemma InvalidHeader(first: Bytes, more: Bytes)
      requires InvalidAt(first)
      ensures First(TheSuite(maxPktLen), (), count, first + more) == Invalid
    {
      FirstPacket(maxPktLen, count, first + more);
    }

    /** One turn of the loop of `push`. */
    method ReadPacket(data: Bytes, start: nat) returns (p: nat, stage: Stage, payload: Bytes)
      requires Ready() && start < |data|
      modifies Repr()
      ensures fresh(Repr() - old(Repr())) && start < p <= |data|
      ensures stage == Short ==>
                && Ready() && p == |data| && Pending() == old(Pending()) + data[start..]
                && count == old(count) && delivered == old(delivered)
      ensures stage == Bad ==>
                && delivered == old(delivered)
                && First(TheSuite(maxPktLen), (), old(count), old(Pending()) + data[start..]) == Invalid
      ensures stage == Complete ==>
                && Ready() && Pending() == []
                && count == Wrap(old(count) + 1) && delivered == old(delivered) + [payload]
                && First(TheSuite(maxPktLen), (), old(count), old(Pending()) + data[start..])
                   == Got(payload, |old(Pending())| + p - start, ())
    {
      hide First, Pending, InvalidAt, TheSuite;
      ghost var w0, n := Pending(), count;
      payload := [];
      p, stage := ReadStages(data, start);
      assert (w0 + data[start..p]) + data[p..] == w0 + data[start..];
      if stage == Bad {
        InvalidHeader(w0 + data[start..p], data[p..]);
        return;
      } else if stage == Short {
        assert data[start..p] == data[start..];
        return;
      }
      FirstMore(TheSuite(maxPktLen), (), n, Pending(), data[p..]);
      payload := Deliver();
    }

    /** As much of the current packet as there is. */
    method ReadStages(data: Bytes, start: nat) returns (p: nat, stage: Stage)
      requires Ready() && start < |data|
      modifies this`pktLenBytes, this`pktLen, this`header, this`pkt, this`pktPos, pkt
      ensures fresh(Repr() - old(Repr())) && start < p <= |data|
      ensures stage == Bad ==> InvalidAt(old(Pending()) + data[start..p])
      ensures stage != Bad ==> Valid() && Pending() == old(Pending()) + data[start..p]
      ensures stage == Complete ==> pktLenBytes == 4 && pktPos == pktLen
      ensures stage == Short ==> p == |data| && Ready()
    {
      hide Pending, InvalidAt, Partial, GetU32, LengthOk;
      ghost var w0 := Pending();
      p, stage := start, Complete;
      if pktLenBytes < 4 {
        p, stage := ReadLength(data, p);
        if stage != Complete {
          return;
        }
      }
      ghost var q := p;
      assert w0 + data[start..start] == w0;
      assert Pending() == w0 + data[start..q];
      p, stage := ReadBody(data, p);
      assert (w0 + data[start..q]) + data[q..p] == w0 + data[start..p];
    }

    /** `push`: the packets in what has arrived, whatever the cut, up to one that is refused
        (`refuses`: there is no handler for it, it is out of turn, or its handler returns false)
        or a length out of range. */
    method Push(data: Bytes, refuses: Handler) returns (r: Result)
      requires Ready()
      modifies Repr()
      ensures fresh(Repr() - old(Repr()))
      ensures match Feed(TheSuite(maxPktLen), refuses, |old(delivered)|, (), old(count), old(Pending()) + data)
              case Waiting(out, st, n, pending) =>
                && Ready() && r == Undefined && Pending() == pending
                && count == n && delivered == old(delivered) + out
              case Stopped(out, st, n, rest) =>
                r.Offset? && r.p <= |data| && data[r.p..] == rest && delivered == old(delivered) + out
              case Failed(out) => r == Thrown && delivered == old(delivered) + out
    {
      hide First, Feed, Valid, Pending, Progress, TheSuite, Wrap;
      ghost var su, k := TheSuite(maxPktLen), |delivered|;
      ghost var goal := Feed(su, refuses, k, (), count, Pending() + data);
      var p := 0;
      assert data[0..] == data;
      ProgressAtStart(su, refuses, delivered, (), count, Pending() + data);
      while p < |data|
        invariant Ready() && fresh(Repr() - old(Repr())) && p <= |data|
        invariant old(delivered) <= delivered
        invariant Progress(goal, su, refuses, k, delivered, (), count, Pending() + data[p..])
      {
        ghost var n, pending := count, Pending();
        ghost var w := pending + data[p..];
        var before := delivered;
        Rejoined(old(delivered), before);
        ProgressEnds(goal, su, refuses, k, before, (), n, w);
        var q, stage, payload := ReadPacket(data, p);
        if stage == Bad {
          return Thrown;
        } else if stage == Short {
          NothingBehind(w, data, q);
        } else {
          ProgressByOne(goal, su, refuses, k, before, (), n, w);
          BehindPacket(pending, data, p, q);
          Rejoined(old(delivered), delivered);
          if refuses(|before|, payload) {
            return Offset(q);
          }
        }
        p := q;
      }
      NothingBehind(Pending(), data, p);
      Rejoined(old(delivered), delivered);
      FirstOfPart();
      ProgressEnds(goal, su, refuses, k, delivered, (), count, Pending());
      return Undefined;
    }
  }
}
