/** chacha20-poly1305@openssh.com: the native cipher and its incremental decipher. */
module FrameChaCha {
  import opened Common
  import opened FrameSpec
  import Padding

  /** The primitives under one pair of keys; the sequence number is the nonce. */
  datatype Keys = Keys(
    encryptLength: (uint32, Bytes) -> Bytes,
    decryptLength: (uint32, Bytes) -> Bytes,
    encrypt: (uint32, Bytes) -> Bytes,
    decrypt: (uint32, Bytes) -> Bytes,
    authenticate: (uint32, Bytes, Bytes) -> Bytes)

  ghost predicate Lawful(keys: Keys) {
    && (forall n: uint32, x: Bytes {:trigger keys.encryptLength(n, x)} ::
          |keys.encryptLength(n, x)| == |x| && keys.decryptLength(n, keys.encryptLength(n, x)) == x)
    && (forall n: uint32, x: Bytes {:trigger keys.encrypt(n, x)} ::
          |keys.encrypt(n, x)| == |x| && keys.decrypt(n, keys.encrypt(n, x)) == x)
    && (forall n: uint32, a: Bytes, b: Bytes {:trigger keys.authenticate(n, a, b)} ::
          |keys.authenticate(n, a, b)| == 16)
  }

  function LengthOf(keys: Keys, seqno: uint32, header: Bytes): nat {
    var plain := keys.decryptLength(seqno, header);
    if |plain| == 4 then GetU32(plain) else 0
  }

  function Open(keys: Keys, seqno: uint32, w: Bytes): Option<Bytes> {
    if |w| < 20 then None
    else
      var body := w[4..|w| - 16];
      if keys.authenticate(seqno, w[..4], body) != w[|w| - 16..] then None
      else Some(keys.decrypt(seqno, body))
  }

  function TheSuite(keys: Keys): Suite<()> {
    Suite(4, 16,
          (st: (), seqno: uint32, header: Bytes) => LengthOf(keys, seqno, header),
          Padding.ChaChaLengthOk,
          (st: (), seqno: uint32, w: Bytes) => Open(keys, seqno, w),
          (st: (), w: Bytes) => ())
  }

  function SealOne(keys: Keys, seqno: uint32, packet: Bytes): Bytes {
    if |packet| < 4 then []
    else
      var header := keys.encryptLength(seqno, packet[..4]);
      var body := keys.encrypt(seqno, packet[4..]);
      header + body + keys.authenticate(seqno, header, body)
  }

  function TheSeal(keys: Keys): Seal<()> {
    (st: (), seqno: uint32, packet: Bytes) => SealOne(keys, seqno, packet)
  }

  lemma CipherMatchesDecipher(keys: Keys)
    requires Lawful(keys)
    ensures Matches(TheSuite(keys), TheSeal(keys), (st: ()) => true)
  {
    var su := TheSuite(keys);
    forall st: (), seqno: uint32, packet: Bytes | IsPacket(packet) && su.lengthOk(|packet| - 4)
      ensures var w := TheSeal(keys)(st, seqno, packet);
              && |w| == |packet| + 16
              && su.length(st, seqno, w[..4]) == |packet| - 4
              && su.open(st, seqno, w) == Some(packet[4..])
    {
      var header := keys.encryptLength(seqno, packet[..4]);
      var body := keys.encrypt(seqno, packet[4..]);
      var w := SealOne(keys, seqno, packet);
      assert w[..4] == header;
      assert w[4..|w| - 16] == body;
      assert w[|w| - 16..] == keys.authenticate(seqno, header, body);
    }
  }

  class ChaChaPolyCipher {
    const keys: Keys
    var outSeqno: uint32
    /** Everything handed to `onWrite`. */
    var written: Bytes

    constructor (keys: Keys, seqno: uint32)
      ensures this.keys == keys && outSeqno == seqno && written == []
    {
      this.keys := keys;
      outSeqno := seqno;
      written := [];
    }

    method Encrypt(packet: Bytes)
      requires |packet| >= 4
      modifies this
      ensures written == old(written) + SealOne(keys, old(outSeqno), packet)
      ensures outSeqno == Wrap(old(outSeqno) + 1)
    {
      var pktLenEnc := keys.encryptLength(outSeqno, packet[..4]);
      written := written + pktLenEnc;
      var payloadEnc := keys.encrypt(outSeqno, packet[4..]);
      written := written + payloadEnc;
      var mac := keys.authenticate(outSeqno, pktLenEnc, payloadEnc);
      written := written + mac;
      outSeqno := Wrap(outSeqno + 1);
    }
  }

  class ChaChaPolyDecipher {
    const keys: Keys
    var inSeqno: uint32
    var len: nat
    const lenBuf: array<byte>
    var lenPos: nat
    var packet: array?<byte>
    var pktLen: nat
    const mac: array<byte>
    var macPos: nat
    /** The payloads the handler has been called with. */
    var delivered: seq<Bytes>

    ghost function Repr(): set<object>
      reads this
    {
      {this, lenBuf, mac} + if packet == null then {} else {packet}
    }

    ghost predicate Valid()
      reads Repr()
    {
      && lenBuf.Length == 4 && mac.Length == 16 && lenBuf != mac
      && packet != lenBuf && packet != mac
      && lenPos <= 4 && macPos <= 16 && pktLen <= len
      && (lenPos < 4 ==> len == 0)
      && (lenPos == 4 ==>
            len == LengthOf(keys, inSeqno, lenBuf[..]) && Padding.ChaChaLengthOk(len))
      && (packet == null ==> pktLen == 0)
      && (packet != null ==> packet.Length == len && lenPos == 4)
      && (macPos > 0 ==> lenPos == 4 && pktLen == len)
    }

    /** The bytes of the packet being read that have arrived so far. */
    ghost function Pending(): Bytes
      requires Valid()
      reads Repr()
    {
      lenBuf[..lenPos] + (if packet == null then [] else packet[..pktLen]) + mac[..macPos]
    }

    constructor (keys: Keys, seqno: uint32, delivered: seq<Bytes>)
      ensures Ready() && fresh(Repr()) && Pending() == []
      ensures this.keys == keys && inSeqno == seqno && this.delivered == delivered
    {
      this.keys := keys;
      inSeqno := seqno;
      len, lenPos, packet, pktLen, macPos := 0, 0, null, 0, 0;
      lenBuf := new byte[4];
      mac := new byte[16];
      this.delivered := delivered;
    }

    method ReadLength(data: Bytes, start: nat) returns (p: nat, stage: Stage)
      requires Valid() && start <= |data| && lenPos < 4
      modifies this`lenPos, this`len, lenBuf
      ensures start <= p <= |data| && lenPos <= 4 && (start < |data| ==> start < p)
      ensures lenBuf[..lenPos] == old(Pending()) + data[start..p]
      ensures packet == null && pktLen == 0 && macPos == 0
      ensures stage == Complete ==> Valid() && lenPos == 4
      ensures stage == Short ==> Valid() && lenPos < 4 && p == |data|
      ensures stage == Bad ==> lenPos == 4
                               && !Padding.ChaChaLengthOk(LengthOf(keys, inSeqno, lenBuf[..]))
    {
      hide LengthOf, Padding.ChaChaLengthOk;
      var nb := if 4 - lenPos < |data| - start then 4 - lenPos else |data| - start;
      assert Pending() == lenBuf[..lenPos];
      p := TakeLengthBytes(data, start, nb);
      if lenPos < 4 {
        stage := Short;
        return;
      }
      assert lenBuf[..4] == lenBuf[..];
      len := LengthOf(keys, inSeqno, lenBuf[..]);
      stage := if Padding.ChaChaLengthOk(len) then Complete else Bad;
    }

    method TakeLengthBytes(data: Bytes, start: nat, count: nat) returns (p: nat)
      requires lenBuf.Length == 4 && lenPos + count <= 4 && start + count <= |data|
      modifies this`lenPos, lenBuf
      ensures p == start + count && lenPos == old(lenPos) + count
      ensures lenBuf[..lenPos] == old(lenBuf[..lenPos]) + data[start..p]
    {
      p := start;
      var nb := count;
      ghost var before := lenBuf[..lenPos];
      while nb > 0
        invariant 0 <= nb <= count && p == start + count - nb && lenPos == old(lenPos) + count - nb
        invariant lenBuf[..lenPos] == before + data[start..p]
      {
        lenBuf[lenPos] := data[p];
        assert lenBuf[..lenPos + 1] == lenBuf[..lenPos] + [data[p]];
        assert data[start..p + 1] == data[start..p] + [data[p]];
        lenPos := lenPos + 1;
        p := p + 1;
        nb := nb - 1;
      }
    }

    ghost function Body(): Bytes
      requires packet != null ==> pktLen <= packet.Length
      reads this, packet
    {
      if packet == null then [] else packet[..pktLen]
    }

    /** A piece of the encrypted packet: kept as it is when it is all of it, copied otherwise. */
    method Store(chunk: Bytes)
      requires pktLen + |chunk| <= len && chunk != []
      requires packet == null ==> pktLen == 0
      requires packet != null ==> packet.Length == len
      modifies this`packet, this`pktLen, packet
      ensures packet != null && packet.Length == len && (packet == old(packet) || fresh(packet))
      ensures pktLen == old(pktLen) + |chunk| && Body() == old(Body()) + chunk
    {
      if |chunk| == len {
        packet := new byte[len](i requires 0 <= i < |chunk| => chunk[i]);
        assert packet[..len] == chunk;
      } else {
        if packet == null {
          packet := new byte[len];
        }
        forall i | 0 <= i < |chunk| {
          packet[pktLen + i] := chunk[i];
        }
      }
      assert packet[..pktLen + |chunk|] == old(Body()) + chunk;
      pktLen := pktLen + |chunk|;
    }

    method ReadBody(data: Bytes, start: nat) returns (p: nat, stage: Stage)
      requires Valid() && start <= |data| && lenPos == 4 && pktLen < len
      modifies this`packet, this`pktLen, packet
      ensures Valid() && fresh(Repr() - old(Repr()))
      ensures start <= p <= |data| && stage != Bad && (start < |data| ==> start < p)
      ensures Pending() == old(Pending()) + data[start..p]
      ensures stage == Complete ==> pktLen == len
      ensures stage == Short ==> p == |data|
    {
      hide LengthOf, Padding.ChaChaLengthOk;
      p := start;
      if p >= |data| {
        assert data[start..p] == [] && Pending() + [] == Pending();
        stage := Short;
        return;
      }
      ghost var first, before := lenBuf[..lenPos], Body();
      var nb := if len - pktLen < |data| - p then len - pktLen else |data| - p;
      p := p + nb;
      Store(data[start..p]);
      assert lenBuf[..] == old(lenBuf[..]) && lenBuf[..lenPos] == first && mac[..macPos] == [];
      PutBehind(first, before, data[start..p], mac[..macPos]);
      stage := if pktLen < len || p >= |data| then Short else Complete;
    }

    method ReadMac(data: Bytes, start: nat) returns (p: nat, stage: Stage)
      requires Valid() && start <= |data| && lenPos == 4 && pktLen == len
      modifies this`macPos, mac
      ensures Valid()
      ensures start <= p <= |data| && stage != Bad
      ensures start < |data| && old(macPos) < 16 ==> start < p
      ensures Pending() == old(Pending()) + data[start..p]
      ensures stage == Complete ==> macPos == 16
      ensures stage == Short ==> p == |data| && macPos < 16
    {
      hide LengthOf, Padding.ChaChaLengthOk;
      var nb := if 16 - macPos < |data| - start then 16 - macPos else |data| - start;
      forall i | 0 <= i < nb {
        mac[macPos + i] := data[start + i];
      }
      assert mac[..macPos + nb] == old(mac[..macPos]) + data[start..start + nb];
      assert lenBuf[..] == old(lenBuf[..]);
      p := start + nb;
      macPos := macPos + nb;
      stage := if macPos < 16 then Short else Complete;
    }

    /** A whole packet with its MAC is there: check, decrypt, make ready for the next. */
    method Finish() returns (payload: Option<Bytes>)
      requires Valid() && lenPos == 4 && pktLen == len && macPos == 16
      modifies this`inSeqno, this`len, this`lenPos, this`packet, this`pktLen, this`macPos, this`delivered
      ensures var r := First(TheSuite(keys), (), old(inSeqno), old(Pending()));
              if payload.Some? then
                && r == Got(payload.value, |old(Pending())|, ())
                && Valid() && packet == null && Pending() == []
                && inSeqno == Wrap(old(inSeqno) + 1)
                && delivered == old(delivered) + [payload.value]
              else r == Invalid && delivered == old(delivered) && packet == old(packet)
    {
      ghost var w := Pending();
      FirstOfWhole(w);
      if keys.authenticate(inSeqno, lenBuf[..], if packet == null then [] else packet[..]) != mac[..] {
        return None;
      }
      var plain := keys.decrypt(inSeqno, if packet == null then [] else packet[..]);
      payload := PayloadOf(plain);
      if payload.None? {
        return;
      }
      inSeqno := Wrap(inSeqno + 1);
      len, lenPos, packet, pktLen, macPos := 0, 0, null, 0, 0;
      delivered := delivered + [payload.value];
    }

    lemma FirstOfWhole(w: Bytes)
      requires Valid() && lenPos == 4 && pktLen == len && macPos == 16 && w == Pending()
      ensures w == lenBuf[..] + Body() + mac[..] && Body() == (if packet == null then [] else packet[..])
      ensures First(TheSuite(keys), (), inSeqno, w) ==
              if keys.authenticate(inSeqno, lenBuf[..], Body()) != mac[..]
                 || PayloadOf(keys.decrypt(inSeqno, Body())).None? then Invalid
              else Got(PayloadOf(keys.decrypt(inSeqno, Body())).value, |w|, ())
    {
      hide LengthOf, Padding.ChaChaLengthOk, PayloadOf;
      assert lenBuf[..4] == lenBuf[..] && mac[..16] == mac[..];
      if packet != null {
        assert packet[..pktLen] == packet[..];
      } else {
        assert len == 0;
      }
      assert |w| == 4 + len + 16;
      assert w[..4] == lenBuf[..] && w[4..|w| - 16] == Body() && w[|w| - 16..] == mac[..];
      assert w[..|w|] == w;
    }

    /** Not enough has arrived to tell what the packet is. */
    lemma FirstOfPart()
      requires Valid() && (lenPos < 4 || pktLen < len || macPos < 16)
      ensures First(TheSuite(keys), (), inSeqno, Pending()) == NeedMore
    {
      hide LengthOf, Padding.ChaChaLengthOk;
      if lenPos == 4 {
        assert Pending()[..4] == lenBuf[..];
      }
    }

    /** In between two calls of `decrypt`. */
    ghost predicate Ready()
      reads Repr()
    {
      Valid() && macPos < 16
    }

    /** As much of the current packet as there is, stage by stage. */
    method ReadStages(data: Bytes, start: nat) returns (p: nat, stage: Stage)
      requires Ready() && start < |data|
      modifies Repr()
      ensures fresh(Repr() - old(Repr())) && start < p <= |data|
      ensures inSeqno == old(inSeqno) && delivered == old(delivered)
      ensures stage == Bad ==> InvalidAt(old(Pending()) + data[start..p])
      ensures stage != Bad ==> Valid() && Pending() == old(Pending()) + data[start..p]
      ensures stage == Complete ==> lenPos == 4 && pktLen == len && macPos == 16
      ensures stage == Short ==> p == |data| && Ready() && (lenPos < 4 || pktLen < len || macPos < 16)
    {
      hide LengthOf, Padding.ChaChaLengthOk;
      p, stage := start, Complete;
      ghost var w0 := Pending();
      if lenPos < 4 {
        p, stage := ReadLength(data, p);
        if stage == Bad {
          assert lenBuf[..4] == lenBuf[..];
          return;
        }
        assert Pending() == lenBuf[..lenPos];
        if stage == Short {
          return;
        }
      }
      ghost var q := p;
      assert data[start..start] == [];
      assert Pending() == w0 + data[start..q];
      p, stage := ReadRest(data, p);
      assert w0 + data[start..q] + data[q..p] == w0 + data[start..p];
    }

    /** The stages after the length. */
    method ReadRest(data: Bytes, start: nat) returns (p: nat, stage: Stage)
      requires Ready() && start <= |data| && lenPos == 4
      modifies this`packet, this`pktLen, this`macPos, packet, mac
      ensures Valid() && fresh(Repr() - old(Repr()))
      ensures start <= p <= |data| && stage != Bad && (start < |data| ==> start < p)
      ensures Pending() == old(Pending()) + data[start..p]
      ensures stage == Complete ==> lenPos == 4 && pktLen == len && macPos == 16
      ensures stage == Short ==> p == |data| && Ready() && (lenPos < 4 || pktLen < len || macPos < 16)
    {
      hide LengthOf, Padding.ChaChaLengthOk, Pending;
      p := start;
      ghost var w0 := Pending();
      assert w0 + data[start..start] == w0;
      if pktLen < len {
        p, stage := ReadBody(data, p);
        if stage == Short {
          return;
        }
      }
      ghost var q := p;
      p, stage := ReadMac(data, p);
      assert w0 + data[start..q] + data[q..p] == w0 + data[start..p];
    }

    /** The length field of these first bytes is out of range. */
    ghost predicate InvalidAt(w: Bytes)
      reads this
    {
      |w| == 4 && !Padding.ChaChaLengthOk(LengthOf(keys, inSeqno, w))
    }

    lemma InvalidHeader(header: Bytes, more: Bytes)
      requires InvalidAt(header)
      ensures First(TheSuite(keys), (), inSeqno, header + more) == Invalid
    {
      assert (header + more)[..4] == header;
    }

    /** One turn of the loop of `decrypt`. */
    method ReadPacket(data: Bytes, start: nat) returns (p: nat, stage: Stage, payload: Bytes)
      requires Ready() && start < |data|
      modifies Repr()
      ensures fresh(Repr() - old(Repr())) && start < p <= |data|
      ensures stage == Short ==>
                && Ready() && p == |data| && Pending() == old(Pending()) + data[start..]
                && inSeqno == old(inSeqno) && delivered == old(delivered)
      ensures stage == Bad ==>
                && delivered == old(delivered)
                && First(TheSuite(keys), (), old(inSeqno), old(Pending()) + data[start..]) == Invalid
      ensures stage == Complete ==>
                && Ready() && Pending() == []
                && inSeqno == Wrap(old(inSeqno) + 1) && delivered == old(delivered) + [payload]
                && First(TheSuite(keys), (), old(inSeqno), old(Pending()) + data[start..])
                   == Got(payload, |old(Pending())| + p - start, ())
    {
      hide LengthOf, Padding.ChaChaLengthOk, First, InvalidAt;
      ghost var w0, n := Pending(), inSeqno;
      payload := [];
      p, stage := ReadStages(data, start);
      assert (w0 + data[start..p]) + data[p..] == w0 + data[start..];
      if stage == Bad {
        InvalidHeader(w0 + data[start..p], data[p..]);
        return;
      } else if stage == Short {
        assert data[start..p] == data[start..];
        return;
      }
      FirstMore(TheSuite(keys), (), n, Pending(), data[p..]);
      var r := Finish();
      if r.None? {
        stage := Bad;
      } else {
        payload := r.value;
      }
    }

    /** `decrypt`: whatever has arrived before and whatever the handler decides, the outcome is
        that of feeding the earlier bytes and these together. */
    method Decrypt(data: Bytes, start: nat, stops: Handler) returns (r: Result)
      requires Ready() && start <= |data|
      modifies Repr()
      ensures fresh(Repr() - old(Repr()))
      ensures match Feed(TheSuite(keys), stops, |old(delivered)|, (), old(inSeqno),
                         old(Pending()) + data[start..])
              case Waiting(out, _, seqno, pending) =>
                && Ready() && r == Undefined && Pending() == pending
                && inSeqno == seqno && delivered == old(delivered) + out
              case Stopped(out, _, seqno, rest) =>
                && Ready() && r.Offset? && r.p <= |data| && data[r.p..] == rest && Pending() == []
                && inSeqno == seqno && delivered == old(delivered) + out
              case Failed(out) => r == Thrown && delivered == old(delivered) + out
    {
      hide LengthOf, Padding.ChaChaLengthOk, First, Feed, Valid, Pending, Progress, TheSuite, Wrap;
      ghost var su, k := TheSuite(keys), |delivered|;
      ghost var goal := Feed(su, stops, k, (), inSeqno, Pending() + data[start..]);
      var p := start;
      ProgressAtStart(su, stops, delivered, (), inSeqno, Pending() + data[start..]);
      while p < |data|
        invariant Ready() && fresh(Repr() - old(Repr())) && p <= |data|
        invariant old(delivered) <= delivered
        invariant Progress(goal, su, stops, k, delivered, (), inSeqno, Pending() + data[p..])
      {
        ghost var n, pending := inSeqno, Pending();
        ghost var w := pending + data[p..];
        var before := delivered;
        Rejoined(old(delivered), before);
        ProgressEnds(goal, su, stops, k, before, (), n, w);
        var q, stage, payload := ReadPacket(data, p);
        if stage == Bad {
          return Thrown;
        } else if stage == Short {
          NothingBehind(w, data, q);
        } else {
          ProgressByOne(goal, su, stops, k, before, (), n, w);
          BehindPacket(pending, data, p, q);
          Rejoined(old(delivered), delivered);
          if stops(|before|, payload) {
            return Offset(q);
          }
        }
        p := q;
      }
      NothingBehind(Pending(), data, p);
      Rejoined(old(delivered), delivered);
      FirstOfPart();
      ProgressEnds(goal, su, stops, k, delivered, (), inSeqno, Pending());
      return Undefined;
    }
  }
}
