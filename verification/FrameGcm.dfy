/** AES-GCM: the native cipher and decipher, with the counter in the IV that both increment. */
module FrameGcm {
  import opened Common
  import opened FrameSpec
  import Padding

  /** The primitives under one key. GCM is a stream cipher: each byte of the output depends on
      the bytes up to it, so a decipher can be fed piece by piece. */
  datatype Keys = Keys(
    encrypt: (Bytes, Bytes) -> Bytes,
    decrypt: (Bytes, Bytes) -> Bytes,
    authTag: (Bytes, Bytes, Bytes) -> Bytes)

  ghost predicate Lawful(keys: Keys) {
    && (forall iv: Bytes, x: Bytes {:trigger keys.encrypt(iv, x)} ::
          |keys.encrypt(iv, x)| == |x| && keys.decrypt(iv, keys.encrypt(iv, x)) == x)
    && (forall iv: Bytes, x: Bytes {:trigger keys.decrypt(iv, x)} :: |keys.decrypt(iv, x)| == |x|)
    && (forall iv: Bytes, x: Bytes, y: Bytes {:trigger keys.decrypt(iv, x + y)} ::
          keys.decrypt(iv, x) <= keys.decrypt(iv, x + y))
    && (forall iv: Bytes, aad: Bytes, x: Bytes {:trigger keys.authTag(iv, aad, x)} ::
          |keys.authTag(iv, aad, x)| == 16)
  }

  // ----- The counter -----

  /** A big-endian number plus one, dropping the carry out of the first byte. */
  function Increment(b: Bytes): (r: Bytes)
    ensures |r| == |b|
  {
    if b == [] then []
    else
      var init, last := b[..|b| - 1], b[|b| - 1];
      if last == 255 then Increment(init) + [0] else init + [last + 1]
  }

  function BigEndian(b: Bytes): nat {
    if b == [] then 0 else 256 * BigEndian(b[..|b| - 1]) + b[|b| - 1] as nat
  }

  function Limit(n: nat): nat {
    if n == 0 then 1 else 256 * Limit(n - 1)
  }

  /** `Increment` counts, and wraps around exactly when every byte is 255. */
  lemma {:induction false} IncrementCounts(b: Bytes)
    ensures BigEndian(b) < Limit(|b|)
    ensures BigEndian(Increment(b)) == if BigEndian(b) + 1 == Limit(|b|) then 0 else BigEndian(b) + 1
    decreases |b|
  {
    if b != [] {
      var init := b[..|b| - 1];
      IncrementCounts(init);
      var r := Increment(b);
      assert r[..|r| - 1] == if b[|b| - 1] == 255 then Increment(init) else init;
    }
  }

  /** The IV for the next packet: the last eight of its twelve bytes are the counter. */
  function NextIv(iv: Bytes): (r: Bytes)
    ensures |iv| == 12 ==> |r| == 12
  {
    if |iv| != 12 then iv else iv[..4] + Increment(iv[4..])
  }

  function IvAfter(iv: Bytes, n: nat): (r: Bytes)
    ensures |iv| == 12 ==> |r| == 12
  {
    if n == 0 then iv else NextIv(IvAfter(iv, n - 1))
  }

  lemma NextIvCounts(iv: Bytes)
    requires |iv| == 12
    ensures NextIv(iv)[..4] == iv[..4]
    ensures BigEndian(iv[4..]) < Limit(8)
    ensures BigEndian(NextIv(iv)[4..]) == if BigEndian(iv[4..]) + 1 == Limit(8) then 0 else BigEndian(iv[4..]) + 1
  {
    IncrementCounts(iv[4..]);
    assert NextIv(iv)[4..] == Increment(iv[4..]);
    hide BigEndian, Increment, Limit;
  }

  /** The counter has gone round `t` times. */
  lemma {:induction false} IvCounts(iv: Bytes, n: nat) returns (t: nat)
    requires |iv| == 12
    ensures IvAfter(iv, n)[..4] == iv[..4]
    ensures BigEndian(IvAfter(iv, n)[4..]) + t * Limit(8) == BigEndian(iv[4..]) + n
    ensures BigEndian(iv[4..]) < Limit(8) && BigEndian(IvAfter(iv, n)[4..]) < Limit(8)
  {
    hide NextIv, BigEndian, Limit;
    t := 0;
    NextIvCounts(iv);
    if n > 0 {
      t := IvCounts(iv, n - 1);
      NextIvCounts(IvAfter(iv, n - 1));
      NextIvCounts(IvAfter(iv, n));
      if BigEndian(IvAfter(iv, n - 1)[4..]) + 1 == Limit(8) {
        t := t + 1;
      }
    }
  }

  /** No two packets less than 2^64 apart are encrypted with the same IV, and any two that far apart are. */
  lemma IvsRepeat(iv: Bytes, m: nat, n: nat)
    requires |iv| == 12 && m < n <= m + Limit(8)
    ensures Limit(8) == 0x1_0000_0000_0000_0000
    ensures IvAfter(iv, m) == IvAfter(iv, n) <==> n == m + Limit(8)
  {
    LimitIs();
    hide IvAfter, BigEndian, Limit;
    var s := IvCounts(iv, m);
    var t := IvCounts(iv, n);
    SameCounter(IvAfter(iv, m)[4..], IvAfter(iv, n)[4..]);
    assert IvAfter(iv, m) == IvAfter(iv, m)[..4] + IvAfter(iv, m)[4..];
    assert IvAfter(iv, n) == IvAfter(iv, n)[..4] + IvAfter(iv, n)[4..];
  }

  lemma LimitIs()
    ensures Limit(8) == 0x1_0000_0000_0000_0000
  {
    assert Limit(4) == 0x1_0000_0000;
  }

  lemma {:induction false} SameCounter(a: Bytes, b: Bytes)
    requires |a| == |b|
    ensures BigEndian(a) == BigEndian(b) <==> a == b
    decreases |a|
  {
    if a != [] {
      SameCounter(a[..|a| - 1], b[..|b| - 1]);
      assert a == a[..|a| - 1] + [a[|a| - 1]] && b == b[..|b| - 1] + [b[|b| - 1]];
    }
  }

  /** The loop of `ivIncrement` has come down to byte `i`, with those behind it carried over. */
  ghost predicate Carrying(was: Bytes, now: Bytes, i: nat) {
    && |was| == |now| == 12 && 3 <= i <= 11
    && now[..i + 1] == was[..i + 1]
    && Increment(was[4..]) == Increment(was[4..i + 1]) + now[i + 1..]
  }

  lemma CarryStarts(was: Bytes)
    requires |was| == 12
    ensures Carrying(was, was, 11)
  {
    hide Increment;
    assert was[4..12] == was[4..] && was[12..] == [];
    assert Increment(was[4..]) + [] == Increment(was[4..]);
  }

  /** The last byte of the counter so far. */
  lemma LastOfCounter(was: Bytes, i: nat)
    requires |was| == 12 && 4 <= i <= 11
    ensures Increment(was[4..i + 1])
            == if was[i] == 255 then Increment(was[4..i]) + [0] else was[4..i] + [was[i] + 1]
  {
    var b := was[4..i + 1];
    assert b[..|b| - 1] == was[4..i] && b[|b| - 1] == was[i];
  }

  lemma PutAt(s: Bytes, i: nat, b: byte)
    requires i < |s|
    ensures s[i := b][..i] == s[..i] && s[i := b][i..] == [b] + s[i + 1..]
  {
  }

  lemma SameBefore(was: Bytes, now: Bytes, i: nat)
    requires i < |was| && i < |now| && now[..i + 1] == was[..i + 1]
    ensures now[i] == was[i] && now[..i] == was[..i]
  {
    assert was[i] == was[..i + 1][i] && now[i] == now[..i + 1][i];
    assert now[..i + 1][..i] == now[..i] && was[..i + 1][..i] == was[..i];
  }

  lemma Assoc(a: Bytes, b: Bytes, c: Bytes)
    ensures (a + b) + c == a + (b + c)
  {
  }

  lemma CarriesOn(was: Bytes, now: Bytes, i: nat)
    requires Carrying(was, now, i) && i >= 4 && now[i] == 255
    ensures Carrying(was, now[i := 0], i - 1)
  {
    hide Increment;
    LastOfCounter(was, i);
    SameBefore(was, now, i);
    PutAt(now, i, 0);
    Assoc(Increment(was[4..i]), [0], now[i + 1..]);
  }

  lemma CarryEnds(was: Bytes, now: Bytes, i: nat)
    requires Carrying(was, now, i) && (i >= 4 ==> now[i] != 255)
    ensures (if i >= 4 then now[i := now[i] + 1] else now) == NextIv(was)
  {
    hide Increment;
    if i >= 4 {
      CarryLands(was, now, i, now[i] + 1);
    } else {
      assert was[4..4] == [] && Increment([]) == [] by { NothingToCount(); }
      assert [] + now[4..] == now[4..] && now == now[..4] + now[4..];
    }
  }

  lemma NothingToCount()
    ensures Increment([]) == []
  {
  }

  lemma CarryLands(was: Bytes, now: Bytes, i: nat, b: byte)
    requires Carrying(was, now, i) && i >= 4 && now[i] != 255 && b == now[i] + 1
    ensures now[i := b] == was[..4] + Increment(was[4..])
  {
    LastOfCounter(was, i);
    SameBefore(was, now, i);
    PutAt(now, i, b);
    var after := now[i := b];
    var tail := [b] + now[i + 1..];
    assert |after| == 12 && after[..i] == was[..i] && after[i..] == tail;
    assert Increment(was[4..]) == (was[4..i] + [b]) + now[i + 1..];
    hide *;
    Assoc(was[4..i], [b], now[i + 1..]);
    CounterJoined(after, was, i, tail);
  }

  lemma CounterJoined(s: Bytes, was: Bytes, i: nat, tail: Bytes)
    requires |s| == |was| == 12 && 4 <= i <= 11 && s[..i] == was[..i] && s[i..] == tail
    ensures s == was[..4] + (was[4..i] + tail)
  {
    assert was[..i] == was[..4] + was[4..i];
    assert s == s[..i] + s[i..];
  }

  /** `ivIncrement`, in place: a byte that becomes 0 carries into the one before it. */
  method IvIncrement(iv: array<byte>)
    requires iv.Length == 12
    modifies iv
    ensures iv[..] == NextIv(old(iv[..]))
  {
    hide *;
    var i := 11;
    ghost var was, now := iv[..], iv[..];
    CarryStarts(was);
    while i >= 4 && iv[i] == 255
      invariant 3 <= i <= 11 && now == iv[..] && Carrying(was, now, i)
    {
      CarriesOn(was, now, i);
      iv[i] := 0;
      now := now[i := 0];
      i := i - 1;
    }
    CarryEnds(was, now, i);
    if i >= 4 {
      iv[i] := iv[i] + 1;
      assert iv[..] == now[i := now[i] + 1];
    }
  }

  // ----- Suite -----

  function Open(keys: Keys, iv: Bytes, w: Bytes): Option<Bytes> {
    if |w| < 20 then None
    else
      var body := w[4..|w| - 16];
      if keys.authTag(iv, w[..4], body) != w[|w| - 16..] then None
      else Some(keys.decrypt(iv, body))
  }

  function TheSuite(keys: Keys): Suite<Bytes> {
    Suite(4, 16,
          (iv: Bytes, seqno: uint32, header: Bytes) => if |header| == 4 then GetU32(header) else 0,
          Padding.GcmLengthOk,
          (iv: Bytes, seqno: uint32, w: Bytes) => Open(keys, iv, w),
          (iv: Bytes, w: Bytes) => NextIv(iv))
  }

  function SealOne(keys: Keys, iv: Bytes, packet: Bytes): Bytes {
    if |packet| < 4 then []
    else
      var body := keys.encrypt(iv, packet[4..]);
      packet[..4] + body + keys.authTag(iv, packet[..4], body)
  }

  function TheSeal(keys: Keys): Seal<Bytes> {
    (iv: Bytes, seqno: uint32, packet: Bytes) => SealOne(keys, iv, packet)
  }

  lemma CipherMatchesDecipher(keys: Keys)
    requires Lawful(keys)
    ensures Matches(TheSuite(keys), TheSeal(keys), (iv: Bytes) => |iv| == 12)
  {
    var su := TheSuite(keys);
    forall iv: Bytes, seqno: uint32, packet: Bytes | IsPacket(packet) && su.lengthOk(|packet| - 4)
      ensures var w := TheSeal(keys)(iv, seqno, packet);
              && |w| == |packet| + 16
              && su.length(iv, seqno, w[..4]) == |packet| - 4
              && su.open(iv, seqno, w) == Some(packet[4..])
    {
      var body := keys.encrypt(iv, packet[4..]);
      var w := SealOne(keys, iv, packet);
      assert w[..4] == packet[..4];
      assert w[4..|w| - 16] == body;
      assert w[|w| - 16..] == keys.authTag(iv, packet[..4], body);
    }
  }

  class AESGCMCipher {
    const keys: Keys
    const encIV: array<byte>
    var outSeqno: uint32
    /** Everything handed to `onWrite`. */
    var written: Bytes

    constructor (keys: Keys, iv: array<byte>, seqno: uint32)
      ensures this.keys == keys && encIV == iv && outSeqno == seqno && written == []
    {
      this.keys := keys;
      encIV := iv;
      outSeqno := seqno;
      written := [];
    }

    method Encrypt(packet: Bytes)
      requires |packet| >= 4 && encIV.Length == 12
      modifies this, encIV
      ensures written == old(written) + SealOne(keys, old(encIV[..]), packet)
      ensures encIV[..] == NextIv(old(encIV[..])) && outSeqno == Wrap(old(outSeqno) + 1)
    {
      var lenData := packet[..4];
      written := written + lenData;
      var encrypted := keys.encrypt(encIV[..], packet[4..]);
      written := written + encrypted;
      var tag := keys.authTag(encIV[..], lenData, encrypted);
      written := written + tag;
      IvIncrement(encIV);
      outSeqno := Wrap(outSeqno + 1);
    }
  }

  class AESGCMDecipher {
    const keys: Keys
    const decipherIV: array<byte>
    var inSeqno: uint32
    /** `_decipherInstance`: what it has been fed so far for this packet. */
    var instance: Option<Bytes>
    var len: int
    var lenBytes: nat
    var packet: array?<byte>
    var packetPos: nat
    var pktLen: nat
    const tag: array<byte>
    var tagPos: nat
    /** The payloads the handler has been called with. */
    var delivered: seq<Bytes>
    /** The length bytes as they arrived. */
    ghost var header: Bytes

    ghost function Repr(): set<object>
      reads this
    {
      {this, decipherIV, tag} + if packet == null then {} else {packet}
    }

    ghost predicate Valid()
      reads Repr()
    {
      && decipherIV.Length == 12 && tag.Length == 16 && decipherIV != tag
      && packet != decipherIV && packet != tag
      && lenBytes == |header| <= 4 && tagPos <= 16
      && (lenBytes < 4 ==> len == Partial(header) && pktLen == 0 && instance.None? && packet == null)
      && (lenBytes == 4 ==>
            && len == GetU32(header) && Padding.GcmLengthOk(len) && pktLen <= len
            && instance.Some? && |instance.value| == pktLen)
      && packetPos == pktLen
      && (packet == null ==> pktLen == 0)
      && (packet != null ==>
            && packet.Length == len
            && packet[..pktLen] == keys.decrypt(decipherIV[..], instance.value))
      && (tagPos > 0 ==> lenBytes == 4 && pktLen == len)
    }

    ghost predicate Ready()
      reads Repr()
    {
      Valid() && tagPos < 16
    }

    /** The bytes of the packet being read that have arrived so far. */
    ghost function Pending(): Bytes
      requires Valid()
      reads Repr()
    {
      header + instance.GetOr([]) + tag[..tagPos]
    }

    constructor (keys: Keys, iv: array<byte>, seqno: uint32, delivered: seq<Bytes>)
      requires iv.Length == 12
      ensures Ready() && fresh(Repr() - {iv}) && Pending() == []
      ensures this.keys == keys && decipherIV == iv && inSeqno == seqno && this.delivered == delivered
    {
      this.keys := keys;
      decipherIV := iv;
      inSeqno := seqno;
      instance, len, lenBytes, packet, packetPos, pktLen, tagPos := None, 0, 0, null, 0, 0, 0;
      tag := new byte[16];
      this.delivered := delivered;
      header := [];
    }

    method ReadLength(data: Bytes, start: nat) returns (p: nat, stage: Stage)
      requires Valid() && start <= |data| && lenBytes < 4
      modifies this`lenBytes, this`len, this`header, this`instance
      ensures start <= p <= |data| && (start < |data| ==> start < p)
      ensures header == old(Pending()) + data[start..p] && |header| <= 4
      ensures packet == null && pktLen == 0 && tagPos == 0
      ensures stage == Complete ==> Valid() && lenBytes == 4 && instance == Some([])
      ensures stage == Short ==> Valid() && lenBytes < 4 && p == |data|
      ensures stage == Bad ==> |header| == 4 && !Padding.GcmLengthOk(GetU32(header))
    {
      hide Padding.And, Partial;
      var nb := if 4 - lenBytes < |data| - start then 4 - lenBytes else |data| - start;
      assert old(Pending()) == header;
      lenBytes := lenBytes + nb;
      p := AddLengthBytes(data, start, nb);
      if lenBytes < 4 {
        stage := Short;
        return;
      }
      PartialWhole(header);
      if len + 20 > Padding.MAX_PACKET_SIZE || len < 16 || Padding.And(len, 15) != 0 {
        stage := Bad;
      } else {
        instance := Some([]);
        stage := Complete;
      }
    }

    method AddLengthBytes(data: Bytes, start: nat, count: nat) returns (p: nat)
      requires start + count <= |data| && len == Partial(header)
      modifies this`len, this`header
      ensures p == start + count
      ensures header == old(header) + data[start..p] && len == Partial(header)
    {
      hide Partial, Shl8;
      var nb := count;
      p := start;
      while nb > 0
        invariant 0 <= nb <= count && p == start + count - nb
        invariant header == old(header) + data[start..p] && len == Partial(header)
      {
        assert data[start..p + 1] == data[start..p] + [data[p]];
        PartialStep(header, data[p]);
        len := Shl8(len) + data[p] as int;
        header := header + [data[p]];
        p := p + 1;
        nb := nb - 1;
      }
    }

    /** `_decipherInstance.update`. */
    method Update(chunk: Bytes) returns (decrypted: Bytes)
      requires Lawful(keys) && instance.Some?
      modifies this`instance
      ensures instance == Some(old(instance.value) + chunk)
      ensures |decrypted| == |chunk|
      ensures keys.decrypt(decipherIV[..], old(instance.value) + chunk)
              == keys.decrypt(decipherIV[..], old(instance.value)) + decrypted
    {
      var fed := instance.value;
      instance := Some(fed + chunk);
      decrypted := keys.decrypt(decipherIV[..], fed + chunk)[|fed|..];
    }

    method Store(decrypted: Bytes)
      requires packetPos + |decrypted| <= len && decrypted != []
      requires packet == null ==> packetPos == 0
      requires packet != null ==> packet.Length == len
      modifies this`packet, this`packetPos, packet
      ensures packet != null && packet.Length == len && (packet == old(packet) || fresh(packet))
      ensures packetPos == old(packetPos) + |decrypted|
      ensures packet[..packetPos]
              == (if old(packet) == null then [] else old(packet[..packetPos])) + decrypted
    {
      if |decrypted| == len {
        packet := new byte[|decrypted|](i requires 0 <= i < |decrypted| => decrypted[i]);
        assert packet[..|decrypted|] == decrypted;
      } else {
        if packet == null {
          packet := new byte[len];
        }
        forall i | 0 <= i < |decrypted| {
          packet[packetPos + i] := decrypted[i];
        }
      }
      packetPos := packetPos + |decrypted|;
    }

    method ReadBody(data: Bytes, start: nat) returns (p: nat, stage: Stage)
      requires Lawful(keys) && Valid() && start <= |data| && lenBytes == 4 && pktLen < len
      modifies this`packet, this`packetPos, this`pktLen, this`instance, packet
      ensures Valid() && fresh(Repr() - old(Repr()))
      ensures start <= p <= |data| && stage != Bad && (start < |data| ==> start < p)
      ensures Pending() == old(Pending()) + data[start..p]
      ensures stage == Complete ==> pktLen == len
      ensures stage == Short ==> p == |data|
    {
      hide Padding.GcmLengthOk, Partial, Lawful, GetU32;
      p := start;
      if p >= |data| {
        assert data[start..p] == [] && Pending() + [] == Pending();
        stage := Short;
        return;
      }
      ghost var before := instance.value;
      var nb := if len - pktLen < |data| - p then len - pktLen else |data| - p;
      p := p + nb;
      Decipher(data[start..p]);
      PutBehind(header, before, data[start..p], tag[..tagPos]);
      stage := if pktLen < len || p >= |data| then Short else Complete;
    }

    /** Some bytes of the body, none of the tag having arrived yet. */
    method Decipher(encrypted: Bytes)
      requires Lawful(keys) && Valid() && lenBytes == 4 && encrypted != [] && pktLen + |encrypted| <= len
      modifies this`packet, this`packetPos, this`pktLen, this`instance, packet
      ensures Valid() && fresh(Repr() - old(Repr())) && pktLen == old(pktLen) + |encrypted|
      ensures old(instance).Some? && instance == Some(old(instance).value + encrypted) && tagPos == 0
    {
      hide Padding.GcmLengthOk, Partial, Lawful, GetU32;
      if pktLen == 0 {
        LawfulLength(keys, decipherIV[..], instance.value);
      }
      var decrypted := Update(encrypted);
      Store(decrypted);
      assert decipherIV[..] == old(decipherIV[..]);
      pktLen := pktLen + |encrypted|;
    }

    method ReadTag(data: Bytes, start: nat) returns (p: nat, stage: Stage)
      requires Valid() && start <= |data| && lenBytes == 4 && pktLen == len
      modifies this`tagPos, tag
      ensures Valid()
      ensures start <= p <= |data| && stage != Bad
      ensures start < |data| && old(tagPos) < 16 ==> start < p
      ensures Pending() == old(Pending()) + data[start..p]
      ensures stage == Complete ==> tagPos == 16
      ensures stage == Short ==> p == |data| && tagPos < 16
    {
      hide Padding.GcmLengthOk, Partial;
      var nb := if 16 - tagPos < |data| - start then 16 - tagPos else |data| - start;
      forall i | 0 <= i < nb {
        tag[tagPos + i] := data[start + i];
      }
      assert tag[..tagPos + nb] == old(tag[..tagPos]) + data[start..start + nb];
      assert decipherIV[..] == old(decipherIV[..]);
      p := start + nb;
      tagPos := tagPos + nb;
      stage := if tagPos < 16 then Short else Complete;
    }

    /** `final`, then make ready for the next packet. */
    method Finish() returns (payload: Option<Bytes>)
      requires Valid() && lenBytes == 4 && pktLen == len && tagPos == 16
      modifies this`inSeqno, this`len, this`lenBytes, this`header, this`instance, this`packet,
               this`packetPos, this`pktLen, this`tagPos, this`delivered, decipherIV
      ensures var r := First(TheSuite(keys), old(decipherIV[..]), old(inSeqno), old(Pending()));
              if payload.Some? then
                && r == Got(payload.value, |old(Pending())|, decipherIV[..])
                && Ready() && packet == null && Pending() == []
                && inSeqno == Wrap(old(inSeqno) + 1)
                && delivered == old(delivered) + [payload.value]
              else r == Invalid && delivered == old(delivered) && packet == old(packet)
    {
      hide First, GetU32, PutU32, PayloadOf, NextIv, Wrap, TheSuite, Padding.GcmLengthOk, Partial;
      ghost var w := Pending();
      FirstOfWhole(w);
      if keys.authTag(decipherIV[..], PutU32(len), instance.value) != tag[..] {
        return None;
      }
      payload := PayloadOf(if packet == null then [] else packet[..]);
      if payload.None? {
        return;
      }
      Reset();
      delivered := delivered + [payload.value];
    }

    method Reset()
      requires decipherIV.Length == 12 && tag.Length == 16 && decipherIV != tag
      modifies this`inSeqno, this`len, this`lenBytes, this`header, this`instance, this`packet,
               this`packetPos, this`pktLen, this`tagPos, decipherIV
      ensures Ready() && packet == null && Pending() == []
      ensures inSeqno == Wrap(old(inSeqno) + 1) && decipherIV[..] == NextIv(old(decipherIV[..]))
    {
      hide NextIv, Wrap;
      inSeqno := Wrap(inSeqno + 1);
      IvIncrement(decipherIV);
      len, lenBytes, packet, packetPos, pktLen, tagPos := 0, 0, null, 0, 0, 0;
      instance := None;
      header := [];
    }

    lemma FirstOfWhole(w: Bytes)
      requires Valid() && lenBytes == 4 && pktLen == len && tagPos == 16 && w == Pending()
      ensures PutU32(len) == header
      ensures packet != null
      ensures First(TheSuite(keys), decipherIV[..], inSeqno, w) ==
              if keys.authTag(decipherIV[..], header, instance.value) != tag[..]
                 || PayloadOf(packet[..]).None? then Invalid
              else Got(PayloadOf(packet[..]).value, |w|, NextIv(decipherIV[..]))
    {
      PutGet(header);
      hide PayloadOf, NextIv, GetU32, PutU32;
      assert packet != null && packet[..pktLen] == packet[..];
      assert tag[..16] == tag[..];
      assert |w| == 4 + len + 16;
      assert w[..4] == header && w[4..|w| - 16] == instance.value && w[|w| - 16..] == tag[..];
      assert w[..|w|] == w;
    }

    /** Not enough has arrived to tell what the packet is. */
    lemma FirstOfPart()
      requires Ready()
      ensures First(TheSuite(keys), decipherIV[..], inSeqno, Pending()) == NeedMore
    {
      if lenBytes == 4 {
        assert Pending()[..4] == header;
      }
    }

    /** As much of the current packet as there is, stage by stage. */
    method ReadStages(data: Bytes, start: nat) returns (p: nat, stage: Stage)
      requires Lawful(keys) && Ready() && start < |data|
      modifies Repr()
      ensures fresh(Repr() - old(Repr())) && start < p <= |data|
      ensures inSeqno == old(inSeqno) && delivered == old(delivered)
      ensures decipherIV[..] == old(decipherIV[..])
      ensures stage == Bad ==> InvalidAt(old(Pending()) + data[start..p])
      ensures stage != Bad ==> Valid() && Pending() == old(Pending()) + data[start..p]
      ensures stage == Complete ==> lenBytes == 4 && pktLen == len && tagPos == 16
      ensures stage == Short ==> p == |data| && Ready()
    {
      hide Padding.GcmLengthOk, Partial, Lawful, GetU32;
      p, stage := start, Complete;
      ghost var w0 := Pending();
      if lenBytes < 4 {
        p, stage := ReadLength(data, p);
        if stage == Bad {
          return;
        }
        assert Pending() == header;
        if stage == Short {
          return;
        }
      }
      ghost var q := p;
      assert Pending() == w0 + data[start..q];
      p, stage := ReadRest(data, p);
      assert w0 + data[start..q] + data[q..p] == w0 + data[start..p];
    }

    /** The stages after the length. */
    method ReadRest(data: Bytes, start: nat) returns (p: nat, stage: Stage)
      requires Lawful(keys) && Ready() && start <= |data| && lenBytes == 4
      modifies this`packet, this`packetPos, this`pktLen, this`instance, this`tagPos, packet, tag
      ensures Valid() && fresh(Repr() - old(Repr()))
      ensures start <= p <= |data| && stage != Bad && (start < |data| ==> start < p)
      ensures Pending() == old(Pending()) + data[start..p]
      ensures stage == Complete ==> lenBytes == 4 && pktLen == len && tagPos == 16
      ensures stage == Short ==> p == |data| && Ready()
    {
      hide Padding.GcmLengthOk, Partial, Lawful, GetU32;
      p := start;
      ghost var w0 := Pending();
      assert data[start..p] == [];
      if pktLen < len {
        p, stage := ReadBody(data, p);
        if stage == Short {
          return;
        }
      }
      ghost var q := p;
      p, stage := ReadTag(data, p);
      assert w0 + data[start..q] + data[q..p] == w0 + data[start..p];
    }

    /** The length field of these first bytes is out of range. */
    ghost predicate InvalidAt(w: Bytes) {
      |w| == 4 && !Padding.GcmLengthOk(GetU32(w))
    }

    lemma InvalidHeader(iv: Bytes, n: uint32, first: Bytes, more: Bytes)
      requires InvalidAt(first)
      ensures First(TheSuite(keys), iv, n, first + more) == Invalid
    {
      assert (first + more)[..4] == first;
    }

    /** One turn of the loop of `decrypt`. */
    method ReadPacket(data: Bytes, start: nat) returns (p: nat, stage: Stage, payload: Bytes)
      requires Lawful(keys) && Ready() && start < |data|
      modifies Repr()
      ensures fresh(Repr() - old(Repr())) && start < p <= |data|
      ensures stage == Short ==>
                && Ready() && p == |data| && Pending() == old(Pending()) + data[start..]
                && inSeqno == old(inSeqno) && delivered == old(delivered)
                && decipherIV[..] == old(decipherIV[..])
      ensures stage == Bad ==>
                && delivered == old(delivered)
                && First(TheSuite(keys), old(decipherIV[..]), old(inSeqno), old(Pending()) + data[start..])
                   == Invalid
      ensures stage == Complete ==>
                && Ready() && Pending() == []
                && inSeqno == Wrap(old(inSeqno) + 1) && delivered == old(delivered) + [payload]
                && First(TheSuite(keys), old(decipherIV[..]), old(inSeqno), old(Pending()) + data[start..])
                   == Got(payload, |old(Pending())| + p - start, decipherIV[..])
    {
      hide Padding.GcmLengthOk, Partial, Lawful, GetU32, First, InvalidAt;
      ghost var w0, n, iv := Pending(), inSeqno, decipherIV[..];
      payload := [];
      p, stage := ReadStages(data, start);
      assert (w0 + data[start..p]) + data[p..] == w0 + data[start..];
      if stage == Bad {
        InvalidHeader(iv, n, w0 + data[start..p], data[p..]);
        return;
      } else if stage == Short {
        assert data[start..p] == data[start..];
        return;
      }
      FirstMore(TheSuite(keys), iv, n, Pending(), data[p..]);
      var r := Finish();
      if r.None? {
        stage := Bad;
      } else {
        payload := r.value;
      }
    }

    /** `decrypt`: whatever has arrived before and whatever the handler decides, the outcome is
        that of feeding the earlier bytes and these together, with the counter in step. */
    method Decrypt(data: Bytes, start: nat, stops: Handler) returns (r: Result)
      requires Lawful(keys) && Ready() && start <= |data|
      modifies Repr()
      ensures fresh(Repr() - old(Repr()))
      ensures match Feed(TheSuite(keys), stops, |old(delivered)|, old(decipherIV[..]), old(inSeqno),
                         old(Pending()) + data[start..])
              case Waiting(out, iv, seqno, pending) =>
                && Ready() && r == Undefined && Pending() == pending
                && decipherIV[..] == iv && inSeqno == seqno && delivered == old(delivered) + out
              case Stopped(out, iv, seqno, rest) =>
                && Ready() && r.Offset? && r.p <= |data| && data[r.p..] == rest && Pending() == []
                && decipherIV[..] == iv && inSeqno == seqno && delivered == old(delivered) + out
              case Failed(out) => r == Thrown && delivered == old(delivered) + out
    {
      hide Lawful, First, Feed, Valid, Pending, Progress, TheSuite, Wrap;
      ghost var su, k := TheSuite(keys), |delivered|;
      ghost var goal := Feed(su, stops, k, decipherIV[..], inSeqno, Pending() + data[start..]);
      var p := start;
      ProgressAtStart(su, stops, delivered, decipherIV[..], inSeqno, Pending() + data[start..]);
      while p < |data|
        invariant Ready() && fresh(Repr() - old(Repr())) && p <= |data|
        invariant old(delivered) <= delivered
        invariant Progress(goal, su, stops, k, delivered, decipherIV[..], inSeqno, Pending() + data[p..])
      {
        ghost var iv, n, pending := decipherIV[..], inSeqno, Pending();
        ghost var w := pending + data[p..];
        var before := delivered;
        Rejoined(old(delivered), before);
        ProgressEnds(goal, su, stops, k, before, iv, n, w);
        var q, stage, payload := ReadPacket(data, p);
        if stage == Bad {
          return Thrown;
        } else if stage == Short {
          NothingBehind(w, data, q);
        } else {
          ProgressByOne(goal, su, stops, k, before, iv, n, w);
          BehindPacket(pending, data, p, q);
          Rejoined(old(delivered), delivered);
          if stops(|before|, payload) {
            return Offset(q);
          }
        }
        p := q;
      }
      NothingBehind(Pending(), data, p);
      Rejoined(old(delivered), delivered);
      FirstOfPart();
      ProgressEnds(goal, su, stops, k, delivered, decipherIV[..], inSeqno, Pending());
      return Undefined;
    }
  }

  lemma LawfulLength(keys: Keys, iv: Bytes, x: Bytes)
    requires Lawful(keys)
    ensures |keys.decrypt(iv, x)| == |x|
  {
  }
}
