/** Packets as `allocPacket` makes them, for whichever cipher is in use. */
module Packets {
  import opened Common
  import opened FrameSpec
  import P = Padding
  import N = FrameGeneric
  import opened FrameSwitch

  /** The block size a cipher pads to, and how much of the packet it does not encrypt with the
      rest. */
  function BlockLen(c: Cipher): nat {
    match c
    case ChaCha(_) => 8
    case Gcm(_, _) => 16
    case Generic(keys, _) => keys.blockLen
  }

  function AadLen(c: Cipher): nat {
    match c
    case ChaCha(_) => 4
    case Gcm(_, _) => 4
    case Generic(keys, _) => if keys.etm then 4 else 0
  }

  /** The largest packet_length the receiver accepts. */
  function Limit(c: Cipher): nat {
    if c.Gcm? then P.MAX_PACKET_SIZE - 20 else P.MAX_PACKET_SIZE
  }

  lemma Sizes(payloadLen: nat, block: nat, aad: nat)
    requires (block == 8 || block == 16) && aad <= 4
    ensures 4 <= P.PadLen(payloadLen, block, aad) <= 19
    ensures P.PacketLength(payloadLen, block, aad) == 1 + payloadLen + P.PadLen(payloadLen, block, aad)
  {
    P.EightAndSixteen();
    P.PaddingIsLeast(payloadLen, if block == 8 then 3 else 4, aad);
  }

  /** The packet for a payload, filled up with these random bytes. */
  function Packet(payload: Bytes, block: nat, aad: nat, random: Bytes): Bytes
    requires (block == 8 || block == 16) && aad <= 4 && |payload| + 24 < TWO_32
    requires |random| == P.PadLen(|payload|, block, aad)
  {
    Sizes(|payload|, block, aad);
    PutU32(P.PacketLength(|payload|, block, aad)) + [|random| as byte] + payload + random
  }

  /** It has the form of a packet, with the payload in its place. */
  lemma PacketHolds(payload: Bytes, block: nat, aad: nat, random: Bytes)
    requires (block == 8 || block == 16) && aad <= 4 && |payload| + 24 < TWO_32
    requires |random| == P.PadLen(|payload|, block, aad)
    ensures var packet := Packet(payload, block, aad, random);
            && IsPacket(packet) && PacketPayload(packet) == payload
            && |packet| - 4 == P.PacketLength(|payload|, block, aad)
  {
    Sizes(|payload|, block, aad);
    var packet := Packet(payload, block, aad, random);
    var header := PutU32(P.PacketLength(|payload|, block, aad));
    hide PutU32, P.PadLen, P.PacketLength;
    assert packet[..4] == header && GetU32(packet) == GetU32(packet[..4]);
    assert packet[5..5 + |payload|] == payload;
  }

  /** The length check passes exactly for what is within the size limit. */
  lemma LengthFitsWithin(c: Cipher, payloadLen: nat, len: nat)
    requires BlockLen(c) == 8 || BlockLen(c) == 16
    requires len == P.PacketLength(payloadLen, BlockLen(c), AadLen(c))
    ensures LengthFits(c, len) <==> len <= Limit(c)
  {
    P.EightAndSixteen();
    P.PacketsPassTheirCheck(payloadLen, if BlockLen(c) == 8 then 3 else 4);
    hide P.PacketLength, P.Pow2, P.Multiple;
    match c
    case ChaCha(keys) =>
    case Gcm(keys, iv) =>
    case Generic(keys, fed) =>
      N.LengthOkIsTheCheck(len, keys.blockLen, keys.etm);
      hide N.LengthOk, P.And;
  }

  /** It passes the receiver's length check exactly if it is within the size limit. */
  lemma PacketFits(c: Cipher, payload: Bytes, random: Bytes)
    requires |payload| + 24 < TWO_32
    requires (BlockLen(c) == 8 || BlockLen(c) == 16) && |random| == P.PadLen(|payload|, BlockLen(c), AadLen(c))
    ensures var packet := Packet(payload, BlockLen(c), AadLen(c), random);
            && IsPacket(packet) && PacketPayload(packet) == payload
            && (Fits(c, packet) <==> P.PacketLength(|payload|, BlockLen(c), AadLen(c)) <= Limit(c))
  {
    hide P.PacketLength, P.PadLen, Packet, LengthFits, PacketPayload, GetU32;
    PacketHolds(payload, BlockLen(c), AadLen(c), random);
    var packet := Packet(payload, BlockLen(c), AadLen(c), random);
    LengthFitsWithin(c, |payload|, |packet| - 4);
  }

  /** `allocPacket`: everything but the payload, which goes in from offset 5 on. */
  method AllocPacket(payloadLen: nat, block: nat, aad: nat, random: Bytes) returns (packet: array<byte>)
    requires (block == 8 || block == 16) && aad <= 4 && payloadLen + 24 < TWO_32
    requires |random| == P.PadLen(payloadLen, block, aad)
    ensures fresh(packet) && packet.Length == 4 + P.PacketLength(payloadLen, block, aad)
    ensures packet[..4] == PutU32(P.PacketLength(payloadLen, block, aad))
    ensures packet[4] as int == |random| && packet[5 + payloadLen..] == random
  {
    hide PutU32, P.And;
    Sizes(payloadLen, block, aad);
    var pktLen := 4 + 1 + payloadLen;
    var padLen: int := block - P.And(pktLen - aad, block - 1);
    if padLen < 4 {
      padLen := padLen + block;
    }
    pktLen := pktLen + padLen;
    packet := new byte[pktLen];
    packet[4] := padLen as byte;
    PutLength(packet, pktLen - 4);
    FillBehind(packet, 5 + payloadLen, random);
  }

  method PutLength(packet: array<byte>, n: uint32)
    requires packet.Length >= 5
    modifies packet
    ensures packet[..4] == PutU32(n) && packet[4] == old(packet[4])
  {
    var length := PutU32(n);
    packet[0], packet[1], packet[2], packet[3] := length[0], length[1], length[2], length[3];
    assert packet[..4] == length;
  }

  /** `randomFillSync` up to the end of the packet. */
  method FillBehind(packet: array<byte>, at: nat, random: Bytes)
    requires 5 <= at && at + |random| == packet.Length
    modifies packet
    ensures packet[at..] == random && packet[..4] == old(packet[..4]) && packet[4] == old(packet[4])
  {
    forall i | 0 <= i < |random| {
      packet[at + i] := random[i];
    }
  }

  /** The payload put into its place makes the packet. */
  lemma FilledIn(packet: Bytes, payload: Bytes, block: nat, aad: nat, random: Bytes)
    requires (block == 8 || block == 16) && aad <= 4 && |payload| + 24 < TWO_32
    requires |random| == P.PadLen(|payload|, block, aad)
    requires |packet| == 4 + P.PacketLength(|payload|, block, aad)
    requires packet[..4] == PutU32(P.PacketLength(|payload|, block, aad))
    requires packet[4] as int == |random| && 5 + |payload| <= |packet|
    requires packet[5..5 + |payload|] == payload && packet[5 + |payload|..] == random
    ensures packet == Packet(payload, block, aad, random)
  {
    Sizes(|payload|, block, aad);
    assert packet == packet[..4] + [packet[4]] + packet[5..5 + |payload|] + packet[5 + |payload|..];
  }

  /** A message: the packet is allocated and the payload put into it from offset 5 on. */
  method MakePacket(payload: Bytes, block: nat, aad: nat, random: Bytes) returns (packet: array<byte>)
    requires (block == 8 || block == 16) && aad <= 4 && |payload| + 24 < TWO_32
    requires |random| == P.PadLen(|payload|, block, aad)
    ensures fresh(packet) && packet[..] == Packet(payload, block, aad, random)
  {
    packet := AllocPacket(|payload|, block, aad, random);
    Sizes(|payload|, block, aad);
    hide P.PadLen, P.PacketLength, PutU32, Packet;
    PutIn(packet, payload);
    FilledIn(packet[..], payload, block, aad, random);
  }

  method PutIn(packet: array<byte>, payload: Bytes)
    requires 5 + |payload| <= packet.Length
    modifies packet
    ensures packet[..] == old(packet[..5]) + payload + old(packet[5 + |payload|..])
  {
    forall i | 0 <= i < |payload| {
      packet[5 + i] := payload[i];
    }
  }

  // ----- Payloads sent -----

  lemma EncryptedIsWhole(payloadLen: nat, block: nat, aad: nat)
    requires (block == 8 || block == 16) && aad <= 4
    ensures (4 + P.PacketLength(payloadLen, block, aad) - aad) % block == 0
  {
    P.EightAndSixteen();
    P.PaddingIsLeast(payloadLen, if block == 8 then 3 else 4, aad);
    hide P.PadLen, P.And, P.Pow2;
    P.MultipleIsWhole(5 + payloadLen - aad + P.PadLen(payloadLen, block, aad), block);
  }

  lemma PacketIsWhole(keys: N.Keys, payload: Bytes, random: Bytes)
    requires N.Lawful(keys) && |payload| + 24 < TWO_32
    requires |random| == P.PadLen(|payload|, keys.blockLen, if keys.etm then 4 else 0)
    ensures keys.blockLen == 8 || keys.blockLen == 16
    ensures var packet := Packet(payload, keys.blockLen, if keys.etm then 4 else 0, random);
            |packet| >= 4 && N.Blocks(keys, |packet| - if keys.etm then 4 else 0)
  {
    var aad := if keys.etm then 4 else 0;
    assert keys.blockLen == 8 || keys.blockLen == 16;
    hide N.Lawful;
    EncryptedIsWhole(|payload|, keys.blockLen, aad);
    PacketHolds(payload, keys.blockLen, aad, random);
    hide P.PadLen, P.PacketLength, PutU32, Packet;
  }

  /** A payload sent with one of the generic ciphers: what is written is the packet for it, sealed, and
      the cipher is ready for the next. */
  method SendGeneric(cipher: N.GenericCipher, payload: Bytes, random: Bytes)
    requires N.Lawful(cipher.keys) && N.Blocks(cipher.keys, |cipher.instance|) && |payload| + 24 < TWO_32
    requires |random| == P.PadLen(|payload|, cipher.keys.blockLen, if cipher.keys.etm then 4 else 0)
    modifies cipher
    ensures var keys := cipher.keys;
            var fed := keys.encrypt(old(cipher.instance));
            var w := N.SealOne(keys, fed, old(cipher.outSeqno),
                               Packet(payload, keys.blockLen, if keys.etm then 4 else 0, random));
            && cipher.written == old(cipher.written) + w
            && keys.encrypt(cipher.instance) == N.Advance(keys, fed, w)
    ensures cipher.outSeqno == Wrap(old(cipher.outSeqno) + 1) && N.Blocks(cipher.keys, |cipher.instance|)
  {
    hide *;
    var aad := if cipher.keys.etm then 4 else 0;
    PacketIsWhole(cipher.keys, payload, random);
    var packet := MakePacket(payload, cipher.keys.blockLen, aad, random);
    cipher.Encrypt(packet[..]);
  }

  /** A payload within the size limit, under any cipher: the receiver's decipher delivers it and both
      ends have moved on alike. */
  lemma PayloadComesThrough(c: Cipher, stops: Handler, k: nat, seqno: uint32, payload: Bytes, random: Bytes,
                            tail: Bytes)
    requires Usable(c) && |payload| + 24 < TWO_32
    requires (BlockLen(c) == 8 || BlockLen(c) == 16) && |random| == P.PadLen(|payload|, BlockLen(c), AadLen(c))
    requires P.PacketLength(|payload|, BlockLen(c), AadLen(c)) <= Limit(c)
    ensures var (w, c1) := SealWith(c, seqno, Packet(payload, BlockLen(c), AadLen(c), random));
            && Usable(c1)
            && FeedWith(c, stops, k, seqno, w + tail)
               == if stops(k, payload) then Stopped([payload], c1, Wrap(seqno + 1), tail)
                  else Prepend([payload], FeedWith(c1, stops, k + 1, Wrap(seqno + 1), tail))
  {
    hide Usable, SealWith, FeedWith, Packet, Fits;
    PacketFits(c, payload, random);
    FeedWithSealed(c, stops, k, seqno, Packet(payload, BlockLen(c), AadLen(c), random), tail);
  }
}
