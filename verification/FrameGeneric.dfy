/** Every other cipher: one cipher instance for the whole connection and a separate MAC, either
    over the plain packet or, for encrypt-then-MAC, over the encrypted one. */
module FrameGeneric {
  import opened Common
  import opened FrameSpec
  import Padding

  /** The primitives under one set of keys. `encrypt` and `decrypt` give the whole output of an
      instance after everything it has been fed, so chaining from packet to packet is part of
      them; what an arcfour instance is fed to begin with, and puts out then, does not count. */
  datatype Keys = Keys(
    encrypt: Bytes -> Bytes,
    decrypt: Bytes -> Bytes,
    hmac: Bytes -> Bytes,
    blockLen: nat,
    macLen: nat,
    etm: bool)

  /** Fed piece by piece, an instance only ever adds to its output, and has put out everything
      whenever it has been fed whole blocks. In between, one that works block by block lags
      behind. */
  ghost predicate Lawful(keys: Keys) {
    && (keys.blockLen == 8 || keys.blockLen == 16)
    && (forall x: Bytes {:trigger keys.decrypt(x)} ::
          |keys.decrypt(x)| <= |x| && (|x| % keys.blockLen == 0 ==> |keys.decrypt(x)| == |x|))
    && (forall x: Bytes, y: Bytes {:trigger keys.decrypt(x + y)} :: keys.decrypt(x) <= keys.decrypt(x + y))
    && (forall x: Bytes {:trigger keys.encrypt(x)} ::
          && |keys.encrypt(x)| <= |x|
          && (|x| % keys.blockLen == 0 ==> |keys.encrypt(x)| == |x| && keys.decrypt(keys.encrypt(x)) == x))
    && (forall x: Bytes, y: Bytes {:trigger keys.encrypt(x + y)} :: keys.encrypt(x) <= keys.encrypt(x + y))
    && (forall x: Bytes {:trigger keys.hmac(x)} :: |keys.hmac(x)| >= keys.macLen)
  }

  /** The check on packet_length. Masking a number with a power of two less one, negative
      numbers included, is the remainder Dafny computes. */
  predicate LengthOk(len: nat, block: nat, etm: bool) {
    && len <= Padding.MAX_PACKET_SIZE && len >= 5
    && block > 0 && (if etm then len else 4 + len - block) % block == 0
  }

  lemma LengthOkIsTheCheck(len: nat, block: nat, etm: bool)
    requires block == 8 || block == 16
    ensures LengthOk(len, block, etm) <==> Padding.GenericLengthOk(len, block, etm)
  {
    hide Padding.Multiple;
    Padding.MultipleIsWhole(if etm then len else 4 + len - block, block);
  }

  // ----- Suite: the state is everything the decipher has been fed -----

  function HeaderLen(keys: Keys): nat {
    if keys.etm then 4 else keys.blockLen
  }

  /** What the decipher puts out for `c` after `fed`. */
  function Plain(keys: Keys, fed: Bytes, c: Bytes): Bytes {
    var out := keys.decrypt(fed + c);
    if |fed| <= |out| then out[|fed|..] else []
  }

  function LengthOf(keys: Keys, fed: Bytes, header: Bytes): nat {
    var first := if keys.etm then header else Plain(keys, fed, header);
    if |first| >= 4 then GetU32(first) else 0
  }

  function Truncated(mac: Bytes, n: nat): Bytes {
    if n < |mac| then mac[..n] else mac
  }

  function Open(keys: Keys, fed: Bytes, seqno: uint32, w: Bytes): Option<Bytes> {
    if |w| < 4 + keys.macLen then None
    else
      var c, mac := w[..|w| - keys.macLen], w[|w| - keys.macLen..];
      if keys.etm then
        if Truncated(keys.hmac(PutU32(seqno) + c), keys.macLen) != mac then None
        else Some(Plain(keys, fed, c[4..]))
      else
        var p := Plain(keys, fed, c);
        if |p| < 4 || Truncated(keys.hmac(PutU32(seqno) + p), keys.macLen) != mac then None
        else Some(p[4..])
  }

  function Advance(keys: Keys, fed: Bytes, w: Bytes): Bytes {
    if |w| < 4 + keys.macLen then fed
    else fed + w[if keys.etm then 4 else 0..|w| - keys.macLen]
  }

  function TheSuite(keys: Keys): Suite<Bytes> {
    Suite(HeaderLen(keys), keys.macLen,
          (fed: Bytes, seqno: uint32, header: Bytes) => LengthOf(keys, fed, header),
          (len: nat) => LengthOk(len, keys.blockLen, keys.etm),
          (fed: Bytes, seqno: uint32, w: Bytes) => Open(keys, fed, seqno, w),
          (fed: Bytes, w: Bytes) => Advance(keys, fed, w))
  }

  /** What the cipher instance puts out for `p` when the peer's decipher has been fed `fed`. */
  function Encrypted(keys: Keys, fed: Bytes, p: Bytes): Bytes {
    var out := keys.encrypt(keys.decrypt(fed) + p);
    if |fed| <= |out| then out[|fed|..] else []
  }

  function SealOne(keys: Keys, fed: Bytes, seqno: uint32, packet: Bytes): Bytes {
    if |packet| < 4 then []
    else if keys.etm then
      var c := packet[..4] + Encrypted(keys, fed, packet[4..]);
      c + Truncated(keys.hmac(PutU32(seqno) + c), keys.macLen)
    else
      Encrypted(keys, fed, packet) + Truncated(keys.hmac(PutU32(seqno) + packet), keys.macLen)
  }

  function TheSeal(keys: Keys): Seal<Bytes> {
    (fed: Bytes, seqno: uint32, packet: Bytes) => SealOne(keys, fed, seqno, packet)
  }

  /** The decipher has been fed exactly what a cipher has put out for whole blocks. */
  predicate InStep(keys: Keys, fed: Bytes) {
    && keys.blockLen > 0 && |fed| % keys.blockLen == 0
    && |keys.decrypt(fed)| == |fed| && keys.encrypt(keys.decrypt(fed)) == fed
  }

  /** Encrypting whole blocks and deciphering them afterwards, both in the middle of a
      connection. */
  lemma EncryptThenDecrypt(keys: Keys, fed: Bytes, p: Bytes)
    requires Lawful(keys) && InStep(keys, fed) && |p| % keys.blockLen == 0
    ensures var c := Encrypted(keys, fed, p);
            |c| == |p| && Plain(keys, fed, c) == p && InStep(keys, fed + c)
  {
    var before := keys.decrypt(fed);
    var c := Encrypted(keys, fed, p);
    var out := keys.encrypt(before + p);
    assert |before + p| % keys.blockLen == 0 by {
      AddMultiples(|before|, |p|, keys.blockLen);
    }
    assert keys.encrypt(before) <= out;
    assert fed + c == out;
    assert keys.decrypt(out) == before + p;
    assert (before + p)[|fed|..] == p;
  }

  lemma AddMultiples(a: nat, b: nat, m: nat)
    requires m == 8 || m == 16
    requires a % m == 0 && b % m == 0
    ensures (a + b) % m == 0
  {
  }

  lemma CipherMatchesDecipher(keys: Keys)
    requires Lawful(keys)
    ensures Matches(TheSuite(keys), TheSeal(keys), (fed: Bytes) => InStep(keys, fed))
  {
    hide Lawful, InStep, SealOne, LengthOf, Open, Advance, LengthOk;
    var su, seal := TheSuite(keys), TheSeal(keys);
    forall fed: Bytes, seqno: uint32, packet: Bytes
      | InStep(keys, fed) && IsPacket(packet) && su.lengthOk(|packet| - 4)
      ensures var w := seal(fed, seqno, packet);
              && |w| == |packet| + su.tag
              && su.header <= |w|
              && su.length(fed, seqno, w[..su.header]) == |packet| - 4
              && su.open(fed, seqno, w) == Some(packet[4..])
              && InStep(keys, su.advance(fed, w))
    {
      if keys.etm {
        EtmMatches(keys, fed, seqno, packet);
      } else {
        PlainMacMatches(keys, fed, seqno, packet);
      }
    }
  }

  lemma EtmMatches(keys: Keys, fed: Bytes, seqno: uint32, packet: Bytes)
    requires Lawful(keys) && keys.etm && InStep(keys, fed)
    requires IsPacket(packet) && LengthOk(|packet| - 4, keys.blockLen, true)
    ensures var w := SealOne(keys, fed, seqno, packet);
            && |w| == |packet| + keys.macLen
            && LengthOf(keys, fed, w[..4]) == |packet| - 4
            && Open(keys, fed, seqno, w) == Some(packet[4..])
            && InStep(keys, Advance(keys, fed, w))
  {
    hide Lawful, InStep, Encrypted, Plain, Truncated;
    EncryptThenDecrypt(keys, fed, packet[4..]);
    var body := Encrypted(keys, fed, packet[4..]);
    var c := packet[..4] + body;
    MacLength(keys, PutU32(seqno) + c);
    var mac := Truncated(keys.hmac(PutU32(seqno) + c), keys.macLen);
    var w := SealOne(keys, fed, seqno, packet);
    assert w[..4] == packet[..4];
    assert w[..|w| - keys.macLen] == c && w[|w| - keys.macLen..] == mac;
    assert c[4..] == body && w[4..|w| - keys.macLen] == body;
  }

  lemma PlainMacMatches(keys: Keys, fed: Bytes, seqno: uint32, packet: Bytes)
    requires Lawful(keys) && !keys.etm && InStep(keys, fed)
    requires IsPacket(packet) && LengthOk(|packet| - 4, keys.blockLen, false)
    ensures var w := SealOne(keys, fed, seqno, packet);
            && |w| == |packet| + keys.macLen && keys.blockLen <= |w|
            && LengthOf(keys, fed, w[..keys.blockLen]) == |packet| - 4
            && Open(keys, fed, seqno, w) == Some(packet[4..])
            && InStep(keys, Advance(keys, fed, w))
  {
    hide Lawful, InStep, Encrypted, Plain, Truncated;
    WholeBlocks(keys, packet);
    EncryptThenDecrypt(keys, fed, packet);
    FirstBlock(keys, fed, packet);
    MacLength(keys, PutU32(seqno) + packet);
    var c := Encrypted(keys, fed, packet);
    var mac := Truncated(keys.hmac(PutU32(seqno) + packet), keys.macLen);
    var w := SealOne(keys, fed, seqno, packet);
    assert w[..keys.blockLen] == c[..keys.blockLen];
    assert w[..|w| - keys.macLen] == c && w[|w| - keys.macLen..] == mac;
    assert w[0..|w| - keys.macLen] == c;
  }

  lemma WholeBlocks(keys: Keys, packet: Bytes)
    requires Lawful(keys) && |packet| >= 4 && LengthOk(|packet| - 4, keys.blockLen, false)
    ensures |packet| % keys.blockLen == 0 && |packet| >= keys.blockLen >= 8
  {
    assert keys.blockLen == 8 || keys.blockLen == 16;
    hide Lawful;
    OneBlockMore(|packet| - keys.blockLen, keys.blockLen);
  }

  lemma OneBlockMore(a: int, m: nat)
    requires (m == 8 || m == 16) && a % m == 0 && a + m > 0
    ensures (a + m) % m == 0 && a + m >= m
  {
    hide Padding.Times;
    var t := a / m;
    Padding.TimesOfQuotient(a);
    Padding.TimesOfOne(m);
    Padding.TimesPlus(t, 1, m);
    Padding.TimesIsWhole(t + 1);
    AtLeastOne(a + m, m);
  }

  lemma AtLeastOne(n: int, m: nat)
    requires (m == 8 || m == 16) && n % m == 0 && n > 0
    ensures n >= m
  {
  }

  lemma MacLength(keys: Keys, x: Bytes)
    requires Lawful(keys)
    ensures |Truncated(keys.hmac(x), keys.macLen)| == keys.macLen
  {
  }

  /** The first block alone decrypts to the first block of the packet. */
  lemma FirstBlock(keys: Keys, fed: Bytes, packet: Bytes)
    requires Lawful(keys) && InStep(keys, fed) && |packet| % keys.blockLen == 0 && |packet| >= keys.blockLen
    ensures var c := Encrypted(keys, fed, packet);
            |c| == |packet| && Plain(keys, fed, c[..keys.blockLen]) == packet[..keys.blockLen]
  {
    EncryptThenDecrypt(keys, fed, packet);
    var c := Encrypted(keys, fed, packet);
    var first := c[..keys.blockLen];
    assert (fed + first) + c[keys.blockLen..] == fed + c;
    assert keys.decrypt(fed + first) <= keys.decrypt(fed + c);
    assert |keys.decrypt(fed + first)| == |fed| + keys.blockLen by {
      AddMultiples(|fed|, keys.blockLen, keys.blockLen);
    }
    assert keys.decrypt(fed + c)[|fed|..] == packet;
  }

  // ----- What the decipher puts out -----

  /** A whole number of blocks. */
  predicate Blocks(keys: Keys, n: nat) {
    keys.blockLen > 0 && n % keys.blockLen == 0
  }

  lemma PlainLength(keys: Keys, fed: Bytes, c: Bytes)
    requires Lawful(keys) && Blocks(keys, |fed|)
    ensures |keys.decrypt(fed)| == |fed|
    ensures keys.decrypt(fed + c) == keys.decrypt(fed) + Plain(keys, fed, c)
    ensures |Plain(keys, fed, c)| <= |c|
    ensures Blocks(keys, |c|) ==> |Plain(keys, fed, c)| == |c| && Blocks(keys, |fed + c|)
  {
    assert keys.decrypt(fed) <= keys.decrypt(fed + c);
    if Blocks(keys, |c|) {
      AddMultiples(|fed|, |c|, keys.blockLen);
    }
  }

  lemma PlainGrows(keys: Keys, fed: Bytes, c: Bytes, more: Bytes)
    requires Lawful(keys) && Blocks(keys, |fed|)
    ensures |keys.decrypt(fed + c)| <= |keys.decrypt(fed + (c + more))|
    ensures Plain(keys, fed, c + more)
            == Plain(keys, fed, c) + keys.decrypt(fed + (c + more))[|keys.decrypt(fed + c)|..]
  {
    PlainLength(keys, fed, c);
    PlainLength(keys, fed, c + more);
    assert fed + (c + more) == (fed + c) + more;
    assert keys.decrypt(fed + c) <= keys.decrypt((fed + c) + more);
  }

  /** What is deciphered of a packet after its length. */
  function Rest(keys: Keys, fed: Bytes, body: Bytes): Bytes {
    var p := Plain(keys, fed, body);
    if keys.etm || |p| < 4 then p else p[4..]
  }

  /** Whole blocks are deciphered whole. */
  lemma RestOfWhole(keys: Keys, fed: Bytes, body: Bytes)
    requires Lawful(keys) && Blocks(keys, |fed|) && Blocks(keys, |body|) && (keys.etm || |body| >= 4)
    ensures |Plain(keys, fed, body)| == |body| && Blocks(keys, |fed + body|)
    ensures Rest(keys, fed, body) == if keys.etm then Plain(keys, fed, body) else Plain(keys, fed, body)[4..]
  {
    hide Lawful, Plain;
    PlainLength(keys, fed, body);
  }

  lemma RestGrows(keys: Keys, fed: Bytes, body: Bytes, chunk: Bytes) returns (added: Bytes)
    requires Lawful(keys) && Blocks(keys, |fed|)
    requires keys.etm || |Plain(keys, fed, body)| >= 4
    ensures |keys.decrypt(fed + body)| <= |keys.decrypt(fed + (body + chunk))|
    ensures added == keys.decrypt(fed + (body + chunk))[|keys.decrypt(fed + body)|..]
    ensures Rest(keys, fed, body + chunk) == Rest(keys, fed, body) + added
    ensures |Rest(keys, fed, body) + added| <= |body| + |chunk| - if keys.etm then 0 else 4
  {
    PlainGrows(keys, fed, body, chunk);
    PlainLength(keys, fed, body + chunk);
    hide Lawful, Plain;
    added := keys.decrypt(fed + (body + chunk))[|keys.decrypt(fed + body)|..];
    var p := Plain(keys, fed, body);
    assert |p| >= 4 ==> (p + added)[4..] == p[4..] + added;
  }

  class GenericCipher {
    const keys: Keys
    var outSeqno: uint32
    /** `_cipherInstance`: everything it has been fed. */
    var instance: Bytes
    /** Everything handed to `onWrite`. */
    var written: Bytes

    constructor (keys: Keys, instance: Bytes, seqno: uint32)
      ensures this.keys == keys && this.instance == instance && outSeqno == seqno && written == []
    {
      this.keys := keys;
      this.instance := instance;
      outSeqno := seqno;
      written := [];
    }

    /** `_cipherInstance.update`. */
    method Update(chunk: Bytes) returns (encrypted: Bytes)
      requires Lawful(keys)
      modifies this`instance
      ensures instance == old(instance) + chunk
      ensures |keys.encrypt(old(instance))| <= |keys.encrypt(instance)|
      ensures encrypted == keys.encrypt(instance)[|keys.encrypt(old(instance))|..]
    {
      var before := keys.encrypt(instance);
      assert before <= keys.encrypt(instance + chunk);
      encrypted := keys.encrypt(instance + chunk)[|before|..];
      instance := instance + chunk;
    }

    /** What is written is the packet sealed for a decipher that has been fed everything this
        cipher has put out so far. Packets come padded to whole blocks. */
    method Encrypt(packet: Bytes)
      requires Lawful(keys) && |packet| >= 4 && Blocks(keys, |instance|)
      requires Blocks(keys, |packet| - if keys.etm then 4 else 0)
      modifies this`written, this`instance, this`outSeqno
      ensures var fed := keys.encrypt(old(instance));
              var w := SealOne(keys, fed, old(outSeqno), packet);
              && written == old(written) + w
              && keys.encrypt(instance) == Advance(keys, fed, w)
      ensures Blocks(keys, |instance|)
      ensures outSeqno == Wrap(old(outSeqno) + 1)
    {
      hide *;
      ghost var c := SealedIs(keys, instance, outSeqno, packet);
      ghost var was := written;
      var macInput := PutU32(outSeqno);
      if keys.etm {
        var lenBytes := packet[..4];
        var encrypted := Update(packet[4..]);
        written := written + lenBytes;
        written := written + encrypted;
        macInput := macInput + lenBytes;
        macInput := macInput + encrypted;
        Grouped(was, lenBytes, encrypted);
        Grouped(PutU32(outSeqno), lenBytes, encrypted);
      } else {
        var encrypted := Update(packet);
        written := written + encrypted;
        macInput := macInput + packet;
      }
      var digest := Digest(macInput);
      Grouped(was, c, digest);
      written := written + digest;
      outSeqno := Wrap(outSeqno + 1);
    }

    method Digest(macInput: Bytes) returns (digest: Bytes)
      ensures digest == Truncated(keys.hmac(macInput), keys.macLen)
    {
      digest := keys.hmac(macInput);
      if |digest| > keys.macLen {
        digest := digest[..keys.macLen];
      }
    }
  }

  lemma PutLast(a: Bytes, b: Bytes, c: Bytes, x: Bytes)
    ensures (a + (b + c)) + x == a + (b + (c + x)) && (b + c) + x == b + (c + x)
  {
  }

  lemma Inserted(a: Bytes, b: Bytes, x: Bytes)
    ensures (a + (b + x)) + [] == ((a + b) + []) + x
  {
  }

  lemma Grouped(a: Bytes, b: Bytes, c: Bytes)
    ensures (a + b) + c == a + (b + c)
  {
  }

  /** A sealed packet in terms of the cipher instance that seals it. */
  lemma SealedIs(keys: Keys, instance: Bytes, seqno: uint32, packet: Bytes) returns (c: Bytes)
    requires Lawful(keys) && |packet| >= 4 && Blocks(keys, |instance|)
    requires Blocks(keys, |packet| - if keys.etm then 4 else 0)
    ensures |keys.encrypt(instance)| == |instance|
    ensures Blocks(keys, |instance + if keys.etm then packet[4..] else packet|)
    ensures var fed := keys.encrypt(instance);
            var after := keys.encrypt(instance + if keys.etm then packet[4..] else packet);
            var w := SealOne(keys, fed, seqno, packet);
            && |instance| <= |after|
            && c == (if keys.etm then packet[..4] + after[|instance|..] else after[|instance|..])
            && w == c + Truncated(keys.hmac(PutU32(seqno) + if keys.etm then c else packet), keys.macLen)
            && after == Advance(keys, fed, w)
  {
    var fed := keys.encrypt(instance);
    var part := if keys.etm then packet[4..] else packet;
    var after := keys.encrypt(instance + part);
    assert keys.decrypt(fed) == instance && fed <= after;
    AddMultiples(|instance|, |part|, keys.blockLen);
    assert |after| == |instance| + |part|;
    c := if keys.etm then packet[..4] + after[|instance|..] else after[|instance|..];
    var mac := Truncated(keys.hmac(PutU32(seqno) + if keys.etm then c else packet), keys.macLen);
    assert |mac| == keys.macLen;
    hide Lawful, Truncated, PutU32;
    var w := c + mac;
    assert SealOne(keys, fed, seqno, packet) == w;
    assert w[if keys.etm then 4 else 0..|w| - keys.macLen] == after[|instance|..];
  }

  class GenericDecipher {
    const keys: Keys
    var inSeqno: uint32
    /** `_decipherInstance`: everything it has been fed. */
    var instance: Bytes
    const block: array<byte>
    var blockPos: nat
    var len: nat
    var packet: array?<byte>
    var packetPos: nat
    var pktLen: nat
    const mac: array<byte>
    var macPos: nat
    /** `_macInstance`: what it has been fed. */
    var macInput: Option<Bytes>
    /** The payloads the handler has been called with. */
    var delivered: seq<Bytes>
    /** What the decipher had been fed before this packet, and the encrypted bytes of the packet
        after its first block. */
    ghost var fed: Bytes
    ghost var seen: Bytes

    ghost function Repr(): set<object>
      reads this
    {
      {this, block, mac} + if packet == null then {} else {packet}
    }

    /** The part of the packet that goes through the decipher. */
    ghost function Body(): Bytes
      reads this, block
    {
      if keys.etm then seen else block[..] + seen
    }

    /** What has been deciphered of the packet after its length. */
    ghost function Deciphered(): Bytes
      reads this, block
    {
      Rest(keys, fed, Body())
    }

    ghost function MacInput(): Bytes
      reads this, block
    {
      if keys.etm then PutU32(inSeqno) + (block[..] + seen)
      else
        var p := Plain(keys, fed, block[..]);
        PutU32(inSeqno) + if |p| < 4 then p else p[..4]
    }

    ghost predicate Shape()
      reads `fed, `packet, `blockPos, `macPos, `pktLen, `len
    {
      && (keys.blockLen == 8 || keys.blockLen == 16)
      && Blocks(keys, |fed|)
      && block.Length == HeaderLen(keys) && blockPos <= block.Length
      && mac.Length == keys.macLen > 0 && macPos <= keys.macLen
      && block != mac && packet != block && packet != mac
      && pktLen <= len
    }

    ghost predicate Reading()
      requires Shape()
      reads this, Repr()
    {
      && len == LengthOf(keys, fed, block[..]) && LengthOk(len, keys.blockLen, keys.etm)
      && instance == fed + Body()
      && |block[..]| + |seen| == 4 + pktLen
      && packetPos == |Deciphered()|
      && (packet == null ==> packetPos == 0)
      && (packet != null ==> packet.Length == len && packetPos <= len && packet[..packetPos] == Deciphered())
      && macInput == Some(MacInput())
      && (macPos > 0 ==> pktLen == len)
    }

    /** Nothing of a packet there but perhaps a part of its first block. */
    ghost predicate AtStart()
      reads this
    {
      && blockPos < block.Length && seen == [] && instance == fed && packet == null && macInput.None?
      && pktLen == 0 && packetPos == 0 && macPos == 0 && len == 0
    }

    ghost predicate Valid()
      reads Repr()
    {
      && Shape()
      && (blockPos < block.Length ==> AtStart())
      && (blockPos == block.Length ==> Reading())
    }

    ghost predicate Ready()
      reads Repr()
    {
      Valid() && macPos < keys.macLen
    }

    /** The bytes of the packet being read that have arrived so far. */
    ghost function Pending(): Bytes
      requires Valid()
      reads Repr()
    {
      block[..blockPos] + seen + mac[..macPos]
    }

    constructor (keys: Keys, fed: Bytes, seqno: uint32, delivered: seq<Bytes>)
      requires (keys.blockLen == 8 || keys.blockLen == 16) && keys.macLen > 0
      requires Blocks(keys, |fed|)
      ensures Ready() && fresh(Repr()) && Pending() == []
      ensures this.keys == keys && this.fed == fed && inSeqno == seqno && this.delivered == delivered
    {
      this.keys := keys;
      inSeqno := seqno;
      instance, this.fed, seen := fed, fed, [];
      block := new byte[HeaderLen(keys)];
      mac := new byte[keys.macLen];
      blockPos, len, packet, packetPos, pktLen, macPos := 0, 0, null, 0, 0, 0;
      macInput := None;
      this.delivered := delivered;
    }

    /** `_decipherInstance.update`. */
    method Update(chunk: Bytes) returns (decrypted: Bytes)
      requires Lawful(keys)
      modifies this`instance
      ensures instance == old(instance) + chunk
      ensures |keys.decrypt(old(instance))| <= |keys.decrypt(instance)|
      ensures decrypted == keys.decrypt(instance)[|keys.decrypt(old(instance))|..]
    {
      var before := keys.decrypt(instance);
      assert before <= keys.decrypt(instance + chunk);
      instance := instance + chunk;
      decrypted := keys.decrypt(instance)[|before|..];
    }

    /** The first block of a packet, or only its length with encrypt-then-MAC. */
    method ReadBlock(data: Bytes, start: nat) returns (p: nat, stage: Stage)
      requires Lawful(keys) && Valid() && start <= |data| && blockPos < block.Length
      modifies this`blockPos, this`len, this`instance, this`packet, this`packetPos, this`pktLen,
               this`macInput, block
      ensures start <= p <= |data| && (start < |data| ==> start < p)
      ensures packet == null || fresh(packet)
      ensures stage == Complete ==> blockPos == block.Length && p < |data|
      ensures stage == Short ==> p == |data|
      ensures stage != Bad ==> Ready() && Pending() == old(Pending()) + data[start..p]
      ensures stage == Bad ==> InvalidAt(fed, old(Pending()) + data[start..p])
    {
      hide Lawful, LengthOk, LengthOf, Deciphered, MacInput, Plain;
      ghost var w0 := Pending();
      assert w0 == block[..blockPos];
      var nb := if block.Length - blockPos < |data| - start then block.Length - blockPos else |data| - start;
      forall i | 0 <= i < nb {
        block[blockPos + i] := data[start + i];
      }
      p := start + nb;
      blockPos := blockPos + nb;
      assert mac[..macPos] == [];
      assert block[..blockPos] == w0 + data[start..p];
      if blockPos < block.Length {
        stage := Short;
        return;
      }
      assert block[..blockPos] == block[..];
      var ok := BeginPacket();
      stage := if !ok then Bad else if p >= |data| then Short else Complete;
    }

    method BeginPacket() returns (ok: bool)
      requires Lawful(keys) && Shape() && blockPos == block.Length
      requires seen == [] && instance == fed && packet == null && macInput.None?
      requires pktLen == 0 && packetPos == 0 && macPos == 0
      modifies this`len, this`instance, this`packet, this`packetPos, this`pktLen, this`macInput
      ensures packet == null || fresh(packet)
      ensures ok ==> Shape() && Reading()
      ensures !ok ==> InvalidAt(fed, block[..])
    {
      hide LengthOk, Lawful, Reading, Plain, LengthOf, PutU32, Blocks;
      var decrypted, need := TakeLength();
      ok := LengthIsFine(need);
      if !ok {
        return;
      }
      if keys.etm {
        macInput := Some(PutU32(inSeqno) + block[..]);
        BeginsEtm();
      } else {
        macInput := Some(PutU32(inSeqno) + decrypted[..4]);
        StoreBlock(decrypted);
        BeginsPlain();
      }
    }

    /** packet_length, for which the first block has to be deciphered unless it is not encrypted. */
    method TakeLength() returns (decrypted: Bytes, need: int)
      requires Lawful(keys) && Shape() && blockPos == block.Length && instance == fed
      modifies this`len, this`instance
      ensures len == LengthOf(keys, fed, block[..]) && need == if keys.etm then len else 4 + len - keys.blockLen
      ensures instance == if keys.etm then fed else fed + block[..]
      ensures !keys.etm ==> decrypted == Plain(keys, fed, block[..]) && |decrypted| == keys.blockLen
    {
      PlainLength(keys, fed, block[..]);
      hide Lawful;
      decrypted := [];
      if keys.etm {
        len := GetU32(block[..]);
        need := len;
      } else {
        decrypted := Update(block[..]);
        assert decrypted == Plain(keys, fed, block[..]);
        len := GetU32(decrypted);
        need := 4 + len - keys.blockLen;
      }
    }

    /** A packet of which only the length has arrived. */
    lemma BeginsEtm()
      requires Lawful(keys) && Shape() && keys.etm && blockPos == block.Length
      requires len == LengthOf(keys, fed, block[..]) && LengthOk(len, keys.blockLen, true)
      requires seen == [] && instance == fed && packet == null && packetPos == 0 && pktLen == 0 && macPos == 0
      requires macInput == Some(PutU32(inSeqno) + block[..])
      ensures Reading()
    {
      PlainLength(keys, fed, []);
      hide Lawful, LengthOk, LengthOf, PutU32, Plain;
      assert fed + [] == fed && block[..] + seen == block[..];
    }

    /** A packet of which only the first block has arrived. */
    lemma BeginsPlain()
      requires Lawful(keys) && Shape() && !keys.etm && blockPos == block.Length
      requires len == LengthOf(keys, fed, block[..]) && LengthOk(len, keys.blockLen, false)
      requires seen == [] && instance == fed + block[..] && macPos == 0
      requires var p := Plain(keys, fed, block[..]);
               && |p| >= 4 && packet != null && packet.Length == len && pktLen == packetPos == |p| - 4
               && packet[..packetPos] == p[4..] && macInput == Some(PutU32(inSeqno) + p[..4])
      ensures Reading()
    {
      PlainLength(keys, fed, block[..]);
      hide Lawful, LengthOk, LengthOf, PutU32, Plain;
      assert block[..] + seen == block[..];
    }

    /** The check on packet_length. */
    method LengthIsFine(need: int) returns (ok: bool)
      requires Shape() && need == if keys.etm then len else 4 + len - keys.blockLen
      ensures ok == LengthOk(len, keys.blockLen, keys.etm)
      ensures ok && !keys.etm ==> keys.blockLen - 4 <= len
    {
      ok := !(len > Padding.MAX_PACKET_SIZE || len < 5 || need % keys.blockLen != 0);
    }

    /** The rest of a deciphered first block starts the packet. */
    method StoreBlock(decrypted: Bytes)
      requires 4 <= |decrypted| <= 4 + len
      modifies this`packet, this`packetPos, this`pktLen
      ensures packet != null && fresh(packet) && packet.Length == len
      ensures pktLen == packetPos == |decrypted| - 4
      ensures packet[..packetPos] == decrypted[4..]
    {
      pktLen := |decrypted| - 4;
      packetPos := pktLen;
      packet := new byte[len];
      forall i | 0 <= i < packetPos {
        packet[i] := decrypted[4 + i];
      }
    }

    method Store(decrypted: Bytes, whole: bool)
      requires packetPos + |decrypted| <= len && decrypted != []
      requires whole ==> packetPos == 0 && |decrypted| == len
      requires packet == null ==> packetPos == 0
      requires packet != null ==> packet.Length == len
      modifies this`packet, this`packetPos, packet
      ensures packet != null && packet.Length == len && (packet == old(packet) || fresh(packet))
      ensures packetPos == old(packetPos) + |decrypted|
      ensures packet[..packetPos]
              == (if old(packet) == null then [] else old(packet[..packetPos])) + decrypted
    {
      if whole {
        packet := new byte[|decrypted|](i requires 0 <= i < |decrypted| => decrypted[i]);
        assert packet[..|decrypted|] == decrypted;
      } else {
        if packet == null {
          packet := new byte[len];
        }
        forall i | 0 <= i < |decrypted| {
          packet[packetPos + i] := decrypted[i];
        }
      }
      packetPos := packetPos + |decrypted|;
    }

    /** One more piece of the packet: what it adds to what has been deciphered. */
    lemma OnePieceMore(chunk: Bytes) returns (added: Bytes)
      requires Lawful(keys) && Shape() && pktLen + |chunk| <= len
      requires instance == fed + Body() && |block[..]| + |seen| == 4 + pktLen
      ensures |keys.decrypt(instance)| <= |keys.decrypt(instance + chunk)|
      ensures added == keys.decrypt(instance + chunk)[|keys.decrypt(instance)|..]
      ensures instance + chunk == fed + (Body() + chunk)
      ensures Rest(keys, fed, Body() + chunk) == Deciphered() + added
      ensures |Deciphered() + added| <= pktLen + |chunk|
    {
      hide LengthOk, LengthOf, MacInput, Lawful, Plain, Rest;
      if !keys.etm {
        AtLeastFour();
      }
      assert instance + chunk == fed + (Body() + chunk);
      added := RestGrows(keys, fed, Body(), chunk);
    }

    lemma AtLeastFour()
      requires Lawful(keys) && Shape() && !keys.etm
      ensures |Plain(keys, fed, block[..])| == |block[..]| >= 4
      ensures Plain(keys, fed, block[..]) <= Plain(keys, fed, Body())
      ensures |Plain(keys, fed, Body())| >= 4
    {
      PlainLength(keys, fed, block[..]);
      PlainGrows(keys, fed, block[..], seen);
    }

    /** The length field of these first bytes is out of range. */
    ghost predicate InvalidAt(before: Bytes, w: Bytes) {
      |w| == HeaderLen(keys) && !LengthOk(LengthOf(keys, before, w), keys.blockLen, keys.etm)
    }

    /** A packet that arrives in one piece after its length is deciphered in one piece. */
    lemma AllAtOnce(chunk: Bytes)
      requires Lawful(keys) && Shape() && blockPos == block.Length && pktLen + |chunk| == len == |chunk|
      requires LengthOk(len, keys.blockLen, keys.etm)
      requires instance == fed + Body() && |block[..]| + |seen| == 4 + pktLen && packetPos == |Deciphered()|
      ensures packetPos == 0
      ensures |keys.decrypt(instance + chunk)| - |keys.decrypt(instance)| == len
    {
      assert keys.etm && seen == [] && instance == fed;
      PlainLength(keys, fed, []);
      PlainLength(keys, fed, chunk);
    }

    method ReadBody(data: Bytes, start: nat) returns (p: nat, stage: Stage)
      requires Lawful(keys) && Valid() && start < |data| && blockPos == block.Length && pktLen < len
      modifies this`packet, this`packetPos, this`pktLen, this`instance, this`macInput, this`seen, packet
      ensures Ready() && fresh(Repr() - old(Repr()))
      ensures start < p <= |data| && stage != Bad
      ensures Pending() == old(Pending()) + data[start..p]
      ensures stage == Complete ==> pktLen == len && p < |data|
      ensures stage == Short ==> p == |data|
    {
      hide Lawful, LengthOk, LengthOf, MacInput, Deciphered, Reading;
      NoMacYet();
      ghost var first, before := block[..blockPos], seen;
      var nb := if len - pktLen < |data| - start then len - pktLen else |data| - start;
      p := start + nb;
      Decipher(data[start..p]);
      assert block[..blockPos] == first && mac[..macPos] == [];
      Inserted(first, before, data[start..p]);
      stage := if pktLen < len || p >= |data| then Short else Complete;
    }

    lemma NoMacYet()
      requires Valid() && blockPos == block.Length && pktLen < len
      ensures macPos == 0 < keys.macLen && seen + [] == seen
    {
    }

    method Decipher(encrypted: Bytes)
      requires Lawful(keys) && Valid() && blockPos == block.Length
      requires encrypted != [] && pktLen + |encrypted| <= len
      modifies this`packet, this`packetPos, this`pktLen, this`instance, this`macInput, this`seen, packet
      ensures Shape() && Reading() && fresh(Repr() - old(Repr()))
      ensures seen == old(seen) + encrypted && pktLen == old(pktLen) + |encrypted|
      ensures block[..] == old(block[..]) && mac[..] == old(mac[..])
    {
      hide Lawful, LengthOk, LengthOf, Plain, Rest, PutU32, Blocks;
      if keys.etm {
        PutLast(PutU32(inSeqno), block[..], seen, encrypted);
        macInput := Some(macInput.value + encrypted);
      }
      PutLast([], block[..], seen, encrypted);
      Append(encrypted);
      assert block[..] == old(block[..]) && mac[..] == old(mac[..]);
      seen := seen + encrypted;
      pktLen := pktLen + |encrypted|;
    }

    /** Decipher some bytes and put the result at the end of the packet. */
    method Append(encrypted: Bytes)
      requires Lawful(keys) && Shape() && blockPos == block.Length
      requires encrypted != [] && pktLen + |encrypted| <= len && LengthOk(len, keys.blockLen, keys.etm)
      requires instance == fed + Body() && |block[..]| + |seen| == 4 + pktLen
      requires packetPos == |Deciphered()| && (packet == null ==> packetPos == 0)
      requires packet != null ==>
                 packet.Length == len && packetPos <= len && packet[..packetPos] == Deciphered()
      modifies this`packet, this`packetPos, this`instance, packet
      ensures packet == old(packet) || (packet != null && fresh(packet))
      ensures instance == fed + (Body() + encrypted)
      ensures packetPos == |Rest(keys, fed, Body() + encrypted)| && (packet == null ==> packetPos == 0)
      ensures packet != null ==>
                && packet.Length == len && packetPos <= len
                && packet[..packetPos] == Rest(keys, fed, Body() + encrypted)
    {
      ghost var added := OnePieceMore(encrypted);
      if |encrypted| == len {
        AllAtOnce(encrypted);
      }
      hide Lawful, LengthOk, Plain, Rest;
      var decrypted := Update(encrypted);
      if decrypted != [] {
        Store(decrypted, |encrypted| == len);
      }
      assert block[..] == old(block[..]);
    }

    method ReadMac(data: Bytes, start: nat) returns (p: nat, stage: Stage)
      requires Ready() && start < |data| && blockPos == block.Length && pktLen == len
      modifies this`macPos, mac
      ensures Valid()
      ensures start < p <= |data| && stage != Bad
      ensures Pending() == old(Pending()) + data[start..p]
      ensures stage == Complete ==> macPos == keys.macLen
      ensures stage == Short ==> p == |data| && macPos < keys.macLen
    {
      hide LengthOk, LengthOf, Plain, Rest, PutU32, Blocks;
      var nb := if keys.macLen - macPos < |data| - start then keys.macLen - macPos else |data| - start;
      p := start + nb;
      StoreMac(data[start..p]);
      assert Valid();
      stage := if macPos < keys.macLen then Short else Complete;
    }

    method StoreMac(chunk: Bytes)
      requires macPos + |chunk| <= mac.Length
      modifies this`macPos, mac
      ensures macPos == old(macPos) + |chunk| && mac[..macPos] == old(mac[..macPos]) + chunk
    {
      forall i | 0 <= i < |chunk| {
        mac[macPos + i] := chunk[i];
      }
      macPos := macPos + |chunk|;
    }

    /** Verify the MAC, then make ready for the next packet. */
    method Finish() returns (payload: Option<Bytes>)
      requires Lawful(keys) && Valid() && blockPos == block.Length && pktLen == len && macPos == keys.macLen
      modifies this`inSeqno, this`len, this`blockPos, this`packet, this`packetPos, this`pktLen,
               this`macPos, this`macInput, this`delivered, this`fed, this`seen
      ensures var r := First(TheSuite(keys), old(fed), old(inSeqno), old(Pending()));
              if payload.Some? then
                && r == Got(payload.value, |old(Pending())|, fed)
                && Ready() && packet == null && Pending() == []
                && inSeqno == Wrap(old(inSeqno) + 1)
                && delivered == old(delivered) + [payload.value]
              else r == Invalid && delivered == old(delivered) && packet == old(packet)
    {
      hide *;
      FirstOfWhole();
      if !keys.etm {
        macInput := Some(macInput.value + packet[..]);
      }
      var calculated := Truncated(keys.hmac(macInput.value), keys.macLen);
      if calculated != mac[..] {
        return None;
      }
      payload := PayloadOf(packet[..]);
      if payload.None? {
        return;
      }
      Deliver(payload.value);
      StartIsReady();
    }

    lemma StartIsReady()
      requires Shape() && AtStart() && blockPos == 0
      ensures Ready() && packet == null && Pending() == []
    {
    }

    /** Make ready for the next packet and call the handler. */
    method Deliver(payload: Bytes)
      requires Shape() && Blocks(keys, |instance|)
      modifies this`inSeqno, this`len, this`blockPos, this`packet, this`packetPos, this`pktLen,
               this`macPos, this`macInput, this`delivered, this`fed, this`seen
      ensures Shape() && AtStart() && blockPos == 0 && fed == instance
      ensures inSeqno == Wrap(old(inSeqno) + 1) && delivered == old(delivered) + [payload]
    {
      hide Blocks, Wrap;
      ClearPacket();
      inSeqno := Wrap(inSeqno + 1);
      fed, seen := instance, [];
      delivered := delivered + [payload];
    }

    method ClearPacket()
      modifies this`len, this`blockPos, this`packet, this`packetPos, this`pktLen, this`macPos, this`macInput
      ensures blockPos == len == packetPos == pktLen == macPos == 0 && packet == null && macInput.None?
    {
      blockPos, len, packet, packetPos, pktLen, macPos := 0, 0, null, 0, 0, 0;
      macInput := None;
    }

    /** Everything there: the packet is whole and the MAC is over the right bytes. */
    lemma WholePacket()
      requires Lawful(keys) && Valid() && blockPos == block.Length && pktLen == len
      ensures |block[..] + seen| == 4 + len && Blocks(keys, |instance|)
      ensures packet != null && |Deciphered()| == len && packet[..] == Deciphered()
      ensures keys.etm ==> Deciphered() == Plain(keys, fed, seen)
      ensures !keys.etm ==>
                var p := Plain(keys, fed, block[..] + seen);
                && |p| == 4 + len && Deciphered() == p[4..]
                && MacInput() + packet[..] == PutU32(inSeqno) + p
    {
      BodyIsWhole();
      hide MacInput, PutU32, Plain, Rest, Lawful, LengthOf, Blocks, LengthOk;
      RestOfWhole(keys, fed, Body());
      WholeMac();
      AllOfPacket();
    }

    lemma BodyIsWhole()
      requires Lawful(keys) && Valid() && blockPos == block.Length && pktLen == len
      ensures Blocks(keys, |Body()|) && instance == fed + Body() && len >= 5
      ensures |Body()| == if keys.etm then len else 4 + len
    {
      assert keys.blockLen == 8 || keys.blockLen == 16;
      hide Lawful, LengthOf, MacInput, Deciphered;
      if !keys.etm {
        OneBlockMore(4 + len - keys.blockLen, keys.blockLen);
      }
    }

    lemma AllOfPacket()
      requires Valid() && blockPos == block.Length && pktLen == len && |Deciphered()| == len > 0
      ensures packet != null && packet[..] == Deciphered()
    {
      hide LengthOf, LengthOk, MacInput, Deciphered;
      assert packet != null && packet[..len] == packet[..];
    }

    lemma WholeMac()
      requires Lawful(keys) && Shape() && !keys.etm ==> Blocks(keys, |Body()|)
      ensures Lawful(keys) && Shape() && !keys.etm ==>
                var p := Plain(keys, fed, block[..] + seen);
                |p| == |block[..]| + |seen| >= 4 && MacInput() + p[4..] == PutU32(inSeqno) + p
    {
      hide PutU32, Lawful, Plain, Blocks;
      if Lawful(keys) && Shape() && !keys.etm {
        AtLeastFour();
        PlainLength(keys, fed, Body());
        var p := Plain(keys, fed, block[..] + seen);
        assert Plain(keys, fed, block[..])[..4] == p[..4];
        assert p[..4] + p[4..] == p;
      }
    }

    lemma FirstOfWhole()
      requires Lawful(keys) && Valid() && blockPos == block.Length && pktLen == len && macPos == keys.macLen
      ensures Shape() && packet != null && Blocks(keys, |instance|) && macInput.Some?
      ensures var input := if keys.etm then macInput.value else macInput.value + packet[..];
              First(TheSuite(keys), fed, inSeqno, Pending()) ==
              if Truncated(keys.hmac(input), keys.macLen) != mac[..] || PayloadOf(packet[..]).None? then Invalid
              else Got(PayloadOf(packet[..]).value, |Pending()|, instance)
    {
      hide Lawful, LengthOk, LengthOf, PayloadOf, Truncated, Plain, PutU32, First, Deciphered, TheSuite, Rest;
      WholePacket();
      assert Pending() == block[..] + seen + mac[..];
      WholeIs(keys, fed, inSeqno, len, block[..], seen, mac[..]);
    }

    /** Not enough has arrived to tell what the packet is. */
    lemma FirstOfPart()
      requires Ready()
      ensures First(TheSuite(keys), fed, inSeqno, Pending()) == NeedMore
    {
      hide LengthOk, LengthOf, Rest, MacInput, PutU32, Blocks, Open, Advance;
      if blockPos == block.Length {
        assert block[..blockPos] == block[..];
        assert Pending()[..HeaderLen(keys)] == block[..];
      }
    }

    lemma InvalidHeader(before: Bytes, n: uint32, first: Bytes, more: Bytes)
      requires InvalidAt(before, first)
      ensures First(TheSuite(keys), before, n, first + more) == Invalid
    {
      hide LengthOk, LengthOf;
      assert (first + more)[..HeaderLen(keys)] == first;
    }

    /** As much of the current packet as there is, stage by stage. */
    method ReadStages(data: Bytes, start: nat) returns (p: nat, stage: Stage)
      requires Lawful(keys) && Ready() && start < |data|
      modifies Repr()
      ensures fresh(Repr() - old(Repr())) && start < p <= |data|
      ensures inSeqno == old(inSeqno) && delivered == old(delivered) && fed == old(fed)
      ensures stage == Bad ==> InvalidAt(fed, old(Pending()) + data[start..p])
      ensures stage != Bad ==> Valid() && Pending() == old(Pending()) + data[start..p]
      ensures stage == Complete ==> blockPos == block.Length && pktLen == len && macPos == keys.macLen
      ensures stage == Short ==> p == |data| && Ready()
    {
      hide Lawful, Reading, AtStart, Pending, InvalidAt, Blocks;
      p, stage := start, Complete;
      ghost var w0 := Pending();
      if blockPos < block.Length {
        p, stage := ReadBlock(data, p);
        if stage != Complete {
          return;
        }
      }
      ghost var q := p;
      assert w0 + data[start..start] == w0;
      assert Pending() == w0 + data[start..q];
      p, stage := ReadRest(data, p);
      assert w0 + data[start..q] + data[q..p] == w0 + data[start..p];
    }

    /** The stages after the first block. */
    method ReadRest(data: Bytes, start: nat) returns (p: nat, stage: Stage)
      requires Lawful(keys) && Ready() && start < |data| && blockPos == block.Length
      modifies this`packet, this`packetPos, this`pktLen, this`instance, this`macInput, this`seen,
               this`macPos, packet, mac
      ensures Valid() && fresh(Repr() - old(Repr()))
      ensures start < p <= |data| && stage != Bad
      ensures Pending() == old(Pending()) + data[start..p]
      ensures stage == Complete ==> pktLen == len && macPos == keys.macLen
      ensures stage == Short ==> p == |data| && Ready()
    {
      hide Lawful, Reading, AtStart, Pending, Blocks;
      p := start;
      ghost var w0 := Pending();
      if pktLen < len {
        p, stage := ReadBody(data, p);
        if stage == Short {
          return;
        }
      }
      ghost var q := p;
      assert w0 + data[start..start] == w0;
      assert Pending() == w0 + data[start..q];
      p, stage := ReadMac(data, p);
      assert w0 + data[start..q] + data[q..p] == w0 + data[start..p];
    }

    /** One turn of the loop of `decrypt`. */
    method ReadPacket(data: Bytes, start: nat) returns (p: nat, stage: Stage, payload: Bytes)
      requires Lawful(keys) && Ready() && start < |data|
      modifies Repr()
      ensures fresh(Repr() - old(Repr())) && start < p <= |data|
      ensures stage == Short ==>
                && Ready() && p == |data| && Pending() == old(Pending()) + data[start..]
                && inSeqno == old(inSeqno) && delivered == old(delivered) && fed == old(fed)
      ensures stage == Bad ==>
                && delivered == old(delivered)
                && First(TheSuite(keys), old(fed), old(inSeqno), old(Pending()) + data[start..]) == Invalid
      ensures stage == Complete ==>
                && Ready() && Pending() == []
                && inSeqno == Wrap(old(inSeqno) + 1) && delivered == old(delivered) + [payload]
                && First(TheSuite(keys), old(fed), old(inSeqno), old(Pending()) + data[start..])
                   == Got(payload, |old(Pending())| + p - start, fed)
    {
      hide Lawful, First, InvalidAt, Shape, Reading, AtStart, Pending;
      ghost var w0, n, before := Pending(), inSeqno, fed;
      payload := [];
      p, stage := ReadStages(data, start);
      assert (w0 + data[start..p]) + data[p..] == w0 + data[start..];
      if stage == Bad {
        InvalidHeader(before, n, w0 + data[start..p], data[p..]);
        return;
      } else if stage == Short {
        assert data[start..p] == data[start..];
        return;
      }
      FirstMore(TheSuite(keys), before, n, Pending(), data[p..]);
      var r := Finish();
      if r.None? {
        stage := Bad;
      } else {
        payload := r.value;
      }
    }

    /** `decrypt`: whatever has arrived before and whatever the handler decides, the outcome is
        that of feeding the earlier bytes and these together. */
    method Decrypt(data: Bytes, start: nat, stops: Handler) returns (r: Result)
      requires Lawful(keys) && Ready() && start <= |data|
      modifies Repr()
      ensures fresh(Repr() - old(Repr()))
      ensures match Feed(TheSuite(keys), stops, |old(delivered)|, old(fed), old(inSeqno),
                         old(Pending()) + data[start..])
              case Waiting(out, before, seqno, pending) =>
                && Ready() && r == Undefined && Pending() == pending
                && fed == before && inSeqno == seqno && delivered == old(delivered) + out
              case Stopped(out, before, seqno, rest) =>
                && Ready() && r.Offset? && r.p <= |data| && data[r.p..] == rest && Pending() == []
                && fed == before && inSeqno == seqno && delivered == old(delivered) + out
              case Failed(out) => r == Thrown && delivered == old(delivered) + out
    {
      hide Lawful, First, Feed, Valid, Pending, Progress, TheSuite, Wrap;
      ghost var su, k := TheSuite(keys), |delivered|;
      ghost var goal := Feed(su, stops, k, fed, inSeqno, Pending() + data[start..]);
      var p := start;
      ProgressAtStart(su, stops, delivered, fed, inSeqno, Pending() + data[start..]);
      while p < |data|
        invariant Ready() && fresh(Repr() - old(Repr())) && p <= |data|
        invariant old(delivered) <= delivered
        invariant Progress(goal, su, stops, k, delivered, fed, inSeqno, Pending() + data[p..])
      {
        ghost var st, n, pending := fed, inSeqno, Pending();
        ghost var w := pending + data[p..];
        var before := delivered;
        Rejoined(old(delivered), before);
        ProgressEnds(goal, su, stops, k, before, st, n, w);
        var q, stage, payload := ReadPacket(data, p);
        if stage == Bad {
          return Thrown;
        } else if stage == Short {
          NothingBehind(w, data, q);
        } else {
          ProgressByOne(goal, su, stops, k, before, st, n, w);
          BehindPacket(pending, data, p, q);
          Rejoined(old(delivered), delivered);
          if stops(|before|, payload) {
            return Offset(q);
          }
        }
        p := q;
      }
      NothingBehind(Pending(), data, p);
      Rejoined(old(delivered), delivered);
      FirstOfPart();
      ProgressEnds(goal, su, stops, k, delivered, fed, inSeqno, Pending());
      return Undefined;
    }
  }

  /** The first packet of bytes that are exactly one packet and its MAC. */
  lemma WholeIs(keys: Keys, fed: Bytes, seqno: uint32, len: nat, block: Bytes, seen: Bytes, mac: Bytes)
    requires |block| == HeaderLen(keys) && |block| + |seen| == 4 + len && |mac| == keys.macLen
    requires len == LengthOf(keys, fed, block) && LengthOk(len, keys.blockLen, keys.etm)
    requires !keys.etm ==> |Plain(keys, fed, block + seen)| == 4 + len
    ensures var c := block + seen;
            var input := PutU32(seqno) + if keys.etm then c else Plain(keys, fed, c);
            var body := if keys.etm then Plain(keys, fed, seen) else Plain(keys, fed, c)[4..];
            First(TheSuite(keys), fed, seqno, c + mac) ==
            if Truncated(keys.hmac(input), keys.macLen) != mac || PayloadOf(body).None? then Invalid
            else Got(PayloadOf(body).value, |c + mac|, fed + if keys.etm then seen else c)
  {
    hide LengthOk, LengthOf, PayloadOf, Truncated, Plain, PutU32;
    var c := block + seen;
    var w := c + mac;
    assert w[..HeaderLen(keys)] == block;
    assert w[..4 + len + keys.macLen] == w;
    assert w[..|w| - keys.macLen] == c && w[|w| - keys.macLen..] == mac;
    assert w[if keys.etm then 4 else 0..|w| - keys.macLen] == if keys.etm then seen else c;
    assert keys.etm ==> c[4..] == seen;
  }
}
