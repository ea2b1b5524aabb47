/** What a receiver makes of bytes that are not all its peer's: with a network that cannot produce a
    right tag for anything but the packets sent, at the place where each was sent, whatever arrives is
    a beginning of what was sent, across any number of key changes. */
module FrameIntegrity {
  import opened Common
  import opened FrameSpec
  import opened FrameSwitch
  import C = FrameChaCha
  import G = FrameGcm
  import N = FrameGeneric
  import Padding

  /** `x` ends in the tag of what comes before it, for the cipher, its state and the sequence number. */
  predicate Tagged(c: Cipher, seqno: uint32, x: Bytes) {
    match c
    case ChaCha(keys) =>
      |x| >= 20 && x[|x| - 16..] == keys.authenticate(seqno, x[..4], x[4..|x| - 16])
    case Gcm(keys, iv) =>
      |x| >= 20 && x[|x| - 16..] == keys.authTag(iv, x[..4], x[4..|x| - 16])
    case Generic(keys, fed) =>
      && |x| >= 4 + keys.macLen
      && var sent, mac := x[..|x| - keys.macLen], x[|x| - keys.macLen..];
         var over := if keys.etm then sent else N.Plain(keys, fed, sent);
         mac == N.Truncated(keys.hmac(PutU32(seqno) + over), keys.macLen)
  }

  lemma ChaChaOpens(keys: C.Keys, seqno: uint32, x: Bytes)
    ensures C.Open(keys, seqno, x).Some? ==> Tagged(ChaCha(keys), seqno, x)
  {
  }

  lemma GcmOpens(keys: G.Keys, iv: Bytes, seqno: uint32, x: Bytes)
    ensures G.Open(keys, iv, x).Some? ==> Tagged(Gcm(keys, iv), seqno, x)
  {
  }

  lemma GenericOpens(keys: N.Keys, fed: Bytes, seqno: uint32, x: Bytes)
    ensures N.Open(keys, fed, seqno, x).Some? ==> Tagged(Generic(keys, fed), seqno, x)
  {
    hide N.Plain, N.Truncated;
  }

  /** A decipher that delivers anything has read a packet with the right tag. */
  lemma OutMeansTagged(c: Cipher, stops: Handler, k: nat, seqno: uint32, w: Bytes) returns (n: nat)
    ensures FeedWith(c, stops, k, seqno, w).Stopped? ==> FeedWith(c, stops, k, seqno, w).out != []
    ensures FeedWith(c, stops, k, seqno, w).out != [] ==> n <= |w| && Tagged(c, seqno, w[..n])
  {
    hide Feed, Tagged, C.Open, G.Open, N.Open;
    match c
    case ChaCha(keys) =>
      n := OutOpens(C.TheSuite(keys), stops, k, (), seqno, w);
      if n <= |w| { ChaChaOpens(keys, seqno, w[..n]); }
    case Gcm(keys, iv) =>
      n := OutOpens(G.TheSuite(keys), stops, k, iv, seqno, w);
      if n <= |w| { GcmOpens(keys, iv, seqno, w[..n]); }
    case Generic(keys, fed) =>
      n := OutOpens(N.TheSuite(keys), stops, k, fed, seqno, w);
      if n <= |w| { GenericOpens(keys, fed, seqno, w[..n]); }
  }

  /** What is on the wire for a packet, by its bytes: everything the cipher covers is there only
      encrypted, and the tag is over it. */
  predicate Covered(c: Cipher, seqno: uint32, packet: Bytes, w: Bytes)
    requires |packet| >= 4
  {
    && Tagged(c, seqno, w) && |w| >= |packet|
    && match c
       case ChaCha(keys) =>
         && |w| == |packet| + 16
         && keys.decryptLength(seqno, w[..4]) == packet[..4]
         && keys.decrypt(seqno, w[4..|packet|]) == packet[4..]
       case Gcm(keys, iv) =>
         && |w| == |packet| + 16
         && w[..4] == packet[..4]
         && keys.decrypt(iv, w[4..|packet|]) == packet[4..]
       case Generic(keys, fed) =>
         && |w| == |packet| + keys.macLen
         && if keys.etm then w[..4] == packet[..4] && N.Plain(keys, fed, w[4..|packet|]) == packet[4..]
            else N.Plain(keys, fed, w[..|packet|]) == packet
  }

  lemma SealedIsCovered(c: Cipher, seqno: uint32, packet: Bytes)
    requires Usable(c) && Fits(c, packet)
    ensures Covered(c, seqno, packet, SealWith(c, seqno, packet).0)
  {
    match c
    case ChaCha(keys) =>
      C.CipherMatchesDecipher(keys);
      var header, body := keys.encryptLength(seqno, packet[..4]), keys.encrypt(seqno, packet[4..]);
      PartsOf(header, body, keys.authenticate(seqno, header, body), |packet|);
    case Gcm(keys, iv) =>
      var body := keys.encrypt(iv, packet[4..]);
      PartsOf(packet[..4], body, keys.authTag(iv, packet[..4], body), |packet|);
    case Generic(keys, fed) =>
      GenericIsCovered(keys, fed, seqno, packet);
  }

  lemma PartsOf(header: Bytes, body: Bytes, tag: Bytes, n: nat)
    requires |header| == 4 && |body| + 4 == n
    ensures var w := header + body + tag;
            && |w| == n + |tag| && w[..4] == header && w[4..n] == body && w[n..] == tag
            && w[4..|w| - |tag|] == body && w[|w| - |tag|..] == tag
  {
  }

  lemma GenericIsCovered(keys: N.Keys, fed: Bytes, seqno: uint32, packet: Bytes)
    requires Usable(Generic(keys, fed)) && Fits(Generic(keys, fed), packet)
    ensures Covered(Generic(keys, fed), seqno, packet, SealWith(Generic(keys, fed), seqno, packet).0)
  {
    hide N.Lawful, N.InStep, N.Encrypted, N.Plain, N.Truncated;
    if keys.etm {
      N.EncryptThenDecrypt(keys, fed, packet[4..]);
      var body := N.Encrypted(keys, fed, packet[4..]);
      var c := packet[..4] + body;
      N.MacLength(keys, PutU32(seqno) + c);
      PartsOf(packet[..4], body, N.Truncated(keys.hmac(PutU32(seqno) + c), keys.macLen), |packet|);
    } else {
      N.WholeBlocks(keys, packet);
      N.EncryptThenDecrypt(keys, fed, packet);
      var c := N.Encrypted(keys, fed, packet);
      N.MacLength(keys, PutU32(seqno) + packet);
      var mac := N.Truncated(keys.hmac(PutU32(seqno) + packet), keys.macLen);
      assert (c + mac)[..|packet|] == c && (c + mac)[|packet|..] == mac;
    }
  }

  /** Wherever in `all` there is a right tag, it is that of the packet the sender sent at that point. */
  ghost predicate Unforged(c: Cipher, seqno: uint32, newKeys: Bytes -> bool, acts: seq<Act>, all: Bytes)
    decreases |acts|
  {
    if acts != [] && acts[0].Change? then Unforged(acts[0].cipher, seqno, newKeys, acts[1..], all)
    else
      && (forall i, j | 0 <= i <= j <= |all| && Tagged(c, seqno, all[i..j]) ::
            acts != [] && all[i..j] == SealWith(c, seqno, acts[0].packet).0)
      && (acts != [] ==>
            Unforged(SealWith(c, seqno, acts[0].packet).1, Wrap(seqno + 1), newKeys, acts[1..], all))
  }

  /** `w` is what is left of `all`. */
  predicate Rest(w: Bytes, all: Bytes) {
    |w| <= |all| && w == all[|all| - |w|..]
  }

  lemma RestOfRest(w: Bytes, all: Bytes, n: nat)
    requires Rest(w, all) && n <= |w|
    ensures Rest(w[n..], all) && w == w[..n] + w[n..]
    ensures var i := |all| - |w|; 0 <= i && i + n <= |all| && all[i..i + n] == w[..n]
  {
  }

  /** Nothing is delivered but what was sent, in order and from the beginning. */
  lemma {:induction false} OnlyWhatWasSent(c: Cipher, newKeys: Bytes -> bool, k: nat, seqno: uint32, acts: seq<Act>,
                                           w: Bytes, all: Bytes)
    requires Usable(c) && Disciplined(c, seqno, newKeys, false, acts)
    requires Unforged(c, seqno, newKeys, acts, all) && Rest(w, all)
    ensures forall a <- acts :: a.Send? ==> IsPacket(a.packet)
    ensures FeedAll(c, Changes(acts), OnNewKeys(newKeys), k, seqno, w).out <= Sent(acts)
    decreases |acts|
  {
    hide FeedAll, FeedWith, Usable, Fits, SealWith, IsPacket, PacketPayload, Rest, Tagged;
    AllPackets(c, seqno, newKeys, false, acts);
    var stops := OnNewKeys(newKeys);
    var n := OutMeansTagged(c, stops, k, seqno, w);
    if FeedWith(c, stops, k, seqno, w).out == [] {
      NothingOut(c, Changes(acts), stops, k, seqno, w);
    } else {
      RestOfRest(w, all, n);
      assert Tagged(c, seqno, all[|all| - |w|..|all| - |w| + n]);
      var packet := acts[0].packet;
      var (x, c1) := SealWith(c, seqno, packet);
      var tail := w[n..];
      assert w[..n] == x;
      OneSealed(c, Changes(acts), stops, k, seqno, packet, tail);
      if newKeys(PacketPayload(packet)) {
        var c2 := acts[1].cipher;
        assert acts[1..][0] == acts[1] && acts[1..][1..] == acts[2..];
        assert Changes(acts) == Changes(acts[1..]) == [c2] + Changes(acts[2..]);
        OnlyWhatWasSent(c2, newKeys, k + 1, Wrap(seqno + 1), acts[2..], tail, all);
      } else {
        OnlyWhatWasSent(c1, newKeys, k + 1, Wrap(seqno + 1), acts[1..], tail, all);
      }
    }
  }

  lemma NothingOut(c: Cipher, nexts: seq<Cipher>, stops: Handler, k: nat, seqno: uint32, w: Bytes)
    requires FeedWith(c, stops, k, seqno, w).out == []
    requires !FeedWith(c, stops, k, seqno, w).Stopped?
    ensures FeedAll(c, nexts, stops, k, seqno, w).out == []
  {
    hide FeedWith;
  }

  /** However the network cuts what it hands over. */
  lemma DeliveredIsPrefixOfSent(c: Cipher, newKeys: Bytes -> bool, k: nat, seqno: uint32, acts: seq<Act>,
                                chunks: seq<Bytes>)
    requires Usable(c) && Disciplined(c, seqno, newKeys, false, acts)
    requires Unforged(c, seqno, newKeys, acts, Join(chunks))
    ensures forall a <- acts :: a.Send? ==> IsPacket(a.packet)
    ensures FeedAllChunks((c, Changes(acts)), OnNewKeys(newKeys), k, seqno, [], chunks).out <= Sent(acts)
  {
    hide FeedAll, Disciplined, Usable, Unforged;
    ChunksDoNotMatterAcrossKeys((c, Changes(acts)), OnNewKeys(newKeys), k, seqno, [], chunks);
    assert [] + Join(chunks) == Join(chunks);
    OnlyWhatWasSent(c, newKeys, k, seqno, acts, Join(chunks), Join(chunks));
  }

  /** A receiver never waits with more than one packet of the permitted size: longer packets, and whole
      ones whose tag is wrong, end the connection. */
  lemma WaitsForOnePacket(c: Cipher, stops: Handler, k: nat, seqno: uint32, w: Bytes)
    requires Usable(c)
    ensures var o := FeedWith(c, stops, k, seqno, w);
            var tag := match c case Generic(keys, _) => keys.macLen case _ => 16;
            o.Waiting? ==> |o.pending| < 4 + Padding.MAX_PACKET_SIZE + tag
  {
    hide Feed, N.InStep;
    match c
    case ChaCha(keys) => WaitsForOne(C.TheSuite(keys), stops, k, (), seqno, w, Padding.MAX_PACKET_SIZE);
    case Gcm(keys, iv) => WaitsForOne(G.TheSuite(keys), stops, k, iv, seqno, w, Padding.MAX_PACKET_SIZE);
    case Generic(keys, fed) => WaitsForOne(N.TheSuite(keys), stops, k, fed, seqno, w, Padding.MAX_PACKET_SIZE);
  }
}
