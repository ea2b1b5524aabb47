/** What each end computes from a finished exchange: the exchange hash, and from it the keys of
    both directions. */
module KeyDerivation {
  import opened Common
  import opened FrameSpec
  import opened Negotiation

  /** A hash function that puts out something. */
  ghost predicate IsHash(hash: Bytes -> Bytes, size: nat) {
    size > 0 && forall x: Bytes {:trigger hash(x)} :: |hash(x)| == size
  }

  // ----- Section 7.2 of RFC 4253 -----

  /** K1 = HASH(K || H || X || session_id), and K(n+1) = HASH(K || H || K1 || ... || Kn). */
  function Block(hash: Bytes -> Bytes, k: Bytes, h: Bytes, x: byte, sessionId: Bytes, n: nat): Bytes
    requires n > 0
    decreases n, 0
  {
    if n == 1 then hash(k + h + [x] + sessionId) else hash(k + h + Blocks(hash, k, h, x, sessionId, n - 1))
  }

  /** K1 || ... || Kn */
  function Blocks(hash: Bytes -> Bytes, k: Bytes, h: Bytes, x: byte, sessionId: Bytes, n: nat): Bytes
    decreases n, 1
  {
    if n == 0 then [] else Blocks(hash, k, h, x, sessionId, n - 1) + Block(hash, k, h, x, sessionId, n)
  }

  lemma {:induction false} BlocksLength(hash: Bytes -> Bytes, size: nat, k: Bytes, h: Bytes, x: byte, sessionId: Bytes, n: nat)
    requires IsHash(hash, size)
    ensures n <= |Blocks(hash, k, h, x, sessionId, n)|
    ensures n > 0 ==> |Blocks(hash, k, h, x, sessionId, n)| == |Blocks(hash, k, h, x, sessionId, n - 1)| + size
  {
    if n > 0 {
      BlocksLength(hash, size, k, h, x, sessionId, n - 1);
      assert |Block(hash, k, h, x, sessionId, n)| == size;
    }
  }

  lemma {:induction false} BlocksGrow(hash: Bytes -> Bytes, k: Bytes, h: Bytes, x: byte, sessionId: Bytes, m: nat, n: nat)
    requires m <= n
    ensures Blocks(hash, k, h, x, sessionId, m) <= Blocks(hash, k, h, x, sessionId, n)
    decreases n
  {
    if m < n {
      BlocksGrow(hash, k, h, x, sessionId, m, n - 1);
    }
  }

  /** The first three, written out. */
  lemma ThreeBlocks(hash: Bytes -> Bytes, k: Bytes, h: Bytes, x: byte, sessionId: Bytes)
    ensures var k1 := hash(k + h + [x] + sessionId);
            var k2 := hash(k + h + k1);
            var k3 := hash(k + h + (k1 + k2));
            Blocks(hash, k, h, x, sessionId, 3) == k1 + k2 + k3
  {
    var k1 := Block(hash, k, h, x, sessionId, 1);
    assert [] + k1 == k1 == Blocks(hash, k, h, x, sessionId, 1);
    assert Blocks(hash, k, h, x, sessionId, 2) == k1 + Block(hash, k, h, x, sessionId, 2);
  }

  /** The first `len` bytes of K1 || K2 || ...; as many blocks as there are bytes are enough. */
  function KexVal(hash: Bytes -> Bytes, k: Bytes, h: Bytes, x: byte, sessionId: Bytes, len: nat): Bytes {
    var all := Blocks(hash, k, h, x, sessionId, len);
    if len <= |all| then all[..len] else all
  }

  /** It does not matter how many blocks are made, if they are enough. */
  lemma AnyEnough(hash: Bytes -> Bytes, size: nat, k: Bytes, h: Bytes, x: byte, sessionId: Bytes, len: nat, n: nat)
    requires IsHash(hash, size) && len <= |Blocks(hash, k, h, x, sessionId, n)|
    ensures |KexVal(hash, k, h, x, sessionId, len)| == len
    ensures KexVal(hash, k, h, x, sessionId, len) == Blocks(hash, k, h, x, sessionId, n)[..len]
  {
    BlocksLength(hash, size, k, h, x, sessionId, len);
    if n <= len {
      BlocksGrow(hash, k, h, x, sessionId, n, len);
    } else {
      BlocksGrow(hash, k, h, x, sessionId, len, n);
    }
  }

  /** A shorter key is the beginning of a longer one. */
  lemma ShorterIsPrefix(hash: Bytes -> Bytes, size: nat, k: Bytes, h: Bytes, x: byte, sessionId: Bytes, len: nat, more: nat)
    requires IsHash(hash, size) && len <= more
    ensures |KexVal(hash, k, h, x, sessionId, len)| == len
    ensures KexVal(hash, k, h, x, sessionId, len) <= KexVal(hash, k, h, x, sessionId, more)
  {
    BlocksLength(hash, size, k, h, x, sessionId, more);
    AnyEnough(hash, size, k, h, x, sessionId, len, more);
    AnyEnough(hash, size, k, h, x, sessionId, more, more);
  }

  /** `generateKEXVal`: blocks are added until they are enough. */
  method GenerateKexVal(len: nat, hash: Bytes -> Bytes, ghost size: nat, secret: Bytes, exchangeHash: Bytes,
                        sessionId: Bytes, letter: byte) returns (ret: Bytes)
    requires IsHash(hash, size)
    ensures ret == KexVal(hash, secret, exchangeHash, letter, sessionId, len) && |ret| == len
  {
    if len == 0 {
      return [];
    }
    var digest := hash(secret + exchangeHash + [letter] + sessionId);
    ghost var n := 1;
    assert Blocks(hash, secret, exchangeHash, letter, sessionId, 0) == [];
    assert [] + digest == digest;
    while |digest| < len
      invariant n > 0 && digest == Blocks(hash, secret, exchangeHash, letter, sessionId, n)
      decreases len - |digest|
    {
      var chunk := hash(secret + exchangeHash + digest);
      assert chunk == Block(hash, secret, exchangeHash, letter, sessionId, n + 1);
      digest := digest + chunk;
      n := n + 1;
    }
    AnyEnough(hash, size, secret, exchangeHash, letter, sessionId, len, n);
    ret := if |digest| == len then digest else digest[..len];
  }

  // ----- The exchange hash -----

  /** `hashString` */
  function Str(s: Bytes): Bytes {
    if |s| < TWO_32 then PutU32(|s|) + s else s
  }

  /** One end's view of an exchange: its own values and those it got from the other. */
  datatype View = View(
    server: bool,
    ident: Bytes,
    remoteIdent: Bytes,
    kexinit: Bytes,
    remoteKexinit: Bytes,
    hostKey: Bytes,
    publicKey: Bytes,
    remotePublicKey: Bytes,
    secret: Bytes)

  function HashInput(v: View): Bytes {
    Str(if v.server then v.remoteIdent else v.ident)
    + Str(if v.server then v.ident else v.remoteIdent)
    + Str(if v.server then v.remoteKexinit else v.kexinit)
    + Str(if v.server then v.kexinit else v.remoteKexinit)
    + Str(v.hostKey)
    + Str(if v.server then v.remotePublicKey else v.publicKey)
    + Str(if v.server then v.publicKey else v.remotePublicKey)
    + Str(v.secret)
  }

  /** The parts of an exchange, by side, as section 8 of RFC 4253 names them. */
  datatype Transcript = Transcript(
    identC: Bytes,
    identS: Bytes,
    initC: Bytes,
    initS: Bytes,
    hostKey: Bytes,
    publicC: Bytes,
    publicS: Bytes,
    secret: Bytes)

  function ClientView(t: Transcript): View {
    View(false, t.identC, t.identS, t.initC, t.initS, t.hostKey, t.publicC, t.publicS, t.secret)
  }

  function ServerView(t: Transcript): View {
    View(true, t.identS, t.identC, t.initS, t.initC, t.hostKey, t.publicS, t.publicC, t.secret)
  }

  /** V_C, V_S, I_C, I_S, K_S, the two public keys, client first, and K. */
  function InOrder(t: Transcript): seq<Bytes> {
    [t.identC, t.identS, t.initC, t.initS, t.hostKey, t.publicC, t.publicS, t.secret]
  }

  /** Strings up to the end. */
  function ReadStrings(b: Bytes): Option<seq<Bytes>>
    decreases |b|
  {
    if b == [] then Some([])
    else if |b| < 4 || |b| - 4 < GetU32(b) then None
    else
      var rest := ReadStrings(b[4 + GetU32(b)..]);
      if rest.None? then None else Some([b[4..4 + GetU32(b)]] + rest.value)
  }

  lemma ReadsOne(s: Bytes, rest: Bytes)
    requires |s| < TWO_32
    ensures ReadStrings(Str(s) + rest) ==
            if ReadStrings(rest).None? then None else Some([s] + ReadStrings(rest).value)
  {
    StringRoundTrip(s, rest);
    assert Str(s) + rest != [];
  }

  function StrAll(list: seq<Bytes>): Bytes {
    if list == [] then [] else Str(list[0]) + StrAll(list[1..])
  }

  lemma {:induction false} ReadsAll(list: seq<Bytes>)
    requires forall s <- list :: |s| < TWO_32
    ensures ReadStrings(StrAll(list)) == Some(list)
    decreases |list|
  {
    hide ReadStrings, Str;
    if list == [] {
      ReadsNothing();
    } else {
      ReadsOne(list[0], StrAll(list[1..]));
      ReadsAll(list[1..]);
      assert [list[0]] + list[1..] == list;
    }
  }

  lemma ReadsNothing()
    ensures ReadStrings([]) == Some([])
  {
  }

  lemma {:induction false} StrAllAppend(v: seq<Bytes>, w: seq<Bytes>)
    ensures StrAll(v + w) == StrAll(v) + StrAll(w)
    decreases |v|
  {
    hide Str;
    if v == [] {
      assert v + w == w;
    } else {
      assert (v + w)[1..] == v[1..] + w;
      StrAllAppend(v[1..], w);
    }
  }

  lemma StrAllOne(s: Bytes)
    ensures StrAll([s]) == Str(s)
  {
    hide Str;
    assert StrAll([s]) == Str(s) + StrAll([]);
  }

  lemma StrAllNothing(b: Bytes)
    ensures StrAll([]) + b == b
  {
  }

  /** What either end hashes is the parts of the exchange in the order of section 8 of RFC 4253, each
      readable as a string. */
  lemma HashInputReads(t: Transcript)
    requires forall s <- InOrder(t) :: |s| < TWO_32
    ensures ReadStrings(HashInput(ClientView(t))) == Some(InOrder(t))
    ensures ReadStrings(HashInput(ServerView(t))) == Some(InOrder(t))
  {
    hide ReadStrings, Str, StrAll;
    var l := InOrder(t);
    forall i | 0 <= i < 8 ensures StrAll(l[..i + 1]) == StrAll(l[..i]) + Str(l[i]) {
      assert l[..i + 1] == l[..i] + [l[i]];
      StrAllAppend(l[..i], [l[i]]);
      StrAllOne(l[i]);
    }
    StrAllNothing(Str(l[0]));
    assert l[..0] == [] && l[..8] == l;
    var w := StrAll(l[..1]) + Str(l[1]) + Str(l[2]) + Str(l[3]) + Str(l[4]) + Str(l[5]) + Str(l[6]) + Str(l[7]);
    assert w == HashInput(ClientView(t)) && w == HashInput(ServerView(t));
    assert w == StrAll(l);
    ReadsAll(l);
  }

  /** So what is hashed tells any two exchanges apart. */
  lemma HashInputTellsApart(t: Transcript, u: Transcript)
    requires (forall s <- InOrder(t) :: |s| < TWO_32) && (forall s <- InOrder(u) :: |s| < TWO_32)
    ensures HashInput(ClientView(t)) == HashInput(ServerView(u)) <==> t == u
  {
    HashInputReads(t);
    HashInputReads(u);
    hide ReadStrings, Str;
    var a, b := InOrder(t), InOrder(u);
    if a == b {
      assert a[0] == b[0] && a[1] == b[1] && a[2] == b[2] && a[3] == b[3];
      assert a[4] == b[4] && a[5] == b[5] && a[6] == b[6] && a[7] == b[7];
    }
  }

  /** Each end holds as its own what the other holds as remote. */
  predicate Mirrored(c: View, s: View) {
    && !c.server && s.server
    && c.ident == s.remoteIdent && c.remoteIdent == s.ident
    && c.kexinit == s.remoteKexinit && c.remoteKexinit == s.kexinit
    && c.publicKey == s.remotePublicKey && c.remotePublicKey == s.publicKey
    && c.hostKey == s.hostKey && c.secret == s.secret
  }

  // ----- The keys -----

  datatype CipherInfo = CipherInfo(ivLen: nat, keyLen: nat, authLen: nat)

  /** What `createCipher` or `createDecipher` is given for one direction. */
  datatype Direction = Direction(cipher: Bytes, iv: Bytes, key: Bytes, mac: Option<Bytes>, macKey: Option<Bytes>)

  datatype Config = Config(inbound: Direction, outbound: Direction, sessionId: Bytes)

  datatype Negotiated = Negotiated(csCipher: Bytes, scCipher: Bytes, csMac: Bytes, scMac: Bytes)

  /** The letters that tell the six values apart. */
  function Letter(c: char): byte
    requires 'A' <= c <= 'F'
  {
    (c as int) as byte
  }

  /** One direction's cipher, with the letters of its IV, key and MAC key. */
  function Derive(hash: Bytes -> Bytes, k: Bytes, h: Bytes, sessionId: Bytes,
                  cipher: Bytes, info: CipherInfo, mac: Bytes, macLen: nat, iv: char, key: char, macKey: char): Direction
    requires 'A' <= iv <= 'F' && 'A' <= key <= 'F' && 'A' <= macKey <= 'F'
  {
    Direction(cipher,
              KexVal(hash, k, h, Letter(iv), sessionId, info.ivLen),
              KexVal(hash, k, h, Letter(key), sessionId, info.keyLen),
              if info.authLen > 0 then None else Some(mac),
              if info.authLen > 0 then None else Some(KexVal(hash, k, h, Letter(macKey), sessionId, macLen)))
  }

  /** `completeHandshake`: `session` is the session id of an earlier exchange, if there was one. */
  function Complete(hash: Bytes -> Bytes, v: View, session: Option<Bytes>, n: Negotiated,
                    info: Bytes -> CipherInfo, macLen: Bytes -> nat): Config
    requires |v.secret| < TWO_32
  {
    var h := hash(HashInput(v));
    var sessionId := session.GetOr(h);
    var k := PutU32(|v.secret|) + v.secret;
    var cs := Derive(hash, k, h, sessionId, n.csCipher, info(n.csCipher), n.csMac, macLen(n.csMac), 'A', 'C', 'E');
    var sc := Derive(hash, k, h, sessionId, n.scCipher, info(n.scCipher), n.scMac, macLen(n.scMac), 'B', 'D', 'F');
    Config(if v.server then cs else sc, if v.server then sc else cs, sessionId)
  }

  /** Two ends with mirrored views, the same algorithms and the same earlier session id hash the same
      bytes and derive the same keys: what one sends with, the other receives with. */
  lemma ViewsPair(hash: Bytes -> Bytes, c: View, s: View, session: Option<Bytes>, n: Negotiated,
                  info: Bytes -> CipherInfo, macLen: Bytes -> nat)
    requires Mirrored(c, s) && |c.secret| < TWO_32
    ensures HashInput(c) == HashInput(s)
    ensures var client := Complete(hash, c, session, n, info, macLen);
            var server := Complete(hash, s, session, n, info, macLen);
            && Paired(client, server) && client.sessionId == session.GetOr(hash(HashInput(c)))
            && (client.outbound.mac.None? <==> info(n.csCipher).authLen > 0)
            && (client.inbound.mac.None? <==> info(n.scCipher).authLen > 0)
  {
    hide Str, KexVal;
  }

  /** The beginning of HASH(K || H || X || session_id) || ...: section 7.2 of RFC 4253. */
  ghost predicate IsKey(hash: Bytes -> Bytes, k: Bytes, h: Bytes, x: byte, sessionId: Bytes, len: nat, key: Bytes) {
    && |key| == len
    && exists n: nat :: key <= Blocks(hash, k, h, x, sessionId, n)
  }

  lemma KexValIsKey(hash: Bytes -> Bytes, size: nat, k: Bytes, h: Bytes, x: byte, sessionId: Bytes, len: nat)
    requires IsHash(hash, size)
    ensures IsKey(hash, k, h, x, sessionId, len, KexVal(hash, k, h, x, sessionId, len))
  {
    hide Blocks;
    BlocksLength(hash, size, k, h, x, sessionId, len);
    AnyEnough(hash, size, k, h, x, sessionId, len, len);
    assert KexVal(hash, k, h, x, sessionId, len) <= Blocks(hash, k, h, x, sessionId, len);
  }

  /** One direction's keys: letters 65, 67 and 69 towards the server, 66, 68 and 70 towards the client,
      and no MAC beside a cipher that authenticates. */
  ghost predicate AsSpecified(hash: Bytes -> Bytes, k: Bytes, h: Bytes, sessionId: Bytes, toServer: bool,
                              cipher: Bytes, info: CipherInfo, mac: Bytes, macLen: nat, d: Direction) {
    && d.cipher == cipher
    && IsKey(hash, k, h, if toServer then 65 else 66, sessionId, info.ivLen, d.iv)
    && IsKey(hash, k, h, if toServer then 67 else 68, sessionId, info.keyLen, d.key)
    && (d.mac.None? <==> info.authLen > 0) && (d.macKey.None? <==> info.authLen > 0)
    && (d.mac.Some? ==> d.mac.value == mac)
    && (d.macKey.Some? ==> IsKey(hash, k, h, if toServer then 69 else 70, sessionId, macLen, d.macKey.value))
  }

  /** Each end, in its own role, derives what section 7.2 of RFC 4253 says for either direction. */
  lemma KeysAsSpecified(hash: Bytes -> Bytes, size: nat, t: Transcript, server: bool, session: Option<Bytes>,
                        n: Negotiated, info: Bytes -> CipherInfo, macLen: Bytes -> nat)
    requires IsHash(hash, size) && |t.secret| < TWO_32
    ensures var v := if server then ServerView(t) else ClientView(t);
            var config := Complete(hash, v, session, n, info, macLen);
            var k, h := PutU32(|t.secret|) + t.secret, hash(HashInput(v));
            var toServer := if server then config.inbound else config.outbound;
            var toClient := if server then config.outbound else config.inbound;
            && config.sessionId == (if session.Some? then session.value else h)
            && AsSpecified(hash, k, h, config.sessionId, true, n.csCipher, info(n.csCipher),
                           n.csMac, macLen(n.csMac), toServer)
            && AsSpecified(hash, k, h, config.sessionId, false, n.scCipher, info(n.scCipher),
                           n.scMac, macLen(n.scMac), toClient)
  {
    hide IsHash, IsKey, KexVal, HashInput;
    var v := if server then ServerView(t) else ClientView(t);
    var k, h := PutU32(|t.secret|) + t.secret, hash(HashInput(v));
    forall x: byte, sid: Bytes, len: nat
      ensures IsKey(hash, k, h, x, sid, len, KexVal(hash, k, h, x, sid, len))
    {
      KexValIsKey(hash, size, k, h, x, sid, len);
    }
  }

  predicate Paired(client: Config, server: Config) {
    && client.outbound == server.inbound && client.inbound == server.outbound
    && client.sessionId == server.sessionId
  }

  // ----- Exchange after exchange -----

  /** What depends on the algorithms: the hash and the key agreement of a key exchange method, and
      the tables of ciphers and MACs. */
  datatype Primitives = Primitives(
    hash: Name -> Bytes -> Bytes,
    publicKey: (Name, Bytes) -> Bytes,
    shared: (Name, Bytes, Bytes) -> Bytes,
    info: Name -> CipherInfo,
    macLen: Name -> nat)

  /** Either private key makes the same secret of the other's public key. */
  ghost predicate Lawful(p: Primitives) {
    && (forall kex: Name, a: Bytes, b: Bytes {:trigger p.shared(kex, a, p.publicKey(kex, b))} ::
          p.shared(kex, a, p.publicKey(kex, b)) == p.shared(kex, b, p.publicKey(kex, a)))
    && (forall kex: Name, a: Bytes, b: Bytes {:trigger p.shared(kex, a, b)} :: |p.shared(kex, a, b)| < TWO_32)
  }

  function Aead(p: Primitives): Name -> bool {
    (n: Name) => p.info(n).authLen > 0
  }

  /** What lasts at one end from exchange to exchange. */
  datatype End = End(server: bool, ident: Bytes, remoteIdent: Bytes, session: Option<Bytes>)

  /** What one end brings to an exchange. */
  datatype Share = Share(cookie: Bytes, offer: Lists, privateKey: Bytes)

  predicate Proper(x: Share) {
    |x.cookie| == COOKIE_LENGTH && Sendable(x.offer) && forall l <- x.offer :: Plain(l)
  }

  datatype Exchange = Exchange(client: Share, server: Share, hostKey: Bytes)

  /** One end's view of an exchange, once it has negotiated `names`, with what it received. */
  function ViewOf(p: Primitives, e: End, names: seq<Name>, hostKey: Bytes, mine: Share,
                  kexinit: Bytes, publicKey: Bytes): View
    requires |names| == CATEGORIES && Sendable(mine.offer)
  {
    var kex := names[KEX];
    View(e.server, e.ident, e.remoteIdent, InitPayload(mine.cookie, mine.offer), kexinit, hostKey,
         p.publicKey(kex, mine.privateKey), publicKey, p.shared(kex, mine.privateKey, publicKey))
  }

  function Finish(p: Primitives, e: End, names: seq<Name>, v: View): Config
    requires |names| == CATEGORIES && |v.secret| < TWO_32
  {
    Complete(p.hash(names[KEX]), v, e.session,
             Negotiated(names[CS_CIPHER], names[SC_CIPHER], names[CS_MAC], names[SC_MAC]), p.info, p.macLen)
  }

  /** Both ends of a connection, with what each came to in every finished exchange (and the client's
      exchange hash), and what each came to in one that failed. */
  datatype Connection = Connection(
    client: End,
    server: End,
    configs: seq<(Config, Config)>,
    hashes: seq<Bytes>,
    failed: Option<(Negotiation.Outcome, Negotiation.Outcome)>)

  function Connected(identC: Bytes, identS: Bytes): Connection {
    Connection(End(false, identC, identS, None), End(true, identS, identC, None), [], [], None)
  }

  /** One more exchange: each end negotiates in its own role from the other's KEXINIT payload, and
      uses its own session id. */
  function Next(p: Primitives, k: Connection, x: Exchange): Connection
    requires Lawful(p) && Proper(x.client) && Proper(x.server)
  {
    var initC, initS := InitPayload(x.client.cookie, x.client.offer), InitPayload(x.server.cookie, x.server.offer);
    var oc := HandleKexInit(false, x.client.offer, initS, Aead(p));
    var os := HandleKexInit(true, x.server.offer, initC, Aead(p));
    if k.failed.Some? then k
    else if !oc.Agreed? || !os.Agreed? then k.(failed := Some((oc, os)))
    else
      var publicC := p.publicKey(oc.names[KEX], x.client.privateKey);
      var publicS := p.publicKey(os.names[KEX], x.server.privateKey);
      var viewC := ViewOf(p, k.client, oc.names, x.hostKey, x.client, initS, publicS);
      var viewS := ViewOf(p, k.server, os.names, x.hostKey, x.server, initC, publicC);
      var c, s := Finish(p, k.client, oc.names, viewC), Finish(p, k.server, os.names, viewS);
      k.(client := k.client.(session := Some(c.sessionId)), server := k.server.(session := Some(s.sessionId)),
         configs := k.configs + [(c, s)], hashes := k.hashes + [p.hash(oc.names[KEX])(HashInput(viewC))])
  }

  ghost predicate AllProper(xs: seq<Exchange>) {
    forall x <- xs :: Proper(x.client) && Proper(x.server)
  }

  function Exchanged(p: Primitives, k: Connection, xs: seq<Exchange>): Connection
    requires Lawful(p) && AllProper(xs)
    decreases |xs|
  {
    if xs == [] then k else Next(p, Exchanged(p, k, xs[..|xs| - 1]), xs[|xs| - 1])
  }

  /** What holds of both ends after any number of exchanges. */
  ghost predicate InAgreement(k: Connection) {
    && !k.client.server && k.server.server
    && k.client.ident == k.server.remoteIdent && k.client.remoteIdent == k.server.ident
    && |k.configs| == |k.hashes|
    && k.client.session == k.server.session == (if k.hashes == [] then None else Some(k.hashes[0]))
    && (forall i | 0 <= i < |k.configs| ::
          Paired(k.configs[i].0, k.configs[i].1) && k.configs[i].0.sessionId == k.hashes[0])
    && (k.failed.Some? ==> k.failed.value.0 == k.failed.value.1 && k.failed.value.0.NoMatch?)
  }

  /** The ends of one connection, between exchanges. */
  predicate Facing(c: End, s: End) {
    !c.server && s.server && c.ident == s.remoteIdent && c.remoteIdent == s.ident && c.session == s.session
  }

  /** One exchange in which both ends have negotiated `names`. */
  lemma FinishPairs(p: Primitives, c: End, s: End, names: seq<Name>, x: Exchange, viewC: View, viewS: View)
    requires Lawful(p) && Sendable(x.client.offer) && Sendable(x.server.offer)
    requires Facing(c, s) && |names| == CATEGORIES
    requires viewC == ViewOf(p, c, names, x.hostKey, x.client, InitPayload(x.server.cookie, x.server.offer),
                             p.publicKey(names[KEX], x.server.privateKey))
    requires viewS == ViewOf(p, s, names, x.hostKey, x.server, InitPayload(x.client.cookie, x.client.offer),
                             p.publicKey(names[KEX], x.client.privateKey))
    ensures |viewC.secret| < TWO_32 && |viewS.secret| < TWO_32
    ensures var client, server := Finish(p, c, names, viewC), Finish(p, s, names, viewS);
            Paired(client, server) && client.sessionId == c.session.GetOr(p.hash(names[KEX])(HashInput(viewC)))
  {
    hide InitPayload, Complete, HashInput, Sendable, Paired;
    ViewsPair(p.hash(names[KEX]), viewC, viewS, c.session,
              Negotiated(names[CS_CIPHER], names[SC_CIPHER], names[CS_MAC], names[SC_MAC]), p.info, p.macLen);
  }

  lemma NextAgrees(p: Primitives, k: Connection, x: Exchange)
    requires Lawful(p) && Proper(x.client) && Proper(x.server) && InAgreement(k)
    ensures InAgreement(Next(p, k, x))
    ensures var next := Next(p, k, x);
            next.failed.None? ==> k.failed.None? && |next.configs| == |k.configs| + 1
  {
    BothEndsAgree(x.client.offer, x.server.offer, x.client.cookie, x.server.cookie, Aead(p));
    var initC, initS := InitPayload(x.client.cookie, x.client.offer), InitPayload(x.server.cookie, x.server.offer);
    var o := HandleKexInit(false, x.client.offer, initS, Aead(p));
    hide HandleKexInit, InitPayload, Plain, ViewOf, Finish, HashInput, Paired, Lawful, Proper;
    if k.failed.None? && o.Agreed? {
      var kex := o.names[KEX];
      var viewC := ViewOf(p, k.client, o.names, x.hostKey, x.client, initS, p.publicKey(kex, x.server.privateKey));
      var viewS := ViewOf(p, k.server, o.names, x.hostKey, x.server, initC, p.publicKey(kex, x.client.privateKey));
      FinishPairs(p, k.client, k.server, o.names, x, viewC, viewS);
      OneMoreAgrees(k, Finish(p, k.client, o.names, viewC), Finish(p, k.server, o.names, viewS),
                    p.hash(kex)(HashInput(viewC)));
    }
  }

  /** What an exchange is about when both ends have negotiated `names`. */
  function TranscriptOf(p: Primitives, k: Connection, x: Exchange, names: seq<Name>): Transcript
    requires |names| == CATEGORIES && Sendable(x.client.offer) && Sendable(x.server.offer)
  {
    var publicS := p.publicKey(names[KEX], x.server.privateKey);
    Transcript(k.client.ident, k.server.ident, InitPayload(x.client.cookie, x.client.offer),
               InitPayload(x.server.cookie, x.server.offer), x.hostKey,
               p.publicKey(names[KEX], x.client.privateKey), publicS,
               p.shared(names[KEX], x.client.privateKey, publicS))
  }

  /** A finished exchange of a connection: both ends hashed the same transcript, each part at the place
      of the side it is from, and finished from it. */
  lemma FinishedFromTranscript(p: Primitives, k: Connection, x: Exchange)
    requires Lawful(p) && Proper(x.client) && Proper(x.server) && InAgreement(k)
    requires Next(p, k, x).failed.None?
    ensures var next := Next(p, k, x);
            var o := HandleKexInit(false, x.client.offer, InitPayload(x.server.cookie, x.server.offer), Aead(p));
            && o.Agreed?
            && var t := TranscriptOf(p, k, x, o.names);
               && |t.secret| < TWO_32
               && next.hashes == k.hashes + [p.hash(o.names[KEX])(HashInput(ClientView(t)))]
               && next.configs == k.configs + [(Finish(p, k.client, o.names, ClientView(t)),
                                                Finish(p, k.server, o.names, ServerView(t)))]
  {
    BothEndsAgree(x.client.offer, x.server.offer, x.client.cookie, x.server.cookie, Aead(p));
    hide HandleKexInit, InitPayload, Plain, Finish, HashInput, Paired;
    var o := HandleKexInit(false, x.client.offer, InitPayload(x.server.cookie, x.server.offer), Aead(p));
    assert o.Agreed?;
    var a, b := x.client.privateKey, x.server.privateKey;
    assert p.shared(o.names[KEX], a, p.publicKey(o.names[KEX], b))
           == p.shared(o.names[KEX], b, p.publicKey(o.names[KEX], a));
  }

  lemma OneMoreAgrees(k: Connection, c: Config, s: Config, h: Bytes)
    requires InAgreement(k) && Paired(c, s) && c.sessionId == k.client.session.GetOr(h)
    ensures InAgreement(k.(client := k.client.(session := Some(c.sessionId)),
                           server := k.server.(session := Some(s.sessionId)),
                           configs := k.configs + [(c, s)], hashes := k.hashes + [h]))
  {
    assert (k.hashes + [h])[0] == c.sessionId == s.sessionId;
  }

  /** Any number of exchanges, each from the two ends' own offers and private keys: every time what
      one end sends with is what the other receives with, the session id of both is the hash of the
      first exchange for good, and an exchange that fails does so at both ends and in the same
      category. */
  lemma {:induction false} KeysPair(p: Primitives, identC: Bytes, identS: Bytes, xs: seq<Exchange>)
    requires Lawful(p) && AllProper(xs)
    ensures var k := Exchanged(p, Connected(identC, identS), xs);
            && InAgreement(k)
            && |k.configs| == |k.hashes| && (k.failed.None? ==> |k.configs| == |xs|)
            && (forall i | 0 <= i < |k.configs| ::
                  Paired(k.configs[i].0, k.configs[i].1) && k.configs[i].0.sessionId == k.hashes[0])
            && (k.failed.Some? ==> k.failed.value.0 == k.failed.value.1 && k.failed.value.0.NoMatch?)
    decreases |xs|
  {
    if xs != [] {
      KeysPair(p, identC, identS, xs[..|xs| - 1]);
      NextAgrees(p, Exchanged(p, Connected(identC, identS), xs[..|xs| - 1]), xs[|xs| - 1]);
    }
  }
}
