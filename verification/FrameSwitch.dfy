/** Changing keys in the middle of the stream: the loop of `Protocol.parse` over one decipher
    after another, and the sender whose packets it reads. */
module FrameSwitch {
  import opened Common
  import opened FrameSpec
  import C = FrameChaCha
  import G = FrameGcm
  import N = FrameGeneric

  /** A cipher with its keys and what it carries from packet to packet. */
  datatype Cipher =
    | ChaCha(chacha: C.Keys)
    | Gcm(gcm: G.Keys, iv: Bytes)
    | Generic(generic: N.Keys, fed: Bytes)

  ghost predicate Usable(c: Cipher) {
    match c
    case ChaCha(keys) => C.Lawful(keys)
    case Gcm(keys, iv) => G.Lawful(keys) && |iv| == 12
    case Generic(keys, fed) => N.Lawful(keys) && keys.macLen > 0 && N.InStep(keys, fed)
  }

  function Relabel<S, T>(o: Outcome<S>, f: S -> T): Outcome<T> {
    match o
    case Waiting(out, st, seqno, pending) => Waiting(out, f(st), seqno, pending)
    case Stopped(out, st, seqno, rest) => Stopped(out, f(st), seqno, rest)
    case Failed(out) => Failed(out)
  }

  function ToChaCha(keys: C.Keys): (()) -> Cipher { (_: ()) => ChaCha(keys) }
  function ToGcm(keys: G.Keys): Bytes -> Cipher { (iv: Bytes) => Gcm(keys, iv) }
  function ToGeneric(keys: N.Keys): Bytes -> Cipher { (fed: Bytes) => Generic(keys, fed) }

  /** What the decipher for `c` makes of `w`. */
  function FeedWith(c: Cipher, stops: Handler, k: nat, seqno: uint32, w: Bytes): Outcome<Cipher> {
    match c
    case ChaCha(keys) => Relabel(Feed(C.TheSuite(keys), stops, k, (), seqno, w), ToChaCha(keys))
    case Gcm(keys, iv) => Relabel(Feed(G.TheSuite(keys), stops, k, iv, seqno, w), ToGcm(keys))
    case Generic(keys, fed) => Relabel(Feed(N.TheSuite(keys), stops, k, fed, seqno, w), ToGeneric(keys))
  }

  // ----- One decipher, fed in two pieces -----

  function ResumeWith(stops: Handler, k: nat, o: Outcome<Cipher>, more: Bytes): Outcome<Cipher> {
    match o
    case Waiting(out, c, seqno, pending) => Prepend(out, FeedWith(c, stops, k + |out|, seqno, pending + more))
    case Stopped(out, c, seqno, rest) => Stopped(out, c, seqno, rest + more)
    case Failed(_) => o
  }

  lemma FeedWithInTwo(c: Cipher, stops: Handler, k: nat, seqno: uint32, w: Bytes, more: Bytes)
    ensures FeedWith(c, stops, k, seqno, w + more)
            == ResumeWith(stops, k, FeedWith(c, stops, k, seqno, w), more)
  {
    hide Feed, C.TheSuite, G.TheSuite, N.TheSuite;
    match c
    case ChaCha(keys) =>
      FeedInTwo(C.TheSuite(keys), stops, k, (), seqno, w, more);
      var o := Feed(C.TheSuite(keys), stops, k, (), seqno, w);
      assert o.Waiting? ==> o.state == ();
    case Gcm(keys, iv) =>
      FeedInTwo(G.TheSuite(keys), stops, k, iv, seqno, w, more);
    case Generic(keys, fed) =>
      FeedInTwo(N.TheSuite(keys), stops, k, fed, seqno, w, more);
  }

  // ----- One decipher after another -----

  type State = (Cipher, seq<Cipher>)

  /** When the handler stops the decipher (it has just put the next one in its place), parsing
      goes on with that one at the byte where the first left off. `nexts` are the ciphers the
      key exchanges to come will agree on. */
  function FeedAll(c: Cipher, nexts: seq<Cipher>, stops: Handler, k: nat, seqno: uint32, w: Bytes): Outcome<State>
    decreases |nexts|, 1
  {
    Switch(FeedWith(c, stops, k, seqno, w), nexts, stops, k)
  }

  function Switch(o: Outcome<Cipher>, nexts: seq<Cipher>, stops: Handler, k: nat): Outcome<State>
    decreases |nexts|, 0
  {
    match o
    case Waiting(out, c, seqno, pending) => Waiting(out, (c, nexts), seqno, pending)
    case Failed(out) => Failed(out)
    case Stopped(out, c, seqno, rest) =>
      if nexts == [] then Stopped(out, (c, nexts), seqno, rest)
      else Prepend(out, FeedAll(nexts[0], nexts[1..], stops, k + |out|, seqno, rest))
  }

  lemma SwitchPrepended(out: seq<Bytes>, o: Outcome<Cipher>, nexts: seq<Cipher>, stops: Handler, k: nat)
    ensures Switch(Prepend(out, o), nexts, stops, k) == Prepend(out, Switch(o, nexts, stops, k + |out|))
  {
    hide FeedAll;
    if o.Stopped? && nexts != [] {
      PrependTwice(out, o.out, FeedAll(nexts[0], nexts[1..], stops, k + |out| + |o.out|, o.seqno, o.rest));
    }
  }

  function ResumeAll(stops: Handler, k: nat, o: Outcome<State>, more: Bytes): Outcome<State> {
    match o
    case Waiting(out, st, seqno, pending) =>
      Prepend(out, FeedAll(st.0, st.1, stops, k + |out|, seqno, pending + more))
    case Stopped(out, st, seqno, rest) => Stopped(out, st, seqno, rest + more)
    case Failed(_) => o
  }

  lemma ResumeAllPrepended(stops: Handler, k: nat, out: seq<Bytes>, o: Outcome<State>, more: Bytes)
    ensures ResumeAll(stops, k, Prepend(out, o), more) == Prepend(out, ResumeAll(stops, k + |out|, o, more))
  {
    hide FeedAll;
    if o.Waiting? {
      PrependTwice(out, o.out,
                   FeedAll(o.state.0, o.state.1, stops, k + |out| + |o.out|, o.seqno, o.pending + more));
    }
  }

  lemma {:induction false} FeedAllInTwo(c: Cipher, nexts: seq<Cipher>, stops: Handler, k: nat, seqno: uint32,
                                        w: Bytes, more: Bytes)
    ensures FeedAll(c, nexts, stops, k, seqno, w + more)
            == ResumeAll(stops, k, FeedAll(c, nexts, stops, k, seqno, w), more)
    decreases |nexts|
  {
    hide FeedWith;
    FeedWithInTwo(c, stops, k, seqno, w, more);
    match FeedWith(c, stops, k, seqno, w)
    case Waiting(out, c1, n, pending) =>
      SwitchPrepended(out, FeedWith(c1, stops, k + |out|, n, pending + more), nexts, stops, k);
    case Failed(out) =>
    case Stopped(out, c1, n, rest) =>
      if nexts != [] {
        FeedAllInTwo(nexts[0], nexts[1..], stops, k + |out|, n, rest, more);
        ResumeAllPrepended(stops, k, out, FeedAll(nexts[0], nexts[1..], stops, k + |out|, n, rest), more);
      }
  }

  /** Chunk after chunk, until something other than `Waiting` happens. */
  function FeedAllChunks(st: State, stops: Handler, k: nat, seqno: uint32, pending: Bytes,
                         chunks: seq<Bytes>): Outcome<State>
    decreases |chunks|
  {
    if chunks == [] then FeedAll(st.0, st.1, stops, k, seqno, pending)
    else
      var first := FeedAll(st.0, st.1, stops, k, seqno, pending + chunks[0]);
      if first.Waiting? then
        Prepend(first.out, FeedAllChunks(first.state, stops, k + |first.out|, first.seqno,
                                         first.pending, chunks[1..]))
      else ResumeAll(stops, k, first, Join(chunks[1..]))
  }

  /** However many times the keys change and wherever the stream is cut. */
  lemma {:induction false} ChunksDoNotMatterAcrossKeys(st: State, stops: Handler, k: nat, seqno: uint32,
                                                       pending: Bytes, chunks: seq<Bytes>)
    ensures FeedAllChunks(st, stops, k, seqno, pending, chunks)
            == FeedAll(st.0, st.1, stops, k, seqno, pending + Join(chunks))
    decreases |chunks|
  {
    hide FeedAll;
    if chunks == [] {
      assert pending + Join(chunks) == pending;
    } else {
      var w := pending + chunks[0];
      var first := FeedAll(st.0, st.1, stops, k, seqno, w);
      FeedAllInTwo(st.0, st.1, stops, k, seqno, w, Join(chunks[1..]));
      assert w + Join(chunks[1..]) == pending + Join(chunks);
      if first.Waiting? {
        ChunksDoNotMatterAcrossKeys(first.state, stops, k + |first.out|, first.seqno, first.pending, chunks[1..]);
      }
    }
  }

  // ----- The sender -----

  /** The size check a packet has to pass at the receiver. */
  predicate Fits(c: Cipher, packet: Bytes) {
    IsPacket(packet) && LengthFits(c, |packet| - 4)
  }

  predicate LengthFits(c: Cipher, len: nat) {
    match c
    case ChaCha(keys) => C.TheSuite(keys).lengthOk(len)
    case Gcm(keys, iv) => G.TheSuite(keys).lengthOk(len)
    case Generic(keys, fed) => N.TheSuite(keys).lengthOk(len)
  }

  /** One packet sealed, and the cipher afterwards. */
  function SealWith(c: Cipher, seqno: uint32, packet: Bytes): (Bytes, Cipher) {
    match c
    case ChaCha(keys) => (C.SealOne(keys, seqno, packet), c)
    case Gcm(keys, iv) => (G.SealOne(keys, iv, packet), Gcm(keys, G.NextIv(iv)))
    case Generic(keys, fed) =>
      var w := N.SealOne(keys, fed, seqno, packet);
      (w, Generic(keys, N.Advance(keys, fed, w)))
  }

  /** A sealed packet at the front: delivered, and both ends have moved on alike. */
  lemma FeedWithSealed(c: Cipher, stops: Handler, k: nat, seqno: uint32, packet: Bytes, tail: Bytes)
    requires Usable(c) && Fits(c, packet)
    ensures var (w, c1) := SealWith(c, seqno, packet);
            var payload := PacketPayload(packet);
            && Usable(c1)
            && FeedWith(c, stops, k, seqno, w + tail)
               == if stops(k, payload) then Stopped([payload], c1, Wrap(seqno + 1), tail)
                  else Prepend([payload], FeedWith(c1, stops, k + 1, Wrap(seqno + 1), tail))
  {
    hide Feed, Matches, IsPacket, PacketPayload, C.SealOne, G.SealOne, N.SealOne, N.Advance;
    hide C.Lawful, G.Lawful, N.Lawful, N.InStep;
    match c
    case ChaCha(keys) =>
      C.CipherMatchesDecipher(keys);
      FeedSealed(C.TheSuite(keys), C.TheSeal(keys), (st: ()) => true, stops, k, (), seqno, packet, tail);
    case Gcm(keys, iv) =>
      G.CipherMatchesDecipher(keys);
      FeedSealed(G.TheSuite(keys), G.TheSeal(keys), (iv: Bytes) => |iv| == 12, stops, k, iv, seqno, packet, tail);
    case Generic(keys, fed) =>
      N.CipherMatchesDecipher(keys);
      FeedSealed(N.TheSuite(keys), N.TheSeal(keys), (fed: Bytes) => N.InStep(keys, fed),
                 stops, k, fed, seqno, packet, tail);
  }

  /** What the sender does: send a packet, or change to the next cipher. */
  datatype Act = Send(packet: Bytes) | Change(cipher: Cipher)

  /** Everything written, the cipher at the end and the next sequence number, which a change of
      keys does not reset. */
  function Wire(c: Cipher, seqno: uint32, acts: seq<Act>): (Bytes, Cipher, uint32)
    decreases |acts|
  {
    if acts == [] then ([], c, seqno)
    else
      match acts[0]
      case Change(c1) => Wire(c1, seqno, acts[1..])
      case Send(packet) =>
        var (w, c1) := SealWith(c, seqno, packet);
        var rest := Wire(c1, Wrap(seqno + 1), acts[1..]);
        (w + rest.0, rest.1, rest.2)
  }

  function Sent(acts: seq<Act>): seq<Bytes>
    requires forall a <- acts :: a.Send? ==> IsPacket(a.packet)
  {
    if acts == [] then []
    else if acts[0].Send? then [PacketPayload(acts[0].packet)] + Sent(acts[1..])
    else Sent(acts[1..])
  }

  function Changes(acts: seq<Act>): seq<Cipher> {
    if acts == [] then []
    else if acts[0].Change? then [acts[0].cipher] + Changes(acts[1..])
    else Changes(acts[1..])
  }

  /** The sender changes its cipher right after the packets on which the receiver does, and
      every packet is within the size limit of the cipher it is sent under. */
  ghost predicate Disciplined(c: Cipher, seqno: uint32, newKeys: Bytes -> bool, changeNow: bool, acts: seq<Act>)
    decreases |acts|
  {
    if acts == [] then !changeNow
    else
      match acts[0]
      case Change(c1) => changeNow && Usable(c1) && Disciplined(c1, seqno, newKeys, false, acts[1..])
      case Send(packet) =>
        && !changeNow && Fits(c, packet)
        && Disciplined(SealWith(c, seqno, packet).1, Wrap(seqno + 1), newKeys,
                       newKeys(PacketPayload(packet)), acts[1..])
  }

  lemma {:induction false} AllPackets(c: Cipher, seqno: uint32, newKeys: Bytes -> bool, changeNow: bool,
                                      acts: seq<Act>)
    requires Disciplined(c, seqno, newKeys, changeNow, acts)
    ensures forall a <- acts :: a.Send? ==> IsPacket(a.packet)
    decreases |acts|
  {
    if acts != [] {
      assert acts == [acts[0]] + acts[1..];
      match acts[0]
      case Change(c1) => AllPackets(c1, seqno, newKeys, false, acts[1..]);
      case Send(packet) =>
        AllPackets(SealWith(c, seqno, packet).1, Wrap(seqno + 1), newKeys,
                   newKeys(PacketPayload(packet)), acts[1..]);
    }
  }

  function OnNewKeys(newKeys: Bytes -> bool): Handler {
    (k: nat, p: Bytes) => newKeys(p)
  }

  lemma NothingToRead(c: Cipher, nexts: seq<Cipher>, stops: Handler, k: nat, seqno: uint32)
    requires Usable(c)
    ensures FeedAll(c, nexts, stops, k, seqno, []) == Waiting([], (c, nexts), seqno, [])
  {
    match c
    case ChaCha(keys) => assert First(C.TheSuite(keys), (), seqno, []) == NeedMore;
    case Gcm(keys, iv) => assert First(G.TheSuite(keys), iv, seqno, []) == NeedMore;
    case Generic(keys, fed) => assert First(N.TheSuite(keys), fed, seqno, []) == NeedMore;
  }

  /** One sealed packet off the front of the stream, whichever decipher has to go on after it. */
  lemma OneSealed(c: Cipher, nexts: seq<Cipher>, stops: Handler, k: nat, seqno: uint32, packet: Bytes, tail: Bytes)
    requires Usable(c) && Fits(c, packet)
    requires IsPacket(packet) && (stops(k, PacketPayload(packet)) ==> nexts != [])
    ensures var (w, c1) := SealWith(c, seqno, packet);
            var payload := PacketPayload(packet);
            && Usable(c1)
            && FeedAll(c, nexts, stops, k, seqno, w + tail)
               == Prepend([payload],
                          if stops(k, payload) then FeedAll(nexts[0], nexts[1..], stops, k + 1, Wrap(seqno + 1), tail)
                          else FeedAll(c1, nexts, stops, k + 1, Wrap(seqno + 1), tail))
  {
    hide FeedWith, Usable, SealWith;
    var c1 := SealWith(c, seqno, packet).1;
    FeedWithSealed(c, stops, k, seqno, packet, tail);
    SwitchPrepended([PacketPayload(packet)], FeedWith(c1, stops, k + 1, Wrap(seqno + 1), tail), nexts, stops, k);
  }

  /** A whole stream at once. */
  lemma {:induction false} StreamRoundTrip(c: Cipher, newKeys: Bytes -> bool, k: nat, seqno: uint32, acts: seq<Act>)
    requires Usable(c) && Disciplined(c, seqno, newKeys, false, acts)
    ensures forall a <- acts :: a.Send? ==> IsPacket(a.packet)
    ensures var (w, c1, n) := Wire(c, seqno, acts);
            FeedAll(c, Changes(acts), OnNewKeys(newKeys), k, seqno, w) == Waiting(Sent(acts), (c1, []), n, [])
    decreases |acts|
  {
    AllPackets(c, seqno, newKeys, false, acts);
    hide FeedAll, Usable, Fits, SealWith, IsPacket, PacketPayload;
    var stops := OnNewKeys(newKeys);
    if acts == [] {
      NothingToRead(c, [], stops, k, seqno);
    } else {
      var packet := acts[0].packet;
      var (w, c1) := SealWith(c, seqno, packet);
      var tail := Wire(c1, Wrap(seqno + 1), acts[1..]).0;
      if newKeys(PacketPayload(packet)) {
        var c2 := acts[1].cipher;
        assert acts[1..][0] == acts[1] && acts[1..][1..] == acts[2..];
        assert Changes(acts) == Changes(acts[1..]) == [c2] + Changes(acts[2..]);
        OneSealed(c, Changes(acts), stops, k, seqno, packet, tail);
        StreamRoundTrip(c2, newKeys, k + 1, Wrap(seqno + 1), acts[2..]);
      } else {
        OneSealed(c, Changes(acts), stops, k, seqno, packet, tail);
        StreamRoundTrip(c1, newKeys, k + 1, Wrap(seqno + 1), acts[1..]);
      }
    }
  }

  /** Any number of key changes and any cut of the stream into chunks: every payload is
      delivered once and in order, no byte is lost or read twice, and the two ends finish with
      the same cipher state and sequence number. */
  lemma Conversation(c: Cipher, newKeys: Bytes -> bool, k: nat, seqno: uint32, acts: seq<Act>, chunks: seq<Bytes>)
    requires Usable(c) && Disciplined(c, seqno, newKeys, false, acts)
    requires Join(chunks) == Wire(c, seqno, acts).0
    ensures forall a <- acts :: a.Send? ==> IsPacket(a.packet)
    ensures var (_, c1, n) := Wire(c, seqno, acts);
            FeedAllChunks((c, Changes(acts)), OnNewKeys(newKeys), k, seqno, [], chunks)
            == Waiting(Sent(acts), (c1, []), n, [])
  {
    hide FeedAll, Disciplined, Usable;
    ChunksDoNotMatterAcrossKeys((c, Changes(acts)), OnNewKeys(newKeys), k, seqno, [], chunks);
    assert [] + Join(chunks) == Join(chunks);
    StreamRoundTrip(c, newKeys, k, seqno, acts);
  }

  // ----- Protocol.parse -----

  datatype Decipher =
    | ChaChaPoly(chacha: C.ChaChaPolyDecipher)
    | AesGcm(gcm: G.AESGCMDecipher)
    | Other(generic: N.GenericDecipher)

  ghost predicate LawfulKeys(c: Cipher) {
    match c
    case ChaCha(keys) => C.Lawful(keys)
    case Gcm(keys, iv) => G.Lawful(keys)
    case Generic(keys, fed) => N.Lawful(keys)
  }

  function Self(d: Decipher): object {
    match d
    case ChaChaPoly(x) => x
    case AesGcm(x) => x
    case Other(x) => x
  }

  ghost function Repr(d: Decipher): (r: set<object>)
    reads Self(d)
    ensures Self(d) in r
  {
    match d
    case ChaChaPoly(x) => x.Repr()
    case AesGcm(x) => x.Repr()
    case Other(x) => x.Repr()
  }

  ghost predicate Ready(d: Decipher)
    reads Self(d), Repr(d)
  {
    match d
    case ChaChaPoly(x) => x.Ready()
    case AesGcm(x) => x.Ready()
    case Other(x) => x.Ready()
  }

  ghost function Pending(d: Decipher): Bytes
    requires Ready(d)
    reads Self(d), Repr(d)
  {
    match d
    case ChaChaPoly(x) => x.Pending()
    case AesGcm(x) => x.Pending()
    case Other(x) => x.Pending()
  }

  ghost function Current(d: Decipher): Cipher
    reads Self(d), Repr(d)
  {
    match d
    case ChaChaPoly(x) => ChaCha(x.keys)
    case AesGcm(x) => Gcm(x.keys, x.decipherIV[..])
    case Other(x) => Generic(x.keys, x.fed)
  }

  function InSeqno(d: Decipher): uint32
    reads Self(d)
  {
    match d
    case ChaChaPoly(x) => x.inSeqno
    case AesGcm(x) => x.inSeqno
    case Other(x) => x.inSeqno
  }

  function Delivered(d: Decipher): seq<Bytes>
    reads Self(d)
  {
    match d
    case ChaChaPoly(x) => x.delivered
    case AesGcm(x) => x.delivered
    case Other(x) => x.delivered
  }

  /** `createDecipher`: the sequence number carries over. */
  method CreateDecipher(c: Cipher, seqno: uint32, delivered: seq<Bytes>) returns (d: Decipher)
    requires Usable(c)
    ensures Ready(d) && fresh(Repr(d)) && Pending(d) == [] && Current(d) == c && LawfulKeys(c)
    ensures InSeqno(d) == seqno && Delivered(d) == delivered
  {
    match c
    case ChaCha(keys) =>
      var x := new C.ChaChaPolyDecipher(keys, seqno, delivered);
      d := ChaChaPoly(x);
    case Gcm(keys, iv) =>
      var a := new byte[12](i requires 0 <= i < 12 => iv[i]);
      assert a[..] == iv;
      var x := new G.AESGCMDecipher(keys, a, seqno, delivered);
      d := AesGcm(x);
    case Generic(keys, fed) =>
      var x := new N.GenericDecipher(keys, fed, seqno, delivered);
      d := Other(x);
  }

  /** Whichever decipher it is, it does what its suite says. */
  method Decrypt(d: Decipher, data: Bytes, start: nat, stops: Handler) returns (r: Result)
    requires Ready(d) && LawfulKeys(Current(d)) && start <= |data|
    modifies Repr(d)
    ensures fresh(Repr(d) - old(Repr(d)))
    ensures match FeedWith(old(Current(d)), stops, |old(Delivered(d))|, old(InSeqno(d)),
                           old(Pending(d)) + data[start..])
            case Waiting(out, c, seqno, pending) =>
              && Ready(d) && r == Undefined && Pending(d) == pending
              && Current(d) == c && LawfulKeys(c) && InSeqno(d) == seqno && Delivered(d) == old(Delivered(d)) + out
            case Stopped(out, c, seqno, rest) =>
              && Ready(d) && r.Offset? && r.p <= |data| && data[r.p..] == rest && Pending(d) == []
              && Current(d) == c && InSeqno(d) == seqno && Delivered(d) == old(Delivered(d)) + out
            case Failed(out) => r == Thrown && Delivered(d) == old(Delivered(d)) + out
  {
    hide Feed, C.TheSuite, G.TheSuite, N.TheSuite, C.Lawful, G.Lawful, N.Lawful;
    match d
    case ChaChaPoly(x) =>
      hide C.ChaChaPolyDecipher.Ready, C.ChaChaPolyDecipher.Pending, C.ChaChaPolyDecipher.Valid;
      r := x.Decrypt(data, start, stops);
    case AesGcm(x) =>
      hide G.AESGCMDecipher.Ready, G.AESGCMDecipher.Pending, G.AESGCMDecipher.Valid;
      r := x.Decrypt(data, start, stops);
    case Other(x) =>
      hide N.GenericDecipher.Ready, N.GenericDecipher.Pending, N.GenericDecipher.Valid;
      r := x.Decrypt(data, start, stops);
  }

  /** What the loop of `parse` comes to: it has used up the chunk, it threw, or a handler stopped
      the decipher without another in its place. */
  datatype Parsing = Used | Threw | Stranded(p: nat)

  /** The outcome `goal` is what has been delivered since the `k`-th payload, and then feeding `w`. */
  ghost predicate ProgressAll(goal: Outcome<State>, stops: Handler, k: nat, done: seq<Bytes>,
                              c: Cipher, nexts: seq<Cipher>, seqno: uint32, w: Bytes) {
    k <= |done| && goal == Prepend(done[k..], FeedAll(c, nexts, stops, |done|, seqno, w))
  }

  lemma ProgressAllAtStart(stops: Handler, done: seq<Bytes>, c: Cipher, nexts: seq<Cipher>, seqno: uint32, w: Bytes)
    ensures ProgressAll(FeedAll(c, nexts, stops, |done|, seqno, w), stops, |done|, done, c, nexts, seqno, w)
  {
    PrependNothing(FeedAll(c, nexts, stops, |done|, seqno, w));
  }

  /** One call of `decrypt` further. */
  lemma ProgressAllByOne(goal: Outcome<State>, stops: Handler, k: nat, done: seq<Bytes>,
                         c: Cipher, nexts: seq<Cipher>, seqno: uint32, w: Bytes)
    requires ProgressAll(goal, stops, k, done, c, nexts, seqno, w)
    ensures match FeedWith(c, stops, |done|, seqno, w)
            case Waiting(out, c1, n, pending) => goal == Waiting((done + out)[k..], (c1, nexts), n, pending)
            case Failed(out) => goal == Failed((done + out)[k..])
            case Stopped(out, c1, n, rest) =>
              if nexts == [] then goal == Stopped((done + out)[k..], (c1, nexts), n, rest)
              else ProgressAll(goal, stops, k, done + out, nexts[0], nexts[1..], n, rest)
  {
    hide FeedWith;
    var o := FeedWith(c, stops, |done|, seqno, w);
    assert FeedAll(c, nexts, stops, |done|, seqno, w) == Switch(o, nexts, stops, |done|);
    assert (done + o.out)[k..] == done[k..] + o.out;
    if o.Stopped? && nexts != [] {
      PrependTwice(done[k..], o.out, FeedAll(nexts[0], nexts[1..], stops, |done + o.out|, o.seqno, o.rest));
    }
  }

  /** The receiving half of `Protocol`. */
  class Protocol {
    var decipher: Decipher
    /** What the key exchanges to come will agree on. */
    var nexts: seq<Cipher>

    ghost predicate Valid()
      reads this, Repr(decipher)
    {
      && this !in Repr(decipher)
      && Ready(decipher) && LawfulKeys(Current(decipher))
      && forall c <- nexts :: Usable(c)
    }

    constructor (first: Cipher, nexts: seq<Cipher>, seqno: uint32)
      requires Usable(first) && forall c <- nexts :: Usable(c)
      ensures Valid() && fresh(Repr(decipher)) && this.nexts == nexts && Delivered(decipher) == []
      ensures Pending(decipher) == [] && Current(decipher) == first && InSeqno(decipher) == seqno
    {
      hide Ready, Pending, Current, InSeqno, Delivered, LawfulKeys, Usable;
      var d := CreateDecipher(first, seqno, []);
      this.nexts := nexts;
      decipher := d;
    }

    /** `parse`: feeding one more chunk, across any number of changes of keys. */
    method Parse(chunk: Bytes, stops: Handler) returns (r: Parsing)
      requires Valid()
      modifies this, Repr(decipher)
      ensures fresh(Repr(decipher) - old(Repr(decipher)))
      ensures match FeedAll(old(Current(decipher)), old(nexts), stops, |old(Delivered(decipher))|,
                            old(InSeqno(decipher)), old(Pending(decipher)) + chunk)
              case Waiting(out, st, seqno, pending) =>
                && r == Used && Valid() && Current(decipher) == st.0 && nexts == st.1
                && InSeqno(decipher) == seqno && Pending(decipher) == pending
                && Delivered(decipher) == old(Delivered(decipher)) + out
              case Failed(out) =>
                r == Threw && Delivered(decipher) == old(Delivered(decipher)) + out
              case Stopped(out, st, seqno, rest) =>
                && r.Stranded? && r.p <= |chunk| && chunk[r.p..] == rest
                && Delivered(decipher) == old(Delivered(decipher)) + out
    {
      hide FeedAll, FeedWith, Ready, Pending, Current, InSeqno, Delivered, ProgressAll, LawfulKeys, Usable;
      ghost var k := |Delivered(decipher)|;
      ghost var goal := FeedAll(Current(decipher), nexts, stops, k, InSeqno(decipher), Pending(decipher) + chunk);
      ghost var before := Delivered(decipher);
      ProgressAllAtStart(stops, before, Current(decipher), nexts, InSeqno(decipher), Pending(decipher) + chunk);
      var i := 0;
      assert chunk[0..] == chunk;
      while i < |chunk|
        invariant Valid() && fresh(Repr(decipher) - old(Repr(decipher))) && i <= |chunk|
        invariant before <= Delivered(decipher)
        invariant ProgressAll(goal, stops, k, Delivered(decipher), Current(decipher), nexts,
                              InSeqno(decipher), Pending(decipher) + chunk[i..])
        decreases |nexts|, |chunk| - i
      {
        ProgressAllByOne(goal, stops, k, Delivered(decipher), Current(decipher), nexts,
                         InSeqno(decipher), Pending(decipher) + chunk[i..]);
        ghost var mine := Repr(decipher);
        var step := Decrypt(decipher, chunk, i, stops);
        assert fresh(Repr(decipher) - mine);
        match step
        case Undefined => return Used;
        case Thrown => return Threw;
        case Offset(p) =>
          if nexts == [] {
            return Stranded(p);
          }
          decipher := CreateDecipher(nexts[0], InSeqno(decipher), Delivered(decipher));
          nexts := nexts[1..];
          i := p;
          BehindPacket([], chunk, i, i);
      }
      NothingBehind(Pending(decipher), chunk, i);
      NothingMore(decipher, nexts, stops, |Delivered(decipher)|);
      AllUsed(goal, stops, k, Delivered(decipher), Current(decipher), nexts, InSeqno(decipher), Pending(decipher));
      return Used;
    }
  }

  /** A decipher waits as long as no more bytes come. */
  lemma NothingMore(d: Decipher, nexts: seq<Cipher>, stops: Handler, k: nat)
    requires Ready(d)
    ensures FeedAll(Current(d), nexts, stops, k, InSeqno(d), Pending(d))
            == Waiting([], (Current(d), nexts), InSeqno(d), Pending(d))
  {
    hide C.ChaChaPolyDecipher.Valid, G.AESGCMDecipher.Valid, N.GenericDecipher.Valid;
    hide C.ChaChaPolyDecipher.Pending, G.AESGCMDecipher.Pending, N.GenericDecipher.Pending, First;
    match d
    case ChaChaPoly(x) =>
      x.FirstOfPart();
    case AesGcm(x) =>
      x.FirstOfPart();
    case Other(x) =>
      x.FirstOfPart();
  }

  lemma AllUsed(goal: Outcome<State>, stops: Handler, k: nat, done: seq<Bytes>,
                c: Cipher, nexts: seq<Cipher>, seqno: uint32, w: Bytes)
    requires ProgressAll(goal, stops, k, done, c, nexts, seqno, w)
    requires FeedAll(c, nexts, stops, |done|, seqno, w) == Waiting([], (c, nexts), seqno, w)
    ensures goal == Waiting(done[k..], (c, nexts), seqno, w)
  {
    hide FeedAll;
    assert done[k..] + [] == done[k..];
  }
}
