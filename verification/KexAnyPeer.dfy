/** One client and whatever is at the other end of its connection: packets of any kind in any order,
    and answers of the host verifier at any time. The client takes new keys only from a host whose
    key was accepted in that exchange, and which signed the client's own view of it. */
module KexAnyPeer {
  import opened Common
  import opened KexModel
  import opened KexSafety
  import opened KexInvariant
  import opened KexDelivery

  datatype Event =
    | Starts(cookie: nat)
    | Sends(payload: Payload)
    | Rekeys(cookie: nat)
    | Arrives(packet: Packet, choice: Choice)
    | Answers(permitted: bool)

  /** What one event does to the client. No packet is read before the identification line, and nothing
      happens after a fatal error. */
  function Take(e: End, v: Event): Effect {
    if e.fault != NoFault then (e, [])
    else match v
      case Starts(cookie) => Start(e, cookie)
      case Sends(payload) => Send(e, payload)
      case Rekeys(cookie) => Rekey(e, cookie)
      case Arrives(p, ch) => if e.started then Receive(e, p, ch) else (e, [])
      case Answers(permitted) => Answer(e, permitted)
  }

  /** What has been decided on the host key of the current exchange. */
  datatype Ruling = NotAsked | Asked | Ruled(permitted: bool)

  /** What an observer of the client's traffic and of its verifier notes down: the last KEXINIT of
      either side, the client's last public key, and since the peer's KEXINIT the reply, the ruling
      on its host key, and whether NEWKEYS has come. */
  datatype Notes = Notes(
    mine: nat,
    theirs: nat,
    pub: nat,
    reply: Option<(nat, Hash)>,
    ruling: Ruling,
    newKeys: bool)

  function RulingOf(v: Verdict): Ruling {
    match v
    case Accept => Ruled(true)
    case Deny => Ruled(false)
    case Later => Asked
  }

  function Heard(n: Notes, e: End, v: Event): Notes {
    if v.Answers? then
      if n.ruling == Asked then n.(ruling := Ruled(v.permitted)) else n
    else if !v.Arrives? || !e.started || !Authentic(e, v.packet) then n
    else HeardMsg(n, v.packet.msg, v.choice)
  }

  function HeardMsg(n: Notes, msg: Msg, ch: Choice): Notes {
    match msg
    case KexInit(cookie) => n.(theirs := cookie, reply := None, ruling := NotAsked, newKeys := false)
    case KexDhReply(pub, signed) =>
      if n.reply.Some? then n else n.(reply := Some((pub, signed)), ruling := RulingOf(ch.verdict))
    case NewKeys => n.(newKeys := true)
    case _ => n
  }

  function Wrote(n: Notes, w: seq<Packet>): Notes
    decreases |w|
  {
    if w == [] then n
    else
      var n1 := match w[0].msg
        case KexInit(cookie) => n.(mine := cookie)
        case KexDhInit(pub) => n.(pub := pub)
        case _ => n;
      Wrote(n1, w[1..])
  }

  datatype Watched = Watched(e: End, n: Notes)

  function Next(x: Watched, v: Event): Watched {
    if x.e.fault != NoFault then x
    else
      var r := Take(x.e, v);
      Watched(r.0, Wrote(Heard(x.n, x.e, v), r.1))
  }

  function Watch(x: Watched, vs: seq<Event>): Watched
    decreases |vs|
  {
    if vs == [] then x else Watch(Next(x, vs[0]), vs[1..])
  }

  function After(vs: seq<Event>): Watched {
    Watch(Watched(Fresh(false), Notes(0, 0, 0, None, NotAsked, false)), vs)
  }

  /** The exchange hash as the observer would compute it for the client. */
  function OwnHash(n: Notes): Hash
    requires n.reply.Some?
  {
    Hash(n.mine, n.theirs, n.pub, n.reply.value.0)
  }

  // ----- What the client's state has to do with the notes -----

  predicate KexNoted(e: End, k: Kex, n: Notes) {
    && 1 <= k.step <= 3
    && e.kexinit == Some(k.localInit)
    && k.remoteInit == n.theirs && k.pub == Some(n.pub)
    && !k.finished
    && k.receivedNewKeys == n.newKeys == (k.step == 3)
    && (k.step == 1 ==> n.reply.None? && n.ruling == NotAsked && !k.verifying && !k.hostVerified)
    && (k.step > 1 ==>
          && n.reply == Some((k.peerPub.GetOr(0), k.signature.GetOr(Hash(0, 0, 0, 0))))
          && k.peerPub.Some? && k.signature.Some?
          && n.ruling in {Asked, Ruled(true)}
          && k.verifying == (n.ruling == Asked) && k.hostVerified == (n.ruling == Ruled(true)))
    && (k.step == 3 ==> k.verifying)
  }

  predicate Noted(e: End, n: Notes) {
    && !e.server
    && (e.kexinit.Some? ==> e.kexinit.value == n.mine)
    && (if e.onPayload == FirstKex then e.kex.None? && n.ruling == NotAsked else e.started)
    && (e.onPayload == DuringKex ==> e.kex.Some? && KexNoted(e, e.kex.value, n))
    && (e.onPayload == Established ==>
          && e.kex.Some? && !e.kex.value.verifying
          && n.ruling == Ruled(true) && n.reply.Some? && n.newKeys
          && e.kex.value.sessionId.Some?
          && e.outKey == Derived(n.reply.value.1, e.kex.value.sessionId.value, true)
          && e.inKey == Derived(n.reply.value.1, e.kex.value.sessionId.value, false))
  }

  predicate Ok(x: Watched) {
    x.e.fault == NoFault ==> Noted(x.e, x.n)
  }

  /** Both NEWKEYS and the acceptance are there: the exchange ends, with the keys of a hash that was
      signed, or in a fatal error, with nothing written. */
  predicate Settles(e: End, n: Notes, r: Effect)
    requires n.reply.Some?
  {
    if n.reply.value.1 == OwnHash(n) then
      var sid := SessionOf(e).GetOr(OwnHash(n));
      && r.0.fault == NoFault && r.0.onPayload == Established
      && r.0.outKey == Derived(OwnHash(n), sid, true) && r.0.inKey == Derived(OwnHash(n), sid, false)
      && r.1 != [] && r.1[0] == Packet(5, NewKeys, e.outKey, e.outSeqno) && AllOrdinary(r.1[1..])
    else r.0.fault == BadSignature && r.1 == []
  }

  predicate Writes(w: seq<Packet>) {
    exists p <- w :: p.msg == NewKeys
  }

  lemma WroteNothing(n: Notes)
    ensures Wrote(n, []) == n
  {
  }

  lemma WroteOne(n: Notes, p: Packet)
    ensures p.msg.KexInit? ==> Wrote(n, [p]) == n.(mine := p.msg.cookie)
    ensures p.msg.KexDhInit? ==> Wrote(n, [p]) == n.(pub := p.msg.pub)
    ensures !p.msg.KexInit? && !p.msg.KexDhInit? ==> Wrote(n, [p]) == n
  {
    assert [p][1..] == [];
  }

  lemma {:induction false} WroteOrdinary(n: Notes, w: seq<Packet>)
    requires AllOrdinary(w)
    ensures Wrote(n, w) == n
    decreases |w|
  {
    if w != [] {
      WroteOrdinary(n, w[1..]);
    }
  }

  lemma {:induction false} WroteAppend(n: Notes, v: seq<Packet>, w: seq<Packet>)
    ensures Wrote(n, v + w) == Wrote(Wrote(n, v), w)
    decreases |v|
  {
    if v == [] {
      assert v + w == w;
    } else {
      assert (v + w)[1..] == v[1..] + w;
      var n1 := match v[0].msg
        case KexInit(cookie) => n.(mine := cookie)
        case KexDhInit(pub) => n.(pub := pub)
        case _ => n;
      WroteAppend(n1, v[1..], w);
    }
  }

  // ----- Each event -----

  /** What the lemmas below say of one event: `m` is what is noted once it has been heard. */
  predicate Keeps(e: End, m: Notes, r: Effect) {
    && (r.0.fault == NoFault ==> Noted(r.0, Wrote(m, r.1)))
    && (Writes(r.1) ==> m.ruling == Ruled(true) && m.reply.Some? && m.newKeys
                        && m.reply.value.1 == OwnHash(m) && Settles(e, m, r))
  }

  lemma OutboundKeeps(e: End, n: Notes, v: Event)
    requires e.fault == NoFault && Noted(e, n) && (v.Starts? || v.Sends? || v.Rekeys?)
    ensures Keeps(e, n, Take(e, v))
  {
    var r := Take(e, v);
    WroteNothing(n);
    if r.1 != [] {
      assert r.1 == [r.1[0]];
      WroteOne(n, r.1[0]);
    }
  }

  /** A client that has read NEWKEYS and has the host's acceptance. */
  predicate Ready(e: End, k: Kex, n: Notes) {
    && e.fault == NoFault && !e.server && e.started
    && e.kex == Some(k) && e.kexinit == Some(n.mine) == Some(k.localInit)
    && k.remoteInit == n.theirs && k.pub == Some(n.pub) && !k.finished && !k.verifying
    && k.peerPub.Some? && k.signature.Some? && n.reply == Some((k.peerPub.value, k.signature.value))
    && n.ruling == Ruled(true) && n.newKeys
  }

  lemma FinishIsSettled(e: End, k: Kex, n: Notes)
    requires Ready(e, k, n) && k.signature.value == OwnHash(n)
    ensures Settles(e, n, ClientFinish(e, k)) && Noted(ClientFinish(e, k).0, n)
    ensures Wrote(n, ClientFinish(e, k).1) == n
  {
    hide Drain, Wrote;
    var hash := OwnHash(n);
    assert HashOf(e, k, k.peerPub.value, k.pub.value) == hash;
    var r := ClientFinish(e, k);
    var q := e.queue.GetOr([]);
    var done := Finished(e, hash);
    var d := Drain(done, q);
    var first := Packet(5, NewKeys, e.outKey, e.outSeqno);
    assert r == (d.0, [first] + d.1);
    DrainEnd(done, q);
    DrainPayloads(done, q);
    assert r.1[1..] == d.1;
    WroteAppend(n, [first], d.1);
    WroteOne(n, first);
    WroteOrdinary(n, d.1);
  }

  lemma FinishSettles(e: End, k: Kex, n: Notes)
    requires Ready(e, k, n)
    ensures Settles(e, n, ClientFinish(e, k)) && Keeps(e, n, ClientFinish(e, k))
  {
    if k.signature.value == OwnHash(n) {
      FinishIsSettled(e, k, n);
      hide ClientFinish, Noted, Settles, Wrote;
    }
  }

  /** Of the end itself, only its session id and where its stream stands matter. */
  lemma SettlesFrom(a: End, b: End, n: Notes, r: Effect)
    requires n.reply.Some? && Settles(a, n, r)
    requires SessionOf(a) == SessionOf(b) && a.outKey == b.outKey && a.outSeqno == b.outSeqno
    ensures Settles(b, n, r)
  {
  }

  lemma ParseKeeps(e: End, msg: Msg, ch: Choice, n: Notes)
    requires e.fault == NoFault && Noted(e, n) && e.onPayload == DuringKex && e.started
    requires msg.KexDhReply? || msg.KexDhInit? || msg.NewKeys?
    ensures Keeps(e, HeardMsg(n, msg, ch), Parse(e, e.kex.value, msg, ch))
  {
    hide ClientFinish, Settles;
    var k := e.kex.value;
    var k1 := k.(receivedNewKeys := true, step := 3);
    if k.step == 2 && msg.NewKeys? && k.hostVerified {
      var e1 := e.(kex := Some(k1));
      FinishSettles(e1, k1, n.(newKeys := true));
      SettlesFrom(e1, e, n.(newKeys := true), ClientFinish(e1, k1));
    }
  }

  lemma InitKeeps(e: End, remote: nat, ch: Choice, n: Notes)
    requires e.fault == NoFault && !e.server && e.started && e.onPayload != FirstKex
    requires e.kexinit.Some? ==> e.kexinit.value == n.mine
    requires e.onPayload == DuringKex ==> e.kex.None?
    requires e.onPayload == Established ==> e.kex.Some?
    ensures Keeps(e, HeardMsg(n, KexInit(remote), ch), HandleKexInit(e, remote, ch))
  {
    var m := HeardMsg(n, KexInit(remote), ch);
    var r := HandleKexInit(e, remote, ch);
    WroteNothing(m);
    if r.1 != [] {
      WroteOne(m, r.1[0]);
      assert r.1 == [r.1[0]] + r.1[1..];
      WroteAppend(m, [r.1[0]], r.1[1..]);
      if |r.1| == 2 {
        assert r.1[1..] == [r.1[1]];
        WroteOne(Wrote(m, [r.1[0]]), r.1[1]);
      } else {
        assert r.1[1..] == [];
      }
    }
  }

  /** Only the sequence number of the next packet to come has changed. */
  lemma Counted(e: End, n: Notes, seqno: uint32)
    ensures Noted(e, n) ==> Noted(e.(inSeqno := seqno), n)
    ensures SessionOf(e.(inSeqno := seqno)) == SessionOf(e)
  {
  }

  lemma SilentKeeps(e: End, n: Notes, r: Effect)
    requires r.1 == [] && (r.0.fault == NoFault ==> Noted(r.0, n))
    ensures Keeps(e, n, r)
  {
    hide Noted;
  }

  lemma KeepsFrom(a: End, b: End, n: Notes, r: Effect)
    requires Keeps(a, n, r)
    requires SessionOf(a) == SessionOf(b) && a.outKey == b.outKey && a.outSeqno == b.outSeqno
    ensures Keeps(b, n, r)
  {
    hide Noted, Settles, Wrote;
    if Writes(r.1) {
      SettlesFrom(a, b, n, r);
    }
  }

  /** A packet that does not decipher is the end of the connection; the others are dispatched. */
  lemma Dispatched(e: End, p: Packet, ch: Choice)
    ensures !Authentic(e, p) ==> Receive(e, p, ch).0.fault != NoFault && Receive(e, p, ch).1 == []
    ensures Authentic(e, p) ==>
              var e1 := e.(inSeqno := Wrap(e.inSeqno + 1));
              Receive(e, p, ch) == if e.onPayload == Established then OnEstablishedPayload(e1, p.msg, ch)
                                   else OnKexPayload(e1, p.msg, ch)
  {
    hide OnEstablishedPayload, OnKexPayload;
  }

  lemma EstablishedKeeps(e: End, msg: Msg, ch: Choice, n: Notes, m: Notes)
    requires e.fault == NoFault && Noted(e, n) && e.onPayload == Established
    requires if msg.KexInit? then m == HeardMsg(n, msg, ch) else m in {n, n.(newKeys := true)}
    ensures Keeps(e, m, OnEstablishedPayload(e, msg, ch))
  {
    hide HandleKexInit, Keeps;
    if msg.KexInit? {
      InitKeeps(e, msg.cookie, ch, n);
    } else {
      SilentKeeps(e, m, OnEstablishedPayload(e, msg, ch));
    }
  }

  lemma ReceiveKeeps(e: End, p: Packet, ch: Choice, n: Notes)
    requires e.fault == NoFault && Noted(e, n) && e.started
    ensures Keeps(e, Heard(n, e, Arrives(p, ch)), Receive(e, p, ch))
  {
    var e1 := e.(inSeqno := Wrap(e.inSeqno + 1));
    var m := Heard(n, e, Arrives(p, ch));
    var r := Receive(e, p, ch);
    Dispatched(e, p, ch);
    Counted(e, n, e1.inSeqno);
    hide Receive, Keeps, Parse, HandleKexInit, OnEstablishedPayload, Wrap, SessionOf, KexNoted;
    if !Authentic(e, p) {
      SilentKeeps(e, m, r);
    } else {
      if e.onPayload == Established {
        EstablishedKeeps(e1, p.msg, ch, n, m);
      } else if p.msg.KexInit? {
        if e.onPayload == FirstKex {
          InitKeeps(e1.(onPayload := DuringKex), p.msg.cookie, ch, n);
          KeepsFrom(e1.(onPayload := DuringKex), e1, m, r);
        } else {
          SilentKeeps(e1, m, r);
        }
      } else if e.onPayload == FirstKex || p.msg.Ordinary? {
        SilentKeeps(e1, m, r);
      } else {
        ParseKeeps(e1, p.msg, ch, n);
      }
      KeepsFrom(e1, e, m, r);
    }
  }

  lemma AnswerKeeps(e: End, permitted: bool, n: Notes)
    requires e.fault == NoFault && Noted(e, n)
    ensures Keeps(e, Heard(n, e, Answers(permitted)), Answer(e, permitted))
  {
    hide ClientFinish, Keeps, Settles;
    var m := Heard(n, e, Answers(permitted));
    var r := Answer(e, permitted);
    if e.onPayload == DuringKex && e.kex.value.verifying && permitted && n.newKeys {
      var k := e.kex.value.(hostVerified := true, verifying := false);
      var e1 := e.(kex := Some(k));
      FinishSettles(e1, k, m);
      KeepsFrom(e1, e, m, r);
    } else {
      SilentKeeps(e, m, r);
    }
  }

  lemma TakeKeeps(x: Watched, v: Event)
    requires x.e.fault == NoFault && Noted(x.e, x.n)
    ensures Keeps(x.e, Heard(x.n, x.e, v), Take(x.e, v))
  {
    hide Noted, Keeps, Start, Send, Rekey, Receive, Answer;
    match v
    case Arrives(p, ch) =>
      if x.e.started {
        ReceiveKeeps(x.e, p, ch, x.n);
      } else {
        SilentKeeps(x.e, x.n, Take(x.e, v));
      }
    case Answers(permitted) => AnswerKeeps(x.e, permitted, x.n);
    case _ => OutboundKeeps(x.e, x.n, v);
  }

  lemma {:induction false} WatchOk(x: Watched, vs: seq<Event>)
    requires Ok(x)
    ensures Ok(Watch(x, vs))
    decreases |vs|
  {
    if vs != [] {
      hide Noted, Take, Heard, Wrote;
      if x.e.fault == NoFault {
        TakeKeeps(x, vs[0]);
      }
      WatchOk(Next(x, vs[0]), vs[1..]);
    }
  }

  // ----- How an exchange ends -----

  /** What becomes of an exchange with one more event: `m` is what is noted once it has been heard. */
  predicate Decides(e: End, m: Notes, r: Effect) {
    && (r.0.fault == HostDenied <==> m.ruling == Ruled(false))
    && (r.0.fault == HostDenied ==> r.1 == [])
    && (if m.newKeys && m.ruling == Ruled(true) then m.reply.Some? && Settles(e, m, r)
        else !Writes(r.1) && r.0.onPayload == DuringKex && r.0.fault != BadSignature)
  }

  lemma ParseDecides(e: End, msg: Msg, ch: Choice, n: Notes)
    requires e.fault == NoFault && Noted(e, n) && e.onPayload == DuringKex && e.started
    requires msg.KexDhReply? || msg.KexDhInit? || msg.NewKeys?
    ensures Decides(e, HeardMsg(n, msg, ch), Parse(e, e.kex.value, msg, ch))
  {
    hide ClientFinish, Settles;
    var k := e.kex.value;
    var k1 := k.(receivedNewKeys := true, step := 3);
    if k.step == 2 && msg.NewKeys? && k.hostVerified {
      var e1 := e.(kex := Some(k1));
      FinishSettles(e1, k1, n.(newKeys := true));
      SettlesFrom(e1, e, n.(newKeys := true), ClientFinish(e1, k1));
    }
  }

  lemma DecidesFrom(a: End, b: End, m: Notes, r: Effect)
    requires Decides(a, m, r)
    requires SessionOf(a) == SessionOf(b) && a.outKey == b.outKey && a.outSeqno == b.outSeqno
    ensures Decides(b, m, r)
  {
    hide Settles;
    if m.newKeys && m.ruling == Ruled(true) {
      SettlesFrom(a, b, m, r);
    }
  }

  lemma ReceiveDecides(e: End, p: Packet, ch: Choice, n: Notes)
    requires e.fault == NoFault && Noted(e, n) && e.onPayload == DuringKex
    ensures Decides(e, Heard(n, e, Arrives(p, ch)), Receive(e, p, ch))
  {
    var e1 := e.(inSeqno := Wrap(e.inSeqno + 1));
    Dispatched(e, p, ch);
    Counted(e, n, e1.inSeqno);
    hide Receive, Parse, Wrap, Settles;
    if Authentic(e, p) && !p.msg.KexInit? && !p.msg.Ordinary? {
      ParseDecides(e1, p.msg, ch, n);
      DecidesFrom(e1, e, HeardMsg(n, p.msg, ch), Receive(e, p, ch));
    }
  }

  lemma AnswerDecides(e: End, permitted: bool, n: Notes)
    requires e.fault == NoFault && Noted(e, n) && e.onPayload == DuringKex
    ensures Decides(e, Heard(n, e, Answers(permitted)), Answer(e, permitted))
  {
    hide ClientFinish, Settles;
    var k := e.kex.value.(hostVerified := true, verifying := false);
    var e1 := e.(kex := Some(k));
    var m := Heard(n, e, Answers(permitted));
    if e.kex.value.verifying && permitted && n.newKeys {
      FinishSettles(e1, k, m);
      SettlesFrom(e1, e, m, Answer(e, permitted));
    }
  }

  lemma OutboundDecides(e: End, v: Event, n: Notes)
    requires e.fault == NoFault && Noted(e, n) && e.onPayload == DuringKex
    requires v.Starts? || v.Sends? || v.Rekeys?
    ensures Decides(e, n, Take(e, v))
  {
  }

  // ----- Main results -----

  /** Against any peer: a client writes NEWKEYS only when it has the peer's NEWKEYS, the host key of this
      very exchange has been accepted last, and the signature in the reply is over the client's own view
      of the exchange: its own KEXINIT, the one it read, the public key it sent and the one in the reply.
      The keys it then uses are derived from that. */
  lemma OnlyTheAcceptedHost(vs: seq<Event>, v: Event)
    requires var x := After(vs); x.e.fault == NoFault && Writes(Take(x.e, v).1)
    ensures var x := After(vs);
            var m := Heard(x.n, x.e, v);
            && m.newKeys && m.ruling == Ruled(true)
            && m.reply.Some? && m.reply.value.1 == OwnHash(m)
            && Settles(x.e, m, Take(x.e, v))
  {
    hide Noted, Settles, Take, Heard, Wrote;
    AfterOk(vs);
    TakeKeeps(After(vs), v);
  }

  lemma AfterOk(vs: seq<Event>)
    ensures Ok(After(vs))
  {
    hide Watch;
    WatchOk(Watched(Fresh(false), Notes(0, 0, 0, None, NotAsked, false)), vs);
  }

  /** And an exchange ends exactly then. A refusal, at once or later, ends the connection, with nothing
      written; so does a signature over anything else; until either, no NEWKEYS is written. */
  lemma ExchangeEnds(vs: seq<Event>, v: Event)
    requires After(vs).e.fault == NoFault && After(vs).e.onPayload == DuringKex
    ensures var x := After(vs);
            Decides(x.e, Heard(x.n, x.e, v), Take(x.e, v))
  {
    AfterOk(vs);
    var x := After(vs);
    hide After, Decides, Receive, Answer, KexNoted;
    match v
    case Arrives(p, ch) => ReceiveDecides(x.e, p, ch, x.n);
    case Answers(permitted) => AnswerDecides(x.e, permitted, x.n);
    case _ =>
      OutboundDecides(x.e, v, x.n);
  }

  /** The verifier's late refusal, while both ends and both streams are in order, and its only effect. */
  lemma LateRefusal(x: Sys)
    requires Inv(x) && x.c.kex.Some? && x.c.kex.value.verifying
    ensures KexSafety.Next(x, HostAnswer(false)) == x.(c := x.c.(fault := HostDenied))
  {
    hide Fits, KeysAgree, StreamsAgree, EndOk;
    NoFaults(x);
    NothingSent(x.cs);
  }

  // ----- Payloads, from any peer -----

  lemma CompleteLeaves(e: End, k: Kex, hash: Hash)
    ensures Complete(e, k, hash).0.delivered == e.delivered && Complete(e, k, hash).0.fault == e.fault
  {
    var sid := k.sessionId.GetOr(hash);
    var e1 := e.(
      kex := Some(k.(sessionId := Some(sid), completed := true)),
      outKey := Derived(hash, sid, !e.server),
      inKey := Derived(hash, sid, e.server),
      onPayload := Established,
      kexinit := None,
      allocStart := 5,
      queue := None);
    assert Complete(e, k, hash) == Drain(e1, e.queue.GetOr([]));
    DrainEnd(e1, e.queue.GetOr([]));
  }

  lemma ParseDelivers(e: End, k: Kex, msg: Msg, ch: Choice)
    ensures Parse(e, k, msg, ch).0.delivered == e.delivered
  {
    hide Complete, HashOf;
    var k1 := k.(receivedNewKeys := true, step := 3);
    var e1 := e.(kex := Some(k1));
    if k1.peerPub.Some? && k1.pub.Some? {
      var hash := HashOf(e1, k1, k1.peerPub.value, k1.pub.value);
      var k2 := k1.(finished := true, sentNewKeys := true);
      CompleteLeaves(e1, k1, hash);
      CompleteLeaves(EncryptKex(e1.(kex := Some(k2)), NewKeys).0, k2, hash);
    }
  }

  /** An end in any state hands a payload on only if it deciphers and no exchange is going on there; an
      ordinary packet within an exchange is the end of the connection. */
  lemma NothingDeliveredInside(e: End, p: Packet, ch: Choice)
    requires e.fault == NoFault
    ensures Receive(e, p, ch).0.delivered ==
              if Authentic(e, p) && e.onPayload == Established && p.msg.Ordinary? then e.delivered + [p.msg.payload]
              else e.delivered
    ensures Authentic(e, p) && e.onPayload != Established && p.msg.Ordinary? ==>
              Receive(e, p, ch).0.fault == UnexpectedPacket && Receive(e, p, ch).1 == []
  {
    var e1 := e.(inSeqno := Wrap(e.inSeqno + 1));
    Dispatched(e, p, ch);
    KexDelivers(e1, p.msg, ch);
    hide OnKexPayload, Wrap, Receive;
    if p.msg.KexInit? {
      InitDelivers(e1, p.msg.cookie, ch);
      hide HandleKexInit;
    }
  }

  lemma InitDelivers(e: End, remote: nat, ch: Choice)
    ensures HandleKexInit(e, remote, ch).0.delivered == e.delivered
  {
  }

  lemma KexDelivers(e: End, msg: Msg, ch: Choice)
    ensures OnKexPayload(e, msg, ch).0.delivered == e.delivered
    ensures msg.Ordinary? ==> OnKexPayload(e, msg, ch) == Fail(e, UnexpectedPacket)
  {
    hide Parse, HandleKexInit;
    if e.kex.Some? {
      ParseDelivers(e, e.kex.value, msg, ch);
    }
    if msg.KexInit? {
      InitDelivers(e.(onPayload := DuringKex), msg.cookie, ch);
    }
  }

  // ----- The order of an exchange, from any peer -----

  /** What an end expects next in an exchange. */
  predicate Expected(server: bool, step: nat, msg: Msg) {
    || (step == 1 && (if server then msg.KexDhInit? else msg.KexDhReply?))
    || (step == 2 && msg.NewKeys?)
  }

  /** Within an exchange any message out of place, a second KEXINIT included, is the end of the connection,
      with nothing written, and no other is taken for one. */
  lemma OutOfPlaceIsFatal(e: End, p: Packet, ch: Choice)
    requires e.fault == NoFault && e.onPayload == DuringKex && e.kex.Some? && Authentic(e, p)
    ensures var r := Receive(e, p, ch);
            && (r.0.fault in {ExtraKexInit, UnexpectedPacket} <==> !Expected(e.server, e.kex.value.step, p.msg))
            && (r.0.fault != NoFault ==> r.1 == [])
  {
    Dispatched(e, p, ch);
    hide Wrap, HashOf, Drain;
    var e1 := e.(inSeqno := Wrap(e.inSeqno + 1));
    var k1 := e.kex.value.(receivedNewKeys := true, step := 3);
    if e.kex.value.step == 2 {
      FinishFaults(e1.(kex := Some(k1)), k1);
      hide ClientFinish, ServerComplete;
    }
  }

  lemma FinishFaults(e: End, k: Kex)
    requires e.fault == NoFault
    ensures ClientFinish(e, k).0.fault in {NoFault, Undefined, BadSignature}
    ensures ServerComplete(e, k).0.fault in {NoFault, Undefined}
    ensures ClientFinish(e, k).0.fault != NoFault ==> ClientFinish(e, k).1 == []
    ensures ServerComplete(e, k).0.fault != NoFault ==> ServerComplete(e, k).1 == []
  {
    hide Complete, HashOf, Wrap;
    if k.peerPub.Some? && k.pub.Some? {
      var hash := HashOf(e, k, k.peerPub.value, k.pub.value);
      var k1 := k.(finished := true, sentNewKeys := true);
      CompleteLeaves(e, k, hash);
      CompleteLeaves(EncryptKex(e.(kex := Some(k1)), NewKeys).0, k1, hash);
    }
  }

  // ----- The client of a connection in order -----

  /** A step of both ends, as the client takes part in it. */
  function Part(x: Sys, step: Step): seq<Event> {
    if Over(x) then []
    else match step
      case Begin(client, cookie) => if client then [Starts(cookie)] else []
      case Submit(client, payload) => if client then [Sends(payload)] else []
      case AskRekey(client, cookie) => if client then [Rekeys(cookie)] else []
      case ToServer(_) => []
      case ToClient(ch) => if x.sc == [] || !x.c.started then [] else [Arrives(x.sc[0], ch)]
      case HostAnswer(permitted) => [Answers(permitted)]
  }

  function Parts(x: Sys, steps: seq<Step>): seq<Event>
    decreases |steps|
  {
    if steps == [] then [] else Part(x, steps[0]) + Parts(KexSafety.Next(x, steps[0]), steps[1..])
  }

  lemma {:induction false} WatchAppend(x: Watched, v: seq<Event>, w: seq<Event>)
    ensures Watch(x, v + w) == Watch(Watch(x, v), w)
    decreases |v|
  {
    hide Next;
    if v == [] {
      assert v + w == w;
    } else {
      assert (v + w)[1..] == v[1..] + w;
      WatchAppend(Next(x, v[0]), v[1..], w);
    }
  }

  lemma PartIs(w: Watched, x: Sys, step: Step)
    requires w.e == x.c
    ensures Watch(w, Part(x, step)).e == KexSafety.Next(x, step).c
  {
    hide Start, Send, Rekey, Receive, Answer, Heard, Wrote;
    var part := Part(x, step);
    if part != [] {
      assert part == [part[0]] && part[1..] == [];
      assert Watch(w, part) == Watch(Next(w, part[0]), []);
    }
  }

  /** The client's share of a run is a run of the lone client. */
  lemma {:induction false} PartsAre(w: Watched, x: Sys, steps: seq<Step>)
    requires w.e == x.c
    ensures Watch(w, Parts(x, steps)).e == Run(x, steps).c
    decreases |steps|
  {
    hide Part, KexSafety.Next, Next;
    if steps != [] {
      PartIs(w, x, steps[0]);
      PartsAre(Watch(w, Part(x, steps[0])), KexSafety.Next(x, steps[0]), steps[1..]);
      WatchAppend(w, Part(x, steps[0]), Parts(KexSafety.Next(x, steps[0]), steps[1..]));
    }
  }

  /** So in every run of both ends a client that has finished an exchange had the host accepted in it. */
  lemma FinishedMeansAccepted(steps: seq<Step>)
    ensures var x, w := Run(Init(), steps), After(Parts(Init(), steps));
            && w.e == x.c
            && (x.c.fault == NoFault && x.c.onPayload == Established ==>
                  && w.n.ruling == Ruled(true) && w.n.reply.Some? && w.n.newKeys
                  && x.c.outKey.Derived? && x.c.outKey.hash == w.n.reply.value.1)
  {
    hide Parts, Run, Watch;
    PartsAre(Watched(Fresh(false), Notes(0, 0, 0, None, NotAsked, false)), Init(), steps);
    AfterOk(Parts(Init(), steps));
  }
}
