/** Delivering a packet, or the host verifier's answer, keeps the invariant of `KexSafety`. */
module KexDelivery {
  import opened Common
  import opened KexModel
  import opened KexSafety
  import opened KexInvariant

  // ----- What the next packet can be -----

  lemma HeadStamp(x: Sys)
    requires Inv(x)
    ensures x.cs != [] ==>
              x.cs[0].at == 5 && x.cs[0].key == x.s.inKey && x.cs[0].seqno == x.s.inSeqno
    ensures x.sc != [] ==>
              x.sc[0].at == 5 && x.sc[0].key == x.c.inKey && x.sc[0].seqno == x.c.inSeqno
  {
    hide Fits, EndOk, StreamsAgree;
    if x.cs != [] && Switching(x) {
      assert x.cs[0] == x.cs[..1][0];
    }
  }

  /** The server's decipher never meets a message its state does not allow. */
  lemma HeadToServer(x: Sys)
    requires EndOk(x.c) && EndOk(x.s) && Fits(x) && x.s.server && !x.c.server
    requires x.cs != []
    ensures match x.cs[0].msg
            case Ordinary(_) =>
              && x.s.onPayload == Established && PhaseOf(x.s) in {Idle, Inited}
            case KexInit(cookie) =>
              && PhaseOf(x.s) in {Idle, Inited}
              && x.c.kexinit == Some(cookie)
              && (|| (|x.cs| == 1 && PhaseOf(x.c) == Inited)
                  || (|x.cs| == 2 && PhaseOf(x.c) == Step1 && PhaseOf(x.s) == Inited))
            case KexDhInit(_) => PhaseOf(x.c) == Step1 && PhaseOf(x.s) == Step1
            case NewKeys => Switching(x)
            case KexDhReply(_, _) => false
  {
    if PhaseOf(x.c) == Step1 && PhaseOf(x.s) == Inited {
      assert x.cs[..|x.cs| - 1][0] == x.cs[0];
      if |x.cs| > 2 {
        assert x.cs[..|x.cs| - 1][..|x.cs| - 2][0] == x.cs[0];
      }
    } else if PhaseOf(x.c) == Inited && |x.cs| > 1 && PhaseOf(x.s) in {Idle, Inited} {
      assert x.cs[..|x.cs| - 1][0] == x.cs[0];
    } else if PhaseOf(x.c) == Idle && PhaseOf(x.s) in {Idle, Inited} {
      assert x.cs[..|x.cs|][0] == x.cs[0];
    }
  }

  /** Nor does the client's. */
  lemma HeadToClient(x: Sys)
    requires EndOk(x.c) && EndOk(x.s) && Fits(x) && x.s.server && !x.c.server
    requires x.sc != []
    ensures match x.sc[0].msg
            case Ordinary(_) =>
              && x.c.onPayload == Established && PhaseOf(x.c) in {Idle, Inited}
            case KexInit(cookie) =>
              && |x.sc| == 1
              && PhaseOf(x.c) in {Idle, Inited}
              && x.s.kexinit == Some(cookie)
              && (PhaseOf(x.s) == Inited || (PhaseOf(x.s) == Step1 && PhaseOf(x.c) == Inited))
            case KexDhReply(_, _) => PhaseOf(x.c) == Step1 && PhaseOf(x.s) == Step2
            case NewKeys => PhaseOf(x.c) == Step2 && PhaseOf(x.s) == Step2
            case KexDhInit(_) => false
  {
    if PhaseOf(x.s) in {Inited, Step1} && |x.sc| > 1 {
      assert x.sc[..|x.sc| - 1][0] == x.sc[0];
    } else if PhaseOf(x.s) == Idle {
      assert x.sc[..|x.sc|][0] == x.sc[0];
    }
  }

  // ----- Taking the packet off the stream -----

  lemma PoppedFromClient(x: Sys, y: Sys)
    requires KeysAgree(x) && x.cs != [] && !Switching(x) && !Switching(y)
    requires y.c == x.c && y.cs == x.cs[1..] && y.sc == x.sc
    requires SessionOf(y.s) == SessionOf(x.s)
    requires y.s.inSeqno == Wrap(x.s.inSeqno + 1) && y.s.inKey == x.s.inKey
    requires y.s.outSeqno == x.s.outSeqno && y.s.outKey == x.s.outKey
    ensures KeysAgree(y)
  {
    StampedTail(x.cs, x.s.inKey, x.s.inSeqno);
    WrapAdd(x.s.inSeqno + 1, |x.cs| - 1);
  }

  lemma PoppedFromServer(x: Sys, y: Sys)
    requires KeysAgree(x) && x.sc != [] && !Switching(x) && !Switching(y)
    requires y.s == x.s && y.sc == x.sc[1..] && y.cs == x.cs
    requires SessionOf(y.c) == SessionOf(x.c)
    requires y.c.inSeqno == Wrap(x.c.inSeqno + 1) && y.c.inKey == x.c.inKey
    requires y.c.outSeqno == x.c.outSeqno && y.c.outKey == x.c.outKey
    ensures KeysAgree(y)
  {
    StampedTail(x.sc, x.c.inKey, x.c.inSeqno);
    WrapAdd(x.c.inSeqno + 1, |x.sc| - 1);
  }

  // ----- Ordinary packets -----

  lemma FrontTail(w: seq<Packet>, n: nat, receiver: End)
    requires OrdinaryFront(w, n, receiver) && n > 0
    ensures OrdinaryFront(w[1..], n - 1, receiver)
  {
    assert w[1..][..n - 1] == w[..n][1..];
  }

  lemma InitTail(w: seq<Packet>, sender: End, receiver: End)
    requires EndsWithInit(w, sender, receiver) && |w| > 1
    ensures EndsWithInit(w[1..], sender, receiver)
  {
    FrontTail(w, |w| - 1, receiver);
  }

  lemma ServerTakesOrdinaryFits(x: Sys, y: Sys)
    requires EndOk(x.c) && EndOk(x.s) && Fits(x) && x.cs != [] && x.cs[0].msg.Ordinary?
    requires PhaseOf(x.s) in {Idle, Inited}
    requires y.c == x.c && SameKex(x.s, y.s) && y.cs == x.cs[1..] && y.sc == x.sc
    ensures Fits(y)
  {
    hide EndOk;
    match PhaseOf(x.c)
    case Idle => FrontTail(x.cs, |x.cs|, x.s);
    case Inited => InitTail(x.cs, x.c, x.s);
    case Step1 =>
      assert x.cs[1..][..|x.cs| - 2] == x.cs[..|x.cs| - 1][1..];
      assert |x.cs| > 2;
      InitTail(x.cs[..|x.cs| - 1], x.c, x.s);
  }

  lemma ClientTakesOrdinaryFits(x: Sys, y: Sys)
    requires EndOk(x.c) && EndOk(x.s) && Fits(x) && x.sc != [] && x.sc[0].msg.Ordinary?
    requires PhaseOf(x.c) in {Idle, Inited}
    requires y.s == x.s && SameKex(x.c, y.c) && y.sc == x.sc[1..] && y.cs == x.cs
    ensures Fits(y)
  {
    hide EndOk;
    if PhaseOf(x.s) == Idle {
      FrontTail(x.sc, |x.sc|, x.c);
      hide EndsWithInit;
      if PhaseOf(x.c) == Inited {
        InitSenderFrame(x.cs, x.c, y.c, x.s);
      }
    } else {
      InitTail(x.sc, x.s, x.c);
      hide EndsWithInit;
      InitReceiverFrame(x.sc[1..], x.s, x.c, y.c);
      if PhaseOf(x.c) == Inited && PhaseOf(x.s) == Inited {
        InitSenderFrame(x.cs, x.c, y.c, x.s);
      }
    }
  }

  lemma InitSenderFrame(w: seq<Packet>, a: End, b: End, receiver: End)
    requires EndsWithInit(w, a, receiver) && a.kexinit == b.kexinit
    ensures EndsWithInit(w, b, receiver)
  {
  }

  lemma InitReceiverFrame(w: seq<Packet>, sender: End, a: End, b: End)
    requires EndsWithInit(w, sender, a) && a.onPayload == b.onPayload
    ensures EndsWithInit(w, sender, b)
  {
  }

  /** A packet the current decipher accepts. */
  predicate Authentic(e: End, p: Packet) {
    p.at == 5 && p.key == e.inKey && p.seqno == e.inSeqno
  }

  lemma EndTakesOrdinary(e: End, p: Packet, ch: Choice)
    requires EndOk(e) && Authentic(e, p) && e.onPayload == Established && p.msg.Ordinary?
    ensures var r := Receive(e, p, ch);
            && r.0 == e.(inSeqno := Wrap(e.inSeqno + 1), delivered := e.delivered + [p.msg.payload])
            && r.1 == []
            && EndOk(r.0)
  {
  }

  lemma DeliverToServer(x: Sys, ch: Choice)
    requires x.c.fault == NoFault && x.s.fault == NoFault && x.s.started && x.cs != []
    ensures Next(x, ToServer(ch)) ==
            var r := Receive(x.s, x.cs[0], ch);
            x.(s := r.0, cs := x.cs[1..], sc := x.sc + r.1)
  {
    hide Receive;
  }

  lemma DeliverToClient(x: Sys, ch: Choice)
    requires x.c.fault == NoFault && x.s.fault == NoFault && x.c.started && x.sc != []
    ensures Next(x, ToClient(ch)) ==
            var r := Receive(x.c, x.sc[0], ch);
            x.(c := r.0, sc := x.sc[1..], cs := x.cs + r.1)
  {
    hide Receive;
  }

  lemma ServerTakesOrdinary(x: Sys, ch: Choice)
    requires Inv(x) && x.s.started && x.cs != [] && x.cs[0].msg.Ordinary?
    ensures Inv(Next(x, ToServer(ch)))
  {
    hide Next, Receive, Fits, KeysAgree, EndOk, StreamsAgree;
    NoFaults(x);
    DeliverToServer(x, ch);
    HeadStamp(x);
    HeadToServer(x);
    EndTakesOrdinary(x.s, x.cs[0], ch);
    var y := x.(s := Receive(x.s, x.cs[0], ch).0, cs := x.cs[1..]);
    NothingSent(x.sc);
    ServerTakesOrdinaryFits(x, y);
    PoppedFromClient(x, y);
    OrdinaryToServer(x, y);
  }

  lemma NothingSent(w: seq<Packet>)
    ensures w + [] == w
  {
  }

  lemma OrdinaryToServer(x: Sys, y: Sys)
    requires StreamsAgree(x) && x.cs != [] && x.cs[0].msg.Ordinary?
    requires y == x.(s := y.s, cs := x.cs[1..])
    requires y.s == x.s.(inSeqno := y.s.inSeqno, delivered := x.s.delivered + [x.cs[0].msg.payload])
    ensures StreamsAgree(y)
  {
    PayloadsFirst(x.cs);
    hide Payloads;
    assert x.s.delivered + ([x.cs[0].msg.payload] + Payloads(x.cs[1..])) == y.s.delivered + Payloads(y.cs);
  }

  lemma OrdinaryToClient(x: Sys, y: Sys)
    requires StreamsAgree(x) && x.sc != [] && x.sc[0].msg.Ordinary?
    requires y == x.(c := y.c, sc := x.sc[1..])
    requires y.c == x.c.(inSeqno := y.c.inSeqno, delivered := x.c.delivered + [x.sc[0].msg.payload])
    ensures StreamsAgree(y)
  {
    PayloadsFirst(x.sc);
    hide Payloads;
    assert x.c.delivered + ([x.sc[0].msg.payload] + Payloads(x.sc[1..])) == y.c.delivered + Payloads(y.sc);
  }

  lemma ClientTakesOrdinary(x: Sys, ch: Choice)
    requires Inv(x) && x.c.started && x.sc != [] && x.sc[0].msg.Ordinary?
    ensures Inv(Next(x, ToClient(ch)))
  {
    hide Next, Receive, Fits, KeysAgree, EndOk, StreamsAgree;
    NoFaults(x);
    DeliverToClient(x, ch);
    HeadStamp(x);
    HeadToClient(x);
    StreamDown(x);
    EndTakesOrdinary(x.c, x.sc[0], ch);
    var y := x.(c := Receive(x.c, x.sc[0], ch).0, sc := x.sc[1..]);
    NothingSent(x.cs);
    ClientTakesOrdinaryFits(x, y);
    PoppedFromServer(x, y);
    OrdinaryToClient(x, y);
  }

  /** While the keys are being switched nothing is on its way to the client. */
  lemma StreamDown(x: Sys)
    requires Fits(x) && EndOk(x.c) && EndOk(x.s) && x.s.server && !x.c.server
    ensures Switching(x) ==> x.sc == []
  {
  }

  // ----- KEXINIT -----

  /** An end whose own KEXINIT is out takes the peer's: the exchange begins. */
  lemma EndTakesInit(e: End, p: Packet, ch: Choice)
    requires EndOk(e) && Authentic(e, p) && PhaseOf(e) == Inited && p.msg.KexInit?
    ensures var r := Receive(e, p, ch);
            var k := Kex(1, SessionOf(e), e.kexinit.value, p.msg.cookie, None, None, None,
                         false, false, false, false, false, false);
            && EndOk(r.0)
            && (e.server ==>
                  && r.0 == e.(inSeqno := Wrap(e.inSeqno + 1), onPayload := DuringKex, kex := Some(k))
                  && r.1 == [])
            && (!e.server ==>
                  && r.0 == e.(inSeqno := Wrap(e.inSeqno + 1), onPayload := DuringKex,
                               kex := Some(k.(pub := Some(ch.pub))),
                               outSeqno := Wrap(e.outSeqno + 1))
                  && r.1 == [Packet(5, KexDhInit(ch.pub), e.outKey, e.outSeqno)])
  {
  }

  /** An idle end answers with its own KEXINIT first, and then behaves as above. */
  lemma ReceivesInit(e: End, p: Packet, ch: Choice)
    requires Authentic(e, p) && e.onPayload == Established && p.msg.KexInit?
    ensures Receive(e, p, ch) == HandleKexInit(e.(inSeqno := Wrap(e.inSeqno + 1)), p.msg.cookie, ch)
  {
    hide HandleKexInit;
  }

  /** Its own KEXINIT comes first. */
  lemma AnswersFirst(e: End, remote: nat, ch: Choice)
    requires e.kex.Some? && e.kexinit.None?
    ensures var e1 := SendKexInit(e, ch.cookie);
            var r := HandleKexInit(e1.0, remote, ch);
            HandleKexInit(e, remote, ch) == (r.0, e1.1 + r.1)
  {
    var e1 := SendKexInit(e, ch.cookie);
    NothingSent(e1.1);
    var pre := e1.0.(onPayload := DuringKex);
    FirstSent(EncryptKex(pre.(kex := Some(NewKex(pre, remote).(pub := Some(ch.pub)))), KexDhInit(ch.pub)).1);
  }

  lemma InitThenNumber(e: End, cookie: nat, n: uint32)
    ensures var e1 := SendKexInit(e, cookie);
            SendKexInit(e.(inSeqno := n), cookie) == (e1.0.(inSeqno := n), e1.1)
  {
  }

  lemma IdleInits(e: End, cookie: nat)
    requires EndOk(e) && e.started && PhaseOf(e) == Idle
    ensures var e1 := SendKexInit(e, cookie);
            && EndOk(e1.0) && JustInited(e, e1.0, cookie) && PhaseOf(e1.0) == Inited && e1.0.started
            && e1.1 == [Packet(5, KexInit(cookie), e.outKey, e.outSeqno)]
            && e.kex.Some? && e.kexinit.None? && e.onPayload == e1.0.onPayload == Established
  {
  }

  lemma IdleTakesInit(e: End, p: Packet, ch: Choice)
    requires EndOk(e) && e.started && Authentic(e, p) && PhaseOf(e) == Idle && p.msg.KexInit?
    ensures var e1 := SendKexInit(e, ch.cookie);
            && EndOk(e1.0) && JustInited(e, e1.0, ch.cookie) && PhaseOf(e1.0) == Inited && e1.0.started
            && Authentic(e1.0, p)
            && e1.1 == [Packet(5, KexInit(ch.cookie), e.outKey, e.outSeqno)]
            && Receive(e, p, ch) == (Receive(e1.0, p, ch).0, e1.1 + Receive(e1.0, p, ch).1)
  {
    hide Receive, HandleKexInit, SendKexInit, EndOk, PhaseOf, Wrap;
    var e1 := SendKexInit(e, ch.cookie);
    var n := Wrap(e.inSeqno + 1);
    IdleInits(e, ch.cookie);
    ReceivesInit(e, p, ch);
    ReceivesInit(e1.0, p, ch);
    InitThenNumber(e, ch.cookie, n);
    AnswersFirst(e.(inSeqno := n), p.msg.cookie, ch);
  }

  lemma ServerInitedTakesInit(x: Sys, ch: Choice)
    requires Inv(x) && x.s.started && PhaseOf(x.s) == Inited && x.cs != [] && x.cs[0].msg.KexInit?
    ensures Inv(Next(x, ToServer(ch)))
  {
    hide Next, Receive, Fits, KeysAgree, EndOk, Payloads;
    NoFaults(x);
    DeliverToServer(x, ch);
    HeadStamp(x);
    EndTakesInit(x.s, x.cs[0], ch);
    var y := x.(s := Receive(x.s, x.cs[0], ch).0, cs := x.cs[1..]);
    NothingSent(x.sc);
    assert SessionOf(y.s) == SessionOf(x.s);
    ServerTakesInitFits(x, y);
    PoppedFromClient(x, y);
    PayloadsFirst(x.cs);
  }

  lemma ServerTakesInitFits(x: Sys, y: Sys)
    requires EndOk(x.c) && EndOk(x.s) && Fits(x) && x.s.server && !x.c.server
    requires PhaseOf(x.s) == Inited && x.cs != [] && x.cs[0].msg.KexInit?
    requires y.c == x.c && y.cs == x.cs[1..] && y.sc == x.sc
    requires PhaseOf(y.s) == Step1 && y.s.kexinit == x.s.kexinit
    requires y.s.kex.Some? && y.s.kex.value.remoteInit == x.cs[0].msg.cookie
    ensures Fits(y)
  {
    HeadToServer(x);
    if PhaseOf(x.c) == Inited {
      hide EndOk;
      InitSenderFrame(x.sc, x.s, y.s, x.c);
    } else {
      assert x.cs[..|x.cs| - 1][0] == x.cs[0];
      assert x.cs[1..] == [x.cs[1]];
    }
  }

  /** An idle server answers a KEXINIT with its own and joins the exchange. */
  lemma ServerTakesInit(x: Sys, ch: Choice)
    requires Inv(x) && x.s.started && x.cs != [] && x.cs[0].msg.KexInit?
    ensures Inv(Next(x, ToServer(ch)))
  {
    hide Fits, KeysAgree, Receive, StreamsAgree, EndOk, SendKexInit, JustInited;
    HeadToServer(x);
    if PhaseOf(x.s) == Idle {
      HeadStamp(x);
      IdleTakesInit(x.s, x.cs[0], ch);
      var e := SendKexInit(x.s, ch.cookie);
      var z := x.(s := e.0, sc := x.sc + e.1);
      KeepsServerInit(x, z, ch.cookie);
      NoFaults(x);
      NoFaults(z);
      ServerInitedTakesInit(z, ch);
      var r := Receive(e.0, x.cs[0], ch);
      assert Next(z, ToServer(ch)).sc == (x.sc + e.1) + r.1;
      assert Next(x, ToServer(ch)).sc == x.sc + (e.1 + r.1);
      assert (x.sc + e.1) + r.1 == x.sc + (e.1 + r.1);
      assert Next(z, ToServer(ch)) == Next(x, ToServer(ch));
    } else {
      ServerInitedTakesInit(x, ch);
    }
  }

  // ----- KEXDH_INIT -----

  lemma EndTakesDhInit(e: End, p: Packet, ch: Choice)
    requires EndOk(e) && e.server && Authentic(e, p) && PhaseOf(e) == Step1 && p.msg.KexDhInit?
    ensures var r := Receive(e, p, ch);
            var k := e.kex.value.(peerPub := Some(p.msg.pub), step := 2, finished := true,
                                  pub := Some(ch.pub), sentNewKeys := true);
            && EndOk(r.0) && PhaseOf(r.0) == Step2
            && r.0 == e.(inSeqno := Wrap(e.inSeqno + 1), kex := Some(k),
                         outSeqno := Wrap(Wrap(e.outSeqno + 1) + 1))
            && r.1 == [Packet(5, KexDhReply(ch.pub, ServerHash(r.0)), e.outKey, e.outSeqno),
                       Packet(5, NewKeys, e.outKey, Wrap(e.outSeqno + 1))]
  {
  }

  lemma ServerTakesDhInitFits(x: Sys, y: Sys)
    requires EndOk(x.c) && EndOk(x.s) && Fits(x) && x.s.server && !x.c.server
    requires PhaseOf(x.c) == Step1 && PhaseOf(x.s) == Step1
    requires y.c == x.c && x.cs != [] && y.cs == x.cs[1..]
    requires PhaseOf(y.s) == Step2 && y.s.kexinit == x.s.kexinit
    requires y.s.kex.Some? && y.s.kex.value.remoteInit == x.s.kex.value.remoteInit
    requires Some(x.cs[0].msg.pub) == y.s.kex.value.peerPub
    requires |y.sc| == 2 && y.sc[0].msg.KexDhReply? && y.sc[1].msg == NewKeys
    requires Some(y.sc[0].msg.pub) == y.s.kex.value.pub && y.sc[0].msg.signed == ServerHash(y.s)
    requires x.cs[0].msg.KexDhInit?
    ensures Fits(y)
  {
  }

  lemma NoFaults(x: Sys)
    requires EndOk(x.c) && EndOk(x.s)
    ensures x.c.fault == NoFault && x.s.fault == NoFault
  {
  }

  lemma NothingToClient(x: Sys)
    requires Fits(x) && PhaseOf(x.c) == Step1 && PhaseOf(x.s) == Step1
    ensures x.sc == []
  {
  }

  lemma ServerTakesDhInit(x: Sys, ch: Choice)
    requires Inv(x) && x.s.started && x.cs != [] && x.cs[0].msg.KexDhInit?
    ensures Inv(Next(x, ToServer(ch)))
  {
    hide Next, Receive, Fits, KeysAgree, EndOk, Payloads;
    HeadToServer(x);
    NothingToClient(x);
    NoFaults(x);
    DeliverToServer(x, ch);
    HeadStamp(x);
    EndTakesDhInit(x.s, x.cs[0], ch);
    var r := Receive(x.s, x.cs[0], ch);
    var z := x.(s := r.0.(outSeqno := x.s.outSeqno), cs := x.cs[1..]);
    var z1 := z.(s := r.0.(outSeqno := Wrap(x.s.outSeqno + 1)), sc := z.sc + [r.1[0]]);
    var y := z1.(s := r.0, sc := z1.sc + [r.1[1]]);
    assert Next(x, ToServer(ch)) == y;
    ServerTakesDhInitFits(x, y);
    assert SessionOf(y.s) == SessionOf(x.s);
    PoppedFromClient(x, z);
    ServerSentKeys(z, z1, r.1[0]);
    ServerSentKeys(z1, y, r.1[1]);
    PayloadsFirst(x.cs);
    PayloadsFirst(y.sc);
    PayloadsFirst(y.sc[1..]);
    assert y.sc[1..][1..] == x.sc;
  }

  // ----- The client joins -----

  lemma ClientTakesInitFits(x: Sys, y: Sys)
    requires EndOk(x.c) && EndOk(x.s) && Fits(x) && x.s.server && !x.c.server
    requires PhaseOf(x.c) == Inited && x.sc != [] && x.sc[0].msg.KexInit?
    requires PhaseOf(y.c) == Step1 && y.c.kexinit == x.c.kexinit && y.s == x.s
    requires y.c.kex.Some? && y.c.kex.value.remoteInit == x.sc[0].msg.cookie
    requires y.sc == x.sc[1..] && |y.cs| == |x.cs| + 1 && y.cs[..|x.cs|] == x.cs
    requires IsDhInit(y.cs[|x.cs|].msg, y.c.kex.value.pub)
    ensures Fits(y)
  {
    HeadToClient(x);
    hide EndOk;
    if PhaseOf(x.s) == Inited {
      InitSenderFrame(x.cs, x.c, y.c, x.s);
    }
  }

  lemma ClientInitedTakesInit(x: Sys, ch: Choice)
    requires Inv(x) && x.c.started && PhaseOf(x.c) == Inited && x.sc != [] && x.sc[0].msg.KexInit?
    ensures Inv(Next(x, ToClient(ch)))
  {
    hide Next, Receive, Fits, KeysAgree, EndOk, Payloads;
    HeadToClient(x);
    NoFaults(x);
    DeliverToClient(x, ch);
    HeadStamp(x);
    EndTakesInit(x.c, x.sc[0], ch);
    var r := Receive(x.c, x.sc[0], ch);
    var z := x.(c := r.0.(outSeqno := x.c.outSeqno), sc := x.sc[1..]);
    var y := z.(c := r.0, cs := x.cs + r.1);
    assert Next(x, ToClient(ch)) == y;
    assert SessionOf(y.c) == SessionOf(x.c);
    ClientTakesInitFits(x, y);
    PoppedFromServer(x, z);
    ClientSentKeys(z, y, r.1[0]);
    PayloadsFirst(x.sc);
    PayloadsPlus(x.cs, r.1[0]);
  }

  lemma ClientTakesInit(x: Sys, ch: Choice)
    requires Inv(x) && x.c.started && x.sc != [] && x.sc[0].msg.KexInit?
    ensures Inv(Next(x, ToClient(ch)))
  {
    hide Fits, KeysAgree, Receive, StreamsAgree, EndOk, SendKexInit, JustInited;
    HeadToClient(x);
    if PhaseOf(x.c) == Idle {
      HeadStamp(x);
      IdleTakesInit(x.c, x.sc[0], ch);
      var e := SendKexInit(x.c, ch.cookie);
      var z := x.(c := e.0, cs := x.cs + e.1);
      KeepsClientInit(x, z, ch.cookie);
      NoFaults(x);
      NoFaults(z);
      ClientInitedTakesInit(z, ch);
      var r := Receive(e.0, x.sc[0], ch);
      assert Next(z, ToClient(ch)).cs == (x.cs + e.1) + r.1;
      assert Next(x, ToClient(ch)).cs == x.cs + (e.1 + r.1);
      assert (x.cs + e.1) + r.1 == x.cs + (e.1 + r.1);
      assert Next(z, ToClient(ch)) == Next(x, ToClient(ch));
    } else {
      ClientInitedTakesInit(x, ch);
    }
  }

  // ----- KEXDH_REPLY -----

  lemma EndTakesReply(e: End, p: Packet, ch: Choice)
    requires EndOk(e) && !e.server && Authentic(e, p) && PhaseOf(e) == Step1 && p.msg.KexDhReply?
    requires ch.verdict != Deny
    ensures var r := Receive(e, p, ch);
            var k := e.kex.value.(peerPub := Some(p.msg.pub), signature := Some(p.msg.signed),
                                  step := 2, verifying := ch.verdict == Later,
                                  hostVerified := ch.verdict == Accept);
            && EndOk(r.0) && PhaseOf(r.0) == Step2
            && r == (e.(inSeqno := Wrap(e.inSeqno + 1), kex := Some(k)), [])
  {
  }

  lemma ClientTakesReplyFits(x: Sys, y: Sys)
    requires EndOk(x.c) && EndOk(x.s) && Fits(x) && x.s.server && !x.c.server
    requires PhaseOf(x.c) == Step1 && PhaseOf(x.s) == Step2 && EndOk(y.c)
    requires PhaseOf(y.c) == Step2 && y.c.kexinit == x.c.kexinit && y.s == x.s
    requires y.c.kex.value.pub == x.c.kex.value.pub
    requires y.c.kex.value.remoteInit == x.c.kex.value.remoteInit
    requires x.sc != [] && y.sc == x.sc[1..] && y.cs == x.cs && x.sc[0].msg.KexDhReply?
    requires y.c.kex.value.peerPub == Some(x.sc[0].msg.pub)
    requires y.c.kex.value.signature == Some(x.sc[0].msg.signed)
    ensures Fits(y)
  {
  }

  lemma ClientTakesReply(x: Sys, ch: Choice)
    requires Inv(x) && x.c.started && x.sc != [] && x.sc[0].msg.KexDhReply?
    requires ch.verdict != Deny
    ensures Inv(Next(x, ToClient(ch)))
  {
    hide Next, Receive, Fits, KeysAgree, EndOk, Payloads;
    NoFaults(x);
    HeadToClient(x);
    DeliverToClient(x, ch);
    HeadStamp(x);
    EndTakesReply(x.c, x.sc[0], ch);
    var y := x.(c := Receive(x.c, x.sc[0], ch).0, sc := x.sc[1..]);
    NothingSent(x.cs);
    assert SessionOf(y.c) == SessionOf(x.c);
    ClientTakesReplyFits(x, y);
    PoppedFromServer(x, y);
    PayloadsFirst(x.sc);
  }

  // ----- The client completes -----

  /** The client with its new keys, before the queue is drained. */
  function Finished(e: End, hash: Hash): End
    requires e.kex.Some?
  {
    var sid := SessionOf(e).GetOr(hash);
    e.(kex := Some(e.kex.value.(finished := true, sentNewKeys := true, sessionId := Some(sid), completed := true)),
       outSeqno := Wrap(e.outSeqno + 1), outKey := Derived(hash, sid, true), inKey := Derived(hash, sid, false),
       onPayload := Established, kexinit := None, allocStart := 5, queue := None)
  }

  lemma FinishIs(e: End, hash: Hash)
    requires ReadyToFinish(e, hash)
    ensures var d := Drain(Finished(e, hash), e.queue.GetOr([]));
            ClientFinish(e, e.kex.value) == (d.0, [Packet(5, NewKeys, e.outKey, e.outSeqno)] + d.1)
  {
    hide Drain, QueueOk;
    var k := e.kex.value.(finished := true, sentNewKeys := true);
    var nk := EncryptKex(e.(kex := Some(k)), NewKeys);
    assert Complete(nk.0, k, hash) == Drain(Finished(e, hash), e.queue.GetOr([]));
  }

  lemma FinishedIs(e: End, hash: Hash, seqno: uint32)
    requires ReadyToFinish(e, hash)
    ensures var sid := SessionOf(e).GetOr(hash);
            var e1 := Finished(e, hash);
            var r := e1.(outSeqno := seqno);
            && EndOk(r) && PhaseOf(r) == Idle && Waiting(r) == [] && r.onPayload == Established && !r.server
            && r.delivered == e.delivered && r.submitted == e.submitted && r.inSeqno == e.inSeqno
            && r.outKey == e1.outKey == Derived(hash, sid, true) && r.inKey == Derived(hash, sid, false)
            && SessionOf(r) == Some(sid) && e1.outSeqno == Wrap(e.outSeqno + 1)
    ensures var q := e.queue.GetOr([]);
            (forall i | 0 <= i < |q| :: q[i].at == 0) && QueuePayloads(q) == Waiting(e)
  {
  }

  lemma BehindFirst(first: Packet, rest: seq<Packet>)
    requires first.msg == NewKeys
    ensures ([first] + rest)[0] == first && ([first] + rest)[1..] == rest
    ensures Payloads([first] + rest) == Payloads(rest)
  {
    assert ([first] + rest)[1..] == rest;
    PayloadsFirst([first] + rest);
  }

  /** A client about to finish: reply and NEWKEYS received, host accepted. */
  predicate ReadyToFinish(e: End, hash: Hash) {
    && !e.server && e.started && e.fault == NoFault
    && e.kexinit.Some? && QueueOk(e) && e.kex.Some?
    && var k := e.kex.value;
       && !k.finished && !k.verifying
       && k.peerPub.Some? && k.pub.Some?
       && k.signature == Some(hash)
       && HashOf(e, k, k.peerPub.value, k.pub.value) == hash
  }

  lemma EndFinishes(e: End, hash: Hash)
    requires ReadyToFinish(e, hash)
    ensures var r := ClientFinish(e, e.kex.value);
            var sid := SessionOf(e).GetOr(hash);
            var q := e.queue.GetOr([]);
            && EndOk(r.0) && PhaseOf(r.0) == Idle && Waiting(r.0) == []
            && r.0.onPayload == Established && !r.0.server
            && r.0.delivered == e.delivered && r.0.submitted == e.submitted
            && r.0.outKey == Derived(hash, sid, true) && r.0.inKey == Derived(hash, sid, false)
            && r.0.inSeqno == e.inSeqno && SessionOf(r.0) == Some(sid)
            && |r.1| == 1 + |q|
            && r.0.outSeqno == Wrap(e.outSeqno + |r.1|)
            && r.1[0] == Packet(5, NewKeys, e.outKey, e.outSeqno)
            && AllOrdinary(r.1[1..]) && Payloads(r.1) == Waiting(e)
            && Stamped(r.1[1..], r.0.outKey, e.outSeqno + 1)
  {
    hide ClientFinish, Payloads, Stamped, AllOrdinary, Drain, Wrap, EndOk, PhaseOf, SessionOf, Finished, QueueOk;
    var e1, q := Finished(e, hash), e.queue.GetOr([]);
    FinishIs(e, hash);
    FinishedIs(e, hash, Wrap(e1.outSeqno + |q|));
    DrainEnd(e1, q);
    DrainPayloads(e1, q);
    DrainStamped(e1, q);
    var d := Drain(e1, q);
    var first := Packet(5, NewKeys, e.outKey, e.outSeqno);
    BehindFirst(first, d.1);
    WrapAdd(e.outSeqno + 1, 0);
    StampedShift(d.1, e1.outKey, e1.outSeqno, e.outSeqno + 1);
    WrapAdd(e.outSeqno + 1, |q|);
  }

  lemma NoPayloads(delivered: seq<Payload>)
    ensures delivered + Payloads([]) == delivered
  {
  }

  lemma ClientCompletes(x: Sys, y: Sys)
    requires KeysAgree(x) && StreamsAgree(x) && !Switching(x)
    requires EndOk(x.s) && PhaseOf(x.s) == Step2 && x.s.server
    requires x.cs == [] && x.sc == []
    requires ReadyToFinish(x.c, ServerHash(x.s))
    requires var r := ClientFinish(x.c, x.c.kex.value); y == x.(c := r.0, cs := r.1)
    ensures Inv(y)
  {
    var hash := ServerHash(x.s);
    hide EndOk, ClientFinish, ReadyToFinish, ServerHash, Payloads, Waiting, Drain, Wrap;
    EndFinishes(x.c, hash);
    assert Fits(y) by {
      hide KeysAgree, StreamsAgree, Stamped;
    }
    hide Fits;
    assert y.cs[..1] == [y.cs[0]];
    assert Stamped(y.cs[..1], x.s.inKey, x.s.inSeqno);
    WrapAdd(x.s.inSeqno, 1);
    StampedShift(y.cs[1..], y.c.outKey, x.c.outSeqno + 1, x.s.inSeqno + 1);
    WrapAdd(x.s.inSeqno, |y.cs|);
    assert KeysAgree(y);
    hide KeysAgree;
    NoPayloads(x.s.delivered);
    assert y.c.submitted == y.s.delivered + Payloads(y.cs) + Waiting(y.c);
  }

  lemma EndTakesNewKeys(e: End, p: Packet, ch: Choice, hash: Hash)
    requires EndOk(e) && !e.server && Authentic(e, p) && PhaseOf(e) == Step2 && p.msg == NewKeys
    requires e.kex.value.signature == Some(hash)
    requires HashOf(e, e.kex.value, e.kex.value.peerPub.value, e.kex.value.pub.value) == hash
    ensures var e1 := e.(inSeqno := Wrap(e.inSeqno + 1),
                         kex := Some(e.kex.value.(receivedNewKeys := true, step := 3)));
            && PhaseOf(e1) == Step3
            && (e.kex.value.hostVerified ==>
                  ReadyToFinish(e1, hash) && Receive(e, p, ch) == ClientFinish(e1, e1.kex.value))
            && (!e.kex.value.hostVerified ==> EndOk(e1) && Receive(e, p, ch) == (e1, []))
  {
    hide ClientFinish;
  }

  lemma LastOfExchange(x: Sys)
    requires Fits(x) && PhaseOf(x.c) == Step2 && PhaseOf(x.s) == Step2
    requires EndOk(x.c) && EndOk(x.s) && !x.c.server && x.s.server
    ensures SameExchange(x.c, x.s) && x.cs == [] && |x.sc| == 1
    ensures x.c.kex.Some? && x.c.kex.value.peerPub.Some? && x.c.kex.value.pub.Some?
    ensures var k := x.c.kex.value;
            k.signature == Some(ServerHash(x.s)) && HashOf(x.c, k, k.peerPub.value, k.pub.value) == ServerHash(x.s)
  {
  }

  lemma ClientTakesNewKeys(x: Sys, ch: Choice)
    requires Inv(x) && x.c.started && x.sc != [] && x.sc[0].msg == NewKeys
    ensures Inv(Next(x, ToClient(ch)))
  {
    hide Next, Receive, Fits, KeysAgree, ClientFinish, ReadyToFinish, Waiting, EndOk, StreamsAgree, SameExchange;
    HeadToClient(x);
    LastOfExchange(x);
    NoFaults(x);
    var hash := ServerHash(x.s);
    DeliverToClient(x, ch);
    HeadStamp(x);
    EndTakesNewKeys(x.c, x.sc[0], ch, hash);
    var e1 := x.c.(inSeqno := Wrap(x.c.inSeqno + 1),
                   kex := Some(x.c.kex.value.(receivedNewKeys := true, step := 3)));
    var z := x.(c := e1, sc := x.sc[1..]);
    PoppedFromServer(x, z);
    ConsumedNewKeys(x, z);
    var r := Receive(x.c, x.sc[0], ch);
    if x.c.kex.value.hostVerified {
      ClientCompletes(z, z.(c := r.0, cs := r.1));
      assert x.cs + r.1 == r.1;
    } else {
      assert x.cs + [] == x.cs;
      WaitingForHostFits(z);
    }
  }

  lemma ConsumedNewKeys(x: Sys, z: Sys)
    requires StreamsAgree(x) && x.sc != [] && x.sc[0].msg == NewKeys
    requires z.s == x.s && z.cs == x.cs && z.sc == x.sc[1..]
    requires z.c.delivered == x.c.delivered && z.c.submitted == x.c.submitted
    requires z.c.queue == x.c.queue
    ensures StreamsAgree(z)
  {
    assert Payloads(x.sc) == [] + Payloads(x.sc[1..]);
  }

  lemma WaitingForHostFits(z: Sys)
    requires PhaseOf(z.c) in {Step2, Step3} && PhaseOf(z.s) == Step2
    requires SameExchange(z.c, z.s) && z.cs == []
    requires if PhaseOf(z.c) == Step2 then |z.sc| == 1 && z.sc[0].msg == NewKeys else z.sc == []
    ensures Fits(z)
  {
  }

  lemma EndAnswered(e: End, hash: Hash)
    requires EndOk(e) && !e.server && e.kex.Some? && e.kex.value.verifying
    requires e.kex.value.signature == Some(hash)
    requires e.kex.value.pub.Some? && e.kex.value.peerPub.Some?
    requires HashOf(e, e.kex.value, e.kex.value.peerPub.value, e.kex.value.pub.value) == hash
    ensures var e1 := Accepted(e);
            && PhaseOf(e) in {Step2, Step3}
            && (PhaseOf(e) == Step3 ==>
                  ReadyToFinish(e1, hash) && Answer(e, true) == ClientFinish(e1, e1.kex.value))
            && (PhaseOf(e) == Step2 ==>
                  EndOk(e1) && PhaseOf(e1) == Step2 && Answer(e, true) == (e1, []))
  {
    hide ClientFinish;
  }

  /** Where the two ends are while the host verifier is asked. */
  lemma WhileVerifying(x: Sys)
    requires !x.c.server && x.s.server && EndOk(x.c) && EndOk(x.s) && Fits(x)
    requires x.c.kex.Some? && x.c.kex.value.verifying
    ensures PhaseOf(x.c) in {Step2, Step3} && PhaseOf(x.s) == Step2 && SameExchange(x.c, x.s) && x.cs == []
    ensures PhaseOf(x.c) == Step3 ==> x.sc == []
    ensures PhaseOf(x.c) == Step2 ==> |x.sc| == 1 && x.sc[0].msg == NewKeys
    ensures var k, hash := x.c.kex.value, ServerHash(x.s);
            && k.signature == Some(hash) && k.pub.Some? && k.peerPub.Some?
            && HashOf(x.c, k, k.peerPub.value, k.pub.value) == hash
  {
  }

  function Accepted(e: End): End
    requires e.kex.Some?
  {
    e.(kex := Some(e.kex.value.(hostVerified := true, verifying := false)))
  }

  lemma AcceptedFrame(e: End)
    requires e.kex.Some?
    ensures var e1 := Accepted(e);
            && SameKeys(e, e1) && SessionOf(e) == SessionOf(e1) && PhaseOf(e1) == PhaseOf(e)
            && Waiting(e1) == Waiting(e) && e1.submitted == e.submitted && e1.delivered == e.delivered
            && e1.fault == e.fault && e1.server == e.server
  {
  }

  lemma AcceptedExchange(c: End, s: End)
    requires SameExchange(c, s)
    ensures SameExchange(Accepted(c), s)
  {
  }

  lemma KeepsAnswer(x: Sys)
    requires Inv(x)
    ensures Inv(Next(x, HostAnswer(true)))
  {
    hide *;
    if x.c.kex.Some? && x.c.kex.value.verifying {
      KeepsAcceptance(x);
    } else {
      NobodyAsked(x);
    }
  }

  lemma NobodyAsked(x: Sys)
    requires x.c.kex.Some? ==> !x.c.kex.value.verifying
    ensures Next(x, HostAnswer(true)) == x
  {
    hide ClientFinish, Fail;
    NothingSent(x.cs);
  }

  lemma KeepsAcceptance(x: Sys)
    requires Inv(x) && x.c.kex.Some? && x.c.kex.value.verifying
    ensures Inv(Next(x, HostAnswer(true)))
  {
    hide Answer, Fits, KeysAgree, EndOk, SameExchange, ClientFinish, ReadyToFinish, Accepted, PhaseOf, SessionOf,
         ServerHash, HashOf, Waiting, SameKeys, Payloads;
    NoFaults(x);
    WhileVerifying(x);
    EndAnswered(x.c, ServerHash(x.s));
    AcceptedFrame(x.c);
    AcceptedExchange(x.c, x.s);
    var z := x.(c := Accepted(x.c));
    AnsweredKeys(x, z);
    NothingSent(x.cs);
    if PhaseOf(x.c) == Step3 {
      var r := Answer(x.c, true);
      FirstSent(r.1);
      ClientCompletes(z, z.(c := r.0, cs := r.1));
    } else {
      WaitingForHostFits(z);
    }
  }

  lemma FirstSent(w: seq<Packet>)
    ensures [] + w == w
  {
  }

  lemma AnsweredKeys(x: Sys, z: Sys)
    requires KeysAgree(x) && !Switching(x) && !Switching(z)
    requires z.s == x.s && z.cs == x.cs && z.sc == x.sc
    requires SameKeys(x.c, z.c) && SessionOf(x.c) == SessionOf(z.c)
    ensures KeysAgree(z)
  {
  }

  // ----- The server completes -----

  lemma EndSwitches(e: End, p: Packet, ch: Choice)
    requires EndOk(e) && e.server && Authentic(e, p) && PhaseOf(e) == Step2 && p.msg == NewKeys
    ensures var r := Receive(e, p, ch);
            var q := e.queue.GetOr([]);
            && EndOk(r.0) && PhaseOf(r.0) == Idle && Waiting(r.0) == []
            && r.0.onPayload == Established && r.0.server && r.0.started
            && r.0.delivered == e.delivered && r.0.submitted == e.submitted
            && r.0.outKey == Derived(ServerHash(e), NextSession(e), false)
            && r.0.inKey == Derived(ServerHash(e), NextSession(e), true)
            && r.0.inSeqno == Wrap(e.inSeqno + 1) && SessionOf(r.0) == Some(NextSession(e))
            && |r.1| == |q| && r.0.outSeqno == Wrap(e.outSeqno + |r.1|)
            && AllOrdinary(r.1) && Payloads(r.1) == Waiting(e)
            && Stamped(r.1, r.0.outKey, e.outSeqno)
  {
    var hash := ServerHash(e);
    var sid := NextSession(e);
    var k := e.kex.value.(receivedNewKeys := true, step := 3);
    var e1 := e.(
      inSeqno := Wrap(e.inSeqno + 1),
      kex := Some(k.(sessionId := Some(sid), completed := true)),
      outKey := Derived(hash, sid, false),
      inKey := Derived(hash, sid, true),
      onPayload := Established,
      kexinit := None,
      allocStart := 5,
      queue := None);
    var q := e.queue.GetOr([]);
    hide Drain;
    assert e.started;
    assert Receive(e, p, ch) == Drain(e1, q);
    hide Receive;
    DrainEnd(e1, q);

    DrainPayloads(e1, q);
    DrainStamped(e1, q);
  }

  lemma ServerSwitching(x: Sys)
    requires Fits(x) && x.cs != [] && x.cs[0].msg == NewKeys && PhaseOf(x.s) == Step2
    requires PhaseOf(x.c) in {Idle, Inited}
    ensures Switching(x) && x.sc == []
  {
  }

  lemma ServerTakesNewKeys(x: Sys, ch: Choice)
    requires Inv(x) && x.s.started && x.cs != [] && x.cs[0].msg == NewKeys
    ensures Inv(Next(x, ToServer(ch)))
  {
    hide Next, Receive, Fits, KeysAgree, ServerHash, NextSession, Waiting, EndOk;
    HeadToServer(x);
    ServerSwitching(x);
    NoFaults(x);
    DeliverToServer(x, ch);
    HeadStamp(x);
    EndSwitches(x.s, x.cs[0], ch);
    var r := Receive(x.s, x.cs[0], ch);
    var y := x.(s := r.0, cs := x.cs[1..], sc := r.1);
    assert Next(x, ToServer(ch)) == y by {
      assert x.sc + r.1 == r.1;
    }
    SwitchedFits(x, y);
    SwitchedKeys(x, y);
    SwitchedStreams(x, y);
  }

  lemma SwitchedStreams(x: Sys, y: Sys)
    requires StreamsAgree(x) && x.sc == [] && x.cs != [] && x.cs[0].msg == NewKeys
    requires y.c == x.c && y.cs == x.cs[1..]
    requires y.s.delivered == x.s.delivered && y.s.submitted == x.s.submitted
    requires Waiting(y.s) == [] && Payloads(y.sc) == Waiting(x.s)
    ensures StreamsAgree(y)
  {
    hide Waiting;
    assert Payloads(x.cs) == [] + Payloads(x.cs[1..]);
    assert x.c.delivered + Payloads(x.sc) == x.c.delivered;
  }

  lemma SwitchedFits(x: Sys, y: Sys)
    requires EndOk(x.c) && EndOk(x.s) && Fits(x) && Switching(x) && KeysAgree(x)
    requires y.c == x.c && y.cs == x.cs[1..]
    requires PhaseOf(y.s) == Idle && y.s.onPayload == Established && AllOrdinary(y.sc)
    ensures Fits(y)
  {
    if PhaseOf(x.c) == Inited {
      InitReceiverFrame(x.cs[1..], x.c, x.c, y.s);
      hide EndOk, EndsWithInit;
    }
  }

  lemma SwitchedKeys(x: Sys, y: Sys)
    requires KeysAgree(x) && Switching(x) && x.sc == []
    requires y.c == x.c && y.cs == x.cs[1..] && PhaseOf(y.s) == Idle
    requires y.s.outKey == Derived(ServerHash(x.s), NextSession(x.s), false)
    requires y.s.inKey == Derived(ServerHash(x.s), NextSession(x.s), true)
    requires y.s.inSeqno == Wrap(x.s.inSeqno + 1)
    requires SessionOf(y.s) == Some(NextSession(x.s))
    requires y.s.outSeqno == Wrap(x.s.outSeqno + |y.sc|)
    requires Stamped(y.sc, y.s.outKey, x.s.outSeqno)
    ensures KeysAgree(y)
  {
    hide ServerHash, NextSession;
    StampedShift(y.cs, y.s.inKey, x.s.inSeqno + 1, y.s.inSeqno);
    WrapAdd(x.s.inSeqno + 1, |y.cs|);
    StampedShift(y.sc, y.s.outKey, x.s.outSeqno, x.c.inSeqno);
  }
}
