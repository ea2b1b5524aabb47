/** Every step keeps the invariant of `KexSafety`, one lemma for each kind of step. */
module KexInvariant {
  import opened Common
  import opened KexModel
  import opened KexSafety

  // ----- Frames -----

  predicate SameKex(a: End, b: End) {
    && a.server == b.server
    && a.kexinit == b.kexinit
    && a.onPayload == b.onPayload
    && a.kex == b.kex
  }

  predicate SameKeys(a: End, b: End) {
    && a.outKey == b.outKey && a.outSeqno == b.outSeqno
    && a.inKey == b.inKey && a.inSeqno == b.inSeqno
  }

  lemma FitsFrame(x: Sys, y: Sys)
    requires Fits(x) && x.cs == y.cs && x.sc == y.sc
    requires SameKex(x.c, y.c) && SameKex(x.s, y.s)
    ensures Fits(y)
  {
  }

  lemma KeysFrame(x: Sys, y: Sys)
    requires KeysAgree(x) && x.cs == y.cs && x.sc == y.sc
    requires SameKex(x.c, y.c) && SameKex(x.s, y.s)
    requires SameKeys(x.c, y.c) && SameKeys(x.s, y.s)
    ensures KeysAgree(y)
  {
  }

  /** What a packet appended by its sender adds to each view of the stream. */
  lemma Appended(w: seq<Packet>, p: Packet, key: Key, seqno: nat)
    requires Stamped(w, key, seqno)
    requires p.at == 5 && p.key == key && p.seqno == Wrap(seqno + |w|)
    ensures Stamped(w + [p], key, seqno)
    ensures Wrap(p.seqno + 1) == Wrap(seqno + |w + [p]|)
  {
    StampedAppend(w, [p], key, seqno);
    WrapAdd(seqno + |w|, 1);
  }

  lemma PayloadsPlus(w: seq<Packet>, p: Packet)
    ensures Payloads(w + [p]) == Payloads(w) + PayloadOf(p)
  {
    PayloadsAppend(w, [p]);
    assert Payloads([p]) == PayloadOf(p) + [];
  }

  // ----- Ordinary sends -----

  lemma QueuedEnd(e: End, payload: Payload)
    requires EndOk(e) && e.kexinit.Some?
    ensures var r := Send(e, payload);
            && r.1 == [] && EndOk(r.0) && SameKex(e, r.0) && SameKeys(e, r.0)
            && r.0.submitted == e.submitted + [payload]
            && r.0.delivered == e.delivered
            && Waiting(r.0) == Waiting(e) + [payload]
  {
    QueuePayloadsAppend(e.queue.GetOr([]), [Queued(0, payload)]);
  }

  lemma KeepsQueued(x: Sys, client: bool, payload: Payload)
    requires Inv(x) && (if client then x.c.kexinit.Some? else x.s.kexinit.Some?)
    ensures Inv(Next(x, Submit(client, payload)))
  {
    hide Fits, KeysAgree, Send, Waiting;
    var y := Next(x, Submit(client, payload));
    QueuedEnd(if client then x.c else x.s, payload);
    assert y.cs == x.cs && y.sc == x.sc;
    hide EndOk;
    FitsFrame(x, y);
    KeysFrame(x, y);
  }

  lemma SentEnd(e: End, payload: Payload)
    requires EndOk(e) && e.started && e.kexinit.None?
    ensures var r := Send(e, payload);
            && r.1 == [Packet(5, Ordinary(payload), e.outKey, e.outSeqno)]
            && r.0 == e.(submitted := e.submitted + [payload], outSeqno := Wrap(e.outSeqno + 1))
            && EndOk(r.0)
            && Waiting(r.0) == Waiting(e) == []
  {
  }

  lemma ClientSentFits(x: Sys, y: Sys, p: Packet)
    requires Fits(x) && PhaseOf(x.c) == Idle && EndOk(x.c) && EndOk(x.s)
    requires SameKex(x.c, y.c) && x.s == y.s && y.cs == x.cs + [p] && y.sc == x.sc && p.msg.Ordinary?
    requires x.s.onPayload != FirstKex
    ensures Fits(y)
  {
    if PhaseOf(x.s) == Step2 {
      assert y.cs[1..] == x.cs[1..] + [p];
    }
  }

  lemma ServerSentFits(x: Sys, y: Sys, p: Packet)
    requires Fits(x) && PhaseOf(x.s) == Idle && EndOk(x.c) && EndOk(x.s)
    requires SameKex(x.s, y.s) && x.c == y.c && y.sc == x.sc + [p] && y.cs == x.cs && p.msg.Ordinary?
    requires x.c.onPayload != FirstKex
    ensures Fits(y)
  {
  }

  /** One packet appended to the client's stream under its current key. */
  lemma ClientSentKeys(x: Sys, y: Sys, p: Packet)
    requires KeysAgree(x)
    requires x.s == y.s && y.cs == x.cs + [p] && y.sc == x.sc
    requires SessionOf(y.c) == SessionOf(x.c)
    requires Switching(x) <==> Switching(y)
    requires Switching(y) ==> y.c.onPayload == Established
    requires y.c.outKey == x.c.outKey && y.c.inKey == x.c.inKey && y.c.inSeqno == x.c.inSeqno
    requires p.at == 5 && p.key == x.c.outKey && p.seqno == x.c.outSeqno
    requires y.c.outSeqno == Wrap(x.c.outSeqno + 1)
    ensures KeysAgree(y)
  {
    if Switching(x) {
      WrapAdd(x.s.inSeqno + 1, |x.cs| - 1);
      Appended(x.cs[1..], p, x.c.outKey, x.s.inSeqno + 1);
      assert y.cs[1..] == x.cs[1..] + [p];
      assert y.cs[..1] == x.cs[..1];
    } else {
      Appended(x.cs, p, x.s.inKey, x.s.inSeqno);
    }
  }

  /** One packet appended to the server's stream under its current key. */
  lemma ServerSentKeys(x: Sys, y: Sys, p: Packet)
    requires KeysAgree(x) && !Switching(x) && !Switching(y)
    requires x.c == y.c && y.sc == x.sc + [p] && y.cs == x.cs
    requires SessionOf(y.s) == SessionOf(x.s)
    requires y.s.outKey == x.s.outKey && y.s.inKey == x.s.inKey && y.s.inSeqno == x.s.inSeqno
    requires p.at == 5 && p.key == x.s.outKey && p.seqno == x.s.outSeqno
    requires y.s.outSeqno == Wrap(x.s.outSeqno + 1)
    ensures KeysAgree(y)
  {
    Appended(x.sc, p, x.c.inKey, x.c.inSeqno);
  }

  /** A started end that is not in an exchange has completed one, and so has its peer. */
  lemma PeerPastFirst(x: Sys)
    requires Inv(x)
    ensures PhaseOf(x.c) == Idle && x.c.started ==> x.s.onPayload != FirstKex
    ensures PhaseOf(x.s) == Idle && x.s.started ==> x.c.onPayload != FirstKex
  {
    hide StreamsAgree;
  }

  lemma KeepsSentByClient(x: Sys, payload: Payload)
    requires Inv(x) && x.c.started && x.c.kexinit.None?
    ensures Inv(Next(x, Submit(true, payload)))
  {
    PeerPastFirst(x);
    SentEnd(x.c, payload);
    var y := Next(x, Submit(true, payload));
    var p := Packet(5, Ordinary(payload), x.c.outKey, x.c.outSeqno);
    assert y == x.(c := y.c, cs := x.cs + [p]);
    ClientSentFits(x, y, p);
    assert Switching(x) <==> Switching(y);
    hide Fits, EndOk, Send;
    ClientSentKeys(x, y, p);
    PayloadsPlus(x.cs, p);
    hide KeysAgree;
  }

  lemma KeepsSentByServer(x: Sys, payload: Payload)
    requires Inv(x) && x.s.started && x.s.kexinit.None?
    ensures Inv(Next(x, Submit(false, payload)))
  {
    PeerPastFirst(x);
    SentEnd(x.s, payload);
    var y := Next(x, Submit(false, payload));
    var p := Packet(5, Ordinary(payload), x.s.outKey, x.s.outSeqno);
    assert y == x.(s := y.s, sc := x.sc + [p]);
    ServerSentFits(x, y, p);
    hide Fits, EndOk, Send;
    ServerSentKeys(x, y, p);
    PayloadsPlus(x.sc, p);
    hide KeysAgree;
  }

  // ----- KEXINIT sent first -----

  predicate JustInited(a: End, b: End, cookie: nat) {
    && a.kexinit.None? && b.kexinit == Some(cookie)
    && a.server == b.server && a.kex == b.kex && a.onPayload == b.onPayload
    && a.onPayload != DuringKex
    && b.outSeqno == Wrap(a.outSeqno + 1)
    && a.outKey == b.outKey && a.inKey == b.inKey && a.inSeqno == b.inSeqno
    && a.delivered == b.delivered && a.submitted == b.submitted
    && Waiting(a) == Waiting(b) == []
  }

  lemma InitAppended(w: seq<Packet>, p: Packet, sender: End, receiver: End)
    requires OrdinaryFront(w, |w|, receiver)
    requires sender.kexinit.Some? && p.msg == KexInit(sender.kexinit.value)
    ensures EndsWithInit(w + [p], sender, receiver)
  {
    assert (w + [p])[..|w|] == w == w[..|w|];
  }

  lemma ClientInitFits(x: Sys, y: Sys, cookie: nat, p: Packet)
    requires Fits(x) && EndOk(x.c) && EndOk(x.s) && JustInited(x.c, y.c, cookie) && x.s == y.s
    requires Switching(x) ==> x.c.onPayload == Established
    requires y.cs == x.cs + [p] && y.sc == x.sc && p.msg == KexInit(cookie)
    ensures Fits(y)
  {
    assert PhaseOf(x.c) == Idle && PhaseOf(y.c) == Inited;
    if PhaseOf(x.s) == Step2 {
      assert y.cs[1..] == x.cs[1..] + [p];
      assert x.cs[1..][..|x.cs[1..]|] == x.cs[1..];
      InitAppended(x.cs[1..], p, y.c, y.c);
      hide EndOk, EndsWithInit;
    } else {
      InitAppended(x.cs, p, y.c, x.s);
      hide EndOk, EndsWithInit;
      if PhaseOf(x.s) == Inited {
        InitFrame(x.sc, x.s, x.c, y.c);
      }
    }
  }

  lemma InitFrame(w: seq<Packet>, sender: End, a: End, b: End)
    requires EndsWithInit(w, sender, a) && a.onPayload == b.onPayload
    ensures EndsWithInit(w, sender, b)
  {
  }

  lemma ServerInitFits(x: Sys, y: Sys, cookie: nat, p: Packet)
    requires Fits(x) && EndOk(x.c) && EndOk(x.s) && JustInited(x.s, y.s, cookie) && x.c == y.c
    requires y.sc == x.sc + [p] && y.cs == x.cs && p.msg == KexInit(cookie)
    ensures Fits(y)
  {
    assert PhaseOf(x.s) == Idle && PhaseOf(y.s) == Inited;
    InitAppended(x.sc, p, y.s, x.c);
    hide EndOk, EndsWithInit;
    if PhaseOf(x.c) == Inited {
      InitFrame(x.cs, x.c, x.s, y.s);
    }
  }

  lemma KeepsClientInit(x: Sys, y: Sys, cookie: nat)
    requires Inv(x) && EndOk(y.c) && JustInited(x.c, y.c, cookie)
    requires y == x.(c := y.c, cs := x.cs + [Packet(5, KexInit(cookie), x.c.outKey, x.c.outSeqno)])
    ensures Inv(y)
  {
    hide EndOk, Waiting;
    var p := Packet(5, KexInit(cookie), x.c.outKey, x.c.outSeqno);
    ClientInitFits(x, y, cookie, p);
    hide Fits;
    ClientSentKeys(x, y, p);
    hide KeysAgree;
    PayloadsPlus(x.cs, p);
  }

  lemma KeepsServerInit(x: Sys, y: Sys, cookie: nat)
    requires Inv(x) && EndOk(y.s) && JustInited(x.s, y.s, cookie)
    requires y == x.(s := y.s, sc := x.sc + [Packet(5, KexInit(cookie), x.s.outKey, x.s.outSeqno)])
    ensures Inv(y)
  {
    hide EndOk, Waiting;
    var p := Packet(5, KexInit(cookie), x.s.outKey, x.s.outSeqno);
    ServerInitFits(x, y, cookie, p);
    hide Fits;
    ServerSentKeys(x, y, p);
    hide KeysAgree;
    PayloadsPlus(x.sc, p);
  }

  /** What starting does to an end. */
  lemma StartInits(e: End, cookie: nat)
    requires EndOk(e)
    ensures var r := Start(e, cookie);
            if e.started then r == (e, [])
            else
              && EndOk(r.0) && JustInited(e, r.0, cookie)
              && r.1 == [Packet(5, KexInit(cookie), e.outKey, e.outSeqno)]
  {
  }

  /** And asking for new keys. */
  lemma RekeyInits(e: End, cookie: nat)
    requires EndOk(e) && e.started
    ensures var r := Rekey(e, cookie);
            if e.kexinit.Some? then r == (e, [])
            else
              && EndOk(r.0) && JustInited(e, r.0, cookie)
              && r.1 == [Packet(5, KexInit(cookie), e.outKey, e.outSeqno)]
  {
  }

  lemma NothingDone(x: Sys)
    ensures x.(c := x.c, cs := x.cs + []) == x && x.(s := x.s, sc := x.sc + []) == x
  {
  }

  lemma KeepsBegin(x: Sys, client: bool, cookie: nat)
    requires Inv(x)
    ensures Inv(Next(x, Begin(client, cookie)))
  {
    var y := Next(x, Begin(client, cookie));
    hide EndOk, Fits, KeysAgree, StreamsAgree, JustInited, Start;
    NothingDone(x);
    if client {
      StartInits(x.c, cookie);
      if !Over(x) && !x.c.started {
        KeepsClientInit(x, y, cookie);
      }
    } else {
      StartInits(x.s, cookie);
      if !Over(x) && !x.s.started {
        KeepsServerInit(x, y, cookie);
      }
    }
  }

  lemma KeepsRekey(x: Sys, client: bool, cookie: nat)
    requires Inv(x) && Timely(x, AskRekey(client, cookie))
    ensures Inv(Next(x, AskRekey(client, cookie)))
  {
    var y := Next(x, AskRekey(client, cookie));
    hide EndOk, Fits, KeysAgree, StreamsAgree, JustInited, Rekey;
    NothingDone(x);
    if client {
      RekeyInits(x.c, cookie);
      if !Over(x) && x.c.kexinit.None? {
        KeepsClientInit(x, y, cookie);
      }
    } else {
      RekeyInits(x.s, cookie);
      if !Over(x) && x.s.kexinit.None? {
        KeepsServerInit(x, y, cookie);
      }
    }
  }
}
