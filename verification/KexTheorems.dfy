/** What holds of whole runs of the two-party key exchange. */
module KexTheorems {
  import opened Common
  import opened KexModel
  import opened KexSafety
  import opened KexInvariant
  import opened KexDelivery

  /** A connection in order, or one the client has ended because it refused the host key. */
  predicate Good(x: Sys) {
    || Inv(x)
    || (x.c.fault == HostDenied && x.s.fault == NoFault && StreamsAgree(x))
  }

  lemma InitGood()
    ensures Inv(Init())
  {
    assert Fits(Init()) && KeysAgree(Init()) && StreamsAgree(Init());
  }

  lemma DenialGood(x: Sys, step: Step)
    requires Inv(x)
    requires || step == HostAnswer(false)
             || (step.ToClient? && step.choice.verdict == Deny && x.c.started
                 && x.sc != [] && x.sc[0].msg.KexDhReply?)
    ensures Good(Next(x, step))
  {
    hide EndOk, Fits, KeysAgree, StreamsAgree, Receive;
    NoFaults(x);
    if step.HostAnswer? {
      NothingSent(x.cs);
      if x.c.kex.Some? && x.c.kex.value.verifying {
        DeniedStreams(x, Next(x, step));
      }
    } else {
      HeadStamp(x);
      HeadToClient(x);
      DeliverToClient(x, step.choice);
      EndDenies(x.c, x.sc[0], step.choice);
      NothingSent(x.cs);
      DeniedStreams(x, Next(x, step));
    }
  }

  lemma EndDenies(e: End, p: Packet, ch: Choice)
    requires EndOk(e) && !e.server && Authentic(e, p) && PhaseOf(e) == Step1 && p.msg.KexDhReply?
    requires ch.verdict == Deny
    ensures Receive(e, p, ch) == (e.(inSeqno := Wrap(e.inSeqno + 1), fault := HostDenied), [])
  {
  }

  /** Turning a host down costs no payload. */
  lemma DeniedStreams(x: Sys, y: Sys)
    requires StreamsAgree(x) && y.s == x.s && y.cs == x.cs
    requires y.c == x.c.(inSeqno := y.c.inSeqno, fault := HostDenied)
    requires y.sc == x.sc || (x.sc != [] && !x.sc[0].msg.Ordinary? && y.sc == x.sc[1..])
    ensures StreamsAgree(y)
  {
    hide Payloads;
    if x.sc != [] {
      PayloadsFirst(x.sc);
    }
  }

  lemma DeliveryGood(x: Sys, step: Step)
    requires Inv(x) && (step.ToServer? || step.ToClient?)
    ensures Good(Next(x, step))
  {
    if step.ToServer? && x.s.started && x.cs != [] {
      HeadToServer(x);
      hide *;
      match x.cs[0].msg
      case Ordinary(_) => ServerTakesOrdinary(x, step.choice);
      case KexInit(_) => ServerTakesInit(x, step.choice);
      case KexDhInit(_) => ServerTakesDhInit(x, step.choice);
      case NewKeys => ServerTakesNewKeys(x, step.choice);
    } else if step.ToClient? && x.c.started && x.sc != [] {
      HeadToClient(x);
      match x.sc[0].msg
      case Ordinary(_) => ClientTakesOrdinary(x, step.choice);
      case KexInit(_) => ClientTakesInit(x, step.choice);
      case KexDhReply(_, _) =>
        if step.choice.verdict == Deny {
          DenialGood(x, step);
        } else {
          ClientTakesReply(x, step.choice);
        }
      case NewKeys => ClientTakesNewKeys(x, step.choice);
    } else {
      assert Next(x, step) == x;
    }
  }

  lemma StepGood(x: Sys, step: Step)
    requires Good(x) && Timely(x, step)
    ensures Good(Next(x, step))
  {
    if Inv(x) {
      match step
      case Begin(client, cookie) => KeepsBegin(x, client, cookie);
      case Submit(client, payload) =>
        if (if client then x.c else x.s).kexinit.Some? {
          KeepsQueued(x, client, payload);
        } else if client {
          KeepsSentByClient(x, payload);
        } else {
          KeepsSentByServer(x, payload);
        }
      case AskRekey(client, cookie) => KeepsRekey(x, client, cookie);
      case ToServer(_) => DeliveryGood(x, step);
      case ToClient(_) => DeliveryGood(x, step);
      case HostAnswer(permitted) =>
        if permitted {
          KeepsAnswer(x);
        } else {
          DenialGood(x, step);
        }
    }
  }

  lemma {:induction false} RunGood(x: Sys, steps: seq<Step>)
    requires Good(x) && TimelyRun(x, steps)
    ensures Good(Run(x, steps))
    decreases |steps|
  {
    hide Good, Next;
    if steps != [] {
      StepGood(x, steps[0]);
      RunGood(Next(x, steps[0]), steps[1..]);
    }
  }

  // ----- Main results -----

  function After(steps: seq<Step>): Sys {
    Run(Init(), steps)
  }

  predicate InOrder(steps: seq<Step>) {
    TimelyRun(Init(), steps)
  }

  /** Whatever both sides do and however deliveries interleave, rekeys from both ends at once
      included, no run ends in a protocol error: the only way to a fatal error is a refused
      host key. */
  lemma NoProtocolError(steps: seq<Step>)
    requires InOrder(steps)
    ensures After(steps).c.fault in {NoFault, HostDenied}
    ensures After(steps).s.fault == NoFault
  {
    InitGood();
    RunGood(Init(), steps);
  }

  /** The next packet of either stream always carries the key and sequence number its
      receiver is about to decrypt with. */
  lemma NextPacketDecrypts(steps: seq<Step>)
    requires InOrder(steps) && !Over(After(steps))
    ensures var x := After(steps);
            && (x.cs != [] ==> Authentic(x.s, x.cs[0]))
            && (x.sc != [] ==> Authentic(x.c, x.sc[0]))
  {
    InitGood();
    RunGood(Init(), steps);
    HeadStamp(After(steps));
  }

  /** Every payload handed to `Send` is, in order and exactly once, with the peer's handler,
      on the wire or in the sender's queue. */
  lemma NothingLostOrRepeated(steps: seq<Step>)
    requires InOrder(steps)
    ensures var x := After(steps);
            && x.c.submitted == x.s.delivered + Payloads(x.cs) + Waiting(x.c)
            && x.s.submitted == x.c.delivered + Payloads(x.sc) + Waiting(x.s)
  {
    InitGood();
    RunGood(Init(), steps);
  }

  /** An exchange cannot wedge: with nothing in flight and no host verification pending, either
      neither exchange has begun on one side, or both ends are out of the exchange, hold the
      same session id and matching keys, and everything submitted has been delivered. */
  lemma ExchangesFinish(steps: seq<Step>)
    requires InOrder(steps) && !Over(After(steps))
    requires var x := After(steps);
             && x.cs == [] && x.sc == [] && x.c.started && x.s.started
             && (x.c.kex.Some? ==> !x.c.kex.value.verifying)
    ensures var x := After(steps);
            && x.c.kexinit.None? && x.s.kexinit.None?
            && x.c.onPayload == Established && x.s.onPayload == Established
            && x.c.outKey == x.s.inKey && x.s.outKey == x.c.inKey
            && SessionOf(x.c) == SessionOf(x.s) && SessionOf(x.c).Some?
            && x.s.delivered == x.c.submitted
            && x.c.delivered == x.s.submitted
  {
    InitGood();
    RunGood(Init(), steps);
    var x := After(steps);
    assert PhaseOf(x.c) == Idle && PhaseOf(x.s) == Idle;
    assert x.s.delivered + [] + [] == x.s.delivered;
    assert x.c.delivered + [] + [] == x.c.delivered;
  }

  // ----- The session id is fixed by the first exchange -----

  lemma CompleteKeepsSession(e: End, k: Kex, hash: Hash)
    requires k.sessionId.Some?
    ensures SessionOf(Complete(e, k, hash).0) == k.sessionId
  {
    var e1 := e.(
      kex := Some(k.(sessionId := Some(k.sessionId.value), completed := true)),
      outKey := Derived(hash, k.sessionId.value, !e.server),
      inKey := Derived(hash, k.sessionId.value, e.server),
      onPayload := Established,
      kexinit := None,
      allocStart := 5,
      queue := None);
    assert Complete(e, k, hash) == Drain(e1, e.queue.GetOr([]));
    DrainEnd(e1, e.queue.GetOr([]));
  }

  lemma ClientFinishKeepsSession(e: End, k: Kex)
    requires e.kex == Some(k) && k.sessionId.Some?
    ensures SessionOf(ClientFinish(e, k).0) == k.sessionId
  {
    hide Complete;
    if !k.finished && k.peerPub.Some? && k.pub.Some? && k.signature.Some? {
      var k1 := k.(finished := true, sentNewKeys := true);
      CompleteKeepsSession(EncryptKex(e.(kex := Some(k1)), NewKeys).0, k1,
                           HashOf(e, k, k.peerPub.value, k.pub.value));
    }
  }

  lemma ParseKeepsSession(e: End, k: Kex, msg: Msg, ch: Choice)
    requires e.kex == Some(k) && k.sessionId.Some?
    ensures SessionOf(Parse(e, k, msg, ch).0) == k.sessionId
  {
    hide ServerFinish, ServerComplete, ClientFinish;
    var k1 := k.(receivedNewKeys := true, step := 3);
    var e1 := e.(kex := Some(k1));
    ClientFinishKeepsSession(e1, k1);
    ServerCompleteKeepsSession(e1, k1);
    if msg.KexDhInit? {
      ServerFinishKeepsSession(e, k.(peerPub := Some(msg.pub), step := 2), ch.pub);
    }
  }

  lemma ServerCompleteKeepsSession(e: End, k: Kex)
    requires e.kex == Some(k) && k.sessionId.Some?
    ensures SessionOf(ServerComplete(e, k).0) == k.sessionId
  {
    hide Complete;
    if k.peerPub.Some? && k.pub.Some? {
      CompleteKeepsSession(e, k, HashOf(e, k, k.peerPub.value, k.pub.value));
    }
  }

  lemma ServerFinishKeepsSession(e: End, k: Kex, pub: nat)
    requires e.kex.Some? && e.kex.value.sessionId == k.sessionId
    ensures SessionOf(ServerFinish(e, k, pub).0) == k.sessionId
  {
  }

  lemma HandleInitKeepsSession(e: End, remote: nat, ch: Choice)
    ensures SessionOf(HandleKexInit(e, remote, ch).0) == SessionOf(e)
  {
  }

  lemma OnKexKeepsSession(e: End, msg: Msg, ch: Choice)
    requires SessionOf(e).Some?
    ensures SessionOf(OnKexPayload(e, msg, ch).0) == SessionOf(e)
  {
    hide Parse, HandleKexInit;
    ParseKeepsSession(e, e.kex.value, msg, ch);
    if msg.KexInit? {
      HandleInitKeepsSession(e.(onPayload := DuringKex), msg.cookie, ch);
    }
  }

  lemma OnEstablishedKeepsSession(e: End, msg: Msg, ch: Choice)
    ensures SessionOf(OnEstablishedPayload(e, msg, ch).0) == SessionOf(e)
  {
    hide HandleKexInit;
    if msg.KexInit? {
      HandleInitKeepsSession(e, msg.cookie, ch);
    }
  }

  lemma ReceiveKeepsSession(e: End, p: Packet, ch: Choice)
    requires SessionOf(e).Some?
    ensures SessionOf(Receive(e, p, ch).0) == SessionOf(e)
  {
    hide OnKexPayload, OnEstablishedPayload;
    var e1 := e.(inSeqno := Wrap(e.inSeqno + 1));
    OnKexKeepsSession(e1, p.msg, ch);
    OnEstablishedKeepsSession(e1, p.msg, ch);
  }

  lemma AnswerKeepsSession(e: End, permitted: bool)
    requires SessionOf(e).Some?
    ensures SessionOf(Answer(e, permitted).0) == SessionOf(e)
  {
    hide ClientFinish;
    var k := e.kex.value.(hostVerified := true, verifying := false);
    ClientFinishKeepsSession(e.(kex := Some(k)), k);
  }

  /** Once an end has a session id, no run of any kind replaces it. */
  lemma {:induction false} SessionIdNeverChanges(x: Sys, steps: seq<Step>)
    ensures SessionOf(x.c).Some? ==> SessionOf(Run(x, steps).c) == SessionOf(x.c)
    ensures SessionOf(x.s).Some? ==> SessionOf(Run(x, steps).s) == SessionOf(x.s)
    decreases |steps|
  {
    if steps != [] {
      var y := Next(x, steps[0]);
      SessionIdNeverChanges(y, steps[1..]);
      StepKeepsSession(x, steps[0]);
    }
  }

  lemma StepKeepsSession(x: Sys, step: Step)
    ensures SessionOf(x.c).Some? ==> SessionOf(Next(x, step).c) == SessionOf(x.c)
    ensures SessionOf(x.s).Some? ==> SessionOf(Next(x, step).s) == SessionOf(x.s)
  {
    hide Receive, Answer, SessionOf;
    if SessionOf(x.c).Some? && step.ToClient? && x.sc != [] {
      ReceiveKeepsSession(x.c, x.sc[0], step.choice);
    }
    if SessionOf(x.s).Some? && step.ToServer? && x.cs != [] {
      ReceiveKeepsSession(x.s, x.cs[0], step.choice);
    }
    if SessionOf(x.c).Some? && step.HostAnswer? {
      AnswerKeepsSession(x.c, step.permitted);
    }
    OutboundKeepsSession(x.c, step);
    OutboundKeepsSession(x.s, step);
  }

  lemma OutboundKeepsSession(e: End, step: Step)
    ensures match step
            case Begin(_, cookie) => SessionOf(Start(e, cookie).0) == SessionOf(e)
            case Submit(_, payload) => SessionOf(Send(e, payload).0) == SessionOf(e)
            case AskRekey(_, cookie) => SessionOf(Rekey(e, cookie).0) == SessionOf(e)
            case _ => true
  {
  }

  // ----- No ordinary packet inside one's own exchange -----

  /** Reads a stretch of one end's output: from KEXINIT to NEWKEYS only key exchange messages.
      The result is whether the stretch ends inside an exchange. */
  function Scan(inside: bool, w: seq<Packet>): Option<bool>
    decreases |w|
  {
    if w == [] then Some(inside)
    else match w[0].msg
      case Ordinary(_) => if inside then None else Scan(false, w[1..])
      case KexInit(_) => if inside then None else Scan(true, w[1..])
      case NewKeys => if inside then Scan(false, w[1..]) else None
      case _ => if inside then Scan(true, w[1..]) else None
  }

  predicate Inside(e: End) {
    && e.kexinit.Some?
    && !(e.onPayload == DuringKex && e.kex.Some? && e.kex.value.finished)
  }

  /** What one end adds to its outgoing stream in one step. */
  function Output(x: Sys, step: Step, client: bool): seq<Packet> {
    if Over(x) then []
    else match step
      case Begin(cl, cookie) =>
        if cl != client then [] else Start(if client then x.c else x.s, cookie).1
      case Submit(cl, payload) =>
        if cl != client then [] else Send(if client then x.c else x.s, payload).1
      case AskRekey(cl, cookie) =>
        if cl != client then [] else Rekey(if client then x.c else x.s, cookie).1
      case ToServer(ch) =>
        if client || x.cs == [] || !x.s.started then [] else Receive(x.s, x.cs[0], ch).1
      case ToClient(ch) =>
        if !client || x.sc == [] || !x.c.started then [] else Receive(x.c, x.sc[0], ch).1
      case HostAnswer(permitted) => if client then Answer(x.c, permitted).1 else []
  }

  /** Everything one end writes over a run. */
  function Written(x: Sys, steps: seq<Step>, client: bool): seq<Packet>
    decreases |steps|
  {
    if steps == [] then []
    else Output(x, steps[0], client) + Written(Next(x, steps[0]), steps[1..], client)
  }

  lemma {:induction false} ScanAppend(inside: bool, v: seq<Packet>, w: seq<Packet>)
    requires Scan(inside, v).Some?
    ensures Scan(inside, v + w) == Scan(Scan(inside, v).value, w)
    decreases |v|
  {
    if v == [] {
      assert v + w == w;
    } else {
      assert (v + w)[1..] == v[1..] + w;
      match v[0].msg
      case Ordinary(_) => ScanAppend(false, v[1..], w);
      case NewKeys => ScanAppend(false, v[1..], w);
      case _ => ScanAppend(true, v[1..], w);
    }
  }

  lemma {:induction false} ScanOrdinary(w: seq<Packet>)
    requires AllOrdinary(w)
    ensures Scan(false, w) == Some(false)
    decreases |w|
  {
    if w != [] {
      ScanOrdinary(w[1..]);
    }
  }

  predicate Scans(e: End, r: Effect) {
    Scan(Inside(e), r.1) == Some(Inside(r.0))
  }

  lemma OutboundScans(e: End, payload: Payload, cookie: nat)
    requires EndOk(e)
    ensures e.started ==> Scans(e, Send(e, payload))
    ensures e.started ==> Scans(e, Rekey(e, cookie))
    ensures Scans(e, Start(e, cookie))
  {
  }

  lemma FinishScans(e: End, hash: Hash)
    requires ReadyToFinish(e, hash)
    ensures Scans(e, ClientFinish(e, e.kex.value))
  {
    hide ClientFinish, EndOk;
    EndFinishes(e, hash);
    var r := ClientFinish(e, e.kex.value);
    hide ReadyToFinish;
    ScanOrdinary(r.1[1..]);
  }

  lemma InitedScansInit(e: End, p: Packet, ch: Choice)
    requires EndOk(e) && e.started && Authentic(e, p) && PhaseOf(e) == Inited && p.msg.KexInit?
    ensures Scans(e, Receive(e, p, ch))
  {
    hide Receive;
    EndTakesInit(e, p, ch);
    var r := Receive(e, p, ch);
    assert Inside(e) && Inside(r.0);
    if !e.server {
      assert r.1[1..] == [];
      assert Scan(true, r.1) == Scan(true, r.1[1..]);
    }
  }

  lemma ReceiveScansInit(e: End, p: Packet, ch: Choice)
    requires EndOk(e) && e.started && Authentic(e, p) && PhaseOf(e) in {Idle, Inited} && p.msg.KexInit?
    ensures Scans(e, Receive(e, p, ch))
  {
    if PhaseOf(e) == Idle {
      hide Receive;
      IdleTakesInit(e, p, ch);
      var e1 := SendKexInit(e, ch.cookie);
      InitedScansInit(e1.0, p, ch);
      assert Inside(e1.0) && !Inside(e);
      assert e1.1[1..] == [];
      ScanAppend(false, e1.1, Receive(e1.0, p, ch).1);
    } else {
      InitedScansInit(e, p, ch);
    }
  }

  lemma ReceiveScansByServer(x: Sys, ch: Choice)
    requires Inv(x) && x.s.started && x.cs != []
    ensures Scans(x.s, Receive(x.s, x.cs[0], ch))
  {
    hide Receive;
    HeadStamp(x);
    HeadToServer(x);
    var p := x.cs[0];
    hide Fits, KeysAgree, StreamsAgree;
    match p.msg
    case Ordinary(_) => EndTakesOrdinary(x.s, p, ch);
    case KexInit(_) => ReceiveScansInit(x.s, p, ch);
    case KexDhInit(_) =>
      EndTakesDhInit(x.s, p, ch);
      var w := Receive(x.s, p, ch).1;
      assert Inside(x.s) && !Inside(Receive(x.s, p, ch).0);
      assert w[1..] == [w[1]];
      assert w[1..][1..] == [];
      assert Scan(true, w) == Scan(true, w[1..]);
      assert Scan(true, w[1..]) == Scan(false, []);
    case NewKeys =>
      EndSwitches(x.s, p, ch);
      ScanOrdinary(Receive(x.s, p, ch).1);
  }

  /** What brings no packet out and leaves it open whether an exchange is going on. */
  lemma SilentScans(e: End, r: Effect)
    requires r.1 == [] && Inside(r.0) == Inside(e)
    ensures Scans(e, r)
  {
  }

  lemma NewKeysScans(e: End, p: Packet, ch: Choice, hash: Hash)
    requires EndOk(e) && !e.server && Authentic(e, p) && PhaseOf(e) == Step2 && p.msg == NewKeys
    requires e.kex.value.signature == Some(hash)
    requires HashOf(e, e.kex.value, e.kex.value.peerPub.value, e.kex.value.pub.value) == hash
    ensures Scans(e, Receive(e, p, ch))
  {
    hide Receive, ClientFinish, ReadyToFinish, EndOk, Scan;
    EndTakesNewKeys(e, p, ch, hash);
    var e1 := e.(inSeqno := Wrap(e.inSeqno + 1), kex := Some(e.kex.value.(receivedNewKeys := true, step := 3)));
    if e.kex.value.hostVerified {
      FinishScans(e1, hash);
    } else {
      SilentScans(e, Receive(e, p, ch));
    }
  }

  lemma ReplyScans(e: End, p: Packet, ch: Choice)
    requires EndOk(e) && !e.server && Authentic(e, p) && PhaseOf(e) == Step1 && p.msg.KexDhReply?
    ensures Scans(e, Receive(e, p, ch))
  {
    hide Receive, Scans, EndOk;
    if ch.verdict == Deny {
      EndDenies(e, p, ch);
    } else {
      EndTakesReply(e, p, ch);
    }
    SilentScans(e, Receive(e, p, ch));
  }

  lemma OrdinaryScans(e: End, p: Packet, ch: Choice)
    requires EndOk(e) && Authentic(e, p) && e.onPayload == Established && p.msg.Ordinary?
    ensures Scans(e, Receive(e, p, ch))
  {
    hide Receive, Scans, EndOk;
    EndTakesOrdinary(e, p, ch);
    SilentScans(e, Receive(e, p, ch));
  }

  /** At NEWKEYS the two ends are in the same exchange. */
  lemma SameHash(x: Sys)
    requires !x.c.server && x.s.server && EndOk(x.c) && EndOk(x.s) && Fits(x)
    requires PhaseOf(x.c) == Step2 && PhaseOf(x.s) == Step2
    ensures var k, hash := x.c.kex.value, ServerHash(x.s);
            && k.signature == Some(hash) && k.pub.Some? && k.peerPub.Some?
            && HashOf(x.c, k, k.peerPub.value, k.pub.value) == hash
  {
  }

  lemma ReceiveScansByClient(x: Sys, ch: Choice)
    requires Inv(x) && x.c.started && x.sc != []
    ensures Scans(x.c, Receive(x.c, x.sc[0], ch))
  {
    hide Receive, Scans, Fits, KeysAgree, StreamsAgree, EndOk, ServerHash, HashOf;
    HeadStamp(x);
    HeadToClient(x);
    var p := x.sc[0];
    match p.msg
    case Ordinary(_) => OrdinaryScans(x.c, p, ch);
    case KexInit(_) => ReceiveScansInit(x.c, p, ch);
    case KexDhReply(_, _) => ReplyScans(x.c, p, ch);
    case NewKeys =>
      SameHash(x);
      NewKeysScans(x.c, p, ch, ServerHash(x.s));
  }

  lemma AnswerScans(x: Sys, permitted: bool)
    requires Inv(x)
    ensures Scans(x.c, Answer(x.c, permitted))
  {
    if x.c.kex.Some? && x.c.kex.value.verifying && permitted {
      var hash := ServerHash(x.s);
      assert SameExchange(x.c, x.s);
      hide Answer, Fits, KeysAgree, StreamsAgree, ClientFinish, ReadyToFinish;
      EndAnswered(x.c, hash);
      if PhaseOf(x.c) == Step3 {
        FinishScans(x.c.(kex := Some(x.c.kex.value.(hostVerified := true, verifying := false))), hash);
      }
    }
  }

  lemma OutputScans(x: Sys, step: Step, client: bool)
    requires Inv(x) && Timely(x, step)
    ensures var e := if client then x.c else x.s;
            var e1 := if client then Next(x, step).c else Next(x, step).s;
            Scan(Inside(e), Output(x, step, client)) == Some(Inside(e1))
  {
    hide Receive, Answer, Fits, KeysAgree, StreamsAgree, Inside;
    assert !Over(x);
    match step
    case Begin(cl, cookie) => OutboundScans(if cl then x.c else x.s, [], cookie);
    case Submit(cl, payload) => OutboundScans(if cl then x.c else x.s, payload, 0);
    case AskRekey(cl, cookie) => OutboundScans(if cl then x.c else x.s, [], cookie);
    case ToServer(ch) => if x.cs != [] && x.s.started { ReceiveScansByServer(x, ch); }
    case ToClient(ch) => if x.sc != [] && x.c.started { ReceiveScansByClient(x, ch); }
    case HostAnswer(permitted) => AnswerScans(x, permitted);
  }

  lemma {:induction false} WrittenScans(x: Sys, steps: seq<Step>, client: bool)
    requires Good(x) && TimelyRun(x, steps)
    ensures var scan := Scan(Inside(if client then x.c else x.s), Written(x, steps, client));
            var y := Run(x, steps);
            scan.Some? && (!Over(y) ==> scan.value == Inside(if client then y.c else y.s))
    decreases |steps|
  {
    if steps != [] {
      var y := Next(x, steps[0]);
      StepGood(x, steps[0]);
      hide Next, Good, Inside, Timely;
      WrittenScans(y, steps[1..], client);
      if Inv(x) {
        OutputScans(x, steps[0], client);
        ScanAppend(Inside(if client then x.c else x.s), Output(x, steps[0], client),
                   Written(y, steps[1..], client));
      } else {
        OverWritesNothing(x, steps, client);
      }
    }
  }

  lemma {:induction false} OverWritesNothing(x: Sys, steps: seq<Step>, client: bool)
    requires Over(x)
    ensures Written(x, steps, client) == [] && Run(x, steps) == x
    decreases |steps|
  {
    if steps != [] {
      OverWritesNothing(x, steps[1..], client);
    }
  }

  /** Over any run, neither end writes an ordinary packet between its own KEXINIT and its own
      NEWKEYS, and its key exchange messages come in order. */
  lemma NothingOrdinaryInsideAnExchange(steps: seq<Step>, client: bool)
    requires InOrder(steps)
    ensures Scan(false, Written(Init(), steps, client)).Some?
  {
    InitGood();
    WrittenScans(Init(), steps, client);
  }

  lemma {:induction false} ScanLeaves(w: seq<Packet>)
    requires Scan(true, w) == Some(false)
    ensures exists p <- w :: p.msg == NewKeys
    decreases |w|
  {
    assert w[0] in w && forall p <- w[1..] :: p in w;
    if w[0].msg != NewKeys {
      ScanLeaves(w[1..]);
    }
  }

  /** Asking for new keys brings them: an end that asks outside of an exchange and is outside of one again
      later, without an error, has written the KEXINIT and after it NEWKEYS. */
  lemma RekeyBringsNewKeys(x: Sys, client: bool, cookie: nat, more: seq<Step>)
    requires Inv(x) && TimelyRun(x, [AskRekey(client, cookie)] + more)
    requires (if client then x.c else x.s).kexinit.None?
    requires var y := Run(x, [AskRekey(client, cookie)] + more);
             !Over(y) && (if client then y.c else y.s).kexinit.None?
    ensures var w := Written(x, [AskRekey(client, cookie)] + more, client);
            w != [] && w[0].msg == KexInit(cookie) && exists p <- w[1..] :: p.msg == NewKeys
  {
    var steps := [AskRekey(client, cookie)] + more;
    var e := if client then x.c else x.s;
    WrittenScans(x, steps, client);
    RekeyInits(e, cookie);
    NoFaults(x);
    assert steps[0] == AskRekey(client, cookie) && steps[1..] == more;
    var w := Written(x, steps, client);
    assert !Inside(e) && Scan(false, w) == Some(false);
    hide Fits, KeysAgree, StreamsAgree, EndOk, Rekey, Run, Next, Good;
    assert w == [Packet(5, KexInit(cookie), e.outKey, e.outSeqno)] + Written(Next(x, steps[0]), more, client);
    assert Scan(false, w) == Scan(true, w[1..]);
    ScanLeaves(w[1..]);
  }

  // ----- The condition is needed -----

  /** Before an end has read the peer's identification line, nothing has reached its peer. */
  lemma UnstartedPeer(x: Sys, client: bool)
    requires Inv(x) && (if client then !x.c.started else !x.s.started)
    ensures client ==> x.c == Fresh(false) && x.cs == []
    ensures client ==> x.s.onPayload == FirstKex && x.s.inKey == Clear && x.s.inSeqno == 0
    ensures !client ==> x.s == Fresh(true) && x.sc == []
    ensures !client ==> x.c.onPayload == FirstKex && x.c.inKey == Clear && x.c.inSeqno == 0
  {
    hide StreamsAgree;
    PeerPastFirst(x);
    if client {
      assert PhaseOf(x.c) == Idle;
      assert x.c.outKey == x.s.inKey;
      assert x.c.outSeqno == Wrap(x.s.inSeqno + |x.cs|);
    } else {
      assert PhaseOf(x.s) == Idle;
      assert x.s.outKey == x.c.inKey;
      assert x.s.outSeqno == Wrap(x.c.inSeqno + |x.sc|);
    }
  }

  function Deliver(client: bool, ch: Choice): Step {
    if client then ToServer(ch) else ToClient(ch)
  }

  /** A rekey asked for too early puts a second KEXINIT on the wire, and the peer gives up. */
  lemma PrematureRekeyIsFatal(x: Sys, client: bool, ch: Choice)
    requires Inv(x) && !Timely(x, AskRekey(client, ch.cookie))
    ensures var y1 := Next(x, AskRekey(client, ch.cookie));
            var y2 := Next(y1, Begin(client, ch.cookie));
            var y3 := Next(y2, Begin(!client, ch.cookie));
            var y4 := Next(y3, Deliver(client, ch));
            var y5 := Next(y4, Deliver(client, ch));
            (if client then y5.s else y5.c).fault == ExtraKexInit
  {
    UnstartedPeer(x, client);
    hide Fits, KeysAgree, StreamsAgree, Receive, EndOk, Start, Rekey;
    NoFaults(x);
    PeerBeginning(if client then x.s else x.c, ch.cookie);
    EarlyRekeyOutput(!client, ch.cookie);
    var y1 := Next(x, AskRekey(client, ch.cookie));
    var y2 := Next(y1, Begin(client, ch.cookie));
    var y3 := Next(y2, Begin(!client, ch.cookie));
    if client {
      assert y2.cs == ([] + Rekey(x.c, ch.cookie).1) + Start(y1.c, ch.cookie).1;
    } else {
      assert y2.sc == ([] + Rekey(x.s, ch.cookie).1) + Start(y1.s, ch.cookie).1;
    }
    hide Next, PeerBegins;
    SecondInitIsFatal(y3, client, ch);
  }

  /** An end in its first exchange, or about to begin it. */
  predicate PeerBegins(e: End, cookie: nat) {
    var e1 := Start(e, cookie).0;
    && e1.started && e1.fault == NoFault && e1.onPayload == FirstKex && e1.kex.None?
    && e1.kexinit.Some? && e1.inKey == Clear && e1.inSeqno == 0
  }

  lemma EarlyRekeyOutput(server: bool, cookie: nat)
    ensures var r1 := Rekey(Fresh(server), cookie);
            var r2 := Start(r1.0, cookie);
            && r1.0.fault == NoFault && r2.0.fault == NoFault
            && r1.1 == [Packet(5, KexInit(cookie), Clear, 0)]
            && r2.1 == [Packet(5, KexInit(cookie), Clear, 1)]
  {
  }

  lemma SecondInitIsFatal(x: Sys, client: bool, ch: Choice)
    requires var (e, w) := if client then (x.s, x.cs) else (x.c, x.sc);
             && x.c.fault == NoFault && x.s.fault == NoFault && e.started
             && e.onPayload == FirstKex && e.kexinit.Some? && e.kex.None?
             && |w| == 2 && Authentic(e, w[0]) && w[0].msg.KexInit? && w[1].msg.KexInit?
             && w[1] == w[0].(msg := w[1].msg, seqno := Wrap(w[0].seqno + 1))
    ensures var y := Next(Next(x, Deliver(client, ch)), Deliver(client, ch));
            (if client then y.s else y.c).fault == ExtraKexInit
  {
    hide Receive, Next;
    if client {
      DeliverToServer(x, ch);
      FirstThenExtra(x.s, x.cs[0], x.cs[1], ch);
      DeliverToServer(Next(x, ToServer(ch)), ch);
    } else {
      DeliverToClient(x, ch);
      FirstThenExtra(x.c, x.sc[0], x.sc[1], ch);
      DeliverToClient(Next(x, ToClient(ch)), ch);
    }
  }

  lemma FirstThenExtra(e: End, first: Packet, second: Packet, ch: Choice)
    requires e.onPayload == FirstKex && e.kexinit.Some? && e.kex.None? && e.fault == NoFault
    requires Authentic(e, first) && first.msg.KexInit? && second.msg.KexInit?
    requires second == first.(msg := second.msg, seqno := Wrap(first.seqno + 1))
    ensures var r := Receive(e, first, ch);
            && r.0.fault == NoFault && r.0.started == e.started
            && Receive(r.0, second, ch).0.fault == ExtraKexInit
  {
  }

  /** A message sent too early reaches a peer that expects a KEXINIT, and it gives up. */
  lemma PrematureSendIsFatal(x: Sys, client: bool, payload: Payload, ch: Choice)
    requires Inv(x) && !Timely(x, Submit(client, payload))
    ensures var y1 := Next(x, Submit(client, payload));
            var y2 := Next(y1, Begin(!client, ch.cookie));
            var y3 := Next(y2, Deliver(client, ch));
            (if client then y3.s else y3.c).fault == UnexpectedPacket
  {
    UnstartedPeer(x, client);
    hide Fits, KeysAgree, StreamsAgree, EndOk, Receive, Start, Send, PeerBegins;
    NoFaults(x);
    EarlySendOutput(!client, payload);
    if client {
      PeerBeginning(x.s, ch.cookie);
      BeginsFirst(Start(x.s, ch.cookie).0, Packet(5, Ordinary(payload), Clear, 0), ch);
      FirstSent(Send(x.c, payload).1);
      NothingSent(Send(x.c, payload).1);
    } else {
      PeerBeginning(x.c, ch.cookie);
      BeginsFirst(Start(x.c, ch.cookie).0, Packet(5, Ordinary(payload), Clear, 0), ch);
      FirstSent(Send(x.s, payload).1);
      NothingSent(Send(x.s, payload).1);
    }
  }

  lemma PeerBeginning(e: End, cookie: nat)
    requires EndOk(e) && e.onPayload == FirstKex && e.inSeqno == 0
    ensures PeerBegins(e, cookie)
  {
  }

  lemma EarlySendOutput(server: bool, payload: Payload)
    ensures var r := Send(Fresh(server), payload);
            r.0.fault == NoFault && r.1 == [Packet(5, Ordinary(payload), Clear, 0)]
  {
  }

  lemma BeginsFirst(e: End, p: Packet, ch: Choice)
    requires e.onPayload == FirstKex && e.inKey == Clear && e.inSeqno == 0
    requires p.at == 5 && p.msg.Ordinary? && p.key == Clear && p.seqno == 0
    ensures Receive(e, p, ch).0.fault == UnexpectedPacket
  {
  }
}
