/** Two ends joined by two FIFO byte streams: every interleaving of sends, rekeys, deliveries
    and host verifier answers, and the invariant that keeps them in step. */
module KexSafety {
  import opened Common
  import opened KexModel

  datatype Sys = Sys(c: End, s: End, cs: seq<Packet>, sc: seq<Packet>)

  datatype Step =
    | Begin(client: bool, cookie: nat)
    | Submit(client: bool, payload: Payload)
    | AskRekey(client: bool, cookie: nat)
    | ToServer(choice: Choice)
    | ToClient(choice: Choice)
    | HostAnswer(permitted: bool)

  function Init(): Sys {
    Sys(Fresh(false), Fresh(true), [], [])
  }

  predicate Over(x: Sys) {
    x.c.fault != NoFault || x.s.fault != NoFault
  }

  function ByClient(x: Sys, f: Effect): Sys {
    x.(c := f.0, cs := x.cs + f.1)
  }

  function ByServer(x: Sys, f: Effect): Sys {
    x.(s := f.0, sc := x.sc + f.1)
  }

  /** One step. A delivery needs a packet and a receiver that is past the identification line;
      nothing happens after a fatal error. */
  function Next(x: Sys, step: Step): Sys {
    if Over(x) then x
    else match step
      case Begin(client, cookie) =>
        if client then ByClient(x, Start(x.c, cookie)) else ByServer(x, Start(x.s, cookie))
      case Submit(client, payload) =>
        if client then ByClient(x, Send(x.c, payload)) else ByServer(x, Send(x.s, payload))
      case AskRekey(client, cookie) =>
        if client then ByClient(x, Rekey(x.c, cookie)) else ByServer(x, Rekey(x.s, cookie))
      case ToServer(choice) =>
        if x.cs == [] || !x.s.started then x
        else ByServer(x.(cs := x.cs[1..]), Receive(x.s, x.cs[0], choice))
      case ToClient(choice) =>
        if x.sc == [] || !x.c.started then x
        else ByClient(x.(sc := x.sc[1..]), Receive(x.c, x.sc[0], choice))
      case HostAnswer(permitted) => ByClient(x, Answer(x.c, permitted))
  }

  function Run(x: Sys, steps: seq<Step>): Sys
    decreases |steps|
  {
    if steps == [] then x else Run(Next(x, steps[0]), steps[1..])
  }

  /** The one thing asked of the application: no send and no rekey before the peer's
      identification line has been read. */
  predicate Timely(x: Sys, step: Step) {
    match step
    case Submit(client, _) => if client then x.c.started else x.s.started
    case AskRekey(client, _) => if client then x.c.started else x.s.started
    case _ => true
  }

  predicate TimelyRun(x: Sys, steps: seq<Step>)
    decreases |steps|
  {
    steps != [] ==> Timely(x, steps[0]) && TimelyRun(Next(x, steps[0]), steps[1..])
  }

  // ----- What is in flight -----

  function PayloadOf(p: Packet): seq<Payload> {
    if p.msg.Ordinary? then [p.msg.payload] else []
  }

  function Payloads(w: seq<Packet>): seq<Payload> {
    if w == [] then [] else PayloadOf(w[0]) + Payloads(w[1..])
  }

  function QueuePayloads(q: seq<Queued>): seq<Payload> {
    if q == [] then [] else [q[0].payload] + QueuePayloads(q[1..])
  }

  function Waiting(e: End): seq<Payload> {
    QueuePayloads(e.queue.GetOr([]))
  }

  /** Packets from..to of `w` carry `key`, sit behind the header, and are numbered from `seqno`. */
  predicate Stamped(w: seq<Packet>, key: Key, seqno: nat) {
    forall i {:trigger w[i]} | 0 <= i < |w| ::
      w[i].at == 5 && w[i].key == key && w[i].seqno == Wrap(seqno + i)
  }

  predicate AllOrdinary(w: seq<Packet>) {
    forall i | 0 <= i < |w| :: w[i].msg.Ordinary?
  }

  // ----- Where one end stands -----

  datatype Phase = Idle | Inited | Step1 | Step2 | Step3

  function PhaseOf(e: End): Phase {
    if e.kexinit.None? then Idle
    else if e.onPayload != DuringKex || e.kex.None? then Inited
    else if e.kex.value.step == 1 then Step1
    else if e.kex.value.step == 2 then Step2
    else Step3
  }

  function SessionOf(e: End): Option<Hash> {
    if e.kex.None? then None else e.kex.value.sessionId
  }

  predicate KexOk(e: End, k: Kex) {
    && !k.completed
    && e.kexinit == Some(k.localInit)
    && 1 <= k.step <= 3
    && (k.step < 3 ==> !k.receivedNewKeys)
    && if e.server then
         && k.step <= 2 && !k.verifying
         && (k.step == 1 ==> !k.finished && k.pub.None?)
         && (k.step == 2 ==> k.finished && k.pub.Some? && k.peerPub.Some?)
       else
         && !k.finished
         && k.pub.Some?
         && (k.step == 1 ==> !k.verifying && !k.hostVerified)
         && (k.step >= 2 ==> k.peerPub.Some? && k.signature.Some? && k.verifying == !k.hostVerified)
         && (k.step == 3 ==> k.receivedNewKeys && k.verifying)
  }

  predicate QueueOk(e: End) {
    e.queue.Some? ==> forall i | 0 <= i < |e.queue.value| :: e.queue.value[i].at == 0
  }

  predicate EndOk(e: End) {
    && e.fault == NoFault
    && e.allocStart == (if e.kexinit.None? then 5 else 0)
    && (e.kexinit.None? ==> e.queue.None?)
    && QueueOk(e)
    && (!e.started ==> e == Fresh(e.server))
    && (e.onPayload == FirstKex ==>
          e.kex.None? && e.inKey == Clear && e.outKey == Clear && (e.kexinit.None? ==> !e.started))
    && (e.onPayload == Established ==>
          && e.kex.Some? && e.kex.value.completed && !e.kex.value.verifying
          && e.kex.value.sessionId.Some?
          && e.inKey.Derived? && e.outKey.Derived?)
    && (e.onPayload == DuringKex ==> e.kexinit.Some? && e.kex.Some? && KexOk(e, e.kex.value))
  }

  // ----- How the two ends and the two streams fit together -----

  /** `n` ordinary packets from the front; none of them towards an end in its first exchange. */
  predicate OrdinaryFront(w: seq<Packet>, n: nat, receiver: End) {
    n <= |w| && AllOrdinary(w[..n]) && (receiver.onPayload == FirstKex ==> n == 0)
  }

  predicate EndsWithInit(w: seq<Packet>, sender: End, receiver: End) {
    && 1 <= |w|
    && OrdinaryFront(w, |w| - 1, receiver)
    && sender.kexinit.Some?
    && w[|w| - 1].msg == KexInit(sender.kexinit.value)
  }

  /** The server has sent NEWKEYS and the client has moved to the new keys. */
  predicate Switching(x: Sys) {
    PhaseOf(x.s) == Step2 && PhaseOf(x.c) in {Idle, Inited}
  }

  function ServerHash(s: End): Hash {
    if s.kex.Some? && s.kex.value.peerPub.Some? && s.kex.value.pub.Some? then
      HashOf(s, s.kex.value, s.kex.value.peerPub.value, s.kex.value.pub.value)
    else Hash(0, 0, 0, 0)
  }

  function NextSession(s: End): Hash {
    SessionOf(s).GetOr(ServerHash(s))
  }

  predicate IsDhInit(msg: Msg, pub: Option<nat>) {
    msg.KexDhInit? && Some(msg.pub) == pub
  }

  predicate Fits(x: Sys) {
    var c, s, cs, sc := x.c, x.s, x.cs, x.sc;
    match (PhaseOf(c), PhaseOf(s))
    case (Idle, Idle) => OrdinaryFront(cs, |cs|, s) && OrdinaryFront(sc, |sc|, c)
    case (Inited, Idle) => EndsWithInit(cs, c, s) && OrdinaryFront(sc, |sc|, c)
    case (Idle, Inited) => OrdinaryFront(cs, |cs|, s) && EndsWithInit(sc, s, c)
    case (Inited, Inited) => EndsWithInit(cs, c, s) && EndsWithInit(sc, s, c)
    case (Inited, Step1) =>
      && cs == []
      && EndsWithInit(sc, s, c)
      && s.kex.value.remoteInit == c.kexinit.value
    case (Step1, Inited) =>
      && 2 <= |cs|
      && EndsWithInit(cs[..|cs| - 1], c, s)
      && IsDhInit(cs[|cs| - 1].msg, c.kex.value.pub)
      && sc == []
      && c.kex.value.remoteInit == s.kexinit.value
    case (Step1, Step1) =>
      && |cs| == 1 && IsDhInit(cs[0].msg, c.kex.value.pub)
      && sc == []
      && c.kex.value.remoteInit == s.kexinit.value
      && s.kex.value.remoteInit == c.kexinit.value
    case (Step1, Step2) =>
      && cs == []
      && |sc| == 2
      && sc[0].msg.KexDhReply? && Some(sc[0].msg.pub) == s.kex.value.pub && sc[0].msg.signed == ServerHash(s)
      && sc[1].msg == NewKeys
      && c.kex.value.remoteInit == s.kexinit.value
      && s.kex.value.remoteInit == c.kexinit.value
      && s.kex.value.peerPub == c.kex.value.pub
    case (Step2, Step2) => SameExchange(c, s) && cs == [] && |sc| == 1 && sc[0].msg == NewKeys
    case (Step3, Step2) => SameExchange(c, s) && cs == [] && sc == []
    case (Idle, Step2) =>
      && 1 <= |cs| && cs[0].msg == NewKeys && AllOrdinary(cs[1..])
      && sc == []
    case (Inited, Step2) =>
      && 2 <= |cs| && cs[0].msg == NewKeys && EndsWithInit(cs[1..], c, c)
      && sc == []
    case _ => false
  }

  predicate SameExchange(c: End, s: End) {
    && c.kex.Some? && s.kex.Some?
    && c.kex.value.peerPub == s.kex.value.pub
    && s.kex.value.peerPub == c.kex.value.pub
    && c.kex.value.remoteInit == s.kex.value.localInit
    && s.kex.value.remoteInit == c.kex.value.localInit
    && c.kex.value.signature == Some(ServerHash(s))
  }

  /** Keys and sequence numbers: what each end will decrypt with is what the other encrypted
      with, packet by packet, across a change of keys in the middle of the stream. */
  predicate KeysAgree(x: Sys) {
    var c, s, cs, sc := x.c, x.s, x.cs, x.sc;
    && Stamped(sc, c.inKey, c.inSeqno)
    && s.outSeqno == Wrap(c.inSeqno + |sc|)
    && c.outSeqno == Wrap(s.inSeqno + |cs|)
    && if Switching(x) then
         && 1 <= |cs|
         && Stamped(cs[..1], s.inKey, s.inSeqno)
         && Stamped(cs[1..], c.outKey, s.inSeqno + 1)
         && SessionOf(c) == Some(NextSession(s))
         && c.outKey == Derived(ServerHash(s), NextSession(s), true)
         && c.inKey == Derived(ServerHash(s), NextSession(s), false)
         && c.onPayload == Established
       else
         && Stamped(cs, s.inKey, s.inSeqno)
         && c.outKey == s.inKey
         && s.outKey == c.inKey
         && SessionOf(c) == SessionOf(s)
  }

  /** Nothing lost, repeated or reordered between `Send` and the peer's handler. */
  predicate StreamsAgree(x: Sys) {
    && x.c.submitted == x.s.delivered + Payloads(x.cs) + Waiting(x.c)
    && x.s.submitted == x.c.delivered + Payloads(x.sc) + Waiting(x.s)
  }

  predicate Inv(x: Sys) {
    && !x.c.server && x.s.server
    && EndOk(x.c) && EndOk(x.s)
    && Fits(x)
    && KeysAgree(x)
    && StreamsAgree(x)
  }

  // ----- Lemmas on streams -----

  lemma {:induction false} PayloadsAppend(v: seq<Packet>, w: seq<Packet>)
    ensures Payloads(v + w) == Payloads(v) + Payloads(w)
  {
    if v == [] {
      assert v + w == w;
    } else {
      hide Payloads, PayloadOf;
      PayloadsAppend(v[1..], w);
      assert (v + w)[1..] == v[1..] + w;
      PayloadsFirst(v);
      PayloadsFirst(v + w);
      PayloadsAssoc(PayloadOf(v[0]), Payloads(v[1..]), Payloads(w));
    }
  }

  lemma PayloadsAssoc(a: seq<Payload>, b: seq<Payload>, c: seq<Payload>)
    ensures (a + b) + c == a + (b + c)
  {
  }

  lemma PayloadsFirst(w: seq<Packet>)
    requires w != []
    ensures Payloads(w) == PayloadOf(w[0]) + Payloads(w[1..])
    ensures !w[0].msg.Ordinary? ==> Payloads(w) == Payloads(w[1..])
  {
    assert [] + Payloads(w[1..]) == Payloads(w[1..]);
  }

  lemma {:induction false} QueuePayloadsAppend(v: seq<Queued>, w: seq<Queued>)
    ensures QueuePayloads(v + w) == QueuePayloads(v) + QueuePayloads(w)
  {
    if v == [] {
      assert v + w == w;
    } else {
      QueuePayloadsAppend(v[1..], w);
      assert (v + w)[1..] == v[1..] + w;
    }
  }

  /** Draining a queue changes nothing but the sequence number. */
  lemma {:induction false} DrainEnd(e: End, q: seq<Queued>)
    ensures Drain(e, q).0 == e.(outSeqno := Wrap(e.outSeqno + |q|))
    ensures |Drain(e, q).1| == |q|
    decreases |q|
  {
    if q != [] {
      DrainEnd(Encrypt(e, 5 + q[0].at, Ordinary(q[0].payload)).0, q[1..]);
      WrapAdd(e.outSeqno + 1, |q| - 1);
    }
  }

  /** Draining puts exactly the queued payloads on the wire, in order. */
  lemma {:induction false} DrainPayloads(e: End, q: seq<Queued>)
    ensures Payloads(Drain(e, q).1) == QueuePayloads(q)
    ensures AllOrdinary(Drain(e, q).1)
    decreases |q|
  {
    if q != [] {
      var first := Encrypt(e, 5 + q[0].at, Ordinary(q[0].payload));
      DrainPayloads(first.0, q[1..]);
      var rest := Drain(first.0, q[1..]).1;
      assert (first.1 + rest)[1..] == rest;
    }
  }

  lemma {:induction false} DrainStamped(e: End, q: seq<Queued>)
    requires forall i | 0 <= i < |q| :: q[i].at == 0
    ensures Stamped(Drain(e, q).1, e.outKey, e.outSeqno)
    decreases |q|
  {
    if q != [] {
      var first := Encrypt(e, 5 + q[0].at, Ordinary(q[0].payload));
      DrainStamped(first.0, q[1..]);
      var rest := Drain(first.0, q[1..]).1;
      StampedShift(rest, e.outKey, first.0.outSeqno, e.outSeqno + 1);
      StampedAppend(first.1, rest, e.outKey, e.outSeqno);
    }
  }

  lemma StampedAppend(v: seq<Packet>, w: seq<Packet>, key: Key, seqno: nat)
    requires Stamped(v, key, seqno)
    requires Stamped(w, key, seqno + |v|)
    ensures Stamped(v + w, key, seqno)
  {
    forall i | 0 <= i < |v + w|
      ensures (v + w)[i].at == 5 && (v + w)[i].key == key && (v + w)[i].seqno == Wrap(seqno + i)
    {
      if i >= |v| {
        assert (v + w)[i] == w[i - |v|];
      }
    }
  }

  lemma StampedTail(w: seq<Packet>, key: Key, seqno: nat)
    requires Stamped(w, key, seqno)
    requires w != []
    ensures Stamped(w[1..], key, Wrap(seqno + 1))
  {
    forall i | 0 <= i < |w| - 1
      ensures w[1..][i].at == 5 && w[1..][i].key == key
              && w[1..][i].seqno == Wrap(Wrap(seqno + 1) + i)
    {
      assert w[1..][i] == w[i + 1];
    }
  }

  lemma StampedShift(w: seq<Packet>, key: Key, a: nat, b: nat)
    requires Wrap(a) == Wrap(b)
    requires Stamped(w, key, a)
    ensures Stamped(w, key, b)
  {
    forall i | 0 <= i < |w| ensures w[i].at == 5 && w[i].key == key && w[i].seqno == Wrap(b + i) {
      WrapAdd(a, i);
      WrapAdd(b, i);
    }
  }
}
