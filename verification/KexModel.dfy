/** Key re-exchange as one end of a connection performs it: every function below is what one
    call of `Protocol` or `KeyExchange` does to that end, with the packets it writes.
    A key is represented by what it is derived from, so two keys are equal exactly when both
    ends fed the same values into the derivation. */
module KexModel {
  import opened Common

  type Payload = Bytes

  /** The inputs of the exchange hash: both KEXINIT payloads and both public keys. */
  datatype Hash = Hash(clientInit: nat, serverInit: nat, clientPub: nat, serverPub: nat)

  /** A cipher key: none before the first exchange, afterwards derived from the exchange hash,
      the session id and the direction. */
  datatype Key = Clear | Derived(hash: Hash, sessionId: Hash, toServer: bool)

  datatype Msg =
    | KexInit(cookie: nat)
    | KexDhInit(pub: nat)
    | KexDhReply(pub: nat, signed: Hash)
    | NewKeys
    | Ordinary(payload: Payload)

  /** A packet as encrypted: where in the buffer the payload was put, the payload, and the key
      and sequence number in force. */
  datatype Packet = Packet(at: nat, msg: Msg, key: Key, seqno: uint32)

  /** Which payload handler the current decipher calls. */
  datatype OnPayload = FirstKex | DuringKex | Established

  datatype Kex = Kex(
    step: nat,
    sessionId: Option<Hash>,
    localInit: nat,
    remoteInit: nat,
    pub: Option<nat>,
    peerPub: Option<nat>,
    signature: Option<Hash>,
    hostVerified: bool,
    verifying: bool,
    sentNewKeys: bool,
    receivedNewKeys: bool,
    finished: bool,
    completed: bool)

  datatype Fault =
    | NoFault
    | HostDenied
    | ExtraKexInit
    | UnexpectedPacket
    | InvalidMac
    | BadSignature
    | Malformed
    | Undefined

  /** A payload waiting in `_queue`, with its offset inside the queued buffer. */
  datatype Queued = Queued(at: nat, payload: Payload)

  datatype End = End(
    server: bool,
    started: bool,
    kexinit: Option<nat>,
    queue: Option<seq<Queued>>,
    allocStart: nat,
    outKey: Key,
    outSeqno: uint32,
    inKey: Key,
    inSeqno: uint32,
    onPayload: OnPayload,
    kex: Option<Kex>,
    delivered: seq<Payload>,
    submitted: seq<Payload>,
    fault: Fault)

  type Effect = (End, seq<Packet>)

  function Fresh(server: bool): End {
    End(server, false, None, None, 5, Clear, 0, Clear, 0, FirstKex, None, [], [], NoFault)
  }

  function Fail(e: End, f: Fault): Effect {
    (e.(fault := f), [])
  }

  // ----- Outbound -----

  function Encrypt(e: End, at: nat, msg: Msg): Effect {
    (e.(outSeqno := Wrap(e.outSeqno + 1)), [Packet(at, msg, e.outKey, e.outSeqno)])
  }

  /** Key exchange packets bypass the queue and are always allocated with a header. */
  function EncryptKex(e: End, msg: Msg): Effect {
    Encrypt(e, 5, msg)
  }

  function SendKexInit(e: End, cookie: nat): Effect {
    EncryptKex(e.(kexinit := Some(cookie), allocStart := 0), KexInit(cookie))
  }

  /** Any ordinary message method: fill at `allocStart`, then `sendPacket`. */
  function Send(e: End, payload: Payload): Effect {
    var e := e.(submitted := e.submitted + [payload]);
    if e.kexinit.Some? then
      (e.(queue := Some(e.queue.GetOr([]) + [Queued(e.allocStart, payload)])), [])
    else
      Encrypt(e, e.allocStart, Ordinary(payload))
  }

  function Rekey(e: End, cookie: nat): Effect {
    if e.kexinit.None? then SendKexInit(e.(queue := Some([])), cookie) else (e, [])
  }

  /** `_onHandshakeComplete`: a queued buffer is copied behind the header of a new packet. */
  function Drain(e: End, queue: seq<Queued>): Effect
    decreases |queue|
  {
    if queue == [] then (e, [])
    else
      var first := Encrypt(e, 5 + queue[0].at, Ordinary(queue[0].payload));
      var rest := Drain(first.0, queue[1..]);
      (rest.0, first.1 + rest.1)
  }

  // ----- Key exchange -----

  function HashOf(e: End, k: Kex, peerPub: nat, pub: nat): Hash {
    if e.server then Hash(k.remoteInit, k.localInit, peerPub, pub)
    else Hash(k.localInit, k.remoteInit, pub, peerPub)
  }

  /** `completeHandshake`: new keys for both directions, sequence numbers carried over, the
      allocation offset back at 5, then the queue. */
  function Complete(e: End, k: Kex, hash: Hash): Effect {
    var sid := k.sessionId.GetOr(hash);
    var e1 := e.(
      kex := Some(k.(sessionId := Some(sid), completed := true)),
      outKey := Derived(hash, sid, !e.server),
      inKey := Derived(hash, sid, e.server),
      onPayload := Established,
      kexinit := None,
      allocStart := 5,
      queue := None);
    Drain(e1, e.queue.GetOr([]))
  }

  /** The first call of `finish` on a server: reply, NEWKEYS, and wait. */
  function ServerFinish(e: End, k: Kex, pub: nat): Effect {
    if k.peerPub.None? then Fail(e, Undefined)
    else
      var k1 := k.(finished := true, pub := Some(pub), sentNewKeys := true);
      var reply := EncryptKex(e.(kex := Some(k1)),
                              KexDhReply(pub, HashOf(e, k, k.peerPub.value, pub)));
      var keys := EncryptKex(reply.0, NewKeys);
      (keys.0, reply.1 + keys.1)
  }

  /** `finish` on a client: check the signature, send NEWKEYS, complete. */
  function ClientFinish(e: End, k: Kex): Effect {
    if k.finished then (e, [])
    else if k.peerPub.None? || k.pub.None? || k.signature.None? then Fail(e, Undefined)
    else
      var hash := HashOf(e, k, k.peerPub.value, k.pub.value);
      if k.signature.value != hash then Fail(e, BadSignature)
      else
        var k1 := k.(finished := true, sentNewKeys := true);
        var keys := EncryptKex(e.(kex := Some(k1)), NewKeys);
        var done := Complete(keys.0, k1, hash);
        (done.0, keys.1 + done.1)
  }

  /** The second `finish` of a server, which by then is `completeHandshake`. */
  function ServerComplete(e: End, k: Kex): Effect {
    if !k.finished || k.peerPub.None? || k.pub.None? then Fail(e, Undefined)
    else Complete(e, k, HashOf(e, k, k.peerPub.value, k.pub.value))
  }

  /** The host verifier: accept, deny, or answer later. */
  datatype Verdict = Accept | Deny | Later

  /** Values an end picks at random or asks its application for while handling one packet. */
  datatype Choice = Choice(cookie: nat, pub: nat, verdict: Verdict)

  function NewKex(e: End, remote: nat): Kex {
    Kex(1, if e.kex.Some? then e.kex.value.sessionId else None, e.kexinit.GetOr(0), remote,
        None, None, None, false, false, false, false, false, false)
  }

  function HandleKexInit(e: End, remote: nat, ch: Choice): Effect {
    var pre: Effect :=
      if e.kex.Some? then
        var r := if e.kexinit.None? then SendKexInit(e, ch.cookie) else (e, []);
        (r.0.(onPayload := DuringKex), r.1)
      else (e, []);
    if pre.0.kexinit.None? then Fail(pre.0, Undefined)
    else
      var k := NewKex(pre.0, remote);
      if e.server then (pre.0.(kex := Some(k)), pre.1)
      else
        var r := EncryptKex(pre.0.(kex := Some(k.(pub := Some(ch.pub)))), KexDhInit(ch.pub));
        (r.0, pre.1 + r.1)
  }

  function Parse(e: End, k: Kex, msg: Msg, ch: Choice): Effect {
    if k.step == 1 then
      if e.server then
        if !msg.KexDhInit? then Fail(e, UnexpectedPacket)
        else
          ServerFinish(e, k.(peerPub := Some(msg.pub), step := 2), ch.pub)
      else if !msg.KexDhReply? then Fail(e, UnexpectedPacket)
      else
        var k1 := k.(peerPub := Some(msg.pub), signature := Some(msg.signed));
        match ch.verdict
        case Later => (e.(kex := Some(k1.(step := 2, verifying := true))), [])
        case Deny => Fail(e, HostDenied)
        case Accept => (e.(kex := Some(k1.(step := 2, hostVerified := true))), [])
    else if k.step == 2 then
      if !msg.NewKeys? then Fail(e, UnexpectedPacket)
      else
        var k1 := k.(receivedNewKeys := true, step := 3);
        var e1 := e.(kex := Some(k1));
        if e.server then ServerComplete(e1, k1)
        else if k.hostVerified then ClientFinish(e1, k1)
        else (e1, [])
    else
      Fail(e, UnexpectedPacket)
  }

  // ----- Inbound -----

  function OnKexPayload(e: End, msg: Msg, ch: Choice): Effect {
    match msg
    case KexInit(cookie) =>
      if e.onPayload != FirstKex then Fail(e, ExtraKexInit)
      else HandleKexInit(e.(onPayload := DuringKex), cookie, ch)
    case Ordinary(_) => Fail(e, UnexpectedPacket)
    case _ => if e.kex.None? then Fail(e, Undefined) else Parse(e, e.kex.value, msg, ch)
  }

  function OnEstablishedPayload(e: End, msg: Msg, ch: Choice): Effect {
    match msg
    case KexInit(cookie) => HandleKexInit(e, cookie, ch)
    case Ordinary(payload) => (e.(delivered := e.delivered + [payload]), [])
    case _ => (e, [])
  }

  /** One inbound packet: decrypt under the current key and sequence number, then dispatch. */
  function Receive(e: End, p: Packet, ch: Choice): Effect {
    if p.key != e.inKey || p.seqno != e.inSeqno then Fail(e, InvalidMac)
    else
      var e1 := e.(inSeqno := Wrap(e.inSeqno + 1));
      if p.at != 5 then Fail(e1, Malformed)
      else if e1.onPayload == Established then OnEstablishedPayload(e1, p.msg, ch)
      else OnKexPayload(e1, p.msg, ch)
  }

  /** The remote identification line has been read: the first KEXINIT goes out. */
  function Start(e: End, cookie: nat): Effect {
    if e.started then (e, []) else SendKexInit(e.(started := true), cookie)
  }

  /** The late answer of an asynchronous host verifier. */
  function Answer(e: End, permitted: bool): Effect {
    if e.kex.None? || !e.kex.value.verifying then (e, [])
    else if !permitted then Fail(e, HostDenied)
    else
      var k := e.kex.value.(hostVerified := true, verifying := false);
      var e1 := e.(kex := Some(k));
      if k.receivedNewKeys then ClientFinish(e1, k) else (e1, [])
  }
}
