/** `Protocol` and `KeyExchange` as the objects they are: fields updated in place, packets
    handed to `onWrite`. Each method is proved to do to the object what the function of the
    same purpose in `KexModel` does to its view. */
module KexEndpoint {
  import opened Common
  import M = KexModel

  /** `out` has been written out of `whole`, the rest is what draining `left` from `e` gives. */
  ghost predicate Drained(whole: M.Effect, out: seq<M.Packet>, e: M.End, left: seq<M.Queued>) {
    var rest := M.Drain(e, left);
    whole == (rest.0, out + rest.1)
  }

  lemma DrainedNothing(e: M.End, queue: seq<M.Queued>)
    ensures Drained(M.Drain(e, queue), [], e, queue[0..])
  {
    assert queue[0..] == queue;
    assert [] + M.Drain(e, queue).1 == M.Drain(e, queue).1;
  }

  lemma DrainedOne(whole: M.Effect, out: seq<M.Packet>, e: M.End, left: seq<M.Queued>)
    requires left != [] && Drained(whole, out, e, left)
    ensures var first := M.Encrypt(e, 5 + left[0].at, M.Ordinary(left[0].payload));
            Drained(whole, out + first.1, first.0, left[1..])
  {
    var first := M.Encrypt(e, 5 + left[0].at, M.Ordinary(left[0].payload));
    var rest := M.Drain(first.0, left[1..]);
    assert out + (first.1 + rest.1) == (out + first.1) + rest.1;
  }

  /** The two halves of `handleKexInit`: its own KEXINIT if that has not been sent yet, and a new
      exchange. */
  function Answering(e: M.End, cookie: nat): M.Effect {
    if e.kex.None? then (e, [])
    else
      var r := if e.kexinit.None? then M.SendKexInit(e, cookie) else (e, []);
      (r.0.(onPayload := M.DuringKex), r.1)
  }

  function Beginning(e: M.End, remote: nat, pub: nat): M.Effect {
    var k := M.NewKex(e, remote);
    if e.server then (e.(kex := Some(k)), [])
    else M.Encrypt(e.(kex := Some(k.(pub := Some(pub)))), 5, M.KexDhInit(pub))
  }

  lemma AnsweringAndBeginning(e: M.End, remote: nat, ch: M.Choice)
    ensures var pre := Answering(e, ch.cookie);
            M.HandleKexInit(e, remote, ch) ==
            if pre.0.kexinit.None? then M.Fail(pre.0, M.Undefined)
            else
              var r := Beginning(pre.0, remote, ch.pub);
              (r.0, pre.1 + r.1)
    ensures Answering(e, ch.cookie).0.kexinit.None? ==> Answering(e, ch.cookie).1 == []
  {
    hide M.NewKex;
    var pre := Answering(e, ch.cookie);
    assert pre.1 + [] == pre.1;
  }

  lemma DrainedAll(whole: M.Effect, out: seq<M.Packet>, e: M.End)
    requires Drained(whole, out, e, [])
    ensures whole == (e, out)
  {
    assert M.Drain(e, []) == (e, []);
    assert out + [] == out;
  }

  class KeyExchange {
    var step: nat
    var sessionId: Option<M.Hash>
    const localInit: nat
    const remoteInit: nat
    var pub: Option<nat>
    var peerPub: Option<nat>
    var signature: Option<M.Hash>
    var hostVerified: bool
    var verifying: bool
    var sentNewKeys: bool
    var receivedNewKeys: bool
    var finished: bool
    var completed: bool

    constructor (sessionId: Option<M.Hash>, localInit: nat, remoteInit: nat)
      ensures View() == M.Kex(1, sessionId, localInit, remoteInit, None, None, None,
                              false, false, false, false, false, false)
    {
      step := 1;
      this.sessionId := sessionId;
      this.localInit := localInit;
      this.remoteInit := remoteInit;
      pub, peerPub, signature := None, None, None;
      hostVerified, verifying := false, false;
      sentNewKeys, receivedNewKeys, finished, completed := false, false, false, false;
    }

    /** On a server: the client's public key. */
    method TakeInit(peerPub: nat)
      modifies this`peerPub, this`step
      ensures View() == old(View()).(peerPub := Some(peerPub), step := 2)
    {
      this.peerPub := Some(peerPub);
      step := 2;
    }

    /** On a client: the server's public key and signature, and whether the host key has been
        accepted already. */
    method TakeReply(peerPub: nat, signature: M.Hash, accepted: bool)
      modifies this`peerPub, this`signature, this`step, this`verifying, this`hostVerified
      ensures View() == old(View()).(peerPub := Some(peerPub), signature := Some(signature), step := 2,
                                     verifying := !accepted || old(verifying),
                                     hostVerified := accepted || old(hostVerified))
    {
      this.peerPub := Some(peerPub);
      this.signature := Some(signature);
      step := 2;
      if accepted {
        hostVerified := true;
      } else {
        verifying := true;
      }
    }

    method FinishServer(newPub: nat)
      modifies this`finished, this`pub, this`sentNewKeys
      ensures View() == old(View()).(finished := true, pub := Some(newPub), sentNewKeys := true)
    {
      finished := true;
      pub := Some(newPub);
      sentNewKeys := true;
    }

    function View(): M.Kex
      reads this
    {
      M.Kex(step, sessionId, localInit, remoteInit, pub, peerPub, signature,
            hostVerified, verifying, sentNewKeys, receivedNewKeys, finished, completed)
    }
  }

  class Protocol {
    const server: bool
    var started: bool
    var kexinit: Option<nat>
    var queue: Option<seq<M.Queued>>
    var allocStart: nat
    var outKey: M.Key
    var outSeqno: uint32
    var inKey: M.Key
    var inSeqno: uint32
    var onPayload: M.OnPayload
    var kex: KeyExchange?
    var delivered: seq<M.Payload>
    var fault: M.Fault
    /** Everything handed to `onWrite`. */
    var wire: seq<M.Packet>
    /** Everything the application has asked to be sent. */
    var submitted: seq<M.Payload>

    constructor (server: bool)
      ensures View() == M.Fresh(server) && wire == []
    {
      this.server := server;
      started, kexinit, queue, allocStart := false, None, None, 5;
      outKey, outSeqno, inKey, inSeqno := M.Clear, 0, M.Clear, 0;
      onPayload, kex, delivered, fault := M.FirstKex, null, [], M.NoFault;
      wire, submitted := [], [];
    }

    function View(): M.End
      reads this, kex
    {
      M.End(server, started, kexinit, queue, allocStart, outKey, outSeqno, inKey, inSeqno,
            onPayload, if kex == null then None else Some(kex.View()), delivered, submitted, fault)
    }

    /** From `before`, with `written` already on the wire, to the outcome of `f`. */
    ghost predicate Did(written: seq<M.Packet>, f: M.Effect)
      reads this, kex
    {
      View() == f.0 && wire == written + f.1
    }

    method Fail(f: M.Fault)
      modifies this`fault
      ensures Did(old(wire), M.Fail(old(View()), f))
    {
      fault := f;
    }

    method Encrypt(at: nat, msg: M.Msg)
      modifies this`wire, this`outSeqno
      ensures Did(old(wire), M.Encrypt(old(View()), at, msg))
    {
      wire := wire + [M.Packet(at, msg, outKey, outSeqno)];
      outSeqno := Wrap(outSeqno + 1);
    }

    method SendKexInit(cookie: nat)
      modifies this`wire, this`outSeqno, this`kexinit, this`allocStart
      ensures Did(old(wire), M.SendKexInit(old(View()), cookie))
    {
      kexinit := Some(cookie);
      allocStart := 0;
      Encrypt(5, M.KexInit(cookie));
    }

    /** Any message method: fill a buffer at `allocStart`, then `sendPacket`. */
    method Send(payload: M.Payload)
      modifies this
      ensures Did(old(wire), M.Send(old(View()), payload)) && kex == old(kex)
    {
      submitted := submitted + [payload];
      var p := allocStart;
      if kexinit.Some? {
        if queue.None? {
          queue := Some([]);
        }
        queue := Some(queue.value + [M.Queued(p, payload)]);
      } else {
        Encrypt(p, M.Ordinary(payload));
      }
    }

    method Rekey(cookie: nat)
      modifies this
      ensures Did(old(wire), M.Rekey(old(View()), cookie)) && kex == old(kex)
    {
      if kexinit.None? {
        queue := Some([]);
        SendKexInit(cookie);
      }
    }

    /** `_onHandshakeComplete`: the queued payloads go out as packets. */
    method DrainQueue()
      modifies this`queue, this`wire, this`outSeqno
      ensures Did(old(wire), M.Drain(old(View()).(queue := None), old(queue).GetOr([])))
    {
      if queue.Some? {
        var oldQueue := queue.value;
        queue := None;
        assert View() == old(View()).(queue := None);
        ghost var whole, written, out := M.Drain(View(), oldQueue), wire, [];
        hide Drained, M.Drain;
        var i := 0;
        DrainedNothing(View(), oldQueue);
        while i < |oldQueue|
          invariant 0 <= i <= |oldQueue|
          invariant wire == written + out
          invariant Drained(whole, out, View(), oldQueue[i..])
        {
          DrainedOne(whole, out, View(), oldQueue[i..]);
          ghost var first := M.Encrypt(View(), 5 + oldQueue[i].at, M.Ordinary(oldQueue[i].payload));
          Encrypt(5 + oldQueue[i].at, M.Ordinary(oldQueue[i].payload));
          assert oldQueue[i..][1..] == oldQueue[i + 1..];
          out := out + first.1;
          i := i + 1;
        }
        assert oldQueue[i..] == [];
        DrainedAll(whole, out, View());
      }
    }

    /** New ciphers and a new packet writer; nothing is written. */
    method SwitchKeys(hash: M.Hash, sid: M.Hash)
      modifies this`outKey, this`inKey, this`onPayload, this`allocStart, this`kexinit
      ensures View() == old(View()).(
                outKey := M.Derived(hash, sid, !server),
                inKey := M.Derived(hash, sid, server),
                onPayload := M.Established,
                kexinit := None,
                allocStart := 5)
    {
      outKey := M.Derived(hash, sid, !server);
      inKey := M.Derived(hash, sid, server);
      onPayload := M.Established;
      allocStart := 5;
      kexinit := None;
    }

    /** `completeHandshake`. */
    method CompleteHandshake(hash: M.Hash)
      requires kex != null
      modifies this, kex
      ensures Did(old(wire), M.Complete(old(View()), old(kex.View()), hash)) && kex == old(kex)
    {
      if kex.sessionId.None? {
        kex.sessionId := Some(hash);
      }
      kex.completed := true;
      assert View() == old(View()).(kex := Some(kex.View()));
      SwitchKeys(hash, kex.sessionId.value);
      DrainQueue();
    }

    /** First `finish` on a server: KEXDH_REPLY and NEWKEYS under the old key. */
    method ServerFinish(newPub: nat)
      requires kex != null && server
      modifies this, kex
      ensures Did(old(wire), M.ServerFinish(old(View()), old(kex.View()), newPub)) && kex == old(kex)
    {
      if kex.peerPub.None? {
        Fail(M.Undefined);
        return;
      }
      ghost var before := View();
      var hash := M.HashOf(View(), kex.View(), kex.peerPub.value, newPub);
      hide M.HashOf;
      kex.FinishServer(newPub);
      assert View() == before.(kex := Some(kex.View()));
      Encrypt(5, M.KexDhReply(newPub, hash));
      Encrypt(5, M.NewKeys);
    }

    /** `finish` on a client. */
    method ClientFinish()
      requires kex != null
      modifies this, kex
      ensures Did(old(wire), M.ClientFinish(old(View()), old(kex.View()))) && kex == old(kex)
    {
      hide M.Complete;
      if kex.finished {
        assert wire == wire + [];
        return;
      }
      if kex.peerPub.None? || kex.pub.None? || kex.signature.None? {
        Fail(M.Undefined);
        return;
      }
      var hash := M.HashOf(View(), kex.View(), kex.peerPub.value, kex.pub.value);
      if kex.signature.value != hash {
        Fail(M.BadSignature);
        return;
      }
      SendNewKeys();
      hide M.HashOf;
      CompleteHandshake(hash);
    }

    /** A client's NEWKEYS, still under the old key. */
    method SendNewKeys()
      requires kex != null
      modifies this, kex
      ensures var k := old(kex.View()).(finished := true, sentNewKeys := true);
              && kex == old(kex) && kex.View() == k
              && Did(old(wire), M.Encrypt(old(View()).(kex := Some(k)), 5, M.NewKeys))
    {
      ghost var before := View();
      kex.finished := true;
      kex.sentNewKeys := true;
      assert View() == before.(kex := Some(kex.View()));
      Encrypt(5, M.NewKeys);
    }

    /** Second `finish` on a server, by then `completeHandshake`. */
    method ServerComplete()
      requires kex != null && server
      modifies this, kex
      ensures Did(old(wire), M.ServerComplete(old(View()), old(kex.View()))) && kex == old(kex)
    {
      hide M.Complete;
      if !kex.finished || kex.peerPub.None? || kex.pub.None? {
        Fail(M.Undefined);
        return;
      }
      CompleteHandshake(M.HashOf(View(), kex.View(), kex.peerPub.value, kex.pub.value));
    }

    /** `handleKexInit` once the algorithms are agreed. */
    method HandleKexInit(remote: nat, ch: M.Choice)
      modifies this
      ensures Did(old(wire), M.HandleKexInit(old(View()), remote, ch))
      ensures kex != old(kex) ==> fresh(kex)
    {
      AnsweringAndBeginning(View(), remote, ch);
      hide M.HandleKexInit, Answering, Beginning;
      AnswerInit(ch.cookie);
      if kexinit.None? {
        Fail(M.Undefined);
        return;
      }
      Begin(remote, ch.pub);
    }

    method AnswerInit(cookie: nat)
      modifies this`wire, this`outSeqno, this`kexinit, this`allocStart, this`onPayload
      ensures Did(old(wire), Answering(old(View()), cookie))
    {
      if kex != null {
        if kexinit.None? {
          SendKexInit(cookie);
        }
        onPayload := M.DuringKex;
      }
    }

    method Begin(remote: nat, pub: nat)
      requires kexinit.Some?
      modifies this`kex, this`wire, this`outSeqno
      ensures Did(old(wire), Beginning(old(View()), remote, pub)) && fresh(kex)
    {
      kex := new KeyExchange(if kex != null then kex.sessionId else None, kexinit.value, remote);
      if !server {
        kex.pub := Some(pub);
        Encrypt(5, M.KexDhInit(pub));
      }
    }

    /** `KeyExchange.parse`. */
    method Parse(msg: M.Msg, ch: M.Choice)
      requires kex != null
      modifies this, kex
      ensures Did(old(wire), M.Parse(old(View()), old(kex.View()), msg, ch)) && kex == old(kex)
    {
      hide M.ServerFinish, M.ClientFinish, M.ServerComplete;
      if kex.step == 1 {
        ParseFirst(msg, ch);
      } else if kex.step == 2 {
        if !msg.NewKeys? {
          Fail(M.UnexpectedPacket);
          return;
        }
        kex.receivedNewKeys := true;
        kex.step := 3;
        if server {
          ServerComplete();
        } else if kex.hostVerified {
          ClientFinish();
        } else {
          assert wire == wire + [];
        }
      } else {
        Fail(M.UnexpectedPacket);
      }
    }

    method ParseFirst(msg: M.Msg, ch: M.Choice)
      requires kex != null && kex.step == 1
      modifies this, kex
      ensures Did(old(wire), M.Parse(old(View()), old(kex.View()), msg, ch)) && kex == old(kex)
    {
      hide M.ServerFinish, M.ClientFinish, M.ServerComplete;
      if server {
        if !msg.KexDhInit? {
          Fail(M.UnexpectedPacket);
          return;
        }
        kex.TakeInit(msg.pub);
        FinishAfterInit(ch.pub, old(View()));
      } else {
        if !msg.KexDhReply? {
          Fail(M.UnexpectedPacket);
          return;
        }
        if ch.verdict == M.Deny {
          Fail(M.HostDenied);
          return;
        }
        kex.TakeReply(msg.pub, msg.signed, ch.verdict == M.Accept);
        assert wire == wire + [];
      }
    }

    /** `ServerFinish` replaces `_kex` in the view, so what the view held there is immaterial. */
    method FinishAfterInit(newPub: nat, ghost before: M.End)
      requires kex != null && server && kex.peerPub.Some?
      requires View() == before.(kex := Some(kex.View()))
      modifies this, kex
      ensures Did(old(wire), M.ServerFinish(before, old(kex.View()), newPub)) && kex == old(kex)
    {
      ServerFinish(newPub);
    }

    /** The payload handler while keys are being exchanged. */
    method OnKexPayload(msg: M.Msg, ch: M.Choice)
      modifies this, if kex == null then {} else {kex}
      ensures Did(old(wire), M.OnKexPayload(old(View()), msg, ch))
      ensures kex != old(kex) ==> fresh(kex)
    {
      hide M.Parse, M.HandleKexInit;
      match msg
      case KexInit(cookie) =>
        if onPayload != M.FirstKex {
          Fail(M.ExtraKexInit);
        } else {
          onPayload := M.DuringKex;
          HandleKexInit(cookie, ch);
        }
      case Ordinary(_) =>
        Fail(M.UnexpectedPacket);
      case _ =>
        if kex == null {
          Fail(M.Undefined);
        } else {
          Parse(msg, ch);
        }
    }

    /** One inbound packet, from the decipher to the payload handler. */
    method Receive(p: M.Packet, ch: M.Choice)
      modifies this, if kex == null then {} else {kex}
      ensures Did(old(wire), M.Receive(old(View()), p, ch))
      ensures kex != old(kex) ==> fresh(kex)
    {
      hide M.OnKexPayload, M.OnEstablishedPayload;
      if p.key != inKey || p.seqno != inSeqno {
        Fail(M.InvalidMac);
        return;
      }
      inSeqno := Wrap(inSeqno + 1);
      if p.at != 5 {
        Fail(M.Malformed);
      } else if onPayload == M.Established {
        OnEstablishedPayload(p.msg, ch);
      } else {
        OnKexPayload(p.msg, ch);
      }
    }

    /** The payload handler between exchanges. */
    method OnEstablishedPayload(msg: M.Msg, ch: M.Choice)
      modifies this
      ensures Did(old(wire), M.OnEstablishedPayload(old(View()), msg, ch))
      ensures kex != old(kex) ==> fresh(kex)
    {
      hide M.HandleKexInit;
      match msg
      case KexInit(cookie) => HandleKexInit(cookie, ch);
      case Ordinary(payload) =>
        delivered := delivered + [payload];
        assert wire == wire + [];
      case _ =>
        assert wire == wire + [];
    }

    /** The peer's identification line has been read. */
    method Start(cookie: nat)
      modifies this
      ensures Did(old(wire), M.Start(old(View()), cookie)) && kex == old(kex)
    {
      if !started {
        started := true;
        SendKexInit(cookie);
      } else {
        assert wire == wire + [];
      }
    }

    /** The host verifier's late answer. */
    method Answer(permitted: bool)
      modifies this, if kex == null then {} else {kex}
      ensures Did(old(wire), M.Answer(old(View()), permitted)) && kex == old(kex)
    {
      hide M.ClientFinish;
      if kex == null || !kex.verifying {
        assert wire == wire + [];
        return;
      }
      if !permitted {
        Fail(M.HostDenied);
        return;
      }
      kex.hostVerified := true;
      kex.verifying := false;
      if kex.receivedNewKeys {
        ClientFinish();
      } else {
        assert wire == wire + [];
      }
    }
  }
}
