/** Global requests: the server answers in the order asked, whatever order the application decides
    in, and the client finds the callback for each answer by that order alone. */
module GlobalRequests {
  import opened Common

  datatype Reply = Success(data: Option<Bytes>) | Failure

  datatype Request = Request(id: nat, wantReply: bool)

  /** An entry of `unsentGlobalRequestsReplies`; `id` says which request's closure holds it. */
  datatype Slot = Slot(id: nat, reply: Option<Reply>)

  /** What a callback is called with. */
  datatype Result = Answered(reply: Reply) | Disconnected

  // ----- The server -----

  /** `sendReplies`: how many replies at the front of the queue are ready. */
  function Ready(slots: seq<Slot>): (n: nat)
    ensures n <= |slots|
    ensures forall i | 0 <= i < n :: slots[i].reply.Some?
    ensures n < |slots| ==> slots[n].reply.None?
  {
    if slots == [] || slots[0].reply.None? then 0 else 1 + Ready(slots[1..])
  }

  function Replies(slots: seq<Slot>): seq<Reply>
    requires forall s <- slots :: s.reply.Some?
  {
    seq(|slots|, i requires 0 <= i < |slots| => slots[i].reply.value)
  }

  /** `setReply` on the entry of one request. */
  function SetReply(slots: seq<Slot>, id: nat, reply: Reply): (r: seq<Slot>)
    ensures |r| == |slots|
    ensures forall i | 0 <= i < |slots| ::
              r[i] == if slots[i].id == id && slots[i].reply.None? then Slot(id, Some(reply)) else slots[i]
  {
    seq(|slots|, i requires 0 <= i < |slots| =>
      if slots[i].id == id && slots[i].reply.None? then Slot(id, Some(reply)) else slots[i])
  }

  class Server {
    var unsent: seq<Slot>
    /** The replies sent. */
    var sent: seq<Reply>

    constructor ()
      ensures unsent == [] && sent == []
    {
      unsent, sent := [], [];
    }

    method SendReplies()
      modifies this
      ensures var n := Ready(old(unsent));
              && unsent == old(unsent)[n..]
              && sent == old(sent) + Replies(old(unsent)[..n])
    {
      ghost var all, before, n := unsent, sent, Ready(unsent);
      ghost var i := 0;
      while |unsent| > 0 && unsent[0].reply.Some?
        invariant i <= n && unsent == all[i..]
        invariant sent == before + Replies(all[..i])
        decreases |unsent|
      {
        var reply := unsent[0].reply.value;
        unsent := unsent[1..];
        sent := sent + [reply];
        assert all[..i + 1] == all[..i] + [all[i]];
        assert Replies(all[..i + 1]) == Replies(all[..i]) + [reply];
        i := i + 1;
      }
    }

    /** GLOBAL_REQUEST. `decided` is what is decided at once: always for a request nobody listens
        for. */
    method OnRequest(r: Request, decided: Option<Reply>)
      modifies this
      ensures var slots := old(unsent) + if r.wantReply then [Slot(r.id, None)] else [];
              var all := if r.wantReply && decided.Some? then SetReply(slots, r.id, decided.value) else slots;
              var n := if r.wantReply && decided.Some? then Ready(all) else 0;
              unsent == all[n..] && sent == old(sent) + Replies(all[..n])
    {
      if r.wantReply {
        unsent := unsent + [Slot(r.id, None)];
        if decided.Some? {
          Decide(r.id, decided.value);
          return;
        }
      }
      assert unsent[..0] == [] && unsent[0..] == unsent;
      assert sent + Replies([]) == sent;
    }

    /** `accept` or `reject`; only the first call does anything. */
    method Decide(id: nat, reply: Reply)
      modifies this
      ensures var all := SetReply(old(unsent), id, reply);
              var n := Ready(all);
              unsent == all[n..] && sent == old(sent) + Replies(all[..n])
    {
      unsent := SetReply(unsent, id, reply);
      SendReplies();
    }
  }

  // ----- Both ends -----

  /** - callbacks: the client's `_callbacks`, by the id of the request each belongs to
      - toServer, toClient: what is on its way; a reply carries no id
      - slots: `unsentGlobalRequestsReplies`
      - issued: every request that wants a reply; decided: what was decided for each
      - flying: which requests the replies on their way answer
      - invoked: every call of a callback */
  datatype Sys = Sys(
    callbacks: seq<nat>,
    toServer: seq<Request>,
    slots: seq<Slot>,
    toClient: seq<Reply>,
    nextId: nat,
    issued: seq<nat>,
    decided: map<nat, Reply>,
    flying: seq<nat>,
    invoked: seq<(nat, Result)>)

  function Initial(): Sys {
    Sys([], [], [], [], 0, [], map[], [], [])
  }

  function Ids(slots: seq<Slot>): seq<nat> {
    seq(|slots|, i requires 0 <= i < |slots| => slots[i].id)
  }

  /** `forwardIn`, `ping` and the like, with or without a callback. */
  function Issue(s: Sys, wantReply: bool): Sys {
    s.(callbacks := if wantReply then s.callbacks + [s.nextId] else s.callbacks,
       issued := if wantReply then s.issued + [s.nextId] else s.issued,
       toServer := s.toServer + [Request(s.nextId, wantReply)],
       nextId := s.nextId + 1)
  }

  /** The replies that are ready leave. */
  function Flush(s: Sys): Sys {
    var n := Ready(s.slots);
    s.(toClient := s.toClient + Replies(s.slots[..n]), flying := s.flying + Ids(s.slots[..n]), slots := s.slots[n..])
  }

  /** The server takes in the next request, with no decision yet. */
  function Take(s: Sys): Sys
    requires s.toServer != []
  {
    var r := s.toServer[0];
    s.(toServer := s.toServer[1..],
       slots := if r.wantReply then s.slots + [Slot(r.id, None)] else s.slots)
  }

  predicate Undecided(s: Sys, id: nat) {
    exists i :: 0 <= i < |s.slots| && s.slots[i] == Slot(id, None)
  }

  /** A decision; the first one for a request counts. */
  function Decide(s: Sys, id: nat, reply: Reply): Sys {
    Flush(s.(slots := SetReply(s.slots, id, reply),
             decided := if Undecided(s, id) then s.decided[id := reply] else s.decided))
  }

  /** REQUEST_SUCCESS or REQUEST_FAILURE at the client. */
  function Deliver(s: Sys): Sys
    requires s.toClient != [] && s.flying != []
  {
    s.(toClient := s.toClient[1..], flying := s.flying[1..],
       callbacks := if s.callbacks == [] then [] else s.callbacks[1..],
       invoked := if s.callbacks == [] then s.invoked
                  else s.invoked + [(s.callbacks[0], Answered(s.toClient[0]))])
  }

  function AllDisconnected(callbacks: seq<nat>): seq<(nat, Result)> {
    seq(|callbacks|, i requires 0 <= i < |callbacks| => (callbacks[i], Disconnected))
  }

  /** The socket closes: every callback still waiting is called with an error. */
  function Disconnect(s: Sys): Sys {
    s.(callbacks := [], invoked := s.invoked + AllDisconnected(s.callbacks),
       toServer := [], toClient := [], flying := [], slots := [])
  }

  datatype Event = Issues(wantReply: bool) | Takes | Decides(id: nat, reply: Reply) | Delivers | Disconnects

  predicate Possible(s: Sys, e: Event) {
    match e
    case Takes => s.toServer != []
    case Delivers => s.toClient != [] && s.flying != []
    case _ => true
  }

  function After(s: Sys, e: Event): Sys
    requires Possible(s, e)
  {
    match e
    case Issues(wantReply) => Issue(s, wantReply)
    case Takes => Take(s)
    case Decides(id, reply) => Decide(s, id, reply)
    case Delivers => Deliver(s)
    case Disconnects => Disconnect(s)
  }

  function Exec(events: seq<Event>): Option<Sys>
    decreases |events|
  {
    if events == [] then Some(Initial())
    else
      var before := Exec(events[..|events| - 1]);
      var e := events[|events| - 1];
      if before.None? || !Possible(before.value, e) then None else Some(After(before.value, e))
  }

  // ----- What holds throughout -----

  function Wanting(reqs: seq<Request>): seq<nat> {
    if reqs == [] then []
    else
      var last := reqs[|reqs| - 1];
      Wanting(reqs[..|reqs| - 1]) + if last.wantReply then [last.id] else []
  }

  function InvokedIds(calls: seq<(nat, Result)>): seq<nat> {
    seq(|calls|, i requires 0 <= i < |calls| => calls[i].0)
  }

  /** The callbacks waiting are those of the requests answered, taken in and on their way, in this
      order. */
  ghost predicate InOrder(s: Sys) {
    && s.callbacks == s.flying + Ids(s.slots) + Wanting(s.toServer)
    && InvokedIds(s.invoked) + s.callbacks == s.issued
  }

  /** Every reply sent or ready is what was decided for its own request. */
  ghost predicate Faithful(s: Sys) {
    && |s.flying| == |s.toClient|
    && (forall k | 0 <= k < |s.flying| :: s.flying[k] in s.decided && s.decided[s.flying[k]] == s.toClient[k])
    && (forall i | 0 <= i < |s.slots| && s.slots[i].reply.Some? ::
          s.slots[i].id in s.decided && s.decided[s.slots[i].id] == s.slots[i].reply.value)
    && (forall c <- s.invoked :: c.1.Answered? ==> c.0 in s.decided && s.decided[c.0] == c.1.reply)
  }

  /** Ids are used once. */
  ghost predicate Numbered(s: Sys) {
    && (forall i | 0 <= i < |s.issued| :: s.issued[i] < s.nextId)
    && (forall i, j | 0 <= i < j < |s.issued| :: s.issued[i] < s.issued[j])
  }

  /** No reply that is ready is held back. */
  ghost predicate Prompt(s: Sys) {
    s.slots != [] ==> s.slots[0].reply.None?
  }

  ghost predicate Inv(s: Sys) {
    InOrder(s) && Faithful(s) && Numbered(s) && Prompt(s)
  }

  lemma {:induction false} WantingFirst(reqs: seq<Request>)
    requires reqs != []
    ensures Wanting(reqs) == (if reqs[0].wantReply then [reqs[0].id] else []) + Wanting(reqs[1..])
    decreases |reqs|
  {
    hide Wanting;
    WantingNothing();
    var init, last := reqs[..|reqs| - 1], reqs[|reqs| - 1];
    assert reqs == init + [last];
    WantingMore(init, last);
    if init == [] {
      assert reqs[1..] == [];
    } else {
      WantingFirst(init);
      assert reqs[1..] == init[1..] + [last];
      WantingMore(init[1..], last);
      Assoc(if reqs[0].wantReply then [reqs[0].id] else [], Wanting(init[1..]),
            if last.wantReply then [last.id] else []);
    }
  }

  lemma WantingNothing()
    ensures Wanting([]) == []
  {
  }

  lemma WantingMore(reqs: seq<Request>, r: Request)
    ensures Wanting(reqs + [r]) == Wanting(reqs) + if r.wantReply then [r.id] else []
  {
    assert (reqs + [r])[..|reqs|] == reqs;
  }

  lemma IdsSplit(slots: seq<Slot>, n: nat)
    requires n <= |slots|
    ensures Ids(slots[..n]) + Ids(slots[n..]) == Ids(slots)
  {
  }

  lemma IssueKeeps(s: Sys, wantReply: bool)
    requires Inv(s)
    ensures Inv(Issue(s, wantReply))
  {
    hide Wanting, InvokedIds, Ids, InOrder, Numbered;
    IssueInOrder(s, wantReply);
    IssueNumbered(s, wantReply);
  }

  lemma IssueInOrder(s: Sys, wantReply: bool)
    requires InOrder(s)
    ensures InOrder(Issue(s, wantReply))
  {
    WantingMore(s.toServer, Request(s.nextId, wantReply));
    hide Wanting, Ids, InvokedIds;
    var more := if wantReply then [s.nextId] else [];
    Assoc(s.flying + Ids(s.slots), Wanting(s.toServer), more);
    Assoc(InvokedIds(s.invoked), s.callbacks, more);
    NothingMore(s.callbacks);
    NothingMore(s.issued);
  }

  lemma IssueNumbered(s: Sys, wantReply: bool)
    requires Numbered(s)
    ensures Numbered(Issue(s, wantReply))
  {
  }

  lemma Assoc<T>(a: seq<T>, b: seq<T>, c: seq<T>)
    ensures (a + b) + c == a + (b + c)
  {
  }

  lemma NothingMore<T>(a: seq<T>)
    ensures a + [] == a
  {
  }

  lemma TakeKeeps(s: Sys)
    requires Inv(s) && s.toServer != []
    ensures Inv(Take(s))
  {
    var r, t := s.toServer[0], Take(s);
    WantingFirst(s.toServer);
    hide Wanting;
    assert Ids(s.slots + [Slot(r.id, None)]) == Ids(s.slots) + [r.id];
    assert InOrder(t) by {
      assert s.flying + Ids(s.slots) + ([r.id] + Wanting(s.toServer[1..]))
          == s.flying + (Ids(s.slots) + [r.id]) + Wanting(s.toServer[1..]);
      assert [] + Wanting(s.toServer[1..]) == Wanting(s.toServer[1..]);
    }
  }

  /** Ids of requests at different places are different. */
  lemma SlotIdsDiffer(s: Sys, i: nat)
    requires InOrder(s) && Numbered(s) && i < |s.slots|
    ensures forall k | 0 <= k < |s.flying| :: s.flying[k] != s.slots[i].id
    ensures forall j | 0 <= j < |s.slots| && j != i :: s.slots[j].id != s.slots[i].id
    ensures forall c <- s.invoked :: c.0 != s.slots[i].id
  {
    hide Wanting;
    var m, f := |s.invoked|, |s.flying|;
    assert s.issued[m + f + i] == s.callbacks[f + i] == Ids(s.slots)[i];
    forall k | 0 <= k < f ensures s.flying[k] != s.slots[i].id {
      assert s.issued[m + k] == s.callbacks[k] == s.flying[k];
    }
    forall j | 0 <= j < |s.slots| && j != i ensures s.slots[j].id != s.slots[i].id {
      assert s.issued[m + f + j] == s.callbacks[f + j] == Ids(s.slots)[j];
    }
    forall c | c in s.invoked ensures c.0 != s.slots[i].id {
      var k :| 0 <= k < m && s.invoked[k] == c;
      assert s.issued[k] == InvokedIds(s.invoked)[k];
    }
  }

  lemma DecideKeeps(s: Sys, id: nat, reply: Reply)
    requires Inv(s)
    ensures Inv(Decide(s, id, reply))
  {
    var t := s.(slots := SetReply(s.slots, id, reply),
                decided := if Undecided(s, id) then s.decided[id := reply] else s.decided);
    assert Ids(t.slots) == Ids(s.slots);
    if i :| 0 <= i < |s.slots| && s.slots[i] == Slot(id, None) {
      SlotIdsDiffer(s, i);
    }
    assert Faithful(t);
    hide Wanting, InvokedIds;
    FlushKeeps(t);
  }

  lemma FlushKeeps(s: Sys)
    requires InOrder(s) && Faithful(s) && Numbered(s)
    ensures Inv(Flush(s))
  {
    hide InOrder, Faithful, Numbered;
    FlushInOrder(s);
    FlushFaithful(s);
    FlushNumbered(s);
  }

  lemma FlushNumbered(s: Sys)
    requires Numbered(s)
    ensures Numbered(Flush(s))
  {
    hide Ready, Replies, Ids;
  }

  lemma FlushInOrder(s: Sys)
    requires InOrder(s)
    ensures InOrder(Flush(s))
  {
    hide Wanting, Ready, Ids, InvokedIds, Replies;
    var n := Ready(s.slots);
    IdsSplit(s.slots, n);
    assert s.flying + (Ids(s.slots[..n]) + Ids(s.slots[n..])) == s.flying + Ids(s.slots[..n]) + Ids(s.slots[n..]);
  }

  lemma FlushFaithful(s: Sys)
    requires Faithful(s)
    ensures Faithful(Flush(s))
  {
    hide Ready;
    var t := Flush(s);
    forall k | 0 <= k < |t.flying|
      ensures t.flying[k] in t.decided && t.decided[t.flying[k]] == t.toClient[k]
    {
      if k >= |s.flying| {
        assert t.flying[k] == s.slots[k - |s.flying|].id;
      }
    }
  }

  lemma FirstOff<T>(a: seq<T>, b: seq<T>)
    requires a != []
    ensures a + b != [] && (a + b)[0] == a[0] && (a + b)[1..] == a[1..] + b
  {
  }

  lemma MovedOver<T>(a: seq<T>, b: seq<T>)
    requires b != []
    ensures (a + [b[0]]) + b[1..] == a + b
  {
  }

  lemma InvokedMore(calls: seq<(nat, Result)>, c: (nat, Result))
    ensures InvokedIds(calls + [c]) == InvokedIds(calls) + [c.0]
  {
  }

  lemma DeliverInOrder(s: Sys)
    requires InOrder(s) && s.toClient != [] && s.flying != []
    ensures InOrder(Deliver(s)) && s.callbacks != [] && s.callbacks[0] == s.flying[0]
  {
    hide Wanting, Ids, InvokedIds;
    Assoc(s.flying, Ids(s.slots), Wanting(s.toServer));
    FirstOff(s.flying, Ids(s.slots) + Wanting(s.toServer));
    Assoc(s.flying[1..], Ids(s.slots), Wanting(s.toServer));
    InvokedMore(s.invoked, (s.callbacks[0], Answered(s.toClient[0])));
    MovedOver(InvokedIds(s.invoked), s.callbacks);
  }

  lemma DeliverKeeps(s: Sys)
    requires Inv(s) && s.toClient != [] && s.flying != []
    ensures Inv(Deliver(s)) && s.callbacks != [] && s.callbacks[0] == s.flying[0]
  {
    DeliverInOrder(s);
    hide Wanting, Ids, InvokedIds, InOrder;
    assert Faithful(Deliver(s));
  }

  lemma DisconnectKeeps(s: Sys)
    requires Inv(s)
    ensures Inv(Disconnect(s))
  {
    DisconnectInOrder(s);
    hide InvokedIds, Ids, Wanting, InOrder;
  }

  lemma DisconnectInOrder(s: Sys)
    requires InOrder(s)
    ensures InOrder(Disconnect(s))
  {
    AllInvoked(s.invoked, s.callbacks);
    assert Ids([]) == [] && Wanting([]) == [];
    hide InvokedIds, Ids, Wanting, AllDisconnected;
    NothingMore(InvokedIds(Disconnect(s).invoked));
  }

  lemma AllInvoked(calls: seq<(nat, Result)>, callbacks: seq<nat>)
    ensures InvokedIds(calls + AllDisconnected(callbacks)) == InvokedIds(calls) + callbacks
  {
  }

  lemma {:induction false} AlwaysInv(events: seq<Event>)
    requires Exec(events).Some?
    ensures Inv(Exec(events).value)
    decreases |events|
  {
    if events != [] {
      var init := events[..|events| - 1];
      AlwaysInv(init);
      var s := Exec(init).value;
      hide Inv, Issue, Take, Decide, Deliver, Disconnect;
      match events[|events| - 1]
      case Issues(wantReply) => IssueKeeps(s, wantReply);
      case Takes => TakeKeeps(s);
      case Decides(id, reply) => DecideKeeps(s, id, reply);
      case Delivers => DeliverKeeps(s);
      case Disconnects => DisconnectKeeps(s);
    } else {
      assert InvokedIds([]) + [] == [];
    }
  }

  /** Whatever order the application decides in: the callbacks called so far and those still waiting
      are the requests that want a reply, each once and in the order they were made, and each
      answered callback got what was decided for its own request. */
  lemma EachCallbackOnce(events: seq<Event>)
    requires Exec(events).Some?
    ensures var s := Exec(events).value;
            && InvokedIds(s.invoked) + s.callbacks == s.issued
            && (forall i, j | 0 <= i < j < |s.issued| :: s.issued[i] != s.issued[j])
            && (forall c <- s.invoked :: c.1.Answered? ==> c.0 in s.decided && s.decided[c.0] == c.1.reply)
            && (s.toClient != [] ==> s.flying != [] && s.callbacks != [] && s.callbacks[0] == s.flying[0])
            && (s.slots != [] ==> s.slots[0].reply.None?)
            && (s.toServer == [] && s.toClient == [] && (forall x <- s.slots :: x.reply.Some?) ==>
                  s.callbacks == [] && InvokedIds(s.invoked) == s.issued)
  {
    AlwaysInv(events);
    var s := Exec(events).value;
    WantingNothing();
    hide Exec, Wanting;
    if s.callbacks == [] {
      assert InvokedIds(s.invoked) + [] == InvokedIds(s.invoked);
    }
    if s.toClient != [] {
      assert s.callbacks[0] == s.flying[0];
    }
  }

  /** In every run the requests on their way are the last ones made, whether they want a reply or not. */
  lemma {:induction false} RequestsGoOut(events: seq<Event>)
    requires Exec(events).Some?
    ensures var s := Exec(events).value;
            |s.toServer| <= s.nextId
            && forall k | 0 <= k < |s.toServer| :: s.toServer[k].id == s.nextId - |s.toServer| + k
    decreases |events|
  {
    if events != [] {
      RequestsGoOut(events[..|events| - 1]);
      hide SetReply, AllDisconnected, Undecided, Ready, Replies, Ids;
    }
  }

  /** After the connection is gone no callback is left waiting. */
  lemma {:induction false} NobodyWaits(events: seq<Event>)
    requires Exec(events).Some?
    ensures var s := Disconnect(Exec(events).value);
            && s.callbacks == [] && InvokedIds(s.invoked) == s.issued
  {
    AlwaysInv(events);
    DisconnectKeeps(Exec(events).value);
    var s := Disconnect(Exec(events).value);
    assert InvokedIds(s.invoked) + [] == InvokedIds(s.invoked);
  }

  // ----- The client's callbacks -----

  class Client {
    var callbacks: seq<nat>
    var invoked: seq<(nat, Result)>

    constructor ()
      ensures callbacks == [] && invoked == []
    {
      callbacks, invoked := [], [];
    }

    method Ask(id: nat, wantReply: bool)
      modifies this
      ensures callbacks == old(callbacks) + (if wantReply then [id] else []) && invoked == old(invoked)
    {
      if wantReply {
        callbacks := callbacks + [id];
      } else {
        assert callbacks + [] == callbacks;
      }
    }

    /** REQUEST_SUCCESS, REQUEST_FAILURE */
    method OnReply(reply: Reply)
      modifies this
      ensures old(callbacks) == [] ==> callbacks == [] && invoked == old(invoked)
      ensures old(callbacks) != [] ==>
                && callbacks == old(callbacks)[1..]
                && invoked == old(invoked) + [(old(callbacks)[0], Answered(reply))]
    {
      if |callbacks| > 0 {
        var first := callbacks[0];
        callbacks := callbacks[1..];
        invoked := invoked + [(first, Answered(reply))];
      }
    }

    /** The socket's `close`. */
    method OnClose()
      modifies this
      ensures callbacks == [] && invoked == old(invoked) + AllDisconnected(old(callbacks))
    {
      var waiting := callbacks;
      callbacks := [];
      var i := 0;
      while i < |waiting|
        invariant 0 <= i <= |waiting| && callbacks == []
        invariant invoked == old(invoked) + AllDisconnected(waiting[..i])
      {
        assert AllDisconnected(waiting[..i + 1]) == AllDisconnected(waiting[..i]) + [(waiting[i], Disconnected)];
        invoked := invoked + [(waiting[i], Disconnected)];
        i := i + 1;
      }
      assert waiting[..i] == waiting;
    }
  }
}
