/** Global requests made to the client. Its handler takes one parameter fewer than it is called
    with, so what it goes by is whether the request has a name. The other end finds the callback
    for an answer by the order of the requests alone, as section 4 of RFC 4254 has it. */
module ClientRequests {
  import opened Common

  datatype Request = Request(name: string, wantReply: bool)

  /** What happened to an answer: the request it answers, and the request whose callback was called
      with it, if any was waiting. A request is known by its place among all. */
  datatype Arrival = Arrival(request: nat, callback: int)

  const NOBODY: int := -1

  /** - made: all requests so far; taken: how many of them the client has handled
      - callbacks: the requester's waiting callbacks
      - answers: REQUEST_FAILUREs on their way, by the request each was sent for
      - arrived: what became of those that have arrived */
  datatype Sys = Sys(
    made: seq<Request>,
    taken: nat,
    callbacks: seq<nat>,
    answers: seq<nat>,
    arrived: seq<Arrival>)

  function Initial(): Sys {
    Sys([], 0, [], [], [])
  }

  function Make(s: Sys, r: Request): Sys {
    s.(made := s.made + [r], callbacks := if r.wantReply then s.callbacks + [|s.made|] else s.callbacks)
  }

  /** The client's GLOBAL_REQUEST handler: `name` is the protocol, `wantReply` is the name. */
  function Take(s: Sys): Sys
    requires s.taken < |s.made|
  {
    s.(taken := s.taken + 1,
       answers := if s.made[s.taken].name != "" then s.answers + [s.taken] else s.answers)
  }

  function Arrive(s: Sys): Sys
    requires s.answers != []
  {
    s.(answers := s.answers[1..],
       callbacks := if s.callbacks == [] then [] else s.callbacks[1..],
       arrived := s.arrived + [Arrival(s.answers[0], if s.callbacks == [] then NOBODY else s.callbacks[0])])
  }

  datatype Event = Makes(r: Request) | Takes | Arrives

  predicate Possible(s: Sys, e: Event) {
    match e
    case Makes(_) => true
    case Takes => s.taken < |s.made|
    case Arrives => s.answers != []
  }

  function After(s: Sys, e: Event): Sys
    requires Possible(s, e)
  {
    match e
    case Makes(r) => Make(s, r)
    case Takes => Take(s)
    case Arrives => Arrive(s)
  }

  function Exec(events: seq<Event>): Option<Sys>
    decreases |events|
  {
    if events == [] then Some(Initial())
    else
      var before := Exec(events[..|events| - 1]);
      var e := events[|events| - 1];
      if before.None? || !Possible(before.value, e) then None else Some(After(before.value, e))
  }

  // ----- Which requests -----

  /** The places of the requests that `p` picks. */
  function Picked(rs: seq<Request>, p: Request -> bool): seq<nat> {
    if rs == [] then []
    else
      var n := |rs| - 1;
      Picked(rs[..n], p) + if p(rs[n]) then [n] else []
  }

  function Wants(): Request -> bool {
    (r: Request) => r.wantReply
  }

  function Named(): Request -> bool {
    (r: Request) => r.name != ""
  }

  lemma {:induction false} PickedPlaces(rs: seq<Request>, p: Request -> bool)
    ensures forall i: nat :: i in Picked(rs, p) <==> i < |rs| && p(rs[i])
    decreases |rs|
  {
    if rs != [] {
      PickedPlaces(rs[..|rs| - 1], p);
    }
  }

  lemma {:induction false} PickedPrefix(rs: seq<Request>, t: nat, p: Request -> bool)
    requires t <= |rs|
    ensures Picked(rs[..t], p) <= Picked(rs, p)
    decreases |rs|
  {
    if t == |rs| {
      assert rs[..t] == rs;
    } else {
      PickedPrefix(rs[..|rs| - 1], t, p);
      assert rs[..|rs| - 1][..t] == rs[..t];
    }
  }

  lemma {:induction false} PickedAlike(rs: seq<Request>, p: Request -> bool, q: Request -> bool)
    requires forall r <- rs :: p(r) == q(r)
    ensures Picked(rs, p) == Picked(rs, q)
    decreases |rs|
  {
    if rs != [] {
      PickedAlike(rs[..|rs| - 1], p, q);
    }
  }

  // ----- The invariant -----

  function Answered(arrived: seq<Arrival>): seq<nat> {
    seq(|arrived|, i requires 0 <= i < |arrived| => arrived[i].request)
  }

  /** The callbacks called. */
  function Called(arrived: seq<Arrival>): seq<nat> {
    if arrived == [] then []
    else
      var last := arrived[|arrived| - 1].callback;
      Called(arrived[..|arrived| - 1]) + if last >= 0 then [last] else []
  }

  /** Answers come in the order of the requests that have a name, callbacks are called in the order
      of those that want a reply. */
  ghost predicate Inv(s: Sys) {
    && s.taken <= |s.made|
    && Answered(s.arrived) + s.answers == Picked(s.made[..s.taken], Named())
    && Called(s.arrived) + s.callbacks == Picked(s.made, Wants())
  }

  lemma MakeKeeps(s: Sys, r: Request)
    requires Inv(s)
    ensures Inv(Make(s, r))
  {
    var made := s.made + [r];
    assert made[..|s.made|] == s.made && made[..s.taken] == s.made[..s.taken];
    if r.wantReply {
      assert Called(s.arrived) + (s.callbacks + [|s.made|]) == (Called(s.arrived) + s.callbacks) + [|s.made|];
    }
  }

  lemma TakeKeeps(s: Sys)
    requires Inv(s) && s.taken < |s.made|
    ensures Inv(Take(s))
  {
    PickedOneMore(s.made, s.taken, Named());
    hide Picked, Answered, Called;
    assert Answered(s.arrived) + (s.answers + [s.taken]) == (Answered(s.arrived) + s.answers) + [s.taken];
  }

  lemma PickedOneMore(rs: seq<Request>, t: nat, p: Request -> bool)
    requires t < |rs|
    ensures Picked(rs[..t + 1], p) == Picked(rs[..t], p) + if p(rs[t]) then [t] else []
  {
    assert rs[..t + 1][..t] == rs[..t];
  }

  lemma ArriveKeeps(s: Sys)
    requires Inv(s) && s.answers != []
    ensures Inv(Arrive(s))
  {
    var t := Arrive(s);
    hide Picked;
    assert t.arrived[..|s.arrived|] == s.arrived;
    assert Answered(t.arrived) == Answered(s.arrived) + [s.answers[0]];
    assert Answered(t.arrived) + t.answers == Answered(s.arrived) + s.answers;
    if s.callbacks != [] {
      assert Called(t.arrived) + t.callbacks == Called(s.arrived) + s.callbacks;
    }
  }

  lemma {:induction false} AlwaysInv(events: seq<Event>, s: Sys)
    requires Exec(events) == Some(s)
    ensures Inv(s)
    decreases |events|
  {
    if events != [] {
      var init, e := events[..|events| - 1], events[|events| - 1];
      var t := Exec(init).value;
      AlwaysInv(init, t);
      hide Inv, Make, Take, Arrive;
      match e
      case Makes(r) => MakeKeeps(t, r);
      case Takes => TakeKeeps(t);
      case Arrives => ArriveKeeps(t);
    } else {
      assert Initial().made[..0] == [];
    }
  }

  // ----- When it goes well -----

  /** Every answer so far went to the callback of its own request. */
  predicate AllRight(s: Sys) {
    forall a <- s.arrived :: a.callback == a.request
  }

  /** Requests that want a reply are those that have a name. */
  predicate Polite(rs: seq<Request>) {
    forall r <- rs :: r.wantReply == (r.name != "")
  }

  lemma {:induction false} CalledRight(arrived: seq<Arrival>)
    requires forall a <- arrived :: a.callback == a.request
    ensures Called(arrived) == Answered(arrived)
    decreases |arrived|
  {
    if arrived != [] {
      CalledRight(arrived[..|arrived| - 1]);
    }
  }

  /** Among polite requests the next answer is for the callback that is next. */
  lemma NextIsRight(s: Sys)
    requires Inv(s) && Polite(s.made) && AllRight(s) && s.answers != []
    ensures AllRight(Arrive(s))
  {
    CalledRight(s.arrived);
    PickedAlike(s.made, Wants(), Named());
    PickedPrefix(s.made, s.taken, Named());
    var n := |s.arrived|;
    assert (Answered(s.arrived) + s.answers)[n] == s.answers[0];
    assert (Called(s.arrived) + s.callbacks)[n] == s.answers[0];
  }

  lemma {:induction false} AlwaysRight(events: seq<Event>, s: Sys)
    requires Exec(events) == Some(s) && Polite(s.made)
    ensures AllRight(s)
    decreases |events|
  {
    if events != [] {
      var init, e := events[..|events| - 1], events[|events| - 1];
      var t := Exec(init).value;
      assert t.made <= s.made;
      AlwaysInv(init, t);
      AlwaysRight(init, t);
      hide Inv;
      if e.Arrives? {
        NextIsRight(t);
      }
    }
  }

  /** In every run, whatever the order of things: if the requests that want a reply are those with a
      name, every answer goes to the callback of its own request; and once everything has arrived,
      every answer has done so with no callback left over exactly if they are. */
  lemma AnswersMatch(events: seq<Event>, s: Sys)
    requires Exec(events) == Some(s)
    ensures Polite(s.made) ==> AllRight(s)
    ensures s.taken == |s.made| && s.answers == [] ==> (AllRight(s) && s.callbacks == [] <==> Polite(s.made))
  {
    AlwaysInv(events, s);
    if Polite(s.made) {
      AlwaysRight(events, s);
      PickedAlike(s.made, Wants(), Named());
    }
    if s.taken == |s.made| && s.answers == [] && AllRight(s) {
      assert s.made[..s.taken] == s.made;
      CalledRight(s.arrived);
      assert Polite(s.made) ==> |Called(s.arrived) + s.callbacks| == |Answered(s.arrived) + s.answers|;
      if s.callbacks == [] {
        PickedPlaces(s.made, Wants());
        PickedPlaces(s.made, Named());
        EachPolite(s.made);
      }
    }
  }

  lemma EachPolite(rs: seq<Request>)
    requires forall i: nat :: i < |rs| && Wants()(rs[i]) <==> i < |rs| && Named()(rs[i])
    ensures Polite(rs)
  {
    forall r | r in rs ensures r.wantReply == (r.name != "") {
      var i: nat :| i < |rs| && rs[i] == r;
      assert Wants()(rs[i]) == Named()(rs[i]);
    }
  }

  /** A keepalive that asks for no reply gets one all the same, and the callback of the request
      after it is called with that one, before the client has seen its own. */
  lemma KeepaliveTakesTheNextCallback(name: string)
    ensures var s := Exec([Makes(Request("keepalive@openssh.com", false)), Takes, Makes(Request(name, true)), Arrives]);
            s.Some? && s.value.arrived == [Arrival(0, 1)] && s.value.taken == 1 && s.value.callbacks == []
  {
    var keepalive, next := Makes(Request("keepalive@openssh.com", false)), Makes(Request(name, true));
    hide Exec;
    ExecNothing();
    assert [] + [keepalive] == [keepalive];
    ExecOneMore([], keepalive);
    assert [keepalive] + [Takes] == [keepalive, Takes];
    ExecOneMore([keepalive], Takes);
    assert [keepalive, Takes] + [next] == [keepalive, Takes, next];
    ExecOneMore([keepalive, Takes], next);
    assert [keepalive, Takes, next] + [Arrives] == [keepalive, Takes, next, Arrives];
    ExecOneMore([keepalive, Takes, next], Arrives);
  }

  lemma ExecNothing()
    ensures Exec([]) == Some(Initial())
  {
  }

  lemma ExecOneMore(events: seq<Event>, e: Event)
    requires Exec(events).Some? && Possible(Exec(events).value, e)
    ensures Exec(events + [e]) == Some(After(Exec(events).value, e))
  {
    assert (events + [e])[..|events|] == events;
  }
}
