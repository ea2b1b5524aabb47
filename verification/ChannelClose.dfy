/** When EOF and CLOSE go out, and when a channel's id is given back. */
module ChannelClose {
  import opened Common
  import opened ChannelModel
  import opened ChannelSafety
  import opened ChannelTheorems

  lemma WritingStates(called: bool, s: Side, data: Bytes)
    ensures WriteOut(called, s, data).outState == WriteErrOut(called, s, data).outState == s.outState
  {
    hide Room, Sends, Left;
  }

  lemma ReadingStates(s: Side, more: bool)
    ensures Read(s).outState == Pushed(s, more).outState == s.outState
  {
  }

  lemma TakingStates(s: Side, data: Bytes)
    ensures OnData(s, data).outState == OnExtData(s, data).outState == OnEof(s).outState == s.outState
  {
  }

  lemma GrantedStates(s: Side, amount: nat)
    ensures OnAdjust(s, amount).outState == s.outState
  {
    hide WriteOut, WriteErrOut;
    var wakes := s.live && s.waitWindow;
    var s1 := s.(outWindow := s.outWindow + if s.live then amount else 0, waitWindow := s.waitWindow && !s.live);
    var s2 := WriteOut(wakes && s.chunk.Some?, s1, s.chunk.GetOr([]));
    WritingStates(wakes && s.chunk.Some?, s1, s.chunk.GetOr([]));
    WritingStates(wakes && s.chunk.None? && s.chunkErr.Some?, s2, s.chunkErr.GetOr([]));
  }

  lemma ArrivingStates(s: Side, m: Msg)
    requires m != Close
    ensures Receive(s, m).outState == s.outState
  {
    hide OnData, OnExtData, OnAdjust, OnEof, OnClose;
    var s1 := s.(seen := s.seen + [m]);
    match m
    case Data(data) => TakingStates(s1, data);
    case ExtData(data) => TakingStates(s1, data);
    case Adjust(amount) => GrantedStates(s1, amount);
    case Eof => TakingStates(s1, []);
  }

  lemma OtherStates(s: Side, e: Event)
    requires e != Ends && e != Closes && e != Arrives(Close)
    ensures After(s, e).outState == s.outState
  {
    hide WriteOut, WriteErrOut, Read, Pushed, Receive;
    match e
    case Writes(data) => WritingStates(true, s.(writing := true, written := s.written + data), data);
    case WritesErr(data) => WritingStates(true, s.(writingErr := true, writtenErr := s.writtenErr + data), data);
    case Reads => ReadingStates(s, true);
    case PushReturns(more) => ReadingStates(s, more);
    case Arrives(m) => ArrivingStates(s, m);
  }

  /** How far an end has gone in what it sends, after one more event. */
  lemma EventStates(s: Side, e: Event)
    requires StatesOk(s) && (e.Arrives? ==> Acceptable(s, e.msg))
    ensures var a, b := Announced(s.outState), Announced(After(s, e).outState);
            && (b == Closed <==> a == Closed || e == Closes || e == Arrives(Close))
            && (b == AtEof ==> a == AtEof || e == Ends)
            && (a == AtEof ==> b != Open)
            && (e == Ends ==> b != Open)
    ensures e == Closes || e == Arrives(Close) ==> After(s, e).log in {s.log, s.log + [Close]}
  {
    if e != Ends && e != Closes && e != Arrives(Close) {
      OtherStates(s, e);
      hide After, Acceptable, Walk;
    } else {
      hide WriteOut, WriteErrOut, Read, Pushed, OnData, OnExtData, OnAdjust, Walk;
    }
  }

  /** What one event has to do with the end of a direction: CLOSE goes out when the application closes
      or the peer's CLOSE arrives, EOF when the application ends what it writes. */
  lemma EventEnds(s: Side, e: Event)
    requires BooksOk(s) && DrainOk(s) && Enabled(s, e) && (e.Arrives? ==> Acceptable(s, e.msg))
    ensures var t := After(s, e);
            && (Close in t.log <==> Close in s.log || e == Closes || e == Arrives(Close))
            && (Close in t.seen <==> Close in s.seen || e == Arrives(Close))
            && (Eof in t.log ==> Eof in s.log || e == Ends)
            && (e == Ends ==> Eof in t.log || Close in t.log)
            && s.log <= t.log
  {
    hide *;
    var t := After(s, e);
    StatesTell(s);
    EventStates(s, e);
    EventKeeps(s, e);
    AfterGrows(s, e);
    StatesTell(t);
    NothingBehindClose(s.log, t.log);
  }

  /** What an end has sent, by its state. */
  lemma StatesTell(s: Side)
    requires BooksOk(s)
    ensures StatesOk(s) && Orderly(s.log)
    ensures Announced(s.outState) == Closed <==> Close in s.log
    ensures Announced(s.outState) == Open <==> Close !in s.log && Eof !in s.log
    ensures Announced(s.outState) in {Open, AtEof, Closed}
  {
    WalkMeansOrderly(s.log);
    hide Walk, Orderly, WindowsOk, StreamsOk;
  }

  lemma NothingBehindClose(a: seq<Msg>, b: seq<Msg>)
    requires a <= b && Orderly(b)
    ensures Close in a && Eof in b ==> Eof in a
  {
    if Close in a && Eof in b {
      var i :| 0 <= i < |a| && a[i] == Close;
      var j :| 0 <= j < |b| && b[j] == Eof;
      assert b[i] == Close;
    }
  }

  // ----- Runs -----

  /** The application at one end called `close`, or `end` on what it writes. */
  predicate Did(steps: seq<Step>, server: bool, e: Event) {
    Step(server, e) in steps
  }

  lemma OneMoreDone(steps: seq<Step>, server: bool, e: Event)
    requires steps != []
    ensures Did(steps, server, e) <==> Did(steps[..|steps| - 1], server, e) || steps[|steps| - 1] == Step(server, e)
  {
    assert steps == steps[..|steps| - 1] + [steps[|steps| - 1]];
  }

  /** In every run, an end has sent CLOSE exactly if its application has closed the channel or the
      peer's CLOSE has arrived, EOF only if its application has ended what it writes, and after that
      EOF or CLOSE. */
  lemma {:induction false} SentWhenAsked(clientSize: PacketSize, serverSize: PacketSize, steps: seq<Step>, server: bool)
    requires Run(Initial(clientSize, serverSize), steps)
    ensures var s := Self(Exec(Initial(clientSize, serverSize), steps), server);
            && (Close in s.log <==> Did(steps, server, Closes) || Close in s.seen)
            && (Eof in s.log ==> Did(steps, server, Ends))
            && (Did(steps, server, Ends) ==> Eof in s.log || Close in s.log)
    decreases |steps|
  {
    if steps != [] {
      var init, last := steps[..|steps| - 1], steps[|steps| - 1];
      SentWhenAsked(clientSize, serverSize, init, server);
      OneMoreDone(steps, server, Closes);
      OneMoreDone(steps, server, Ends);
      RunKeeps(clientSize, serverSize, init);
      var before := Exec(Initial(clientSize, serverSize), init);
      assert Possible(before, last.server, last.event);
      hide Did, After, Run, BooksOk, DrainOk, Acceptable;
      if last.server == server {
        StepEnds(before, server, last.event);
      }
    }
  }

  lemma StepEnds(sys: Sys, server: bool, e: Event)
    requires Inv(sys) && Possible(sys, server, e)
    ensures var s, t := Self(sys, server), Self(Next(sys, server, e), server);
            && (Close in t.log <==> Close in s.log || e == Closes || e == Arrives(Close))
            && (Close in t.seen <==> Close in s.seen || e == Arrives(Close))
            && (Eof in t.log ==> Eof in s.log || e == Ends)
            && (e == Ends ==> Eof in t.log || Close in t.log)
            && (Eof in s.log ==> Eof in t.log)
  {
    hide After, BooksOk, DrainOk, Acceptable;
    if e.Arrives? {
      ArrivalAcceptable(sys, server);
    }
    EventEnds(Self(sys, server), e);
  }

  /** The first CLOSE is not an answer. */
  lemma {:induction false} SomebodyFirst(clientSize: PacketSize, serverSize: PacketSize, steps: seq<Step>)
    requires Run(Initial(clientSize, serverSize), steps)
    ensures var sys := Exec(Initial(clientSize, serverSize), steps);
            Close in sys.client.log || Close in sys.server.log ==> Did(steps, true, Closes) || Did(steps, false, Closes)
    decreases |steps|
  {
    if steps != [] {
      var init, last := steps[..|steps| - 1], steps[|steps| - 1];
      SomebodyFirst(clientSize, serverSize, init);
      OneMoreDone(steps, true, Closes);
      OneMoreDone(steps, false, Closes);
      RunKeeps(clientSize, serverSize, init);
      var before := Exec(Initial(clientSize, serverSize), init);
      assert Possible(before, last.server, last.event);
      hide Did, After, Run, BooksOk, DrainOk, Acceptable;
      StepEnds(before, last.server, last.event);
    }
  }

  /** With nothing in flight, both ids have been given back if either application has closed the channel,
      and otherwise both are live. */
  lemma GivenBackWhenClosed(clientSize: PacketSize, serverSize: PacketSize, steps: seq<Step>, server: bool)
    requires Run(Initial(clientSize, serverSize), steps)
    requires var sys := Exec(Initial(clientSize, serverSize), steps);
             InFlight(sys.client, sys.server) == InFlight(sys.server, sys.client) == []
    ensures var s := Self(Exec(Initial(clientSize, serverSize), steps), server);
            !s.live <==> Did(steps, true, Closes) || Did(steps, false, Closes)
  {
    SentWhenAsked(clientSize, serverSize, steps, true);
    SentWhenAsked(clientSize, serverSize, steps, false);
    CloseHandshake(clientSize, serverSize, steps, server);
    RunKeeps(clientSize, serverSize, steps);
    var sys := Exec(Initial(clientSize, serverSize), steps);
    assert sys.client.seen == sys.server.log && sys.server.seen == sys.client.log;
    SomebodyFirst(clientSize, serverSize, steps);
    hide *;
  }
}
