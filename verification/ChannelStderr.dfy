/** The server's stderr: its bytes are never mixed up, but a write to it that stalls while stdout
    keeps a chunk is never taken up again. */
module ChannelStderr {
  import opened Common
  import opened ChannelModel
  import opened ChannelSafety
  import opened ChannelTheorems

  /** Whatever stdout does: while a stderr write is stalled, what was sent and the kept rest make up
      what was written; and without a chunk of stdout, waiting for window is waiting for stderr. */
  ghost predicate ErrOk(s: Side) {
    && ErrBytes(s.log) <= s.writtenErr
    && (!s.writingErr ==> ErrBytes(s.log) == s.writtenErr)
    && (s.writingErr && s.outState == Open ==>
          && s.chunkErr.Some? && s.chunkErr.value != []
          && ErrBytes(s.log) + s.chunkErr.value == s.writtenErr)
    && (s.outState == Open && s.chunk.None? ==> (s.waitWindow <==> s.writingErr))
    && (s.waitWindow ==> s.outWindow == 0)
  }

  /** Nothing about stderr but perhaps the state has changed. */
  ghost predicate SameErr(s: Side, t: Side) {
    && ErrBytes(t.log) == ErrBytes(s.log) && t.writtenErr == s.writtenErr
    && t.writingErr == s.writingErr && t.chunkErr == s.chunkErr
    && t.waitWindow == s.waitWindow && t.chunk == s.chunk && t.outWindow == s.outWindow
    && (t.outState == Open ==> s.outState == Open)
  }

  lemma NoErrBytes(log: seq<Msg>, m: Msg)
    requires !m.ExtData?
    ensures ErrBytes(log + [m]) == ErrBytes(log)
  {
    OneMore(log, m);
    assert ErrBytes(log) + [] == ErrBytes(log);
  }

  /** A stdout write sends no stderr. */
  lemma OutWriteErr(called: bool, s: Side, data: Bytes)
    ensures var t := WriteOut(called, s, data);
            && ErrBytes(t.log) == ErrBytes(s.log) && t.writtenErr == s.writtenErr
            && t.writingErr == s.writingErr && t.chunkErr == s.chunkErr && t.outState == s.outState
            && (s.chunk.Some? ==> t.chunk.Some?)
  {
    PiecesBytes(s.log, data[..Room(s, data)], s.packetSize, false);
    hide OutBytes, ErrBytes, Pieces, Left;
    assert ErrBytes(s.log) + [] == ErrBytes(s.log);
  }

  /** What a stdout write does to the waiting. */
  lemma OutWriteWaits(called: bool, s: Side, data: Bytes)
    requires s.outWindow >= 0 && (s.waitWindow ==> s.outWindow == 0)
    ensures var t := WriteOut(called, s, data);
            && t.outWindow >= 0 && (t.waitWindow ==> t.outWindow == 0)
            && (t.chunk.None? ==> t.waitWindow == s.waitWindow && s.chunk.None?)
  {
    hide Sends, Left;
  }

  lemma OutWriteKeeps(s: Side, data: Bytes)
    requires s.outWindow >= 0 && ErrOk(s)
    ensures ErrOk(WriteOut(true, s, data))
  {
    OutWriteErr(true, s, data);
    OutWriteWaits(true, s, data);
    hide WriteOut, ErrBytes;
  }

  /** What a stderr write sends. */
  lemma ErrSends(s: Side, data: Bytes)
    ensures ErrBytes(s.log + Sends(s, data, true)) == ErrBytes(s.log) + data[..Room(s, data)]
    ensures ErrBytes(s.log) + data == (ErrBytes(s.log) + data[..Room(s, data)]) + Left(s, data)
    ensures Room(s, data) == |data| ==> data[..Room(s, data)] == data
    ensures Room(s, data) < |data| ==> Left(s, data) != []
  {
    var n := Room(s, data);
    PiecesBytes(s.log, data[..n], s.packetSize, true);
    hide OutBytes, ErrBytes, Pieces;
    assert data == data[..n] + data[n..];
    Assoc(ErrBytes(s.log), data[..n], data[n..]);
  }

  /** A stderr write: begun, or taken up again. */
  lemma ErrWriteKeeps(s: Side, data: Bytes)
    requires s.outWindow >= 0 && s.outState == Open && s.writingErr
    requires ErrBytes(s.log) + data == s.writtenErr && (s.chunk.None? ==> !s.waitWindow)
    requires s.waitWindow ==> s.outWindow == 0
    ensures var t := WriteErrOut(true, s, data);
            ErrOk(t) && ErrBytes(t.log) == ErrBytes(s.log) + data[..Room(s, data)]
  {
    ErrSends(s, data);
    assert Room(s, data) < |data| ==> Room(s, data) == s.outWindow;
    assert s.outWindow == 0 ==> Room(s, data) == 0;
    hide Room, Sends, Left, ErrBytes;
  }

  lemma WritesErrKeeps(s: Side, data: Bytes)
    requires s.outWindow >= 0 && ErrOk(s) && !s.writingErr
    ensures ErrOk(After(s, WritesErr(data)))
  {
    hide ErrBytes;
    if s.outState == Open {
      hide WriteErrOut;
      ErrWriteKeeps(s.(writingErr := true, writtenErr := s.writtenErr + data), data);
    }
  }

  /** What a grant comes to for stderr. */
  lemma GrantErr(s: Side, amount: nat)
    requires s.outWindow >= 0 && ErrOk(s)
    ensures ErrOk(OnAdjust(s, amount))
    ensures s.chunk.Some? ==>
              var t := OnAdjust(s, amount);
              && t.chunk.Some? && t.outState == s.outState
              && ErrBytes(t.log) == ErrBytes(s.log) && t.writingErr == s.writingErr && t.writtenErr == s.writtenErr
    ensures s.chunk.None? && s.live && s.writingErr && s.outState == Open ==>
              var rest := s.chunkErr.value;
              ErrBytes(OnAdjust(s, amount).log) == ErrBytes(s.log) + rest[..Min(|rest|, amount)]
  {
    hide ErrBytes, Sends, Left, Room, WriteOut, WriteErrOut;
    var wakes := s.live && s.waitWindow;
    var s1 := s.(outWindow := s.outWindow + if s.live then amount else 0, waitWindow := s.waitWindow && !s.live);
    if s.chunk.Some? {
      OutWriteErr(wakes, s1, s.chunk.value);
      OutWriteWaits(wakes, s1, s.chunk.value);
      ErrNotCalled(WriteOut(wakes, s1, s.chunk.value), s.chunkErr.GetOr([]));
    } else {
      OutNotCalled(s1, []);
      if wakes && s.chunkErr.Some? && s.outState == Open {
        ErrWriteKeeps(s1, s.chunkErr.value);
        RoomIs(s1, s.chunkErr.value);
      } else {
        ErrNotOpen(wakes && s.chunkErr.Some?, s1, s.chunkErr.GetOr([]));
      }
    }
  }

  lemma RoomIs(s: Side, data: Bytes)
    requires s.outWindow >= 0
    ensures Room(s, data) == Min(|data|, s.outWindow)
  {
  }

  lemma ErrNotCalled(s: Side, data: Bytes)
    ensures WriteErrOut(false, s, data) == s
  {
  }

  lemma OutNotCalled(s: Side, data: Bytes)
    ensures WriteOut(false, s, data) == s
  {
  }

  lemma ErrNotOpen(called: bool, s: Side, data: Bytes)
    requires !called || s.outState != Open
    ensures WriteErrOut(called, s, data) == s
  {
  }

  lemma SentNoErr(s: Side)
    ensures SameErr(s, SendEof(s)) && SameErr(s, SendClose(s))
  {
    hide ErrBytes;
    NoErrBytes(s.log, Eof);
    NoErrBytes(s.log, Close);
  }

  lemma GrantedNoErr(s: Side, called: bool)
    ensures SameErr(s, WindowAdjust(called, s))
  {
    hide ErrBytes;
    if s.inWindow < MAX_WINDOW {
      NoErrBytes(s.log, Adjust(MAX_WINDOW - s.inWindow));
    }
  }

  lemma ArrivedNoErr(s: Side, m: Msg)
    requires !m.Adjust?
    ensures SameErr(s, Receive(s, m))
  {
    hide SameErr;
    match m
    case Data(data) => TookNoErr(s, m, data);
    case ExtData(data) => TookNoErr(s, m, data);
    case Eof => EndedNoErr(s);
    case Close => EndedNoErr(s);
  }

  lemma TookNoErr(s: Side, m: Msg, data: Bytes)
    ensures SameErr(s, OnData(s.(seen := s.seen + [m]), data))
    ensures SameErr(s, OnExtData(s.(seen := s.seen + [m]), data))
  {
    hide ErrBytes;
  }

  lemma EndedNoErr(s: Side)
    ensures SameErr(s, OnEof(s.(seen := s.seen + [Eof])))
    ensures SameErr(s, OnClose(s.(seen := s.seen + [Close])))
  {
    NoErrBytes(s.log, Close);
    hide ErrBytes;
  }

  /** What neither writes nor grants has nothing to do with stderr. */
  lemma OtherErr(s: Side, e: Event)
    requires e.Ends? || e.Closes? || e.Reads? || e.PushReturns? || (e.Arrives? && !e.msg.Adjust?)
    ensures SameErr(s, After(s, e))
  {
    hide ErrBytes, WindowAdjust, SendEof, SendClose, Receive;
    match e
    case Ends => SentNoErr(s);
    case Closes => SentNoErr(s);
    case Reads => GrantedNoErr(s, s.waitDrain && s.inWindow <= WINDOW_THRESHOLD);
    case PushReturns(more) => GrantedNoErr(s, more && s.inWindow <= WINDOW_THRESHOLD);
    case Arrives(m) => ArrivedNoErr(s, m);
  }

  lemma KeepsErr(s: Side, e: Event)
    requires s.outWindow >= 0 && ErrOk(s) && Enabled(s, e)
    ensures ErrOk(After(s, e))
  {
    hide ErrBytes, OnAdjust;
    match e
    case Writes(data) =>
      hide WriteOut;
      OutWriteKeeps(s.(writing := true, written := s.written + data), data);
    case WritesErr(data) =>
      hide After;
      WritesErrKeeps(s, data);
    case Arrives(m) =>
      if m.Adjust? {
        GrantErr(s.(seen := s.seen + [m]), m.amount);
      } else {
        hide After;
        OtherErr(s, e);
      }
    case _ =>
      hide After;
      OtherErr(s, e);
  }

  lemma {:induction false} AlwaysErrOk(clientSize: PacketSize, serverSize: PacketSize, steps: seq<Step>)
    requires Run(Initial(clientSize, serverSize), steps)
    ensures var sys := Exec(Initial(clientSize, serverSize), steps);
            Inv(sys) && ErrOk(sys.client) && ErrOk(sys.server)
    decreases |steps|
  {
    RunKeeps(clientSize, serverSize, steps);
    if steps != [] {
      var init, last := steps[..|steps| - 1], steps[|steps| - 1];
      var before := Exec(Initial(clientSize, serverSize), init);
      AlwaysErrOk(clientSize, serverSize, init);
      assert Self(before, last.server).outWindow >= 0;
      hide Inv, ErrOk, After;
      KeepsErr(Self(before, last.server), last.event);
    }
  }

  /** In every run, whatever happens on stdout: the stderr bytes the reader has are a prefix of those
      written, the rest is on its way or exactly what a stalled write has kept, and a reader that
      has seen EOF or CLOSE has all of them, if the last write was completed. */
  lemma ErrIsPrefixOfWritten(clientSize: PacketSize, serverSize: PacketSize, steps: seq<Step>)
    requires Run(Initial(clientSize, serverSize), steps)
    ensures var sys := Exec(Initial(clientSize, serverSize), steps);
            var w, r := sys.server, sys.client;
            && r.receivedErr <= ErrBytes(w.log) <= w.writtenErr
            && (InFlight(w, r) == [] ==> r.receivedErr == ErrBytes(w.log))
            && (w.writingErr && w.outState == Open ==>
                  w.chunkErr.Some? && ErrBytes(w.log) + w.chunkErr.value == w.writtenErr)
            && (!w.writingErr ==> ErrBytes(w.log) == w.writtenErr)
            && (r.inState != Open && !w.writingErr ==> r.receivedErr == w.writtenErr)
  {
    AlwaysErrOk(clientSize, serverSize, steps);
    var sys := Exec(Initial(clientSize, serverSize), steps);
    var w, r := sys.server, sys.client;
    assert r.seen <= w.log && BooksOk(r) && BooksOk(w) && ErrOk(w) && !r.server;
    hide Exec, Run, Inv, OutBytes, ErrBytes, Walk;
    Monotone(r.seen, w.log);
    if InFlight(w, r) == [] {
      assert r.seen == w.log;
    }
    if r.inState != Open {
      NoDataAfterTheEnd(r.seen, w.log);
    }
  }

  // ----- A stalled write -----

  predicate ErrStalled(s: Side) {
    s.writingErr && s.outState == Open
  }

  /** A grant takes up a stalled stderr write, as far as it reaches, exactly if stdout keeps no
      chunk. */
  lemma ResumedUnlessChunk(clientSize: PacketSize, serverSize: PacketSize, steps: seq<Step>, amount: nat)
    requires Run(Initial(clientSize, serverSize), steps) && amount > 0
    requires ErrStalled(Exec(Initial(clientSize, serverSize), steps).server)
    ensures var w := Exec(Initial(clientSize, serverSize), steps).server;
            var t := Receive(w, Adjust(amount));
            && w.chunkErr.Some?
            && ErrBytes(t.log) == ErrBytes(w.log)
                                 + (if w.chunk.None? then w.chunkErr.value[..Min(|w.chunkErr.value|, amount)] else [])
            && (ErrBytes(t.log) != ErrBytes(w.log) <==> w.chunk.None?)
  {
    hide *;
    AlwaysErrOk(clientSize, serverSize, steps);
    GrantResumes(Exec(Initial(clientSize, serverSize), steps), amount);
  }

  lemma GrantResumes(sys: Sys, amount: nat)
    requires Inv(sys) && ErrOk(sys.server) && ErrStalled(sys.server) && amount > 0
    ensures var w := sys.server;
            var t := Receive(w, Adjust(amount));
            && w.chunkErr.Some?
            && ErrBytes(t.log) == ErrBytes(w.log)
                                 + (if w.chunk.None? then w.chunkErr.value[..Min(|w.chunkErr.value|, amount)] else [])
            && (ErrBytes(t.log) != ErrBytes(w.log) <==> w.chunk.None?)
  {
    hide ErrBytes, OnAdjust, DataLen, Credit, OutBytes, Walk;
    var w := sys.server;
    GrantErr(w.(seen := w.seen + [Adjust(amount)]), amount);
    NoMoreBytes(ErrBytes(w.log));
  }

  /** With no chunk of stdout kept and nothing on its way in either direction, a stalled stderr write
      waits for the client's reader alone: when that reads, the whole window is granted again and
      the write goes on from the first byte not yet sent. */
  lemma OnlyTheClientIsWaitedFor(clientSize: PacketSize, serverSize: PacketSize, steps: seq<Step>)
    requires Run(Initial(clientSize, serverSize), steps)
    ensures var sys := Exec(Initial(clientSize, serverSize), steps);
            var w, r := sys.server, sys.client;
            ErrStalled(w) && w.chunk.None? && InFlight(w, r) == [] && InFlight(r, w) == [] && !r.pushing ==>
              && w.outWindow == 0 && r.inWindow == 0 && r.waitDrain && w.live && r.live
              && Read(r).log == r.log + [Adjust(MAX_WINDOW)]
              && w.chunkErr.Some? && w.chunkErr.value != []
              && var w1 := Receive(w, Adjust(MAX_WINDOW));
              && ErrBytes(w1.log) == ErrBytes(w.log) + w.chunkErr.value[..Min(|w.chunkErr.value|, MAX_WINDOW)]
  {
    hide *;
    AlwaysErrOk(clientSize, serverSize, steps);
    NobodyElse(Exec(Initial(clientSize, serverSize), steps));
  }

  lemma NobodyElse(sys: Sys)
    requires Inv(sys) && ErrOk(sys.server)
    ensures var w, r := sys.server, sys.client;
            ErrStalled(w) && w.chunk.None? && InFlight(w, r) == [] && InFlight(r, w) == [] && !r.pushing ==>
              && w.outWindow == 0 && r.inWindow == 0 && r.waitDrain && w.live && r.live
              && Read(r).log == r.log + [Adjust(MAX_WINDOW)]
              && w.chunkErr.Some? && w.chunkErr.value != []
              && var w1 := Receive(w, Adjust(MAX_WINDOW));
              && ErrBytes(w1.log) == ErrBytes(w.log) + w.chunkErr.value[..Min(|w.chunkErr.value|, MAX_WINDOW)]
  {
    hide DataLen, Credit, OutBytes, ErrBytes, Walk, OnAdjust;
    var w, r := sys.server, sys.client;
    if ErrStalled(w) && w.chunk.None? && InFlight(w, r) == [] && InFlight(r, w) == [] && !r.pushing {
      assert r.seen == w.log && w.seen == r.log;
      GrantErr(w.(seen := w.seen + [Adjust(MAX_WINDOW)]), MAX_WINDOW);
    }
  }

  /** Stalled behind a chunk of stdout. */
  predicate Stuck(s: Side) {
    s.writingErr && s.chunk.Some?
  }

  lemma StaysStuck(s: Side, e: Event)
    requires s.outWindow >= 0 && ErrOk(s) && Enabled(s, e) && Stuck(s)
    ensures var t := After(s, e); Stuck(t) && ErrBytes(t.log) == ErrBytes(s.log) && t.writtenErr == s.writtenErr
  {
    hide ErrBytes, OnAdjust;
    match e
    case Writes(data) =>
      hide WriteOut;
      OutWriteErr(true, s.(writing := true, written := s.written + data), data);
    case Arrives(m) =>
      if m.Adjust? {
        GrantErr(s.(seen := s.seen + [m]), m.amount);
      } else {
        hide After;
        OtherErr(s, e);
      }
    case _ =>
      hide After;
      OtherErr(s, e);
  }

  lemma NextStuck(sys: Sys, server: bool, e: Event)
    requires Inv(sys) && ErrOk(sys.server) && Possible(sys, server, e) && Stuck(sys.server)
    ensures var w, t := sys.server, Next(sys, server, e).server;
            Stuck(t) && ErrBytes(t.log) == ErrBytes(w.log) && t.writtenErr == w.writtenErr
  {
    hide ErrOk, ErrBytes, After, Enabled, Stuck, StatesOk, StreamsOk;
    if server {
      StaysStuck(sys.server, e);
    }
  }

  lemma LastStep(start: Sys, steps: seq<Step>, last: Step)
    requires Run(start, steps + [last])
    ensures Run(start, steps) && Possible(Exec(start, steps), last.server, last.event)
    ensures Exec(start, steps + [last]) == Next(Exec(start, steps), last.server, last.event)
  {
    assert (steps + [last])[..|steps|] == steps;
  }

  /** Whatever is read, granted or written afterwards: a stderr write stalled behind a chunk of stdout
      is never completed, nothing of the rest is ever sent, and no other write can follow it. */
  lemma {:induction false} NeverResumed(clientSize: PacketSize, serverSize: PacketSize, steps: seq<Step>,
                                        more: seq<Step>)
    requires Run(Initial(clientSize, serverSize), steps + more)
    requires Stuck(Exec(Initial(clientSize, serverSize), steps).server)
    ensures var start := Initial(clientSize, serverSize);
            var w, t := Exec(start, steps).server, Exec(start, steps + more).server;
            && Stuck(t) && ErrBytes(t.log) == ErrBytes(w.log) && t.writtenErr == w.writtenErr
            && forall data: Bytes :: !Enabled(t, WritesErr(data))
    decreases |more|
  {
    hide *;
    var start := Initial(clientSize, serverSize);
    if more == [] {
      assert steps + more == steps;
    } else {
      var init, last := more[..|more| - 1], more[|more| - 1];
      assert steps + more == (steps + init) + [last];
      LastStep(start, steps + init, last);
      NeverResumed(clientSize, serverSize, steps, init);
      AlwaysErrOk(clientSize, serverSize, steps + init);
      NextStuck(Exec(start, steps + init), last.server, last.event);
    }
    StuckIsBusy(Exec(start, steps + more).server);
  }

  lemma StuckIsBusy(s: Side)
    requires Stuck(s)
    ensures forall data: Bytes :: !Enabled(s, WritesErr(data))
  {
  }

  /** It does come about: a stdout write of one byte more than the window, then one of any length to
      stderr. */
  lemma StuckHappens(data: Bytes) returns (steps: seq<Step>)
    requires data != []
    ensures var start := Initial(1, MAX_WINDOW);
            Run(start, steps) && NoStaleStall(start, steps) && Stuck(Exec(start, steps).server)
  {
    hide Exec, Run, NoStaleStall, After, Zeros, Stalled;
    var start := Initial(1, MAX_WINDOW);
    FromFreshToStalled();
    StalledErr(data);
    StartOf(start);
    steps := [];
    StepOn(start, steps, Step(true, Writes(Zeros(MAX_WINDOW + 1))), start);
    steps := steps + [Step(true, Writes(Zeros(MAX_WINDOW + 1)))];
    StepOn(start, steps, Step(true, WritesErr(data)), Sys(start.client, Stalled()));
    steps := steps + [Step(true, WritesErr(data))];
  }

  lemma StalledErr(data: Bytes)
    requires data != []
    ensures Stalled().server && Stalled().writing && !Stalled().writingErr
    ensures Stuck(After(Stalled(), WritesErr(data)))
  {
    hide Zeros, Sends;
  }
}
