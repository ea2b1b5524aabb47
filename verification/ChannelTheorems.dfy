/** What holds of every run of two channel ends. */
module ChannelTheorems {
  import opened Common
  import opened ChannelModel
  import opened ChannelSafety

  lemma EventKeeps(s: Side, e: Event)
    requires BooksOk(s) && DrainOk(s) && Enabled(s, e) && (e.Arrives? ==> Acceptable(s, e.msg))
    ensures BooksOk(After(s, e)) && DrainOk(After(s, e))
  {
    match e
    case Writes(data) =>
      WriteKeeps(true, s.(writing := true, written := s.written + data), data);
    case WritesErr(data) =>
      WriteErrKeeps(true, s.(writingErr := true, writtenErr := s.writtenErr + data), data);
    case Ends =>
      hide BooksOk;
      CloseKeeps(s);
    case Closes =>
      hide BooksOk;
      CloseKeeps(s);
    case Reads =>
      hide BooksOk, DrainOk, Read;
      ReadKeeps(s);
    case PushReturns(more) =>
      hide BooksOk, DrainOk, Pushed;
      PushedKeeps(s, more);
    case Arrives(m) =>
      hide BooksOk, DrainOk, Receive;
      if m.Data? || m.ExtData? {
        DataKeeps(s, m);
      } else if m.Adjust? {
        CreditKeeps(s, m.amount);
      } else {
        EndKeeps(s, m);
      }
  }

  // ----- Both ends -----

  ghost predicate Inv(sys: Sys) {
    && BooksOk(sys.client) && DrainOk(sys.client) && !sys.client.server
    && BooksOk(sys.server) && DrainOk(sys.server) && sys.server.server
    && sys.client.seen <= sys.server.log
    && sys.server.seen <= sys.client.log
  }

  /** Whatever comes next, the end it comes to can take it: in particular there is window for it. */
  lemma ArrivalAcceptable(sys: Sys, server: bool)
    requires Inv(sys) && |Self(sys, server).seen| < |Self(sys, !server).log|
    ensures Acceptable(Self(sys, server), Self(sys, !server).log[|Self(sys, server).seen|])
  {
    var me, peer := Self(sys, server), Self(sys, !server);
    var m := peer.log[|me.seen|];
    assert me.seen + [m] <= peer.log;
    Monotone(me.seen + [m], peer.log);
    Monotone(peer.seen, me.log);
    WalkPrefix(me.seen + [m], peer.log);
    OneMore(me.seen, m);
    WalkOneMore(me.seen, m);
    hide DataLen, Credit, OutBytes, ErrBytes, Walk;
  }

  /** Nothing already sent is taken back. */
  lemma AfterGrows(s: Side, e: Event)
    ensures s.log <= After(s, e).log
    ensures After(s, e).seen == if e.Arrives? then s.seen + [e.msg] else s.seen
    ensures After(s, e).server == s.server
  {
    hide Receive, Room, Sends, Left;
    if e.Arrives? {
      ReceiveGrows(s, e.msg);
    }
  }

  lemma ReceiveGrows(s: Side, m: Msg)
    ensures s.log <= Receive(s, m).log
    ensures Receive(s, m).seen == s.seen + [m]
    ensures Receive(s, m).server == s.server
  {
    hide OnData, OnExtData, OnAdjust, OnEof, OnClose;
    var s1 := s.(seen := s.seen + [m]);
    match m
    case Data(data) => TakingGrows(s1, data);
    case ExtData(data) => TakingGrows(s1, data);
    case Adjust(amount) => AdjustGrows(s1, amount);
    case Eof => EndingGrows(s1);
    case Close => EndingGrows(s1);
  }

  lemma TakingGrows(s: Side, data: Bytes)
    ensures OnData(s, data).log == OnExtData(s, data).log == s.log
    ensures OnData(s, data).seen == OnExtData(s, data).seen == s.seen
    ensures OnData(s, data).server == OnExtData(s, data).server == s.server
  {
  }

  lemma EndingGrows(s: Side)
    ensures s.log <= OnEof(s).log && s.log <= OnClose(s).log
    ensures OnEof(s).seen == OnClose(s).seen == s.seen
    ensures OnEof(s).server == OnClose(s).server == s.server
  {
  }

  lemma AdjustGrows(s: Side, amount: nat)
    ensures s.log <= OnAdjust(s, amount).log
    ensures OnAdjust(s, amount).seen == s.seen && OnAdjust(s, amount).server == s.server
  {
    var wakes := s.live && s.waitWindow;
    var s1 := s.(outWindow := s.outWindow + if s.live then amount else 0, waitWindow := s.waitWindow && !s.live);
    var s2 := WriteOut(wakes && s.chunk.Some?, s1, s.chunk.GetOr([]));
    WriteGrows(wakes && s.chunk.Some?, s1, s.chunk.GetOr([]));
    WriteGrows(wakes && s.chunk.None? && s.chunkErr.Some?, s2, s.chunkErr.GetOr([]));
    hide WriteOut, WriteErrOut;
  }

  lemma WriteGrows(called: bool, s: Side, data: Bytes)
    ensures s.log <= WriteOut(called, s, data).log && s.log <= WriteErrOut(called, s, data).log
    ensures WriteOut(called, s, data).seen == WriteErrOut(called, s, data).seen == s.seen
    ensures WriteOut(called, s, data).server == WriteErrOut(called, s, data).server == s.server
  {
    hide Room, Sends, Left;
  }

  lemma NextKeeps(sys: Sys, server: bool, e: Event)
    requires Inv(sys) && Possible(sys, server, e)
    ensures Inv(Next(sys, server, e))
  {
    hide BooksOk, DrainOk, After, Acceptable;
    var me, peer := Self(sys, server), Self(sys, !server);
    if e.Arrives? {
      ArrivalAcceptable(sys, server);
      assert me.seen + [e.msg] <= peer.log;
    }
    EventKeeps(me, e);
    AfterGrows(me, e);
  }

  lemma {:induction false} RunKeeps(clientSize: PacketSize, serverSize: PacketSize, steps: seq<Step>)
    requires Run(Initial(clientSize, serverSize), steps)
    ensures Inv(Exec(Initial(clientSize, serverSize), steps))
    decreases |steps|
  {
    if steps != [] {
      var init, last := steps[..|steps| - 1], steps[|steps| - 1];
      RunKeeps(clientSize, serverSize, init);
      hide Inv, Next, Possible;
      NextKeeps(Exec(Initial(clientSize, serverSize), init), last.server, last.event);
    }
  }

  /** What has been sent to `to` and not arrived. */
  function InFlight(from: Side, to: Side): seq<Msg> {
    if |to.seen| <= |from.log| then from.log[|to.seen|..] else []
  }

  lemma {:induction false} SumsSplit(a: seq<Msg>, b: seq<Msg>)
    ensures DataLen(a + b) == DataLen(a) + DataLen(b) && Credit(a + b) == Credit(a) + Credit(b)
    decreases |b|
  {
    if b == [] {
      assert a + b == a;
    } else {
      var init, m := b[..|b| - 1], b[|b| - 1];
      SumsSplit(a, init);
      OneMore(init, m);
      OneMore(a + init, m);
      assert init + [m] == b && (a + init) + [m] == a + b;
    }
  }

  lemma CreditBetween(w: Side, r: Side)
    requires BooksOk(w) && BooksOk(r) && r.seen <= w.log && w.seen <= r.log
    ensures var out := w.outWindow + DataLen(InFlight(w, r)) + Credit(InFlight(r, w));
            && (w.live ==> r.inWindow == out)
            && out <= r.inWindow
            && 0 <= w.outWindow <= MAX_WINDOW && 0 <= r.inWindow <= MAX_WINDOW
  {
    assert w.log == r.seen + InFlight(w, r) && r.log == w.seen + InFlight(r, w);
    SumsSplit(r.seen, InFlight(w, r));
    SumsSplit(w.seen, InFlight(r, w));
    hide DataLen, Credit, InFlight, StatesOk, StreamsOk;
  }

  /** Window credit is conserved in each direction: what the reader has granted is what the
      writer may still use, plus data on its way, plus grants on their way. Only a writer that
      has gone away stops counting the grants that reach it. */
  lemma CreditConserved(clientSize: PacketSize, serverSize: PacketSize, steps: seq<Step>, writer: bool)
    requires Run(Initial(clientSize, serverSize), steps)
    ensures var sys := Exec(Initial(clientSize, serverSize), steps);
            var w, r := Self(sys, writer), Self(sys, !writer);
            var out := w.outWindow + DataLen(InFlight(w, r)) + Credit(InFlight(r, w));
            && (w.live ==> r.inWindow == out)
            && out <= r.inWindow
            && 0 <= w.outWindow <= MAX_WINDOW && 0 <= r.inWindow <= MAX_WINDOW
  {
    RunKeeps(clientSize, serverSize, steps);
    var sys := Exec(Initial(clientSize, serverSize), steps);
    hide *;
    assert Inv(sys);
    CreditOf(sys, writer);
  }

  lemma CreditOf(sys: Sys, writer: bool)
    requires Inv(sys)
    ensures var w, r := Self(sys, writer), Self(sys, !writer);
            var out := w.outWindow + DataLen(InFlight(w, r)) + Credit(InFlight(r, w));
            && (w.live ==> r.inWindow == out)
            && out <= r.inWindow
            && 0 <= w.outWindow <= MAX_WINDOW && 0 <= r.inWindow <= MAX_WINDOW
  {
    hide BooksOk, DataLen, Credit, InFlight;
    CreditBetween(Self(sys, writer), Self(sys, !writer));
  }

  /** Data never arrives at an id that is gone or without window left for all of it, so the
      branch that drops data is never taken; and it comes in pieces the peer allows. */
  lemma NoDataDropped(clientSize: PacketSize, serverSize: PacketSize, steps: seq<Step>, reader: bool)
    requires Run(Initial(clientSize, serverSize), steps)
    ensures var sys := Exec(Initial(clientSize, serverSize), steps);
            var r, w := Self(sys, reader), Self(sys, !reader);
            && r.seen <= w.log
            && (|r.seen| < |w.log| && (w.log[|r.seen|].Data? || w.log[|r.seen|].ExtData?) ==>
                  var data := w.log[|r.seen|].data;
                  && r.live && 0 < |data| <= r.inWindow
                  && var r1 := Receive(r, w.log[|r.seen|]);
                  && r1.pushing && r1.inWindow == r.inWindow - |data|
                  && (w.log[|r.seen|].Data? ==> r1.received == r.received + data)
                  && (w.log[|r.seen|].ExtData? ==> r1.receivedErr == r.receivedErr + data))
  {
    RunKeeps(clientSize, serverSize, steps);
    var sys := Exec(Initial(clientSize, serverSize), steps);
    hide Exec, Run, DataLen, Credit, OutBytes, ErrBytes, Walk, DrainOk;
    if |Self(sys, reader).seen| < |Self(sys, !reader).log| {
      ArrivalAcceptable(sys, reader);
    }
  }

  // ----- The written stream -----

  /** What the kept chunk means: while a write waits for window, what was sent and the chunk make
      up exactly what was written. */
  ghost predicate WriterOk(s: Side) {
    && OutBytes(s.log) <= s.written
    && (!s.writing ==> OutBytes(s.log) == s.written)
    && (s.writing && s.outState == Open ==>
          s.waitWindow && s.chunk.Some? && OutBytes(s.log) + s.chunk.value == s.written)
    && (s.waitWindow && s.chunk.Some? && s.outState == Open ==> s.writing)
    && (s.waitWindow ==> s.outWindow == 0)
    && (s.chunk.Some? ==> s.chunk.value != [])
  }

  /** A stderr write that does not fit, while the chunk of a stdout write that has since been
      completed is still kept. */
  predicate StaleStall(s: Side, e: Event) {
    e.WritesErr? && s.outState == Open && Room(s, e.data) < |e.data| && s.chunk.Some? && !s.writing
  }

  lemma WriteStream(called: bool, s: Side, data: Bytes)
    requires s.outWindow >= 0 && s.writing && OutBytes(s.log) <= s.written
    requires s.outState == Open ==> called && OutBytes(s.log) + data == s.written
    requires s.waitWindow ==> s.outWindow == 0 && (s.outState == Open ==> s.chunk.None?)
    requires s.chunk.Some? ==> s.chunk.value != []
    ensures WriterOk(WriteOut(called, s, data))
  {
    if s.outState == Open {
      var n := Room(s, data);
      PiecesBytes(s.log, data[..n], s.packetSize, false);
      hide OutBytes, ErrBytes, Pieces;
      assert data == data[..n] + data[n..];
      Assoc(OutBytes(s.log), data[..n], data[n..]);
    }
  }

  lemma WriteErrStream(called: bool, s: Side, data: Bytes)
    requires s.outWindow >= 0 && WriterOk(s)
    ensures var stale := called && s.outState == Open && Room(s, data) < |data| && s.chunk.Some? && !s.writing;
            WriterOk(WriteErrOut(called, s, data)) <==> !stale
  {
    if called && s.outState == Open {
      PiecesBytes(s.log, data[..Room(s, data)], s.packetSize, true);
    }
    hide OutBytes, ErrBytes, Pieces, Left;
    assert OutBytes(s.log) + [] == OutBytes(s.log);
  }

  lemma AdjustStream(s: Side, amount: nat)
    requires s.outWindow >= 0 && WriterOk(s)
    ensures WriterOk(OnAdjust(s, amount))
  {
    hide WriterOk, Room, Sends, Left, WriteOut, WriteErrOut;
    var wakes := s.live && s.waitWindow;
    var s1 := s.(outWindow := s.outWindow + if s.live then amount else 0, waitWindow := s.waitWindow && !s.live);
    var s2 := WriteOut(wakes && s.chunk.Some?, s1, s.chunk.GetOr([]));
    StdoutWakes(s, amount, s1);
    WriteErrStream(wakes && s.chunk.None? && s.chunkErr.Some?, s2, s.chunkErr.GetOr([]));
  }

  lemma StdoutWakes(s: Side, amount: nat, s1: Side)
    requires s.outWindow >= 0 && WriterOk(s)
    requires s1 == s.(outWindow := s.outWindow + if s.live then amount else 0, waitWindow := s.waitWindow && !s.live)
    ensures var wakes := s.live && s.waitWindow;
            var s2 := WriteOut(wakes && s.chunk.Some?, s1, s.chunk.GetOr([]));
            && WriterOk(s2) && s2.outWindow >= 0 && s2.outState == s.outState
            && (wakes && s.chunk.None? && s.chunkErr.Some? && s.outState == Open ==> s2.chunk.None?)
  {
    hide OutBytes, Sends, Left;
    if s.live && s.waitWindow && s.chunk.Some? && s.outState == Open {
      WriteStream(true, s1, s.chunk.value);
    }
  }

  ghost predicate SameStream(s: Side, t: Side) {
    && OutBytes(t.log) == OutBytes(s.log) && t.written == s.written
    && t.writing == s.writing && t.waitWindow == s.waitWindow && t.chunk == s.chunk && t.outWindow == s.outWindow
    && (t.outState == Open ==> s.outState == Open)
  }

  /** Messages that carry no stdout data leave the stream alone. */
  lemma NoBytes(log: seq<Msg>, m: Msg)
    requires !m.Data?
    ensures OutBytes(log + [m]) == OutBytes(log)
  {
    OneMore(log, m);
    assert OutBytes(log) + [] == OutBytes(log);
  }

  /** What does not write leaves the stream alone. */
  lemma OtherStream(s: Side, e: Event)
    requires e.Ends? || e.Closes? || e.Reads? || e.PushReturns?
    ensures SameStream(s, After(s, e))
  {
    hide OutBytes, WindowAdjust, SendEof, SendClose;
    match e
    case Ends => SentNothing(s);
    case Closes => SentNothing(s);
    case Reads => GrantedOnly(s, s.waitDrain && s.inWindow <= WINDOW_THRESHOLD);
    case PushReturns(more) => GrantedOnly(s, more && s.inWindow <= WINDOW_THRESHOLD);
  }

  lemma SentNothing(s: Side)
    ensures SameStream(s, SendEof(s)) && SameStream(s, SendClose(s))
  {
    hide OutBytes;
    NoBytes(s.log, Eof);
    NoBytes(s.log, Close);
  }

  lemma GrantedOnly(s: Side, called: bool)
    ensures SameStream(s, WindowAdjust(called, s))
  {
    hide OutBytes;
    if s.inWindow < MAX_WINDOW {
      NoBytes(s.log, Adjust(MAX_WINDOW - s.inWindow));
    }
  }

  lemma ArrivalStream(s: Side, m: Msg)
    requires !m.Adjust?
    ensures SameStream(s, Receive(s, m))
  {
    hide SameStream;
    match m
    case Data(data) => DataStream(s, m, data);
    case ExtData(data) => DataStream(s, m, data);
    case Eof => EndStream(s);
    case Close => EndStream(s);
  }

  lemma DataStream(s: Side, m: Msg, data: Bytes)
    ensures SameStream(s, OnData(s.(seen := s.seen + [m]), data))
    ensures SameStream(s, OnExtData(s.(seen := s.seen + [m]), data))
  {
    hide OutBytes;
  }

  lemma EndStream(s: Side)
    ensures SameStream(s, OnEof(s.(seen := s.seen + [Eof])))
    ensures SameStream(s, OnClose(s.(seen := s.seen + [Close])))
  {
    NoBytes(s.log, Close);
    hide OutBytes;
  }

  lemma WritesStream(s: Side, data: Bytes)
    requires s.outWindow >= 0 && WriterOk(s) && !s.writing
    ensures WriterOk(After(s, Writes(data)))
  {
    hide OutBytes, Room, Sends, Left, WriteOut;
    assert OutBytes(s.log) <= s.written + data;
    WriteStream(true, s.(writing := true, written := s.written + data), data);
  }

  lemma WritesErrStream(s: Side, data: Bytes)
    requires s.outWindow >= 0 && WriterOk(s)
    ensures WriterOk(After(s, WritesErr(data))) <==> !StaleStall(s, WritesErr(data))
  {
    var s1 := s.(writingErr := true, writtenErr := s.writtenErr + data);
    assert WriterOk(s1) && Room(s1, data) == Room(s, data);
    hide OutBytes, Room, Sends, Left, WriteErrOut;
    WriteErrStream(true, s1, data);
  }

  /** Every event keeps the stream and its chunk in order, with exactly one exception. */
  lemma KeepsWriter(s: Side, e: Event)
    requires s.outWindow >= 0 && WriterOk(s) && Enabled(s, e)
    ensures WriterOk(After(s, e)) <==> !StaleStall(s, e)
  {
    hide OutBytes, OnAdjust;
    match e
    case Writes(data) =>
      hide After;
      WritesStream(s, data);
    case WritesErr(data) =>
      hide After, StaleStall;
      WritesErrStream(s, data);
    case Arrives(m) =>
      if m.Adjust? {
        AdjustStream(s.(seen := s.seen + [m]), m.amount);
      } else {
        hide Receive;
        ArrivalStream(s, m);
      }
    case _ =>
      hide After;
      OtherStream(s, e);
  }

  /** No end ever lets a stderr write stall while a stale chunk is kept. On a client, which has no
      stderr to write to, that is no condition. */
  ghost predicate NoStaleStall(start: Sys, steps: seq<Step>)
    decreases |steps|
  {
    steps != [] ==>
      var init, last := steps[..|steps| - 1], steps[|steps| - 1];
      NoStaleStall(start, init) && !StaleStall(Self(Exec(start, init), last.server), last.event)
  }

  lemma {:induction false} WritersOk(clientSize: PacketSize, serverSize: PacketSize, steps: seq<Step>)
    requires Run(Initial(clientSize, serverSize), steps) && NoStaleStall(Initial(clientSize, serverSize), steps)
    ensures var sys := Exec(Initial(clientSize, serverSize), steps);
            Inv(sys) && WriterOk(sys.client) && WriterOk(sys.server)
    decreases |steps|
  {
    var start := Initial(clientSize, serverSize);
    RunKeeps(clientSize, serverSize, steps);
    if steps != [] {
      var init, last := steps[..|steps| - 1], steps[|steps| - 1];
      var before := Exec(start, init);
      WritersOk(clientSize, serverSize, init);
      assert Self(before, last.server).outWindow >= 0;
      hide Inv, WriterOk, StaleStall, After;
      KeepsWriter(Self(before, last.server), last.event);
    }
  }

  /** What the reader has got is a prefix of what the writer wrote; the rest is on its way or is
      exactly the chunk a stalled write has kept. */
  lemma ReceivedIsPrefixOfWritten(clientSize: PacketSize, serverSize: PacketSize, steps: seq<Step>, writer: bool)
    requires Run(Initial(clientSize, serverSize), steps) && NoStaleStall(Initial(clientSize, serverSize), steps)
    ensures var sys := Exec(Initial(clientSize, serverSize), steps);
            var w, r := Self(sys, writer), Self(sys, !writer);
            && r.received <= OutBytes(w.log) <= w.written
            && (InFlight(w, r) == [] ==> r.received == OutBytes(w.log))
            && (w.writing && w.outState == Open ==> w.chunk.Some? && OutBytes(w.log) + w.chunk.value == w.written)
            && (!w.writing ==> OutBytes(w.log) == w.written)
  {
    WritersOk(clientSize, serverSize, steps);
    var sys := Exec(Initial(clientSize, serverSize), steps);
    var w, r := Self(sys, writer), Self(sys, !writer);
    assert r.seen <= w.log && BooksOk(r) && WriterOk(w);
    hide Exec, Run, NoStaleStall, Inv, OutBytes, WindowsOk, StatesOk;
    Monotone(r.seen, w.log);
    if InFlight(w, r) == [] {
      assert r.seen == w.log;
    }
  }

  /** Once the reader has seen EOF or CLOSE it has got everything, if the writer's last write was
      completed. */
  lemma EverythingBeforeTheEnd(clientSize: PacketSize, serverSize: PacketSize, steps: seq<Step>, writer: bool)
    requires Run(Initial(clientSize, serverSize), steps) && NoStaleStall(Initial(clientSize, serverSize), steps)
    ensures var sys := Exec(Initial(clientSize, serverSize), steps);
            var w, r := Self(sys, writer), Self(sys, !writer);
            r.inState != Open && !w.writing ==> r.received == w.written
  {
    WritersOk(clientSize, serverSize, steps);
    var sys := Exec(Initial(clientSize, serverSize), steps);
    var w, r := Self(sys, writer), Self(sys, !writer);
    assert r.seen <= w.log && BooksOk(r) && BooksOk(w) && WriterOk(w);
    hide Exec, Run, NoStaleStall, Inv, OutBytes, Walk;
    if r.inState != Open {
      NoDataAfterTheEnd(r.seen, w.log);
    }
  }

  lemma {:induction false} NoDataAfterTheEnd(a: seq<Msg>, b: seq<Msg>)
    requires a <= b && Walk(b).Some? && Walk(a).Some? && Walk(a).value != Open
    ensures OutBytes(a) == OutBytes(b) && ErrBytes(a) == ErrBytes(b) && Walk(b).value != Open
    decreases |b|
  {
    if |a| == |b| {
      assert a == b;
    } else {
      var init, m := b[..|b| - 1], b[|b| - 1];
      NoDataAfterTheEnd(a, init);
      assert OutBytes(init) + [] == OutBytes(init) && ErrBytes(init) + [] == ErrBytes(init);
    }
  }

  /** A writer that is stalled with nothing on its way in either direction waits for the reader
      alone: the reader's window is used up and remembered, and when it reads, the whole window
      is granted again and the stalled write goes on from the first byte not yet sent. */
  lemma OnlyTheReaderIsWaitedFor(clientSize: PacketSize, serverSize: PacketSize, steps: seq<Step>, writer: bool)
    requires Run(Initial(clientSize, serverSize), steps) && NoStaleStall(Initial(clientSize, serverSize), steps)
    ensures var sys := Exec(Initial(clientSize, serverSize), steps);
            var w, r := Self(sys, writer), Self(sys, !writer);
            w.writing && w.outState == Open && InFlight(w, r) == [] && InFlight(r, w) == [] && !r.pushing ==>
              && w.outWindow == 0 && r.inWindow == 0 && r.waitDrain && w.live && r.live
              && Read(r).log == r.log + [Adjust(MAX_WINDOW)]
              && w.chunk.Some? && w.chunk.value != []
              && var w1 := Receive(w, Adjust(MAX_WINDOW));
              && OutBytes(w1.log) == OutBytes(w.log) + w.chunk.value[..Min(|w.chunk.value|, MAX_WINDOW)]
  {
    WritersOk(clientSize, serverSize, steps);
    var sys := Exec(Initial(clientSize, serverSize), steps);
    var w, r := Self(sys, writer), Self(sys, !writer);
    assert r.seen <= w.log && w.seen <= r.log && BooksOk(r) && BooksOk(w) && DrainOk(r) && WriterOk(w);
    hide Exec, Run, NoStaleStall, Inv;
    if w.writing && w.outState == Open && InFlight(w, r) == [] && InFlight(r, w) == [] && !r.pushing {
      assert r.seen == w.log && w.seen == r.log;
      ReaderWakesWriter(w, r);
    }
  }

  /** While a channel is open, a window that has run low is never forgotten: outside the data handlers
      the next read is sure to open it again. */
  lemma LowWindowIsRemembered(clientSize: PacketSize, serverSize: PacketSize, steps: seq<Step>, server: bool)
    requires Run(Initial(clientSize, serverSize), steps)
    ensures var s := Self(Exec(Initial(clientSize, serverSize), steps), server);
            !s.pushing && s.outState != Closed && s.inWindow <= WINDOW_THRESHOLD ==>
              s.waitDrain && Read(s).inWindow == MAX_WINDOW && Read(s).log == s.log + [Adjust(MAX_WINDOW - s.inWindow)]
  {
    hide *;
    RunKeeps(clientSize, serverSize, steps);
    ReadOpens(Exec(Initial(clientSize, serverSize), steps), server);
  }

  lemma ReadOpens(sys: Sys, server: bool)
    requires Inv(sys)
    ensures var s := Self(sys, server);
            !s.pushing && s.outState != Closed && s.inWindow <= WINDOW_THRESHOLD ==>
              s.waitDrain && Read(s).inWindow == MAX_WINDOW && Read(s).log == s.log + [Adjust(MAX_WINDOW - s.inWindow)]
  {
    hide BooksOk;
  }

  lemma ReaderWakesWriter(w: Side, r: Side)
    requires BooksOk(r) && BooksOk(w) && DrainOk(r) && WriterOk(w)
    requires r.seen == w.log && w.seen == r.log && w.writing && w.outState == Open && !r.pushing
    ensures w.outWindow == 0 && r.inWindow == 0 && r.waitDrain && w.live && r.live
    ensures Read(r).log == r.log + [Adjust(MAX_WINDOW)]
    ensures w.chunk.Some? && w.chunk.value != []
    ensures var w1 := Receive(w, Adjust(MAX_WINDOW));
            OutBytes(w1.log) == OutBytes(w.log) + w.chunk.value[..Min(|w.chunk.value|, MAX_WINDOW)]
  {
    hide DataLen, Credit, OutBytes, ErrBytes, Walk, Pieces;
    PiecesBytes(w.log, w.chunk.value[..Min(|w.chunk.value|, MAX_WINDOW)], w.packetSize, false);
  }

  // ----- The exception -----

  /** After a stale stall, the next grant sends bytes again that were sent already. */
  lemma StaleStallRepeats(s: Side, data: Bytes, amount: nat)
    requires s.outWindow >= 0 && WriterOk(s) && s.live && amount > 0
    requires Enabled(s, WritesErr(data)) && StaleStall(s, WritesErr(data))
    ensures var t := Receive(After(s, WritesErr(data)), Adjust(amount));
            && OutBytes(t.log) == s.written + s.chunk.value[..Min(|s.chunk.value|, amount)]
            && t.written == s.written && !(OutBytes(t.log) <= t.written)
  {
    var u := After(s, WritesErr(data));
    ErrLeavesStream(s, data);
    hide After, WriterOk, StaleStall;
    Resends(u, amount);
  }

  lemma ErrLeavesStream(s: Side, data: Bytes)
    requires s.outWindow >= 0 && StaleStall(s, WritesErr(data))
    ensures var u := After(s, WritesErr(data));
            && OutBytes(u.log) == OutBytes(s.log) && u.written == s.written && u.packetSize == s.packetSize
            && u.outWindow == 0 && u.chunk == s.chunk && u.waitWindow && u.live == s.live && u.outState == Open
  {
    PiecesBytes(s.log, data[..Room(s, data)], s.packetSize, true);
    hide OutBytes, ErrBytes, Pieces;
    assert OutBytes(s.log) + [] == OutBytes(s.log);
  }

  lemma Resends(u: Side, amount: nat)
    requires u.outWindow == 0 && u.chunk.Some? && u.chunk.value != [] && u.waitWindow && u.live && u.outState == Open
    requires amount > 0 && OutBytes(u.log) == u.written
    ensures var t := Receive(u, Adjust(amount));
            && OutBytes(t.log) == u.written + u.chunk.value[..Min(|u.chunk.value|, amount)]
            && t.written == u.written && !(OutBytes(t.log) <= t.written)
  {
    PiecesBytes(u.log, u.chunk.value[..Min(|u.chunk.value|, amount)], u.packetSize, false);
    hide OutBytes, ErrBytes, Pieces;
  }

  // A write of one byte more than the window, state by state.

  function Zeros(n: nat): Bytes {
    seq(n, i => 0)
  }

  function Stalled(): Side {
    Fresh(true, MAX_WINDOW).(written := Zeros(MAX_WINDOW + 1), writing := true, outWindow := 0, waitWindow := true,
                             chunk := Some([0]), log := [Data(Zeros(MAX_WINDOW))])
  }

  function Handed(): Side {
    Fresh(false, 1).(seen := [Data(Zeros(MAX_WINDOW))], inWindow := 0, pushing := true, received := Zeros(MAX_WINDOW))
  }

  function Granting(): Side {
    Handed().(pushing := false, inWindow := MAX_WINDOW, log := [Adjust(MAX_WINDOW)])
  }

  function Resumed(): Side {
    Stalled().(seen := [Adjust(MAX_WINDOW)], outWindow := MAX_WINDOW - 1, waitWindow := false, writing := false,
               log := [Data(Zeros(MAX_WINDOW)), Data([0])])
  }

  lemma FromFreshToStalled()
    ensures After(Fresh(true, MAX_WINDOW), Writes(Zeros(MAX_WINDOW + 1))) == Stalled()
  {
    var big := Zeros(MAX_WINDOW + 1);
    assert big[..MAX_WINDOW] == Zeros(MAX_WINDOW) && big[MAX_WINDOW..] == [0];
    OnePiece(Zeros(MAX_WINDOW), MAX_WINDOW);
    hide Pieces, Zeros;
    assert [] + big == big && [] + [Data(Zeros(MAX_WINDOW))] == [Data(Zeros(MAX_WINDOW))];
  }

  lemma FromFreshToGranting()
    ensures After(Fresh(false, 1), Arrives(Data(Zeros(MAX_WINDOW)))) == Handed()
    ensures After(Handed(), PushReturns(true)) == Granting()
  {
    var zeros := Zeros(MAX_WINDOW);
    assert |zeros| == MAX_WINDOW;
    hide Zeros;
    assert [] + zeros == zeros && [] + [Data(zeros)] == [Data(zeros)];
  }

  lemma FromStalledToResumed()
    ensures After(Stalled(), Arrives(Adjust(MAX_WINDOW))) == Resumed()
  {
    var zeros := Zeros(MAX_WINDOW);
    OnePiece([0], MAX_WINDOW);
    hide Pieces, Zeros;
    var chunk: Bytes := [0];
    assert chunk[..1] == chunk;
    assert [] + [Adjust(MAX_WINDOW)] == [Adjust(MAX_WINDOW)];
    assert [Data(zeros)] + [Data(chunk)] == [Data(zeros), Data(chunk)];
  }

  /** One more step of a run. */
  lemma StepOn(start: Sys, steps: seq<Step>, last: Step, before: Sys)
    requires Run(start, steps) && NoStaleStall(start, steps) && Exec(start, steps) == before
    requires Possible(before, last.server, last.event) && !StaleStall(Self(before, last.server), last.event)
    ensures Run(start, steps + [last]) && NoStaleStall(start, steps + [last])
    ensures Exec(start, steps + [last]) == Next(before, last.server, last.event)
  {
    assert (steps + [last])[..|steps|] == steps;
  }

  lemma StartOf(start: Sys)
    ensures Run(start, []) && NoStaleStall(start, []) && Exec(start, []) == start
  {
  }

  /** Such a stall does come about: a write of one byte more than the window, a grant, and a
      stderr write that fills the window again. */
  lemma StaleStallHappens() returns (steps: seq<Step>, data: Bytes)
    ensures var start := Initial(1, MAX_WINDOW);
            && Run(start, steps) && NoStaleStall(start, steps)
            && var server := Exec(start, steps).server;
            && server.live && Enabled(server, WritesErr(data)) && StaleStall(server, WritesErr(data))
  {
    hide Exec, Run, NoStaleStall, After, Zeros, Stalled, Handed, Granting, Resumed;
    var start := Initial(1, MAX_WINDOW);
    data := Zeros(MAX_WINDOW);
    FromFreshToStalled();
    FromFreshToGranting();
    FromStalledToResumed();
    StalledOrNot();
    StartOf(start);
    steps := [];
    StepOn(start, steps, Step(true, Writes(Zeros(MAX_WINDOW + 1))), start);
    steps := steps + [Step(true, Writes(Zeros(MAX_WINDOW + 1)))];
    StepOn(start, steps, Step(false, Arrives(Data(data))), Sys(start.client, Stalled()));
    steps := steps + [Step(false, Arrives(Data(data)))];
    StepOn(start, steps, Step(false, PushReturns(true)), Sys(Handed(), Stalled()));
    steps := steps + [Step(false, PushReturns(true))];
    StepOn(start, steps, Step(true, Arrives(Adjust(MAX_WINDOW))), Sys(Granting(), Stalled()));
    steps := steps + [Step(true, Arrives(Adjust(MAX_WINDOW)))];
  }

  /** What the four states have to do with one another. */
  lemma StalledOrNot()
    ensures Stalled().log == [Data(Zeros(MAX_WINDOW))] && Stalled().seen == [] && !Stalled().pushing
    ensures Handed().pushing && Granting().log == [Adjust(MAX_WINDOW)]
    ensures var s := Resumed(); s.live && StaleStall(s, WritesErr(Zeros(MAX_WINDOW))) && s.server && !s.writingErr
  {
    hide Zeros;
    LenZeros(MAX_WINDOW);
  }

  lemma LenZeros(n: nat)
    ensures |Zeros(n)| == n
  {
  }

  lemma OnePiece(data: Bytes, size: PacketSize)
    requires 0 < |data| <= size
    ensures Pieces(data, size, false) == [Data(data)]
  {
    assert data[..|data|] == data && data[|data|..] == [];
  }

  // ----- Few grants -----

  predicate LargeGrants(log: seq<Msg>) {
    forall m <- log :: m.Adjust? ==> m.amount >= MAX_WINDOW - WINDOW_THRESHOLD
  }

  lemma WriteGrants(called: bool, s: Side, data: Bytes)
    requires LargeGrants(s.log)
    ensures LargeGrants(WriteOut(called, s, data).log) && LargeGrants(WriteErrOut(called, s, data).log)
  {
    hide Left, Pieces;
    PiecesFit(data[..Room(s, data)], s.packetSize, false);
    PiecesFit(data[..Room(s, data)], s.packetSize, true);
    hide Room;
  }

  lemma ReadGrants(s: Side, more: bool)
    requires LargeGrants(s.log)
    ensures LargeGrants(Read(s).log) && LargeGrants(Pushed(s, more).log)
  {
  }

  lemma GrantGrants(s: Side, amount: nat)
    requires LargeGrants(s.log)
    ensures LargeGrants(OnAdjust(s, amount).log)
  {
    hide WriteOut, WriteErrOut, LargeGrants;
    var wakes := s.live && s.waitWindow;
    var s1 := s.(outWindow := s.outWindow + if s.live then amount else 0, waitWindow := s.waitWindow && !s.live);
    var s2 := WriteOut(wakes && s.chunk.Some?, s1, s.chunk.GetOr([]));
    WriteGrants(wakes && s.chunk.Some?, s1, s.chunk.GetOr([]));
    WriteGrants(wakes && s.chunk.None? && s.chunkErr.Some?, s2, s.chunkErr.GetOr([]));
  }

  lemma EndGrants(s: Side, data: Bytes)
    requires LargeGrants(s.log)
    ensures LargeGrants(SendEof(s).log) && LargeGrants(SendClose(s).log) && LargeGrants(OnClose(s).log)
    ensures OnData(s, data).log == OnExtData(s, data).log == OnEof(s).log == s.log
  {
  }

  lemma ArrivalGrants(s: Side, m: Msg)
    requires LargeGrants(s.log)
    ensures LargeGrants(Receive(s, m).log)
  {
    hide OnData, OnExtData, OnAdjust, OnEof, OnClose, LargeGrants;
    var s1 := s.(seen := s.seen + [m]);
    match m
    case Data(data) => EndGrants(s1, data);
    case ExtData(data) => EndGrants(s1, data);
    case Adjust(amount) => GrantGrants(s1, amount);
    case Eof => EndGrants(s1, []);
    case Close => EndGrants(s1, []);
  }

  lemma EventGrants(s: Side, e: Event)
    requires LargeGrants(s.log)
    ensures LargeGrants(After(s, e).log)
  {
    hide WriteOut, WriteErrOut, Read, Pushed, Receive, SendEof, SendClose, LargeGrants;
    match e
    case Writes(data) => WriteGrants(true, s.(writing := true, written := s.written + data), data);
    case WritesErr(data) => WriteGrants(true, s.(writingErr := true, writtenErr := s.writtenErr + data), data);
    case Ends => EndGrants(s, []);
    case Closes => EndGrants(s, []);
    case Reads => ReadGrants(s, true);
    case PushReturns(more) => ReadGrants(s, more);
    case Arrives(m) => ArrivalGrants(s, m);
  }

  /** In every run each window adjustment gives back at least half the window. */
  lemma {:induction false} GrantsAreLarge(clientSize: PacketSize, serverSize: PacketSize, steps: seq<Step>)
    ensures var sys := Exec(Initial(clientSize, serverSize), steps);
            LargeGrants(sys.client.log) && LargeGrants(sys.server.log)
    decreases |steps|
  {
    if steps != [] {
      var init, last := steps[..|steps| - 1], steps[|steps| - 1];
      GrantsAreLarge(clientSize, serverSize, init);
      hide After, LargeGrants;
      EventGrants(Self(Exec(Initial(clientSize, serverSize), init), last.server), last.event);
    }
  }

  // ----- Closing -----

  /** No data and no second EOF after EOF, nothing but window adjustments after CLOSE. */
  ghost predicate Orderly(msgs: seq<Msg>) {
    && (forall i | 0 <= i < |msgs| :: msgs[i].Data? || msgs[i].ExtData? ==> msgs[i].data != [])
    && (forall i, j | 0 <= i < j < |msgs| :: msgs[i].Eof? ==> msgs[j].Adjust? || msgs[j].Close?)
    && (forall i, j | 0 <= i < j < |msgs| :: msgs[i].Close? ==> msgs[j].Adjust?)
  }

  lemma {:induction false} WalkMeansOrderly(msgs: seq<Msg>)
    ensures Walk(msgs).Some? <==> Orderly(msgs)
    ensures Walk(msgs).Some? ==>
              && (Walk(msgs).value == Closed <==> Close in msgs)
              && (Walk(msgs).value == Open <==> Close !in msgs && Eof !in msgs)
              && Walk(msgs).value != Closing
    decreases |msgs|
  {
    if msgs != [] {
      var init, m := msgs[..|msgs| - 1], msgs[|msgs| - 1];
      WalkMeansOrderly(init);
      assert msgs == init + [m];
      hide Orderly;
      OneMoreInOrder(init, m);
    }
  }

  /** What one more message has to be for the order to stay. */
  lemma OneMoreInOrder(init: seq<Msg>, m: Msg)
    ensures Orderly(init + [m]) <==>
              && Orderly(init)
              && (m.Data? || m.ExtData? ==> m.data != [])
              && (Eof in init ==> m.Adjust? || m.Close?)
              && (Close in init ==> m.Adjust?)
  {
    var all := init + [m];
    assert forall i | 0 <= i < |init| :: all[i] == init[i];
    assert all[|init|] == m;
    if Orderly(all) {
      if Eof in init {
        var i :| 0 <= i < |init| && init[i] == Eof;
        assert all[i].Eof?;
      }
      if Close in init {
        var i :| 0 <= i < |init| && init[i] == Close;
        assert all[i].Close?;
      }
    }
  }

  /** Each end sends at most one EOF and one CLOSE and keeps to that order, answers every CLOSE, and
      gives its id back exactly when it has seen the other's CLOSE; it has then sent its own. */
  lemma CloseHandshake(clientSize: PacketSize, serverSize: PacketSize, steps: seq<Step>, server: bool)
    requires Run(Initial(clientSize, serverSize), steps)
    ensures var s := Self(Exec(Initial(clientSize, serverSize), steps), server);
            && Orderly(s.log) && Orderly(s.seen)
            && (Close in s.seen ==> Close in s.log)
            && (!s.live <==> Close in s.seen)
  {
    RunKeeps(clientSize, serverSize, steps);
    var s := Self(Exec(Initial(clientSize, serverSize), steps), server);
    assert StatesOk(s);
    hide Exec, Run, Inv;
    WalkMeansOrderly(s.log);
    WalkMeansOrderly(s.seen);
    hide Walk, Orderly;
  }
}
