/** Both ends of a channel, under any interleaving of what the applications do and the network
    delivers. What is in flight to an end is what the other has sent beyond what it has seen. */
module ChannelSafety {
  import opened Common
  import opened ChannelModel

  datatype Sys = Sys(client: Side, server: Side)

  function Initial(clientSize: PacketSize, serverSize: PacketSize): Sys {
    Sys(Fresh(false, clientSize), Fresh(true, serverSize))
  }

  function Self(sys: Sys, server: bool): Side {
    if server then sys.server else sys.client
  }

  /** A message arrives in the order sent. */
  ghost predicate Possible(sys: Sys, server: bool, e: Event) {
    var me, peer := Self(sys, server), Self(sys, !server);
    && Enabled(me, e)
    && (e.Arrives? ==> |me.seen| < |peer.log| && e.msg == peer.log[|me.seen|])
  }

  function Next(sys: Sys, server: bool, e: Event): Sys {
    if server then sys.(server := After(sys.server, e)) else sys.(client := After(sys.client, e))
  }

  datatype Step = Step(server: bool, event: Event)

  function Exec(start: Sys, steps: seq<Step>): Sys
    decreases |steps|
  {
    if steps == [] then start
    else
      var last := steps[|steps| - 1];
      Next(Exec(start, steps[..|steps| - 1]), last.server, last.event)
  }

  /** Every step could happen when it did. */
  ghost predicate Run(start: Sys, steps: seq<Step>)
    decreases |steps|
  {
    steps != [] ==>
      var last := steps[|steps| - 1];
      && Run(start, steps[..|steps| - 1])
      && Possible(Exec(start, steps[..|steps| - 1]), last.server, last.event)
  }

  // ----- Sums over messages -----

  function DataLen(msgs: seq<Msg>): nat {
    if msgs == [] then 0
    else
      var m := msgs[|msgs| - 1];
      DataLen(msgs[..|msgs| - 1]) + if m.Data? || m.ExtData? then |m.data| else 0
  }

  function Credit(msgs: seq<Msg>): nat {
    if msgs == [] then 0
    else
      var m := msgs[|msgs| - 1];
      Credit(msgs[..|msgs| - 1]) + if m.Adjust? then m.amount else 0
  }

  function OutBytes(msgs: seq<Msg>): Bytes {
    if msgs == [] then []
    else
      var m := msgs[|msgs| - 1];
      OutBytes(msgs[..|msgs| - 1]) + if m.Data? then m.data else []
  }

  function ErrBytes(msgs: seq<Msg>): Bytes {
    if msgs == [] then []
    else
      var m := msgs[|msgs| - 1];
      ErrBytes(msgs[..|msgs| - 1]) + if m.ExtData? then m.data else []
  }

  /** All four at once for one more message. */
  lemma OneMore(msgs: seq<Msg>, m: Msg)
    ensures DataLen(msgs + [m]) == DataLen(msgs) + if m.Data? || m.ExtData? then |m.data| else 0
    ensures Credit(msgs + [m]) == Credit(msgs) + if m.Adjust? then m.amount else 0
    ensures OutBytes(msgs + [m]) == OutBytes(msgs) + if m.Data? then m.data else []
    ensures ErrBytes(msgs + [m]) == ErrBytes(msgs) + if m.ExtData? then m.data else []
  {
    var all := msgs + [m];
    assert all[..|all| - 1] == msgs;
  }

  lemma {:induction false} Monotone(a: seq<Msg>, b: seq<Msg>)
    requires a <= b
    ensures DataLen(a) <= DataLen(b) && Credit(a) <= Credit(b)
    ensures OutBytes(a) <= OutBytes(b) && ErrBytes(a) <= ErrBytes(b)
    decreases |b|
  {
    if |a| < |b| {
      var init := b[..|b| - 1];
      assert a <= init;
      Monotone(a, init);
      assert b == init + [b[|b| - 1]];
      OneMore(init, b[|b| - 1]);
    } else {
      assert a == b;
    }
  }

  // ----- What may be sent when -----

  /** The state of a direction after these messages, or none if one of them is out of place: no
      data after EOF, and nothing but window adjustments after CLOSE. */
  function Walk(msgs: seq<Msg>): Option<State> {
    if msgs == [] then Some(Open)
    else
      var before := Walk(msgs[..|msgs| - 1]);
      if before.None? then None else WalkOn(before.value, msgs[|msgs| - 1])
  }

  function WalkOn(st: State, m: Msg): Option<State> {
    match m
    case Data(data) => if st == Open && data != [] then Some(Open) else None
    case ExtData(data) => if st == Open && data != [] then Some(Open) else None
    case Adjust(_) => Some(st)
    case Eof => if st == Open then Some(AtEof) else None
    case Close => if st != Closed then Some(Closed) else None
  }

  lemma WalkOneMore(msgs: seq<Msg>, m: Msg)
    ensures Walk(msgs + [m]) == if Walk(msgs).None? then None else WalkOn(Walk(msgs).value, m)
  {
    assert (msgs + [m])[..|msgs + [m]| - 1] == msgs;
  }

  lemma {:induction false} WalkPrefix(a: seq<Msg>, b: seq<Msg>)
    requires a <= b && Walk(b).Some?
    ensures Walk(a).Some?
    decreases |b|
  {
    if |a| < |b| {
      WalkPrefix(a, b[..|b| - 1]);
    } else {
      assert a == b;
    }
  }

  /** How far an end has gone in what it sends. */
  function Announced(st: State): State {
    if st == Closing then Closed else st
  }

  // ----- One end's own bookkeeping -----

  ghost predicate WindowsOk(s: Side) {
    && s.outWindow >= 0 && s.inWindow <= MAX_WINDOW
    && s.inWindow == MAX_WINDOW - DataLen(s.seen) + Credit(s.log)
    && (s.live ==> s.outWindow == MAX_WINDOW - DataLen(s.log) + Credit(s.seen))
    && (!s.live ==> s.outWindow <= MAX_WINDOW - DataLen(s.log) + Credit(s.seen))
  }

  ghost predicate StatesOk(s: Side) {
    && Walk(s.log) == Some(Announced(s.outState))
    && Walk(s.seen) == Some(s.inState)
    && s.inState != Closing
    && (s.live <==> s.inState != Closed)
    && (s.outState == Closed <==> s.inState == Closed)
  }

  ghost predicate StreamsOk(s: Side) {
    && s.received == OutBytes(s.seen)
    && (!s.server ==> s.receivedErr == ErrBytes(s.seen) && ErrBytes(s.log) == [])
    && (!s.server ==> !s.writingErr && s.chunkErr.None?)
  }

  /** A window that has run low is never forgotten. */
  ghost predicate DrainOk(s: Side) {
    !s.pushing && s.outState != Closed && s.inWindow <= WINDOW_THRESHOLD ==> s.waitDrain
  }

  ghost predicate BooksOk(s: Side) {
    WindowsOk(s) && StatesOk(s) && StreamsOk(s)
  }

  /** The next message is one this end can take. */
  ghost predicate Acceptable(s: Side, m: Msg) {
    && WalkOn(s.inState, m).Some?
    && (m.Data? || m.ExtData? ==> |m.data| <= s.inWindow)
    && (s.server ==> !m.ExtData?)
  }

  // ----- Sending pieces -----

  lemma {:induction false} PiecesSums(log: seq<Msg>, data: Bytes, size: PacketSize, err: bool)
    requires Walk(log) == Some(Open)
    ensures var all := log + Pieces(data, size, err);
            && Walk(all) == Some(Open)
            && DataLen(all) == DataLen(log) + |data| && Credit(all) == Credit(log)
    decreases |data|
  {
    hide DataLen, Credit, OutBytes, ErrBytes, Walk;
    if data == [] {
      assert log + Pieces(data, size, err) == log;
    } else {
      var n := Min(|data|, size);
      var first := if err then ExtData(data[..n]) else Data(data[..n]);
      OneMore(log, first);
      WalkOneMore(log, first);
      PiecesSums(log + [first], data[n..], size, err);
      assert log + Pieces(data, size, err) == (log + [first]) + Pieces(data[n..], size, err);
    }
  }

  lemma {:induction false} PiecesBytes(log: seq<Msg>, data: Bytes, size: PacketSize, err: bool)
    ensures var all := log + Pieces(data, size, err);
            && OutBytes(all) == OutBytes(log) + (if err then [] else data)
            && ErrBytes(all) == ErrBytes(log) + (if err then data else [])
    decreases |data|
  {
    hide DataLen, Credit, OutBytes, ErrBytes, Walk;
    if data == [] {
      assert log + Pieces(data, size, err) == log;
      assert OutBytes(log) + [] == OutBytes(log) && ErrBytes(log) + [] == ErrBytes(log);
    } else {
      var n := Min(|data|, size);
      var first := if err then ExtData(data[..n]) else Data(data[..n]);
      OneMore(log, first);
      PiecesBytes(log + [first], data[n..], size, err);
      assert log + Pieces(data, size, err) == (log + [first]) + Pieces(data[n..], size, err);
      assert data == data[..n] + data[n..];
      Assoc(OutBytes(log), data[..n], data[n..]);
      Assoc(ErrBytes(log), data[..n], data[n..]);
      Assoc(OutBytes(log), [], []);
      Assoc(ErrBytes(log), [], []);
    }
  }

  lemma Assoc(a: Bytes, b: Bytes, c: Bytes)
    ensures (a + b) + c == a + (b + c)
  {
  }

  /** Nothing goes out but at most `packetSize` bytes at a time, never an empty message, and no more
      messages than it takes: all but the last are full. */
  lemma {:induction false} PiecesFit(data: Bytes, size: PacketSize, err: bool)
    ensures forall m <- Pieces(data, size, err) ::
              (if err then m.ExtData? else m.Data?) && 1 <= |m.data| <= size
    ensures forall i | 0 <= i < |Pieces(data, size, err)| - 1 :: |Pieces(data, size, err)[i].data| == size
    decreases |data|
  {
    if data != [] {
      var n := Min(|data|, size);
      PiecesFit(data[n..], size, err);
      FullButLast(if err then ExtData(data[..n]) else Data(data[..n]), Pieces(data[n..], size, err), size);
    }
  }

  lemma FullButLast(first: Msg, rest: seq<Msg>, size: nat)
    requires forall m <- [first] + rest :: m.Data? || m.ExtData?
    requires rest != [] ==> |first.data| == size
    requires forall i | 0 <= i < |rest| - 1 :: |rest[i].data| == size
    ensures var all := [first] + rest;
            forall i | 0 <= i < |all| - 1 :: |all[i].data| == size
  {
  }

  // ----- Every event keeps an end in order -----

  lemma RoomFits(s: Side, data: Bytes)
    requires s.outWindow >= 0
    ensures Room(s, data) <= s.outWindow
  {
  }

  lemma NoMoreBytes(b: Bytes)
    ensures b + [] == b
  {
  }

  lemma WriteKeeps(called: bool, s: Side, data: Bytes)
    requires BooksOk(s)
    ensures BooksOk(WriteOut(called, s, data)) && (DrainOk(s) ==> DrainOk(WriteOut(called, s, data)))
  {
    hide DataLen, Credit, OutBytes, ErrBytes, Walk, Room, Pieces, Left;
    if called && s.outState == Open {
      PiecesSums(s.log, data[..Room(s, data)], s.packetSize, false);
      PiecesBytes(s.log, data[..Room(s, data)], s.packetSize, false);
      RoomFits(s, data);
      NoMoreBytes(ErrBytes(s.log));
    }
  }

  lemma WriteErrKeeps(called: bool, s: Side, data: Bytes)
    requires BooksOk(s) && (called ==> s.server)
    ensures BooksOk(WriteErrOut(called, s, data)) && (DrainOk(s) ==> DrainOk(WriteErrOut(called, s, data)))
  {
    hide DataLen, Credit, OutBytes, ErrBytes, Walk, Room, Pieces, Left;
    if called && s.outState == Open {
      PiecesSums(s.log, data[..Room(s, data)], s.packetSize, true);
      PiecesBytes(s.log, data[..Room(s, data)], s.packetSize, true);
      RoomFits(s, data);
      NoMoreBytes(OutBytes(s.log));
    }
  }

  lemma CloseKeeps(s: Side)
    requires BooksOk(s)
    ensures BooksOk(SendEof(s)) && BooksOk(SendClose(s))
    ensures DrainOk(s) ==> DrainOk(SendEof(s)) && DrainOk(SendClose(s))
  {
    OneMore(s.log, Eof);
    WalkOneMore(s.log, Eof);
    OneMore(s.log, Close);
    WalkOneMore(s.log, Close);
    hide DataLen, Credit, OutBytes, ErrBytes, Walk;
    assert ErrBytes(s.log) + [] == ErrBytes(s.log);
  }

  lemma AdjustKeeps(called: bool, s: Side)
    requires BooksOk(s)
    ensures BooksOk(WindowAdjust(called, s))
  {
    if s.inWindow < MAX_WINDOW {
      var m := Adjust(MAX_WINDOW - s.inWindow);
      OneMore(s.log, m);
      WalkOneMore(s.log, m);
    }
    hide DataLen, Credit, OutBytes, ErrBytes, Walk;
    assert ErrBytes(s.log) + [] == ErrBytes(s.log);
  }

  lemma ReadKeeps(s: Side)
    requires BooksOk(s) && DrainOk(s)
    ensures BooksOk(Read(s)) && DrainOk(Read(s))
  {
    hide DataLen, Credit, OutBytes, ErrBytes, Walk;
    AdjustKeeps(s.waitDrain && s.inWindow <= WINDOW_THRESHOLD, s);
  }

  lemma PushedKeeps(s: Side, more: bool)
    requires BooksOk(s) && DrainOk(s)
    ensures BooksOk(Pushed(s, more)) && DrainOk(Pushed(s, more))
  {
    hide DataLen, Credit, OutBytes, ErrBytes, Walk;
    AdjustKeeps(more && s.inWindow <= WINDOW_THRESHOLD, s);
  }

  // ----- Messages -----

  lemma DataKeeps(s: Side, m: Msg)
    requires BooksOk(s) && DrainOk(s) && Acceptable(s, m)
    requires m.Data? || m.ExtData?
    ensures BooksOk(Receive(s, m)) && DrainOk(Receive(s, m))
  {
    OneMore(s.seen, m);
    WalkOneMore(s.seen, m);
    hide DataLen, Credit, OutBytes, ErrBytes, Walk;
    assert OutBytes(s.seen) + [] == OutBytes(s.seen) && ErrBytes(s.seen) + [] == ErrBytes(s.seen);
  }

  lemma CreditKeeps(s: Side, amount: nat)
    requires BooksOk(s) && DrainOk(s)
    ensures BooksOk(Receive(s, Adjust(amount))) && DrainOk(Receive(s, Adjust(amount)))
  {
    hide BooksOk, DrainOk, WriteOut, WriteErrOut;
    var wakes := s.live && s.waitWindow;
    var s1 := s.(seen := s.seen + [Adjust(amount)], outWindow := s.outWindow + if s.live then amount else 0,
                 waitWindow := s.waitWindow && !s.live);
    CreditCounted(s, amount);
    var s2 := WriteOut(wakes && s.chunk.Some?, s1, s.chunk.GetOr([]));
    WriteKeeps(wakes && s.chunk.Some?, s1, s.chunk.GetOr([]));
    ErrOnServers(s);
    OutSameEnd(wakes && s.chunk.Some?, s1, s.chunk.GetOr([]));
    WriteErrKeeps(wakes && s.chunk.None? && s.chunkErr.Some?, s2, s.chunkErr.GetOr([]));
  }

  lemma ErrOnServers(s: Side)
    requires BooksOk(s)
    ensures s.chunkErr.Some? ==> s.server
  {
  }

  lemma OutSameEnd(called: bool, s: Side, data: Bytes)
    ensures WriteOut(called, s, data).server == s.server
  {
    hide Room, Sends, Left;
  }

  lemma CreditCounted(s: Side, amount: nat)
    requires BooksOk(s) && DrainOk(s)
    ensures var s1 := s.(seen := s.seen + [Adjust(amount)], outWindow := s.outWindow + if s.live then amount else 0,
                         waitWindow := s.waitWindow && !s.live);
            BooksOk(s1) && DrainOk(s1)
  {
    OneMore(s.seen, Adjust(amount));
    WalkOneMore(s.seen, Adjust(amount));
    hide DataLen, Credit, OutBytes, ErrBytes, Walk;
    assert OutBytes(s.seen) + [] == OutBytes(s.seen) && ErrBytes(s.seen) + [] == ErrBytes(s.seen);
  }

  lemma EndKeeps(s: Side, m: Msg)
    requires BooksOk(s) && DrainOk(s) && Acceptable(s, m)
    requires m == Eof || m == Close
    ensures BooksOk(Receive(s, m)) && DrainOk(Receive(s, m))
  {
    OneMore(s.seen, m);
    WalkOneMore(s.seen, m);
    OneMore(s.log, Close);
    WalkOneMore(s.log, Close);
    hide DataLen, Credit, OutBytes, ErrBytes, Walk;
    assert OutBytes(s.seen) + [] == OutBytes(s.seen) && ErrBytes(s.seen) + [] == ErrBytes(s.seen);
    assert OutBytes(s.log) + [] == OutBytes(s.log) && ErrBytes(s.log) + [] == ErrBytes(s.log);
  }
}
