/** The SFTP send buffer: requests go out as far as the channel window allows, the rest waits in
    `_buffer` for the next grant. */
module SftpSend {
  import opened Common
  import opened ChannelModel
  import opened ChannelSafety

  /** - open: the channel may still be written to
      - armed: `_chunkcb` is `drainBuffer`
      - sent: the messages passed to `channelData`
      - submitted: everything handed to `sendOrBuffer` while the channel was open */
  datatype Out = Out(
    open: bool,
    window: nat,
    packetSize: PacketSize,
    waitWindow: bool,
    armed: bool,
    buffer: seq<Bytes>,
    sent: seq<Msg>,
    submitted: Bytes)

  function Opened(window: nat, packetSize: PacketSize): Out {
    Out(true, window, packetSize, false, false, [], [], [])
  }

  function Fitting(s: Out, payload: Bytes): (n: nat)
    ensures n <= |payload| && n <= s.window
  {
    Min(|payload|, s.window)
  }

  /** `tryWritePayload`: the state afterwards. */
  function Try(s: Out, payload: Bytes): Out {
    var n := Fitting(s, payload);
    s.(window := if s.open then s.window - n else s.window,
       waitWindow := s.waitWindow || (s.open && (s.window == 0 || n == s.window)),
       armed := s.armed || (s.open && 0 < n == s.window),
       sent := if s.open then s.sent + Pieces(payload[..n], s.packetSize, false) else s.sent)
  }

  /** `tryWritePayload`: what is returned, the part still to be sent. */
  function Unsent(s: Out, payload: Bytes): Option<Bytes> {
    if !s.open then None
    else if s.window == 0 then Some(payload)
    else if s.window < |payload| then Some(payload[s.window..])
    else None
  }

  function AsList(o: Option<Bytes>): seq<Bytes> {
    if o.Some? then [o.value] else []
  }

  /** `sendOrBuffer` */
  function Submit(s: Out, payload: Bytes): Out {
    Try(s, payload).(buffer := s.buffer + AsList(Unsent(s, payload)),
                     submitted := if s.open then s.submitted + payload else s.submitted)
  }

  /** `drainBuffer`: the loop. */
  function DrainLoop(s: Out): Out
    decreases |s.buffer|
  {
    if s.buffer == [] then s
    else
      var ret := Unsent(s, s.buffer[0]);
      var s1 := Try(s, s.buffer[0]);
      if ret.Some? then s1.(buffer := [ret.value] + s.buffer[1..])
      else DrainLoop(s1.(buffer := s.buffer[1..]))
  }

  /** CHANNEL_WINDOW_ADJUST */
  function Grant(s: Out, amount: nat): Out {
    var s1 := s.(window := s.window + amount, waitWindow := false);
    if s.waitWindow && s.armed then DrainLoop(s1.(armed := false)) else s1
  }

  function Shut(s: Out): Out {
    s.(open := false)
  }

  // ----- The invariant -----

  function Flat(buffer: seq<Bytes>): Bytes {
    if buffer == [] then [] else buffer[0] + Flat(buffer[1..])
  }

  lemma {:induction false} FlatAppend(a: seq<Bytes>, b: seq<Bytes>)
    ensures Flat(a + b) == Flat(a) + Flat(b)
    decreases |a|
  {
    if a == [] {
      assert a + b == b;
    } else {
      assert (a + b)[1..] == a[1..] + b;
      FlatAppend(a[1..], b);
    }
  }

  /** Nothing waits while there is window, and without window the drain is sure to be called. */
  ghost predicate Armed(s: Out) {
    && (s.window > 0 ==> s.buffer == [])
    && (s.window == 0 ==> s.waitWindow && s.armed)
  }

  /** What was sent and what waits make up what was submitted. */
  ghost predicate Complete(s: Out) {
    OutBytes(s.sent) + Flat(s.buffer) == s.submitted
  }

  ghost predicate Ok(s: Out) {
    if s.open then Armed(s) && Complete(s) else OutBytes(s.sent) <= s.submitted
  }

  lemma OpenedOk(window: nat, packetSize: PacketSize)
    ensures Ok(Opened(window, packetSize)) <==> window > 0
  {
  }

  lemma FlatUnsent(s: Out, payload: Bytes)
    requires s.open
    ensures Flat(AsList(Unsent(s, payload))) == payload[Fitting(s, payload)..]
  {
    hide Flat;
    if Unsent(s, payload).Some? {
      FlatOne(Unsent(s, payload).value);
    } else {
      FlatNothing();
    }
  }

  lemma TrySplits(s: Out, payload: Bytes)
    requires s.open
    ensures OutBytes(Try(s, payload).sent) + Flat(AsList(Unsent(s, payload))) == OutBytes(s.sent) + payload
  {
    hide OutBytes, ErrBytes, Pieces;
    var n := Fitting(s, payload);
    PiecesBytes(s.sent, payload[..n], s.packetSize, false);
    FlatUnsent(s, payload);
    hide Flat, AsList, Unsent;
    assert payload == payload[..n] + payload[n..];
    Assoc(OutBytes(s.sent), payload[..n], payload[n..]);
  }

  lemma SendKeeps(s: Out, payload: Bytes)
    requires Ok(s)
    ensures Ok(Submit(s, payload))
  {
    if s.open {
      TrySplits(s, payload);
      var rest := AsList(Unsent(s, payload));
      FlatAppend(s.buffer, rest);
      hide OutBytes, Pieces, Flat;
      var sent1 := OutBytes(Try(s, payload).sent);
      if s.window > 0 {
        assert [] + rest == rest;
        assert Flat([]) == [] by { FlatNothing(); }
        assert OutBytes(s.sent) + [] == OutBytes(s.sent);
      } else {
        assert rest == [payload];
        FlatOne(payload);
        NothingFits(s, payload);
        Assoc(OutBytes(s.sent), Flat(s.buffer), payload);
      }
    }
  }

  lemma FlatNothing()
    ensures Flat([]) == []
  {
  }

  lemma FlatOne(payload: Bytes)
    ensures Flat([payload]) == payload
  {
    assert Flat([payload][1..]) == [];
  }

  lemma NothingFits(s: Out, payload: Bytes)
    requires s.window == 0
    ensures Try(s, payload).sent == s.sent
  {
    assert payload[..0] == [];
    assert s.sent + [] == s.sent;
  }

  /** A step of the drain that sends a waiting payload whole. */
  lemma DrainStep(s: Out)
    requires s.open && s.buffer != [] && Complete(s)
    ensures Complete(Try(s, s.buffer[0]).(buffer := AsList(Unsent(s, s.buffer[0])) + s.buffer[1..]))
  {
    var rest := AsList(Unsent(s, s.buffer[0]));
    var sent1 := OutBytes(Try(s, s.buffer[0]).sent);
    TrySplits(s, s.buffer[0]);
    FlatAppend(rest, s.buffer[1..]);
    assert Flat(s.buffer) == s.buffer[0] + Flat(s.buffer[1..]);
    hide OutBytes, Flat, Try, Unsent, AsList;
    Assoc(sent1, Flat(rest), Flat(s.buffer[1..]));
    Assoc(OutBytes(s.sent), s.buffer[0], Flat(s.buffer[1..]));
  }

  lemma {:induction false} DrainKeeps(s: Out)
    requires s.open && Complete(s) && (s.window == 0 ==> s.waitWindow && s.armed)
    ensures Ok(DrainLoop(s)) && DrainLoop(s).open && DrainLoop(s).submitted == s.submitted
    decreases |s.buffer|
  {
    if s.buffer != [] {
      DrainStep(s);
      hide Complete, Pieces;
      if Unsent(s, s.buffer[0]).None? {
        assert [] + s.buffer[1..] == s.buffer[1..];
        DrainKeeps(Try(s, s.buffer[0]).(buffer := s.buffer[1..]));
      }
    }
  }

  lemma {:induction false} ClosedDrain(s: Out)
    requires !s.open
    ensures var t := DrainLoop(s); !t.open && t.sent == s.sent && t.submitted == s.submitted
    decreases |s.buffer|
  {
    if s.buffer != [] {
      ClosedDrain(Try(s, s.buffer[0]).(buffer := s.buffer[1..]));
    }
  }

  /** With nothing granted and no window the drain is forgotten, and only then. */
  lemma GrantKeeps(s: Out, amount: nat)
    requires Ok(s)
    ensures Ok(Grant(s, amount)) <==> !s.open || s.window + amount > 0
  {
    var s1 := s.(window := s.window + amount, waitWindow := false);
    if !s.open {
      ClosedDrain(s1.(armed := false));
      hide DrainLoop, OutBytes;
    } else if s.window + amount > 0 {
      if s.waitWindow && s.armed {
        DrainKeeps(s1.(armed := false));
        hide DrainLoop, OutBytes;
      }
    } else {
      hide OutBytes, Flat;
    }
  }

  lemma ShutKeeps(s: Out)
    requires Ok(s)
    ensures Ok(Shut(s))
  {
  }

  // ----- Whole runs -----

  datatype Event = Submits(payload: Bytes) | Granted(amount: nat) | Shuts

  function After(s: Out, e: Event): Out {
    match e
    case Submits(payload) => Submit(s, payload)
    case Granted(amount) => Grant(s, amount)
    case Shuts => Shut(s)
  }

  function Exec(s: Out, events: seq<Event>): Out
    decreases |events|
  {
    if events == [] then s else After(Exec(s, events[..|events| - 1]), events[|events| - 1])
  }

  /** Any schedule of submissions and positive grants on a channel opened with some window: what
      was sent is always a prefix of what was submitted; while the channel is open the buffer
      holds exactly the rest, is empty unless the window is used up, and its drain is armed. */
  lemma {:induction false} NothingLostOrReordered(window: nat, packetSize: PacketSize, events: seq<Event>)
    requires window > 0 && forall e <- events :: e.Granted? ==> e.amount > 0
    ensures var s := Exec(Opened(window, packetSize), events);
            && Ok(s) && OutBytes(s.sent) <= s.submitted
    decreases |events|
  {
    if events == [] {
      OpenedOk(window, packetSize);
    } else {
      NothingLostOrReordered(window, packetSize, events[..|events| - 1]);
      var s := Exec(Opened(window, packetSize), events[..|events| - 1]);
      hide Exec, Ok, Submit, Grant;
      match events[|events| - 1]
      case Submits(payload) => SendKeeps(s, payload);
      case Granted(amount) => GrantKeeps(s, amount);
      case Shuts => ShutKeeps(s);
    }
  }

  /** Everything the peer has allowed. */
  function Allowed(window: nat, events: seq<Event>): nat {
    if events == [] then window
    else
      var last := events[|events| - 1];
      Allowed(window, events[..|events| - 1]) + if last.Granted? then last.amount else 0
  }

  lemma TrySpends(s: Out, payload: Bytes)
    ensures var t := Try(s, payload); |OutBytes(t.sent)| + t.window == |OutBytes(s.sent)| + s.window
  {
    hide OutBytes, ErrBytes, Pieces;
    PiecesBytes(s.sent, payload[..Fitting(s, payload)], s.packetSize, false);
  }

  lemma {:induction false} DrainSpends(s: Out)
    ensures var t := DrainLoop(s); |OutBytes(t.sent)| + t.window == |OutBytes(s.sent)| + s.window
    decreases |s.buffer|
  {
    if s.buffer != [] {
      hide Try, OutBytes, Unsent;
      TrySpends(s, s.buffer[0]);
      if Unsent(s, s.buffer[0]).None? {
        DrainSpends(Try(s, s.buffer[0]).(buffer := s.buffer[1..]));
      }
    }
  }

  /** On any schedule: the bytes sent and the window left are what the peer has allowed. */
  lemma {:induction false} NoMoreThanAllowed(window: nat, packetSize: PacketSize, events: seq<Event>)
    ensures var s := Exec(Opened(window, packetSize), events);
            |OutBytes(s.sent)| + s.window == Allowed(window, events)
    decreases |events|
  {
    if events != [] {
      NoMoreThanAllowed(window, packetSize, events[..|events| - 1]);
      var s := Exec(Opened(window, packetSize), events[..|events| - 1]);
      StepSpends(s, events[|events| - 1]);
      hide OutBytes, After;
    }
  }

  lemma StepSpends(s: Out, e: Event)
    ensures var t := After(s, e);
            |OutBytes(t.sent)| + t.window == |OutBytes(s.sent)| + s.window + if e.Granted? then e.amount else 0
  {
    hide OutBytes, Try, DrainLoop;
    match e
    case Submits(payload) => TrySpends(s, payload);
    case Granted(amount) =>
      DrainSpends(s.(window := s.window + amount, waitWindow := false, armed := false));
    case Shuts =>
  }

  /** Without window and without the drain armed (after opening with no window, or after a grant
      of nothing), what waits is overtaken by the next submission. */
  lemma Overtaken(s: Out, waits: Bytes, amount: nat, next: Bytes)
    requires s.open && s.window == 0 && !s.armed && s.buffer == [] && OutBytes(s.sent) == s.submitted
    requires waits != [] && 0 < |next| <= amount
    ensures var t := Submit(Grant(Submit(s, waits), amount), next);
            && OutBytes(t.sent) == s.submitted + next && t.buffer == [waits]
            && t.submitted == s.submitted + waits + next
  {
    hide Submit, Grant, OutBytes;
    var u := Grant(Submit(s, waits), amount);
    Stranded(s, waits, amount, u);
    Overtakes(u, next);
  }

  lemma Stranded(s: Out, waits: Bytes, amount: nat, u: Out)
    requires s.open && s.window == 0 && !s.armed && s.buffer == [] && u == Grant(Submit(s, waits), amount)
    ensures u.sent == s.sent && u.window == amount && u.buffer == [waits] && u.open
    ensures u.submitted == s.submitted + waits
  {
    hide OutBytes, Pieces;
    NothingFits(s, waits);
    assert [] + [waits] == [waits];
  }

  lemma Overtakes(u: Out, next: Bytes)
    requires u.open && 0 < |next| <= u.window
    ensures var t := Submit(u, next);
            && OutBytes(t.sent) == OutBytes(u.sent) + next && t.buffer == u.buffer
            && t.submitted == u.submitted + next
  {
    hide OutBytes, Pieces, ErrBytes;
    assert next[..|next|] == next;
    PiecesBytes(u.sent, next, u.packetSize, false);
    assert u.buffer + [] == u.buffer;
  }

  lemma NoWindowAtFirst(packetSize: PacketSize)
    ensures var s := Opened(0, packetSize);
            s.open && s.window == 0 && !s.armed && s.buffer == [] && OutBytes(s.sent) == s.submitted
  {
  }

  lemma NothingGranted(s: Out)
    requires Ok(s) && s.open && s.window == 0 && s.buffer == []
    ensures var t := Grant(s, 0);
            t.open && t.window == 0 && !t.armed && t.buffer == [] && OutBytes(t.sent) == t.submitted
  {
    assert OutBytes(s.sent) + [] == OutBytes(s.sent);
    hide OutBytes;
  }

  /** The schedule on which the second of two payloads overtakes the first. */
  function Overtaking(waits: Bytes, amount: nat, next: Bytes): seq<Event> {
    [Submits(waits), Granted(amount), Submits(next)]
  }

  lemma ExecOneMore(s: Out, events: seq<Event>, e: Event)
    ensures Exec(s, events + [e]) == After(Exec(s, events), e)
  {
    assert (events + [e])[..|events|] == events;
  }

  lemma OvertakingRun(s: Out, before: seq<Event>, waits: Bytes, amount: nat, next: Bytes)
    ensures Exec(s, before + Overtaking(waits, amount, next))
            == Submit(Grant(Submit(Exec(s, before), waits), amount), next)
  {
    hide Exec, Submit, Grant;
    var run := before + [Submits(waits)];
    assert before + Overtaking(waits, amount, next) == (run + [Granted(amount)]) + [Submits(next)];
    ExecOneMore(s, before, Submits(waits));
    ExecOneMore(s, run, Granted(amount));
    ExecOneMore(s, run + [Granted(amount)], Submits(next));
  }

  /** It does on every channel opened with no window. */
  lemma OvertakenFromTheStart(packetSize: PacketSize, waits: Bytes, amount: nat, next: Bytes)
    requires waits != [] && 0 < |next| <= amount
    ensures var s := Exec(Opened(0, packetSize), Overtaking(waits, amount, next));
            OutBytes(s.sent) == next && s.buffer == [waits]
  {
    var s := Opened(0, packetSize);
    assert [] + Overtaking(waits, amount, next) == Overtaking(waits, amount, next);
    OvertakingRun(s, [], waits, amount, next);
    NoWindowAtFirst(packetSize);
    Overtaken(s, waits, amount, next);
    hide Submit, Grant, OutBytes;
    assert s.submitted + next == next;
  }

  /** And on any other once the window is used up and nothing is granted. */
  lemma OvertakenAfterNothingGranted(packetSize: PacketSize, first: Bytes, waits: Bytes, amount: nat, next: Bytes)
    requires first != [] && waits != [] && 0 < |next| <= amount
    ensures var s := Exec(Opened(|first|, packetSize),
                          [Submits(first), Granted(0)] + Overtaking(waits, amount, next));
            OutBytes(s.sent) == first + next && s.buffer == [waits]
  {
    hide *;
    var s := Opened(|first|, packetSize);
    OvertakingRun(s, [Submits(first), Granted(0)], waits, amount, next);
    UsedUp(packetSize, first);
    NothingGranted(Submit(s, first));
    GrantLeavesSubmitted(Submit(s, first));
    UsedUpRun(s, first);
    Overtaken(Grant(Submit(s, first), 0), waits, amount, next);
  }

  /** A first payload of just the size of the window. */
  lemma UsedUp(packetSize: PacketSize, first: Bytes)
    requires first != []
    ensures var t := Submit(Opened(|first|, packetSize), first);
            Ok(t) && t.open && t.window == 0 && t.buffer == [] && t.submitted == first
  {
    var s := Opened(|first|, packetSize);
    hide OutBytes, Pieces, Flat, Ok;
    OpenedOk(|first|, packetSize);
    SendKeeps(s, first);
    assert [] + first == first;
  }

  lemma UsedUpRun(s: Out, first: Bytes)
    ensures Exec(s, [Submits(first), Granted(0)]) == Grant(Submit(s, first), 0)
  {
    hide Exec, Submit, Grant;
    assert [] + [Submits(first)] == [Submits(first)];
    assert [Submits(first)] + [Granted(0)] == [Submits(first), Granted(0)];
    ExecNothing(s);
    ExecOneMore(s, [], Submits(first));
    ExecOneMore(s, [Submits(first)], Granted(0));
  }

  lemma ExecNothing(s: Out)
    ensures Exec(s, []) == s
  {
  }

  lemma GrantLeavesSubmitted(s: Out)
    requires s.buffer == []
    ensures Grant(s, 0).submitted == s.submitted
  {
  }

  // ----- The object -----

  class SFTP {
    var open: bool
    var window: nat
    const packetSize: PacketSize
    var waitWindow: bool
    var armed: bool
    var buffer: seq<Bytes>
    var sent: seq<Msg>
    ghost var submitted: Bytes

    ghost function View(): Out
      reads this
    {
      Out(open, window, packetSize, waitWindow, armed, buffer, sent, submitted)
    }

    constructor (window: nat, packetSize: PacketSize)
      ensures View() == Opened(window, packetSize)
    {
      open, this.window, this.packetSize := true, window, packetSize;
      waitWindow, armed, buffer, sent, submitted := false, false, [], [], [];
    }

    method TryWritePayload(payload: Bytes) returns (ret: Option<Bytes>)
      modifies this`window, this`waitWindow, this`armed, this`sent
      ensures View() == Try(old(View()), payload) && ret == Unsent(old(View()), payload)
    {
      if !open {
        return None;
      }
      if window == 0 {
        waitWindow := true;
        NothingFits(View(), payload);
        return Some(payload);
      }
      ret := None;
      var p := SendPieces(payload);
      hide Pieces;
      if |payload| - p > 0 {
        ret := Some(if p > 0 then payload[p..] else payload);
      }
    }

    method SendPieces(payload: Bytes) returns (p: nat)
      requires open && window > 0
      modifies this`window, this`waitWindow, this`armed, this`sent
      ensures View() == Try(old(View()), payload) && p == Fitting(old(View()), payload)
    {
      hide Pieces;
      ghost var s, n := View(), Fitting(View(), payload);
      assert n == Min(|payload|, window);
      ghost var goal := sent + Pieces(payload[..n], packetSize, false);
      p := 0;
      assert payload[0..n] == payload[..n];
      while |payload| - p > 0 && window > 0
        invariant p <= n && window == s.window - p
        invariant waitWindow == (s.waitWindow || window == 0) && armed == (s.armed || window == 0)
        invariant sent + Pieces(payload[p..n], packetSize, false) == goal
      {
        var actualLen := Min(Min(|payload| - p, window), packetSize);
        window := window - actualLen;
        if window == 0 {
          waitWindow := true;
          armed := true;
        }
        var slice := if p == 0 && actualLen == |payload| then payload else payload[p..p + actualLen];
        OneSliceLess(sent, payload, p, n, actualLen, slice, packetSize);
        sent := sent + [Data(slice)];
        p := p + actualLen;
      }
      assert p == n && payload[n..n] == [];
      NoPieces(sent, packetSize);
    }

    /** A step of the drain, seen from the part of the buffer not yet sent. */
    lemma DrainAt(s: Out, i: nat)
      requires i < |s.buffer|
      ensures var ret, t := Unsent(s, s.buffer[i]), Try(s, s.buffer[i]);
              DrainLoop(s.(buffer := s.buffer[i..])) ==
              if ret.Some? then t.(buffer := [ret.value] + s.buffer[i + 1..])
              else DrainLoop(t.(buffer := s.buffer[i + 1..]))
    {
      AtIndex(s, i);
      hide Try, Unsent;
    }

    lemma AtIndex(s: Out, i: nat)
      requires i < |s.buffer|
      ensures var at := s.(buffer := s.buffer[i..]);
              && at.buffer[0] == s.buffer[i] && at.buffer[1..] == s.buffer[i + 1..]
              && Unsent(at, s.buffer[i]) == Unsent(s, s.buffer[i])
              && Try(at, s.buffer[i]) == Try(s, s.buffer[i]).(buffer := s.buffer[i..])
    {
      hide Pieces;
    }

    lemma NothingWaits(s: Out)
      requires s.buffer == []
      ensures DrainLoop(s) == s
    {
    }

    method SendOrBuffer(payload: Bytes) returns (ok: bool)
      modifies this
      ensures View() == Submit(old(View()), payload)
      ensures ok <==> Unsent(old(View()), payload).None?
    {
      submitted := if open then submitted + payload else submitted;
      ghost var s := View();
      var ret := TryWritePayload(payload);
      hide Try;
      assert ret == Unsent(s, payload) == Unsent(old(View()), payload);
      if ret.Some? {
        buffer := buffer + [ret.value];
        return false;
      }
      assert buffer + [] == buffer;
      return true;
    }

    /** The loop goes over the buffer by index and only cuts it at the end. */
    method DrainBuffer()
      modifies this
      ensures View() == DrainLoop(old(View()).(armed := false))
    {
      hide Try, Unsent, DrainLoop;
      armed := false;
      ghost var goal := DrainLoop(View());
      var i := 0;
      assert buffer[0..] == buffer;
      while i < |buffer|
        invariant 0 <= i <= |buffer| && buffer == old(buffer)
        invariant goal == DrainLoop(View().(buffer := buffer[i..]))
      {
        var payload := buffer[i];
        DrainAt(View(), i);
        var ret := TryWritePayload(payload);
        if ret.Some? {
          Replaced(buffer, i, ret.value);
          if ret.value != payload {
            buffer := buffer[i := ret.value];
          }
          if i > 0 {
            buffer := buffer[i..];
          }
          return;
        }
        i := i + 1;
      }
      assert buffer[i..] == [];
      if i > 0 {
        buffer := [];
      }
      NothingWaits(View());
    }

    /** CHANNEL_WINDOW_ADJUST */
    method HandleAdjust(amount: nat)
      modifies this
      ensures View() == Grant(old(View()), amount)
    {
      window := window + amount;
      if waitWindow {
        waitWindow := false;
        if armed {
          DrainBuffer();
        }
      }
    }
  }

  lemma Replaced(buffer: seq<Bytes>, i: nat, rest: Bytes)
    requires i < |buffer|
    ensures buffer[i := rest][i..] == [rest] + buffer[i + 1..]
    ensures rest == buffer[i] ==> buffer[i := rest] == buffer
    ensures i == 0 ==> buffer[i := rest][i..] == buffer[i := rest]
  {
  }

  lemma NoPieces(log: seq<Msg>, size: PacketSize)
    ensures log + Pieces([], size, false) == log
  {
  }

  lemma OnePieceLess(log: seq<Msg>, data: Bytes, size: PacketSize)
    requires data != []
    ensures var n := Min(|data|, size);
            log + Pieces(data, size, false) == (log + [Data(data[..n])]) + Pieces(data[n..], size, false)
  {
  }

  /** The same within `payload`, between `p` and `n`. */
  lemma OneSliceLess(log: seq<Msg>, payload: Bytes, p: nat, n: nat, len: nat, slice: Bytes, size: PacketSize)
    requires p < n <= |payload| && len == Min(n - p, size)
    requires slice == if p == 0 && len == |payload| then payload else payload[p..p + len]
    ensures p + len <= n && log + Pieces(payload[p..n], size, false)
                            == (log + [Data(slice)]) + Pieces(payload[p + len..n], size, false)
  {
    var rest := payload[p..n];
    assert rest[..len] == slice && rest[len..] == payload[p + len..n];
    hide Pieces;
    OnePieceLess(log, rest, size);
  }
}
