/** One end of a channel: what every call on a `Channel` and every channel message does to it.
    `log` and `seen` are all the messages this end has sent and has been handed. */
module ChannelModel {
  import opened Common

  const MAX_WINDOW: nat := 2 * 1024 * 1024
  const WINDOW_THRESHOLD: nat := MAX_WINDOW / 2

  datatype Msg = Data(data: Bytes) | ExtData(data: Bytes) | Adjust(amount: nat) | Eof | Close

  /** The most data one message may carry; the peer's choice, never 0. */
  type PacketSize = n: nat | n > 0 witness 1

  datatype State = Open | AtEof | Closing | Closed

  /** - writing, writingErr: a write has been handed to `_write` and its callback not yet called
      - chunk, chunkErr: what is left of a stalled write, kept together with its callback
      - pushing: the application has control, inside the `push` of the data handler
      - live: the id is registered with the channel manager
      - written, writtenErr: everything the application wrote to stdout and to stderr
      - received, receivedErr: everything pushed to the readers */
  datatype Side = Side(
    server: bool,
    packetSize: PacketSize,
    outWindow: int,
    outState: State,
    inWindow: int,
    inState: State,
    waitWindow: bool,
    waitDrain: bool,
    chunk: Option<Bytes>,
    chunkErr: Option<Bytes>,
    writing: bool,
    writingErr: bool,
    pushing: bool,
    live: bool,
    written: Bytes,
    writtenErr: Bytes,
    received: Bytes,
    receivedErr: Bytes,
    log: seq<Msg>,
    seen: seq<Msg>)

  function Fresh(server: bool, packetSize: PacketSize): Side {
    Side(server, packetSize, MAX_WINDOW, Open, MAX_WINDOW, Open, false, false, None, None,
         false, false, false, true, [], [], [], [], [], [])
  }

  // ----- Writing -----

  function Min(a: int, b: int): int {
    if a < b then a else b
  }

  /** `data` cut into messages of at most `size` bytes. */
  function Pieces(data: Bytes, size: PacketSize, err: bool): seq<Msg>
    decreases |data|
  {
    if data == [] then []
    else
      var n := Min(|data|, size);
      [if err then ExtData(data[..n]) else Data(data[..n])] + Pieces(data[n..], size, err)
  }

  /** How much of a write the window lets through. */
  function Room(s: Side, data: Bytes): (n: nat)
    ensures n <= |data|
  {
    if s.outWindow <= 0 then 0 else Min(|data|, s.outWindow)
  }

  /** The messages a write sends at once. */
  function Sends(s: Side, data: Bytes, err: bool): seq<Msg> {
    Pieces(data[..Room(s, data)], s.packetSize, err)
  }

  /** What is left of a write for when the window opens again. */
  function Left(s: Side, data: Bytes): Bytes {
    data[Room(s, data)..]
  }

  /** `Channel._write`, when it is called: nothing happens unless the channel is open. A write
      that does not fit is kept for later and its callback not called. */
  function WriteOut(called: bool, s: Side, data: Bytes): Side {
    var go := called && s.outState == Open;
    var stalls := go && Room(s, data) < |data|;
    s.(log := if go then s.log + Sends(s, data, false) else s.log,
       outWindow := s.outWindow - if go then Room(s, data) else 0,
       waitWindow := stalls || s.waitWindow,
       chunk := if stalls then Some(Left(s, data)) else s.chunk,
       writing := s.writing && (go ==> stalls))
  }

  /** `ServerStderr._write`: the same, but for its own chunk and callback. */
  function WriteErrOut(called: bool, s: Side, data: Bytes): Side {
    var go := called && s.outState == Open;
    var stalls := go && Room(s, data) < |data|;
    s.(log := if go then s.log + Sends(s, data, true) else s.log,
       outWindow := s.outWindow - if go then Room(s, data) else 0,
       waitWindow := stalls || s.waitWindow,
       chunkErr := if stalls then Some(Left(s, data)) else s.chunkErr,
       writingErr := s.writingErr && (go ==> stalls))
  }

  // ----- Closing -----

  /** `eof` */
  function SendEof(s: Side): Side {
    var go := s.outState == Open;
    s.(outState := if go then AtEof else s.outState, log := if go then s.log + [Eof] else s.log)
  }

  /** `close` */
  function SendClose(s: Side): Side {
    var go := s.outState == Open || s.outState == AtEof;
    s.(outState := if go then Closing else s.outState, log := if go then s.log + [Close] else s.log)
  }

  // ----- Reading -----

  /** `windowAdjust`, when it is called: the window is opened fully again. */
  function WindowAdjust(called: bool, s: Side): Side {
    var go := called && s.outState != Closed && s.inWindow < MAX_WINDOW;
    s.(inWindow := if go then MAX_WINDOW else s.inWindow,
       log := if go then s.log + [Adjust(MAX_WINDOW - s.inWindow)] else s.log)
  }

  /** `_read` of either reader. */
  function Read(s: Side): Side {
    WindowAdjust(s.waitDrain && s.inWindow <= WINDOW_THRESHOLD, s).(waitDrain := false)
  }

  /** The data handlers after `push` has returned `more`. */
  function Pushed(s: Side, more: bool): Side {
    WindowAdjust(more && s.inWindow <= WINDOW_THRESHOLD, s).(pushing := false, waitDrain := !more || s.waitDrain)
  }

  // ----- Messages: no handler finds a channel whose id is gone -----

  /** The data handlers up to and including the call of `push`. */
  function OnData(s: Side, data: Bytes): Side {
    var go := s.live && s.inWindow != 0;
    s.(inWindow := s.inWindow - if go then |data| else 0,
       pushing := go || s.pushing,
       received := if go then s.received + data else s.received)
  }

  /** Stderr data; a server ignores it. */
  function OnExtData(s: Side, data: Bytes): Side {
    var go := s.live && !s.server && s.inWindow != 0;
    s.(inWindow := s.inWindow - if go then |data| else 0,
       pushing := go || s.pushing,
       receivedErr := if go then s.receivedErr + data else s.receivedErr)
  }

  /** More window: a stalled write goes on, stdout before stderr. */
  function OnAdjust(s: Side, amount: nat): Side {
    var wakes := s.live && s.waitWindow;
    var s1 := s.(outWindow := s.outWindow + if s.live then amount else 0,
                 waitWindow := s.waitWindow && !s.live);
    WriteErrOut(wakes && s.chunk.None? && s.chunkErr.Some?,
                WriteOut(wakes && s.chunk.Some?, s1, s.chunk.GetOr([])),
                s.chunkErr.GetOr([]))
  }

  function OnEof(s: Side): Side {
    s.(inState := if s.live && s.inState == Open then AtEof else s.inState)
  }

  /** `onCHANNEL_CLOSE`: the answer, unless CLOSE has been sent already, and the id is given back. */
  function OnClose(s: Side): Side {
    var go := s.live && s.inState != Closed;
    var answers := go && (s.outState == Open || s.outState == AtEof);
    s.(inState := if go then Closed else s.inState,
       log := if answers then s.log + [Close] else s.log,
       outState := if go then Closed else s.outState,
       live := s.live && !go)
  }

  function Receive(s: Side, m: Msg): Side {
    var s1 := s.(seen := s.seen + [m]);
    match m
    case Data(data) => OnData(s1, data)
    case ExtData(data) => OnExtData(s1, data)
    case Adjust(amount) => OnAdjust(s1, amount)
    case Eof => OnEof(s1)
    case Close => OnClose(s1)
  }

  // ----- What can happen at one end -----

  /** `Writes` and `WritesErr` are the application's, through Node's writable streams, which hold
      the next one back until the callback of the one before; `WritesErr` exists on a server
      only. `Arrives` is a message handed over by the protocol, which cannot happen inside
      a handler; everything else can happen while the application has control in `push`. */
  datatype Event =
    | Writes(data: Bytes)
    | WritesErr(data: Bytes)
    | Ends
    | Closes
    | Reads
    | PushReturns(more: bool)
    | Arrives(msg: Msg)

  predicate Enabled(s: Side, e: Event) {
    match e
    case Writes(_) => !s.writing
    case WritesErr(_) => s.server && !s.writingErr
    case PushReturns(_) => s.pushing
    case Arrives(_) => !s.pushing
    case _ => true
  }

  function After(s: Side, e: Event): Side {
    match e
    case Writes(data) => WriteOut(true, s.(writing := true, written := s.written + data), data)
    case WritesErr(data) => WriteErrOut(true, s.(writingErr := true, writtenErr := s.writtenErr + data), data)
    case Ends => SendEof(s)
    case Closes => SendClose(s)
    case Reads => Read(s)
    case PushReturns(more) => Pushed(s, more)
    case Arrives(m) => Receive(s, m)
  }
}
