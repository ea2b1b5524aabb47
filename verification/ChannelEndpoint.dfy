/** `Channel` as an object whose methods and message handlers update its fields; each does what
    the function of the same name in ChannelModel says. */
module ChannelEndpoint {
  import opened Common
  import opened ChannelModel

  lemma OnePieceLess(log: seq<Msg>, data: Bytes, size: PacketSize, err: bool)
    requires data != []
    ensures var n := Min(|data|, size);
            var m := if err then ExtData(data[..n]) else Data(data[..n]);
            log + Pieces(data, size, err) == (log + [m]) + Pieces(data[n..], size, err)
  {
  }

  /** The same within `data`, between `p` and `room`. */
  lemma OneSliceLess(log: seq<Msg>, data: Bytes, p: nat, n: nat, room: nat, size: PacketSize, err: bool)
    requires p < room <= |data| && n == Min(room - p, size)
    ensures p + n <= room && log + Pieces(data[p..room], size, err)
                             == (log + [if err then ExtData(data[p..p + n]) else Data(data[p..p + n])])
                                + Pieces(data[p + n..room], size, err)
  {
    var rest := data[p..room];
    assert rest[..n] == data[p..p + n] && rest[n..] == data[p + n..room];
    hide Pieces;
    OnePieceLess(log, rest, size, err);
  }

  lemma NoPieces(log: seq<Msg>, size: PacketSize, err: bool)
    ensures log + Pieces([], size, err) == log
  {
  }

  lemma NotCalled(s: Side, data: Bytes)
    ensures WriteOut(false, s, data) == s == WriteErrOut(false, s, data)
  {
  }

  /** What has passed through a channel. */
  datatype Trace = Trace(
    written: Bytes,
    writtenErr: Bytes,
    received: Bytes,
    receivedErr: Bytes,
    log: seq<Msg>,
    seen: seq<Msg>)

  class Channel {
    const server: bool
    const packetSize: PacketSize
    var outWindow: int
    var outState: State
    var inWindow: int
    var inState: State
    var waitWindow: bool
    var waitDrain: bool
    var chunk: Option<Bytes>
    var chunkErr: Option<Bytes>
    var writing: bool
    var writingErr: bool
    var pushing: bool
    var live: bool
    var trace: Trace

    ghost function View(): Side
      reads this
    {
      Side(server, packetSize, outWindow, outState, inWindow, inState, waitWindow, waitDrain, chunk, chunkErr,
           writing, writingErr, pushing, live, trace.written, trace.writtenErr, trace.received,
           trace.receivedErr, trace.log, trace.seen)
    }

    constructor (server: bool, packetSize: PacketSize)
      ensures View() == Fresh(server, packetSize)
    {
      this.server, this.packetSize := server, packetSize;
      outWindow, outState, inWindow, inState := MAX_WINDOW, Open, MAX_WINDOW, Open;
      waitWindow, waitDrain, chunk, chunkErr := false, false, None, None;
      writing, writingErr, pushing, live := false, false, false, true;
      trace := Trace([], [], [], [], [], []);
    }

    /** The loop of both `_write` methods: messages go out while there is data and window. */
    method SendPieces(data: Bytes, err: bool) returns (p: nat, window: int)
      requires outWindow >= 0
      modifies this`trace
      ensures p == Room(old(View()), data) && window == outWindow - p
      ensures trace == old(trace).(log := old(trace).log + Sends(old(View()), data, err))
    {
      ghost var room := Room(View(), data);
      assert room == if outWindow <= 0 then 0 else Min(|data|, outWindow);
      assert Sends(View(), data, err) == Pieces(data[..room], packetSize, err);
      hide View, Room, Sends, Pieces;
      window := outWindow;
      p := 0;
      assert data[0..room] == data[..room];
      while |data| - p > 0 && window > 0
        invariant 0 <= p <= room && window == outWindow - p
        invariant trace == old(trace).(log := trace.log)
        invariant trace.log + Pieces(data[p..room], packetSize, err)
                  == old(trace).log + Pieces(data[..room], packetSize, err)
      {
        var sliceLen := |data| - p;
        if sliceLen > window {
          sliceLen := window;
        }
        if sliceLen > packetSize {
          sliceLen := packetSize;
        }
        var slice := if p == 0 && sliceLen == |data| then data else data[p..p + sliceLen];
        assert slice == data[p..p + sliceLen];
        OneSliceLess(trace.log, data, p, sliceLen, room, packetSize, err);
        trace := trace.(log := trace.log + [if err then ExtData(slice) else Data(slice)]);
        p := p + sliceLen;
        window := window - sliceLen;
      }
      assert data[p..room] == [];
      NoPieces(trace.log, packetSize, err);
    }

    /** `_write` */
    method Write(data: Bytes)
      requires outWindow >= 0
      modifies this
      ensures View() == WriteOut(true, old(View()), data) && outWindow >= 0
    {
      if outState != Open {
        return;
      }
      var p, window := SendPieces(data, false);
      hide Sends, Room, Pieces;
      outWindow := window;
      if |data| - p > 0 {
        if window == 0 {
          waitWindow := true;
        }
        chunk := Some(if p > 0 then data[p..] else data);
        assert data[0..] == data;
        return;
      }
      writing := false;
    }

    /** `ServerStderr._write` */
    method WriteErr(data: Bytes)
      requires outWindow >= 0
      modifies this
      ensures View() == WriteErrOut(true, old(View()), data) && outWindow >= 0
    {
      if outState != Open {
        return;
      }
      var p, window := SendPieces(data, true);
      hide Sends, Room;
      outWindow := window;
      if |data| - p > 0 {
        if window == 0 {
          waitWindow := true;
        }
        chunkErr := Some(if p > 0 then data[p..] else data);
        assert data[0..] == data;
        return;
      }
      writingErr := false;
    }

    /** `eof` */
    method End()
      modifies this
      ensures View() == SendEof(old(View()))
    {
      if outState == Open {
        outState := AtEof;
        trace := trace.(log := trace.log + [Eof]);
      }
    }

    /** `close` */
    method Shut()
      modifies this`outState, this`trace
      ensures View() == SendClose(old(View()))
    {
      if outState == Open || outState == AtEof {
        outState := Closing;
        trace := trace.(log := trace.log + [Close]);
      }
    }

    method AdjustWindow()
      modifies this
      ensures View() == WindowAdjust(true, old(View()))
    {
      if outState == Closed {
        return;
      }
      var amt := MAX_WINDOW - inWindow;
      if amt <= 0 {
        return;
      }
      inWindow := inWindow + amt;
      trace := trace.(log := trace.log + [Adjust(amt)]);
    }

    /** `_read`, of the channel or of its stderr. */
    method Reads()
      modifies this
      ensures View() == Read(old(View()))
    {
      if waitDrain {
        waitDrain := false;
        if inWindow <= WINDOW_THRESHOLD {
          AdjustWindow();
        }
      }
    }

    /** CHANNEL_DATA, up to and including the call of `push`. */
    method HandleData(data: Bytes)
      modifies this
      ensures View() == Receive(old(View()), Data(data))
    {
      trace := trace.(seen := trace.seen + [Data(data)]);
      if !live || inWindow == 0 {
        return;
      }
      inWindow := inWindow - |data|;
      trace := trace.(received := trace.received + data);
      pushing := true;
    }

    /** CHANNEL_EXTENDED_DATA, up to and including the call of `push`. */
    method HandleExtData(data: Bytes)
      modifies this
      ensures View() == Receive(old(View()), ExtData(data))
    {
      trace := trace.(seen := trace.seen + [ExtData(data)]);
      if server || !live || inWindow == 0 {
        return;
      }
      inWindow := inWindow - |data|;
      trace := trace.(receivedErr := trace.receivedErr + data);
      pushing := true;
    }

    /** The rest of both data handlers, once `push` has returned. */
    method PushReturned(more: bool)
      modifies this
      ensures View() == Pushed(old(View()), more)
    {
      pushing := false;
      if !more {
        waitDrain := true;
        return;
      }
      if inWindow <= WINDOW_THRESHOLD {
        AdjustWindow();
      }
    }

    /** CHANNEL_WINDOW_ADJUST */
    method HandleAdjust(amount: nat)
      requires outWindow >= 0
      modifies this
      ensures View() == Receive(old(View()), Adjust(amount)) && outWindow >= 0
    {
      hide WriteOut, WriteErrOut;
      trace := trace.(seen := trace.seen + [Adjust(amount)]);
      if !live {
        NotCalled(View(), chunk.GetOr([]));
        NotCalled(View(), chunkErr.GetOr([]));
        return;
      }
      outWindow := outWindow + amount;
      if waitWindow {
        waitWindow := false;
        Wake();
      } else {
        NotCalled(View(), chunk.GetOr([]));
        NotCalled(View(), chunkErr.GetOr([]));
      }
    }

    /** The stalled write goes on. */
    method Wake()
      requires outWindow >= 0
      modifies this
      ensures var s := old(View());
              View() == WriteErrOut(s.chunk.None? && s.chunkErr.Some?,
                                    WriteOut(s.chunk.Some?, s, s.chunk.GetOr([])), s.chunkErr.GetOr([]))
      ensures outWindow >= 0
    {
      hide WriteOut, WriteErrOut;
      ghost var s := View();
      if chunk.Some? {
        Write(chunk.value);
        NotCalled(View(), s.chunkErr.GetOr([]));
      } else {
        NotCalled(s, []);
        if chunkErr.Some? {
          WriteErr(chunkErr.value);
        }
      }
    }

    /** CHANNEL_EOF */
    method HandleEof()
      modifies this
      ensures View() == Receive(old(View()), Eof)
    {
      trace := trace.(seen := trace.seen + [Eof]);
      if live && inState == Open {
        inState := AtEof;
      }
    }

    /** CHANNEL_CLOSE: `onCHANNEL_CLOSE` */
    method HandleClose()
      modifies this`inState, this`outState, this`live, this`trace
      ensures View() == Receive(old(View()), Close)
    {
      trace := trace.(seen := trace.seen + [Close]);
      if !live || inState == Closed {
        return;
      }
      inState := Closed;
      if outState == Open || outState == AtEof {
        Shut();
      }
      if outState == Closing {
        outState := Closed;
      }
      live := false;
    }
  }
}
