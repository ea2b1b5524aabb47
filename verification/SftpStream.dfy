/** SFTP from one end to the other. */
module SftpStream {
  import opened Common
  import opened FrameSpec
  import ChannelModel
  import ChannelSafety
  import S = SftpSend
  import R = SftpReceive

  function Submissions(events: seq<S.Event>): seq<Bytes> {
    if events == [] then []
    else
      var e := events[|events| - 1];
      Submissions(events[..|events| - 1]) + if e.Submits? then [e.payload] else []
  }

  lemma JoinAppend(a: seq<Bytes>, b: Bytes)
    ensures Join(a + [b]) == Join(a) + b
    decreases |a|
  {
    if a == [] {
      assert [] + [b] == [b] && Join([b][1..]) == [];
    } else {
      assert (a + [b])[1..] == a[1..] + [b];
      JoinAppend(a[1..], b);
    }
  }

  /** While the channel stays open, what `submitted` records is what the payloads add up to, and
      afterwards a part of it. */
  lemma {:induction false} SubmittedIs(window: nat, size: ChannelModel.PacketSize, events: seq<S.Event>)
    ensures var s := S.Exec(S.Opened(window, size), events);
            && s.submitted <= Join(Submissions(events))
            && (s.open ==> s.submitted == Join(Submissions(events)))
    decreases |events|
  {
    if events != [] {
      var init, e := events[..|events| - 1], events[|events| - 1];
      SubmittedIs(window, size, init);
      var s := S.Exec(S.Opened(window, size), init);
      match e
      case Submits(payload) =>
        JoinAppend(Submissions(init), payload);
      case Granted(amount) =>
        assert Submissions(init) + [] == Submissions(init);
        GrantLeaves(s, amount);
      case Shuts =>
        assert Submissions(init) + [] == Submissions(init);
    }
  }

  lemma GrantLeaves(s: S.Out, amount: nat)
    ensures S.Grant(s, amount).open == s.open && S.Grant(s, amount).submitted == s.submitted
  {
    DrainLeaves(s.(window := s.window + amount, waitWindow := false, armed := false));
  }

  lemma {:induction false} DrainLeaves(s: S.Out)
    ensures S.DrainLoop(s).open == s.open && S.DrainLoop(s).submitted == s.submitted
    decreases |s.buffer|
  {
    if s.buffer != [] {
      DrainLeaves(S.Try(s, s.buffer[0]).(buffer := s.buffer[1..]));
    }
  }

  /** Any schedule of requests and positive grants on the sending side, with the channel closed at
      any point or not at all, and any part of what that puts on the channel, cut anywhere: the
      peer has dispatched requests in the order they were made, each once and whole, and all of
      them once everything has been sent on an open channel and has arrived. */
  lemma EndToEnd(window: nat, size: ChannelModel.PacketSize, events: seq<S.Event>, packets: seq<Bytes>,
                 max: nat, refuses: Handler, n: uint32, chunks: seq<Bytes>)
    requires window > 0 && forall e <- events :: e.Granted? ==> e.amount > 0
    requires R.Sendable(packets, max) && NoStop(refuses, 0, packets) && Submissions(events) == R.Frames(packets)
    requires Join(chunks) <= ChannelSafety.OutBytes(S.Exec(S.Opened(window, size), events).sent)
    ensures var s := S.Exec(S.Opened(window, size), events);
            var o := FeedChunks(R.TheSuite(max), refuses, 0, (), n, [], chunks);
            && o.Waiting? && o.out <= packets
            && (s.open && s.buffer == [] && Join(chunks) == ChannelSafety.OutBytes(s.sent) ==>
                  o.out == packets && o.pending == [])
  {
    S.NothingLostOrReordered(window, size, events);
    SubmittedIs(window, size, events);
    var s := S.Exec(S.Opened(window, size), events);
    var wire, w := Join(R.Frames(packets)), Join(chunks);
    var sent := ChannelSafety.OutBytes(s.sent);
    assert s.open && s.buffer == [] ==> sent + [] == sent == wire;
    hide *;
    var more := wire[|w|..];
    assert w + more == wire;
    ChunksDoNotMatter(R.TheSuite(max), refuses, 0, (), n, [], chunks);
    assert [] + w == w;
    var n1 := R.FramesRoundTrip(packets, max, refuses, 0, n);
    PartOfStream(R.TheSuite(max), refuses, n, w, more, packets, n1);
    if w == wire {
      assert more == [];
    }
  }

  /** A part of a stream that is read to its end without complaint. */
  lemma PartOfStream(su: Suite<()>, stops: Handler, n: uint32, w: Bytes, more: Bytes, packets: seq<Bytes>, n1: uint32)
    requires Feed(su, stops, 0, (), n, w + more) == Waiting(packets, (), n1, [])
    ensures var o := Feed(su, stops, 0, (), n, w); o.Waiting? && o.out <= packets
  {
    FeedInTwo(su, stops, 0, (), n, w, more);
    hide Feed;
  }
}
