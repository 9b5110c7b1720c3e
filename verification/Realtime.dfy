/**
  The realtime hub: per-stream sequence numbers, bounded replay buffers and bounded
  subscriber queues, all abbreviating one unbounded history per stream.

  The hub's lock makes publish, subscribe, unsubscribe and shutdown atomic; a subscriber's
  consumer takes frames from its queue between any two of them.  A frame stands for the
  event it encodes.  `Hub` says what these steps do to the unbounded histories; the class
  `RealtimeHub` keeps only counters, bounded buffers and lists, and is proved to do the same.
 */
module Realtime {
  import opened Wrappers

  /** Stream names, only ever compared. */
  type Topic = string

  datatype StreamEvent = StreamEvent(sequence: nat, event: string, data: string)

  const QUEUE_CAPACITY: nat := 200

  function Min(a: nat, b: nat): nat { if a < b then a else b }

  // ----- One subscriber, on values -----

  /**
    A queue entry is a frame or the end mark.  `accepted` is every frame that ever entered
    the queue and `delivered` every frame the consumer has yielded, both oldest first.
   */
  datatype Feed = Feed(
    queue: seq<Option<StreamEvent>>, closed: bool, ended: bool,
    accepted: seq<StreamEvent>, delivered: seq<StreamEvent>)

  function Frames(events: seq<StreamEvent>): (q: seq<Option<StreamEvent>>)
    ensures |q| == |events|
    ensures forall i :: 0 <= i < |q| ==> q[i] == Some(events[i])
  {
    seq(|events|, i requires 0 <= i < |events| => Some(events[i]))
  }

  /** The queue is what was accepted and not yet delivered, then possibly an end mark once closed. */
  ghost predicate Sound(f: Feed) {
    && f.delivered <= f.accepted && |f.queue| <= QUEUE_CAPACITY
    && (!f.ended ==>
          var waiting := Frames(f.accepted[|f.delivered|..]);
          f.queue == waiting || (f.closed && f.queue == waiting + [None]))
  }

  function ClosedFeed(f: Feed): Feed {
    if f.closed then f
    else if |f.queue| < QUEUE_CAPACITY then f.(closed := true, queue := f.queue + [None])
    else f.(closed := true)
  }

  predicate HasRoom(f: Feed) { !f.closed && |f.queue| < QUEUE_CAPACITY }

  /** A frame is queued while there is room; the first one that does not fit closes the feed. */
  function Offered(f: Feed, e: StreamEvent): Feed {
    if HasRoom(f) then f.(queue := f.queue + [Some(e)], accepted := f.accepted + [e]) else ClosedFeed(f)
  }

  /** What a feed accepted is one block of its stream's history, reaching its end while it is open. */
  ghost predicate Block(f: Feed, start: nat, h: seq<StreamEvent>) {
    var end := start + |f.accepted|;
    Sound(f) && end <= |h| && f.accepted == h[start..end] && (!f.closed ==> end == |h|)
  }

  /** Publishing to an open feed extends its block; a closed feed keeps the one it has. */
  lemma BlockOffered(f: Feed, start: nat, h: seq<StreamEvent>, e: StreamEvent)
    requires Block(f, start, h)
    ensures Block(Offered(f, e), start, h + [e])
    ensures f.closed ==> Block(f, start, h + [e])
  {}

  lemma BlockClosed(f: Feed, start: nat, h: seq<StreamEvent>)
    requires Sound(f) && start + |f.accepted| <= |h| && f.accepted == h[start..start + |f.accepted|]
    ensures Block(ClosedFeed(f), start, h)
  {}

  /** Whatever has been delivered carries consecutive ascending sequence numbers. */
  lemma DeliveredInOrder(f: Feed, start: nat, h: seq<StreamEvent>)
    requires Block(f, start, h) && Numbered(h)
    ensures forall i :: 0 <= i < |f.delivered| ==>
              f.delivered[i] == h[start + i] && f.delivered[i].sequence == start + 1 + i
  {}

  datatype Frame = Yielded(event: StreamEvent) | Expired | Ended | Nothing

  predicate Contains(s: string, w: string) {
    |w| <= |s| && (s[..|w|] == w || Contains(s[1..], w))
  }

  const SHUTDOWN_MARK: string := "event: manager.shutdown"

  /** A frame whose text says the manager is shutting down is shown even to a reader who may see nothing else. */
  predicate Exempt(e: StreamEvent) {
    Contains("event: " + e.event + "\ndata: " + e.data, SHUTDOWN_MARK)
  }

  lemma StartContains(w: string, rest: string)
    requires w != ""
    ensures Contains(w + rest, w)
  {
    assert (w + rest)[..|w|] == w;
  }

  lemma ShutdownIsExempt(e: StreamEvent)
    requires e.event == "manager.shutdown"
    ensures Exempt(e)
  {
    var rest := "\ndata: " + e.data;
    assert "event: " + e.event + "\ndata: " + e.data == SHUTDOWN_MARK + rest;
    StartContains(SHUTDOWN_MARK, rest);
  }

  /** One turn of the consumer; `pass` is whether the reader may still see frames. */
  function Taken(f: Feed, pass: bool): (Feed, Frame) {
    if f.ended then (f, Ended)
    else if f.queue == [] then
      if f.closed then (f.(ended := true), Ended)
      else if !pass then (f.(ended := true), Expired)
      else (f, Nothing)
    else
      var rest := f.(queue := f.queue[1..]);
      if f.queue[0].None? then (rest.(ended := true), Ended)
      else if !pass && !Exempt(f.queue[0].value) then (rest.(ended := true), Expired)
      else (rest.(delivered := f.delivered + [f.queue[0].value]), Yielded(f.queue[0].value))
  }

  /** Consuming yields the next frame of the block, or nothing, and never disturbs the block. */
  lemma TakenInOrder(f: Feed, pass: bool)
    requires Sound(f)
    ensures var (g, frame) := Taken(f, pass);
            && Sound(g) && g.accepted == f.accepted && g.closed == f.closed
            && (frame.Yielded? ==> |f.delivered| < |f.accepted| && frame.event == f.accepted[|f.delivered|])
            && g.delivered == f.delivered + if frame.Yielded? then [frame.event] else []
  {}

  // ----- The replay buffer, on values -----

  predicate Numbered(h: seq<StreamEvent>) {
    forall i :: 0 <= i < |h| ==> h[i].sequence == i + 1
  }

  function Newest(h: seq<StreamEvent>, limit: nat): seq<StreamEvent> {
    h[|h| - Min(|h|, limit)..]
  }

  function After(events: seq<StreamEvent>, last: Option<int>): seq<StreamEvent> {
    if events == [] then []
    else
      var n := |events| - 1;
      After(events[..n], last) + if last.None? || events[n].sequence > last.value then [events[n]] else []
  }

  /** How many events of a history of this length a reconnecting reader has not received. */
  function Missed(published: nat, last: Option<int>): nat {
    if last.None? || last.value < 0 then published
    else if last.value < published then published - last.value else 0
  }

  lemma {:induction false} AfterConcat(a: seq<StreamEvent>, b: seq<StreamEvent>, last: Option<int>)
    ensures After(a + b, last) == After(a, last) + After(b, last)
  {
    if b == [] {
      assert a + b == a;
    } else {
      AfterConcat(a, b[..|b| - 1], last);
      assert (a + b)[..|a + b| - 1] == a + b[..|b| - 1];
    }
  }

  lemma {:induction false} AllAfter(events: seq<StreamEvent>, last: Option<int>)
    requires forall i :: 0 <= i < |events| ==> last.None? || events[i].sequence > last.value
    ensures After(events, last) == events
  {
    if events != [] {
      AllAfter(events[..|events| - 1], last);
    }
  }

  lemma {:induction false} NoneAfter(events: seq<StreamEvent>, last: Option<int>)
    requires last.Some? && forall i :: 0 <= i < |events| ==> events[i].sequence <= last.value
    ensures After(events, last) == []
  {
    if events != [] {
      NoneAfter(events[..|events| - 1], last);
    }
  }

  /** Of consecutively numbered events, those after `last` are the ones at the end that were missed. */
  lemma AfterIsSuffix(h: seq<StreamEvent>, from: nat, last: Option<int>)
    requires Numbered(h) && from <= |h|
    ensures After(h[from..], last) == h[|h| - Min(|h| - from, Missed(|h|, last))..]
  {
    var cut := |h| - Min(|h| - from, Missed(|h|, last));
    assert h[from..] == h[from..cut] + h[cut..];
    AfterSplit(h[from..cut], h[cut..], last);
  }

  lemma AfterSplit(a: seq<StreamEvent>, b: seq<StreamEvent>, last: Option<int>)
    requires forall i :: 0 <= i < |a| ==> last.Some? && a[i].sequence <= last.value
    requires forall i :: 0 <= i < |b| ==> last.None? || b[i].sequence > last.value
    ensures After(a + b, last) == b
  {
    AfterConcat(a, b, last);
    AllAfter(b, last);
    if a != [] {
      assert a[0].sequence <= last.value;
      NoneAfter(a, last);
    }
  }

  /**
    What a reader that last saw event `last` is sent on reconnecting is the end of the
    history, and it is all it missed, without gap or repetition, exactly when no more events
    were missed than the buffer holds.
   */
  lemma ReconnectExactly(h: seq<StreamEvent>, limit: nat, last: nat)
    requires Numbered(h) && last <= |h|
    ensures After(Newest(h, limit), Some(last)) == h[|h| - Min(limit, |h| - last)..]
    ensures After(Newest(h, limit), Some(last)) == h[last..] <==> |h| - last <= limit
  {
    AfterIsSuffix(h, |h| - Min(|h|, limit), Some(last));
    if |h| - last > limit {
      assert |h[|h| - limit..]| < |h[last..]|;
    }
  }

  // ----- The hub, on values -----

  datatype Reader = Reader(topic: Topic, start: nat, feed: Feed)

  /** Every event ever published, by stream, and every subscriber ever made. */
  datatype Hub = Hub(limit: nat, histories: map<Topic, seq<StreamEvent>>, readers: seq<Reader>, closed: bool)

  function HistoryOf(h: Hub, topic: Topic): seq<StreamEvent> {
    if topic in h.histories then h.histories[topic] else []
  }

  function Next(h: Hub, topic: Topic, event: string, data: string): StreamEvent {
    StreamEvent(|HistoryOf(h, topic)| + 1, event, data)
  }

  function Published(h: Hub, topic: Topic, e: StreamEvent): Hub {
    h.(histories := h.histories[topic := HistoryOf(h, topic) + [e]],
       readers := seq(|h.readers|, i requires 0 <= i < |h.readers| =>
                        var r := h.readers[i];
                        if r.topic == topic then r.(feed := Offered(r.feed, e)) else r))
  }

  const FRESH_FEED := Feed([], false, false, [], [])

  function OfferAll(f: Feed, events: seq<StreamEvent>): Feed {
    if events == [] then f else Offered(OfferAll(f, events[..|events| - 1]), events[|events| - 1])
  }

  /** How many buffered events a subscription replays. */
  function ReplayCount(published: nat, limit: nat, last: Option<int>): (n: nat)
    ensures n <= published
  {
    Min(Min(published, limit), Missed(published, last))
  }

  /** Where in the history a replay begins. */
  function ReplayStart(all: seq<StreamEvent>, limit: nat, last: Option<int>): (start: nat)
    ensures start <= |all|
  {
    |all| - ReplayCount(|all|, limit, last)
  }

  function ReplayOf(all: seq<StreamEvent>, limit: nat, last: Option<int>): seq<StreamEvent> {
    all[ReplayStart(all, limit, last)..]
  }

  lemma ReplayIsSuffix(all: seq<StreamEvent>, limit: nat, last: Option<int>)
    requires Numbered(all)
    ensures After(Newest(all, limit), last) == ReplayOf(all, limit, last)
  {
    AfterIsSuffix(all, |all| - Min(|all|, limit), last);
  }

  function Subscribed(h: Hub, topic: Topic, last: Option<int>): Hub {
    var all := HistoryOf(h, topic);
    h.(readers := h.readers + [Reader(topic, ReplayStart(all, h.limit, last),
                                      OfferAll(FRESH_FEED, ReplayOf(all, h.limit, last)))])
  }

  function Unsubscribed(h: Hub, k: nat): Hub {
    if k >= |h.readers| then h
    else h.(readers := h.readers[k := h.readers[k].(feed := ClosedFeed(h.readers[k].feed))])
  }

  function Consumed(h: Hub, k: nat, pass: bool): Hub {
    if k >= |h.readers| then h
    else h.(readers := h.readers[k := h.readers[k].(feed := Taken(h.readers[k].feed, pass).0)])
  }

  /** The streams that have ever been published or subscribed to. */
  function Topics(h: Hub): set<Topic> {
    h.histories.Keys + set i | 0 <= i < |h.readers| :: h.readers[i].topic
  }

  function LastEvent(h: Hub, topic: Topic): StreamEvent { Next(h, topic, "manager.shutdown", "{}") }

  function Dismissed(r: Reader, e: StreamEvent): Reader { r.(feed := ClosedFeed(Offered(r.feed, e))) }

  /** One last event on every stream, then no open subscriber remains. */
  function ShutDown(h: Hub): Hub {
    if h.closed then h
    else
      h.(closed := true,
         histories := map topic | topic in Topics(h) ::
                        HistoryOf(h, topic) + [LastEvent(h, topic)],
         readers := seq(|h.readers|, i requires 0 <= i < |h.readers| =>
                          Dismissed(h.readers[i], LastEvent(h, h.readers[i].topic))))
  }

  datatype Action =
    | Publish(topic: Topic, event: string, data: string)
    | Subscribe(topic: Topic, last: Option<int>)
    | Unsubscribe(k: nat)
    | Consume(k: nat, pass: bool)
    | Shutdown

  function Step(h: Hub, a: Action): Hub {
    match a
    case Publish(topic, event, data) => Published(h, topic, Next(h, topic, event, data))
    case Subscribe(topic, last) => Subscribed(h, topic, last)
    case Unsubscribe(k) => Unsubscribed(h, k)
    case Consume(k, pass) => Consumed(h, k, pass)
    case Shutdown => ShutDown(h)
  }

  function Run(h: Hub, actions: seq<Action>): Hub
    decreases |actions|
  {
    if actions == [] then h else Run(Step(h, actions[0]), actions[1..])
  }

  ghost predicate HubOk(h: Hub) {
    && (forall topic :: topic in h.histories ==> Numbered(h.histories[topic]))
    && (forall i :: 0 <= i < |h.readers| ==>
          Block(h.readers[i].feed, h.readers[i].start, HistoryOf(h, h.readers[i].topic)))
  }

  /** Offering a fresh feed a run of events keeps as many as fit, and closes it on the first that does not. */
  lemma {:induction false} OfferAllExactly(events: seq<StreamEvent>)
    ensures var kept := events[..Min(|events|, QUEUE_CAPACITY)];
            OfferAll(FRESH_FEED, events) == Feed(Frames(kept), |events| > QUEUE_CAPACITY, false, kept, [])
  {
    if events == [] {
      assert Frames(events[..0]) == [];
    } else {
      var n := |events| - 1;
      OfferAllExactly(events[..n]);
      if n < QUEUE_CAPACITY {
        assert events[..n + 1] == events[..n][..n] + [events[n]];
        assert Frames(events[..n + 1]) == Frames(events[..n][..n]) + [Some(events[n])];
      } else {
        assert events[..n][..QUEUE_CAPACITY] == events[..QUEUE_CAPACITY];
      }
    }
  }

  lemma FreshBlock(all: seq<StreamEvent>, from: nat)
    requires from <= |all|
    ensures Block(OfferAll(FRESH_FEED, all[from..]), from, all)
  {
    var events := all[from..];
    var kept := events[..Min(|events|, QUEUE_CAPACITY)];
    OfferAllExactly(events);
    assert kept == all[from..from + |kept|] && kept[0..] == kept;
  }

  /** The replay is cut at the queue's capacity, and a replay that does not fit closes the subscription. */
  lemma SubscribedQueue(h: Hub, topic: Topic, last: Option<int>)
    ensures var replay := ReplayCount(|HistoryOf(h, topic)|, h.limit, last);
            var feed := Subscribed(h, topic, last).readers[|h.readers|].feed;
            && |feed.accepted| == Min(replay, QUEUE_CAPACITY) && feed.delivered == []
            && (feed.closed <==> replay > QUEUE_CAPACITY)
  {
    var all := HistoryOf(h, topic);
    OfferAllExactly(all[|all| - ReplayCount(|all|, h.limit, last)..]);
  }

  lemma SubscribedOk(h: Hub, topic: Topic, last: Option<int>)
    requires HubOk(h)
    ensures HubOk(Subscribed(h, topic, last))
  {
    var all := HistoryOf(h, topic);
    var start := |all| - ReplayCount(|all|, h.limit, last);
    FreshBlock(all, start);
    ReaderAdded(h, Reader(topic, start, OfferAll(FRESH_FEED, all[start..])));
  }

  lemma ReaderAdded(h: Hub, r: Reader)
    requires HubOk(h) && Block(r.feed, r.start, HistoryOf(h, r.topic))
    ensures HubOk(h.(readers := h.readers + [r]))
  {}

  /** Replacing one reader's feed by another good block keeps the hub good. */
  lemma ReaderReplaced(h: Hub, k: nat, feed: Feed)
    requires HubOk(h) && k < |h.readers|
    requires Block(feed, h.readers[k].start, HistoryOf(h, h.readers[k].topic))
    ensures HubOk(h.(readers := h.readers[k := h.readers[k].(feed := feed)]))
  {}

  lemma ConsumedOk(h: Hub, k: nat, pass: bool)
    requires HubOk(h) && k < |h.readers|
    ensures HubOk(Consumed(h, k, pass))
  {
    TakenInOrder(h.readers[k].feed, pass);
    ReaderReplaced(h, k, Taken(h.readers[k].feed, pass).0);
  }

  lemma PublishedOk(h: Hub, topic: Topic, event: string, data: string)
    requires HubOk(h)
    ensures HubOk(Published(h, topic, Next(h, topic, event, data)))
  {
    var e := Next(h, topic, event, data);
    var h' := Published(h, topic, e);
    forall i | 0 <= i < |h.readers|
      ensures Block(h'.readers[i].feed, h'.readers[i].start, HistoryOf(h', h'.readers[i].topic))
    {
      if h.readers[i].topic == topic {
        BlockOffered(h.readers[i].feed, h.readers[i].start, HistoryOf(h, topic), e);
      }
    }
  }

  lemma StepHubOk(h: Hub, a: Action)
    requires HubOk(h)
    ensures HubOk(Step(h, a))
  {
    match a {
      case Publish(topic, event, data) => PublishedOk(h, topic, event, data);
      case Subscribe(topic, last) => SubscribedOk(h, topic, last);
      case Unsubscribe(k) =>
        if k < |h.readers| {
          BlockClosed(h.readers[k].feed, h.readers[k].start, HistoryOf(h, h.readers[k].topic));
          ReaderReplaced(h, k, ClosedFeed(h.readers[k].feed));
        }
      case Consume(k, pass) =>
        if k < |h.readers| {
          ConsumedOk(h, k, pass);
        }
      case Shutdown => ShutDownOk(h);
    }
  }

  /** The last event ends a reader's block. */
  lemma DismissedBlock(r: Reader, all: seq<StreamEvent>, e: StreamEvent)
    requires Block(r.feed, r.start, all)
    ensures Block(Dismissed(r, e).feed, r.start, all + [e])
  {
    BlockOffered(r.feed, r.start, all, e);
    BlockClosed(Offered(r.feed, e), r.start, all + [e]);
  }

  lemma ShutDownOk(h: Hub)
    requires HubOk(h)
    ensures HubOk(ShutDown(h))
  {
    if !h.closed {
      var h' := ShutDown(h);
      forall i | 0 <= i < |h.readers|
        ensures Block(h'.readers[i].feed, h'.readers[i].start, HistoryOf(h', h'.readers[i].topic))
      {
        var r := h.readers[i];
        assert r.topic in Topics(h);
        DismissedBlock(r, HistoryOf(h, r.topic), LastEvent(h, r.topic));
      }
      forall topic | topic in h'.histories ensures Numbered(h'.histories[topic]) {
        assert Numbered(HistoryOf(h, topic));
      }
    }
  }

  lemma {:induction false} RunHubOk(h: Hub, actions: seq<Action>)
    requires HubOk(h)
    ensures HubOk(Run(h, actions))
    decreases |actions|
  {
    if actions != [] {
      StepHubOk(h, actions[0]);
      RunHubOk(Step(h, actions[0]), actions[1..]);
    }
  }

  /**
    However publishing, subscribing, consuming, overflow and shutdown interleave, what a
    subscriber has been delivered is one block of its stream, numbered consecutively from
    where its subscription started.
   */
  lemma DeliveredIsOneBlock(limit: nat, actions: seq<Action>, k: nat)
    requires k < |Run(Hub(limit, map[], [], false), actions).readers|
    ensures var h := Run(Hub(limit, map[], [], false), actions);
            var r := h.readers[k];
            forall i :: 0 <= i < |r.feed.delivered| ==>
              && r.start + i < |HistoryOf(h, r.topic)|
              && r.feed.delivered[i] == HistoryOf(h, r.topic)[r.start + i]
              && r.feed.delivered[i].sequence == r.start + 1 + i
  {
    RunHubOk(Hub(limit, map[], [], false), actions);
    var h := Run(Hub(limit, map[], [], false), actions);
    var r := h.readers[k];
    DeliveredInOrder(r.feed, r.start, HistoryOf(h, r.topic));
  }

  /**
    A reader that reconnects with the last sequence number it was given goes on exactly where
    it stopped if and only if the buffer still holds everything published since.
   */
  lemma ResumesExactly(h: Hub, k: nat)
    requires HubOk(h) && k < |h.readers| && h.readers[k].feed.delivered != []
    ensures var r := h.readers[k];
            var n := |r.feed.delivered|;
            var last := r.feed.delivered[n - 1].sequence;
            var again := Subscribed(h, r.topic, Some(last)).readers[|h.readers|];
            && last == r.start + n <= |HistoryOf(h, r.topic)|
            && (again.start == r.start + n <==> |HistoryOf(h, r.topic)| - last <= h.limit)
  {}

  /** Two subscriptions, the second going on where the first stopped, read one unbroken block. */
  lemma BlocksJoin(f: Feed, start: nat, g: Feed, all: seq<StreamEvent>)
    requires Block(f, start, all) && Block(g, start + |f.delivered|, all)
    ensures f.delivered + g.delivered == all[start..start + |f.delivered| + |g.delivered|]
  {}

  /** Subscriptions stay where they began, and histories only grow. */
  predicate Grows(h: Hub, h': Hub) {
    && |h.readers| <= |h'.readers|
    && (forall k :: 0 <= k < |h.readers| ==>
          h'.readers[k].start == h.readers[k].start && h'.readers[k].topic == h.readers[k].topic)
    && (forall topic :: topic in h.histories ==> HistoryOf(h, topic) <= HistoryOf(h', topic))
  }

  lemma StepGrows(h: Hub, a: Action)
    ensures Grows(h, Step(h, a))
  {}

  lemma {:induction false} RunGrows(h: Hub, actions: seq<Action>)
    ensures Grows(h, Run(h, actions))
    decreases |actions|
  {
    if actions != [] {
      StepGrows(h, actions[0]);
      RunGrows(Step(h, actions[0]), actions[1..]);
    }
  }

  predicate OneBlock(events: seq<StreamEvent>, start: nat, all: seq<StreamEvent>) {
    start + |events| <= |all| && events == all[start..start + |events|]
  }

  /** Of a numbered history, two blocks put together are a block exactly when the second starts where the first ends. */
  lemma JoinedExactly(f: Feed, start: nat, g: Feed, from: nat, all: seq<StreamEvent>)
    requires Numbered(all) && Block(f, start, all) && Block(g, from, all) && g.delivered != []
    ensures OneBlock(f.delivered + g.delivered, start, all) <==> from == start + |f.delivered|
  {
    if from == start + |f.delivered| {
      BlocksJoin(f, start, g, all);
    }
    if OneBlock(f.delivered + g.delivered, start, all) {
      JoinedStart(f, start, g, from, all);
    }
  }

  lemma JoinedStart(f: Feed, start: nat, g: Feed, from: nat, all: seq<StreamEvent>)
    requires Numbered(all) && Block(g, from, all) && g.delivered != []
    requires OneBlock(f.delivered + g.delivered, start, all)
    ensures from == start + |f.delivered|
  {
    var joined, n := f.delivered + g.delivered, |f.delivered|;
    DeliveredInOrder(g, from, all);
    assert joined[n] == g.delivered[0] && joined[n] == all[start + n];
  }

  /** After any further run a reader's feed is a block from its old start, of a longer history. */
  lemma LaterReader(h: Hub, m: nat, later: Hub)
    requires Grows(h, later) && HubOk(later) && m < |h.readers|
    ensures var all, topic := HistoryOf(later, h.readers[m].topic), h.readers[m].topic;
            && Numbered(all) && HistoryOf(h, topic) <= all && Block(later.readers[m].feed, h.readers[m].start, all)
  {
    assert Block(later.readers[m].feed, later.readers[m].start, HistoryOf(later, later.readers[m].topic));
  }

  /** A feed left behind and one read later, of the history as it has grown. */
  lemma JoinedLater(f: Feed, start: nat, g: Feed, from: nat, before: seq<StreamEvent>, all: seq<StreamEvent>)
    requires Numbered(all) && before <= all && Block(f, start, before)
    requires Block(g, from, all) && g.delivered != []
    ensures OneBlock(f.delivered + g.delivered, start, all) <==> from == start + |f.delivered|
  {
    BlockClosed(f, start, all);
    JoinedExactly(ClosedFeed(f), start, g, from, all);
  }

  /**
    Once a reconnected reader is given anything, however the hub went on meanwhile: what it was
    given before and after reconnecting is one unbroken block of the stream if and only if at
    most `limit` events were missed.
   */
  lemma ReconnectedReadsOneBlock(h: Hub, k: nat, last: int, actions: seq<Action>)
    requires HubOk(h) && k < |h.readers| && h.readers[k].feed.delivered != []
    requires last == h.readers[k].feed.delivered[|h.readers[k].feed.delivered| - 1].sequence
    requires var later := Run(Subscribed(h, h.readers[k].topic, Some(last)), actions);
             |h.readers| < |later.readers| && later.readers[|h.readers|].feed.delivered != []
    ensures var r := h.readers[k];
            var later := Run(Subscribed(h, r.topic, Some(last)), actions);
            OneBlock(r.feed.delivered + later.readers[|h.readers|].feed.delivered, r.start, HistoryOf(later, r.topic))
            <==> |HistoryOf(h, r.topic)| - last <= h.limit
  {
    var r := h.readers[k];
    var again := Subscribed(h, r.topic, Some(last));
    SubscribedOk(h, r.topic, Some(last));
    RunHubOk(again, actions);
    RunGrows(again, actions);
    ResumesExactly(h, k);
    var later := Run(again, actions);
    LaterReader(again, |h.readers|, later);
    JoinedLater(r.feed, r.start, later.readers[|h.readers|].feed, again.readers[|h.readers|].start,
                HistoryOf(h, r.topic), HistoryOf(later, r.topic));
  }

  // ----- What publishing, subscribing and shutting down do -----

  /** A feed takes a frame while it is open and fewer than 200 wait; the first that does not fit closes it. */
  lemma OfferInWords(f: Feed, e: StreamEvent)
    ensures var g := Offered(f, e);
            && g.delivered == f.delivered && g.ended == f.ended
            && (if f.closed then g == f
                else if |f.queue| < 200 then
                  g.queue == f.queue + [Some(e)] && g.accepted == f.accepted + [e] && !g.closed
                else g.closed && g.accepted == f.accepted && (|f.queue| == 200 ==> g.queue == f.queue))
  {}

  /** An event gets its stream's next number, one up from how many there were, and goes to that stream alone. */
  lemma PublishInWords(h: Hub, topic: Topic, event: string, data: string)
    ensures var h' := Step(h, Publish(topic, event, data));
            var e := StreamEvent(|HistoryOf(h, topic)| + 1, event, data);
            && HistoryOf(h', topic) == HistoryOf(h, topic) + [e]
            && (forall t :: t != topic ==> HistoryOf(h', t) == HistoryOf(h, t))
            && |h'.readers| == |h.readers|
            && (forall k :: 0 <= k < |h.readers| ==>
                  h'.readers[k] == if h.readers[k].topic == topic
                                   then h.readers[k].(feed := Offered(h.readers[k].feed, e)) else h.readers[k])
  {}

  /** Shutting down gives every reader that is open and has room one last event, and leaves none open. */
  lemma ShutdownInWords(h: Hub, k: nat)
    requires !h.closed && k < |h.readers|
    ensures var h' := Step(h, Shutdown);
            var r := h.readers[k];
            var last := StreamEvent(|HistoryOf(h, r.topic)| + 1, "manager.shutdown", "{}");
            && h'.closed && |h'.readers| == |h.readers| && h'.readers[k].feed.closed
            && h'.readers[k].feed.accepted
               == r.feed.accepted + (if !r.feed.closed && |r.feed.queue| < 200 then [last] else [])
            && HistoryOf(h', r.topic) == HistoryOf(h, r.topic) + [last]
            && Step(h', Shutdown) == h'
  {
    assert h.readers[k].topic in Topics(h);
  }

  /** A subscription that names no event gets the newest the buffer holds; one that names event n gets those after n. */
  lemma SubscribeInWords(h: Hub, topic: Topic, last: Option<int>)
    ensures var h' := Step(h, Subscribe(topic, last));
            var n := |HistoryOf(h, topic)|;
            var missed := if last.None? || last.value < 0 then n else if last.value < n then n - last.value else 0;
            var start := n - if missed <= h.limit then missed else h.limit;
            && |h'.readers| == |h.readers| + 1 && h'.readers[..|h.readers|] == h.readers && h'.histories == h.histories
            && h'.readers[|h.readers|].topic == topic && h'.readers[|h.readers|].start == start
            && h'.readers[|h.readers|].feed.accepted
               == HistoryOf(h, topic)[start..if n - start <= 200 then n else start + 200]
  {
    var all := HistoryOf(h, topic);
    var start := ReplayStart(all, h.limit, last);
    OfferAllExactly(ReplayOf(all, h.limit, last));
    PrefixOfSuffix(all, start, Min(|all| - start, QUEUE_CAPACITY));
  }

  lemma PrefixOfSuffix(all: seq<StreamEvent>, start: nat, n: nat)
    requires start + n <= |all|
    ensures all[start..][..n] == all[start..start + n]
  {}

  /** Unsubscribing closes one feed, with an end mark if there is room, and touches nothing else. */
  lemma UnsubscribeInWords(h: Hub, k: nat)
    ensures var h' := Step(h, Unsubscribe(k));
            if k >= |h.readers| then h' == h
            else
              var f, f' := h.readers[k].feed, h'.readers[k].feed;
              && h' == h.(readers := h.readers[k := h.readers[k].(feed := f')])
              && f'.closed && f'.accepted == f.accepted && f'.delivered == f.delivered && f'.ended == f.ended
              && f'.queue == (if !f.closed && |f.queue| < 200 then f.queue + [None] else f.queue)
  {}

  // ----- What a consumer gets -----

  predicate StandsAt(s: string, w: string, i: nat) { i + |w| <= |s| && s[i..i + |w|] == w }

  lemma {:induction false} ContainsExactly(s: string, w: string)
    requires w != ""
    ensures Contains(s, w) <==> exists i: nat :: StandsAt(s, w, i)
  {
    if |w| <= |s| {
      ContainsExactly(s[1..], w);
      assert s[..|w|] == w <==> StandsAt(s, w, 0);
      if i: nat :| StandsAt(s[1..], w, i) {
        assert StandsAt(s, w, i + 1);
      }
      if i: nat :| i > 0 && StandsAt(s, w, i) {
        assert StandsAt(s[1..], w, i - 1);
      }
    }
  }

  /** To a reader who may see no more, any frame without the shutdown mark in its text ends the feed unseen. */
  lemma HiddenFrameExpires(f: Feed, e: StreamEvent)
    requires !f.ended && f.queue != [] && f.queue[0] == Some(e)
    requires !exists i: nat :: StandsAt("event: " + e.event + "\ndata: " + e.data, "event: manager.shutdown", i)
    ensures Taken(f, false) == (Feed(f.queue[1..], f.closed, true, f.accepted, f.delivered), Expired)
  {
    ContainsExactly("event: " + e.event + "\ndata: " + e.data, SHUTDOWN_MARK);
  }

  /** A waiting frame is yielded, to a reader who may see it, whether or not the feed has been closed meanwhile. */
  lemma WaitingFrameIsYielded(f: Feed, pass: bool, e: StreamEvent)
    requires !f.ended && f.queue != [] && f.queue[0] == Some(e) && (pass || e.event == "manager.shutdown")
    ensures Taken(f, pass) == (Feed(f.queue[1..], f.closed, false, f.accepted, f.delivered + [e]), Yielded(e))
  {
    if !pass {
      ShutdownIsExempt(e);
    }
  }

  /**
    A turn that ends the feed comes only after everything accepted was delivered, and to a
    closed feed; a turn that expires it comes only to a reader who may see no more; and an
    empty open feed is waited on.
   */
  lemma EndsLast(f: Feed, pass: bool)
    requires Sound(f) && !f.ended
    ensures var (g, frame) := Taken(f, pass);
            && (frame.Ended? ==> g.delivered == f.accepted && f.closed)
            && (frame.Expired? ==> !pass)
            && (frame.Nothing? ==> g == f && f.queue == [] && !f.closed)
            && (g.ended <==> frame.Ended? || frame.Expired?)
  {
    if f.queue != [] && f.queue[0].None? {
      assert |f.delivered| == |f.accepted|;
    }
  }

  /** n passing turns. */
  function Drained(f: Feed, n: nat): Feed
    decreases n
  {
    if n == 0 then f else Drained(Taken(f, true).0, n - 1)
  }

  /** As many passing turns as frames are waiting deliver everything accepted, closed or not. */
  lemma {:induction false} DrainsCompletely(f: Feed, n: nat)
    requires Sound(f) && !f.ended && n == |f.accepted| - |f.delivered|
    ensures Drained(f, n).delivered == f.accepted && !Drained(f, n).ended
    decreases n
  {
    if n > 0 {
      var e := f.accepted[|f.delivered|];
      assert f.queue[0] == Some(e);
      WaitingFrameIsYielded(f, true, e);
      TakenInOrder(f, true);
      DrainsCompletely(Taken(f, true).0, n - 1);
    }
  }

  function Turns(k: nat, n: nat): (actions: seq<Action>)
    ensures |actions| == n
  {
    seq(n, i => Consume(k, true))
  }

  lemma {:induction false} TurnsDrain(h: Hub, k: nat, n: nat)
    requires k < |h.readers|
    ensures var h' := Run(h, Turns(k, n));
            |h'.readers| == |h.readers| && h'.readers[k] == h.readers[k].(feed := Drained(h.readers[k].feed, n))
    decreases n
  {
    if n > 0 {
      assert Turns(k, n)[1..] == Turns(k, n - 1);
      TurnsDrain(Consumed(h, k, true), k, n - 1);
    }
  }

  /** In every good hub a reader not ended gets all it accepted in as many passing turns as frames are waiting. */
  lemma ReaderGetsEverything(h: Hub, k: nat)
    requires HubOk(h) && k < |h.readers| && !h.readers[k].feed.ended
    ensures var f := h.readers[k].feed;
            |f.delivered| <= |f.accepted|
            && var h' := Run(h, Turns(k, |f.accepted| - |f.delivered|));
               |h'.readers| == |h.readers| && h'.readers[k].feed.delivered == f.accepted
  {
    var f := h.readers[k].feed;
    TurnsDrain(h, k, |f.accepted| - |f.delivered|);
    DrainsCompletely(f, |f.accepted| - |f.delivered|);
  }

  /** A reader who may see frames at every turn is never cut off: once ended it has all it accepted. */
  predicate OnlyPasses(actions: seq<Action>) {
    forall i :: 0 <= i < |actions| && actions[i].Consume? ==> actions[i].pass
  }

  predicate Complete(f: Feed) {
    f.ended ==> f.closed && f.delivered == f.accepted
  }

  predicate EndedComplete(h: Hub) {
    forall k :: 0 <= k < |h.readers| ==> Complete(h.readers[k].feed)
  }

  /** Whatever is done to a feed other than consuming leaves a complete one complete. */
  lemma StaysComplete(f: Feed, e: StreamEvent)
    requires Complete(f)
    ensures Complete(Offered(f, e)) && Complete(ClosedFeed(f)) && Complete(ClosedFeed(Offered(f, e)))
  {}

  lemma TurnComplete(f: Feed)
    requires Sound(f) && Complete(f)
    ensures Complete(Taken(f, true).0)
  {
    if !f.ended {
      EndsLast(f, true);
      TakenInOrder(f, true);
    }
  }

  lemma StepEndsComplete(h: Hub, a: Action)
    requires HubOk(h) && EndedComplete(h) && (a.Consume? ==> a.pass)
    ensures EndedComplete(Step(h, a))
  {
    var h' := Step(h, a);
    match a {
      case Publish(topic, event, data) =>
        forall k | 0 <= k < |h.readers| ensures Complete(h'.readers[k].feed) {
          StaysComplete(h.readers[k].feed, Next(h, topic, event, data));
        }
      case Subscribe(topic, last) => OfferAllExactly(ReplayOf(HistoryOf(h, topic), h.limit, last));
      case Unsubscribe(k) =>
        if k < |h.readers| {
          StaysComplete(h.readers[k].feed, LastEvent(h, h.readers[k].topic));
        }
      case Consume(k, pass) =>
        if k < |h.readers| {
          TurnComplete(h.readers[k].feed);
        }
      case Shutdown =>
        forall k | 0 <= k < |h.readers| ensures Complete(h'.readers[k].feed) {
          StaysComplete(h.readers[k].feed, LastEvent(h, h.readers[k].topic));
        }
    }
  }

  lemma {:induction false} RunEndsComplete(h: Hub, actions: seq<Action>)
    requires HubOk(h) && EndedComplete(h) && OnlyPasses(actions)
    ensures EndedComplete(Run(h, actions))
    decreases |actions|
  {
    if actions != [] {
      StepEndsComplete(h, actions[0]);
      StepHubOk(h, actions[0]);
      RunEndsComplete(Step(h, actions[0]), actions[1..]);
    }
  }
}
