/**
  The realtime hub as it is written: a subscriber object with its bounded queue, and a hub of
  sequence counters, bounded replay buffers and subscriber lists.
 */
module RealtimeHub {
  import opened Wrappers
  import opened Realtime

  class StreamSubscriber {
    var queue: seq<Option<StreamEvent>>
    var closed: bool
    var ended: bool
    ghost var accepted: seq<StreamEvent>
    ghost var delivered: seq<StreamEvent>

    ghost function State(): Feed
      reads this
    {
      Feed(queue, closed, ended, accepted, delivered)
    }

    constructor ()
      ensures State() == Feed([], false, false, [], [])
    {
      queue, closed, ended, accepted, delivered := [], false, false, [], [];
    }

    method Put(e: StreamEvent) returns (ok: bool)
      modifies this
      ensures State() == Offered(old(State()), e) && ok == HasRoom(old(State()))
    {
      if closed {
        return false;
      }
      if |queue| < QUEUE_CAPACITY {
        queue := queue + [Some(e)];
        accepted := accepted + [e];
        return true;
      }
      Close();
      return false;
    }

    method Close()
      modifies this
      ensures State() == ClosedFeed(old(State()))
    {
      if !closed {
        closed := true;
        if |queue| < QUEUE_CAPACITY {
          queue := queue + [None];
        }
      }
    }

    /** One turn of the consumer; `pass` is whether the reader may still see frames. */
    method NextFrame(pass: bool) returns (frame: Frame)
      modifies this
      ensures State() == Taken(old(State()), pass).0 && frame == Taken(old(State()), pass).1
    {
      if ended {
        return Ended;
      }
      if queue == [] {
        if closed {
          ended := true;
          return Ended;
        }
        if !pass {
          ended := true;
          return Expired;
        }
        return Nothing;
      }
      var item := queue[0];
      queue := queue[1..];
      if item.None? {
        ended := true;
        return Ended;
      }
      if !pass && !Exempt(item.value) {
        ended := true;
        return Expired;
      }
      delivered := delivered + [item.value];
      return Yielded(item.value);
    }
  }

  function Get<V>(m: map<Topic, V>, key: Topic, default: V): V {
    if key in m then m[key] else default
  }

  function Without(list: seq<nat>, k: nat): (out: seq<nat>)
    ensures forall i :: 0 <= i < |out| ==> out[i] in list && out[i] != k
    ensures forall x :: x in list && x != k ==> x in out
    ensures (forall i, j :: 0 <= i < j < |list| ==> list[i] != list[j]) ==>
              forall i, j :: 0 <= i < j < |out| ==> out[i] != out[j]
  {
    if list == [] then []
    else
      var rest := Without(list[..|list| - 1], k);
      assert list == list[..|list| - 1] + [list[|list| - 1]];
      if list[|list| - 1] == k then rest else rest + [list[|list| - 1]]
  }

  // ----- How the hub's fields abbreviate the histories -----

  ghost predicate CounterOk(next: nat, buffer: seq<StreamEvent>, all: seq<StreamEvent>, limit: nat) {
    Numbered(all) && next == |all| + 1 && buffer == Newest(all, limit)
  }

  lemma CounterNext(next: nat, buffer: seq<StreamEvent>, all: seq<StreamEvent>, limit: nat, e: StreamEvent)
    requires CounterOk(next, buffer, all, limit) && e.sequence == next
    ensures CounterOk(next + 1, Newest(buffer + [e], limit), all + [e], limit)
  {}

  ghost predicate StreamOk(nextSequence: map<Topic, nat>, buffers: map<Topic, seq<StreamEvent>>,
                           histories: map<Topic, seq<StreamEvent>>, limit: nat, topic: Topic)
  {
    CounterOk(Get(nextSequence, topic, 1), Get(buffers, topic, []), Get(histories, topic, []), limit)
  }

  /** Every counter and every buffer agrees with the history it abbreviates. */
  ghost predicate Streams(nextSequence: map<Topic, nat>, buffers: map<Topic, seq<StreamEvent>>,
                          histories: map<Topic, seq<StreamEvent>>, limit: nat)
  {
    forall topic :: StreamOk(nextSequence, buffers, histories, limit, topic)
  }

  lemma GetUpdated<V>(m: map<Topic, V>, key: Topic, v: V, other: Topic, default: V)
    ensures Get(m[key := v], other, default) == if other == key then v else Get(m, other, default)
  {}

  lemma RecordedStream(nextSequence: map<Topic, nat>, buffers: map<Topic, seq<StreamEvent>>,
                       histories: map<Topic, seq<StreamEvent>>, limit: nat, topic: Topic, e: StreamEvent, t: Topic)
    requires StreamOk(nextSequence, buffers, histories, limit, topic)
    requires StreamOk(nextSequence, buffers, histories, limit, t)
    requires e.sequence == |Get(histories, topic, [])| + 1
    ensures StreamOk(nextSequence[topic := e.sequence + 1],
                     buffers[topic := Newest(Get(buffers, topic, []) + [e], limit)],
                     histories[topic := Get(histories, topic, []) + [e]], limit, t)
  {
    var buffer, all := Get(buffers, topic, []), Get(histories, topic, []);
    CounterNext(e.sequence, buffer, all, limit, e);
    GetUpdated(nextSequence, topic, e.sequence + 1, t, 1);
    GetUpdated(buffers, topic, Newest(buffer + [e], limit), t, []);
    GetUpdated(histories, topic, all + [e], t, []);
  }

  lemma RecordedStreams(nextSequence: map<Topic, nat>, buffers: map<Topic, seq<StreamEvent>>,
                        histories: map<Topic, seq<StreamEvent>>, limit: nat, topic: Topic, e: StreamEvent)
    requires Streams(nextSequence, buffers, histories, limit)
    requires e.sequence == |Get(histories, topic, [])| + 1
    ensures Streams(nextSequence[topic := e.sequence + 1],
                    buffers[topic := Newest(Get(buffers, topic, []) + [e], limit)],
                    histories[topic := Get(histories, topic, []) + [e]], limit)
  {
    var n' := nextSequence[topic := e.sequence + 1];
    var b' := buffers[topic := Newest(Get(buffers, topic, []) + [e], limit)];
    var h' := histories[topic := Get(histories, topic, []) + [e]];
    forall t ensures StreamOk(n', b', h', limit, t) {
      RecordedStream(nextSequence, buffers, histories, limit, topic, e, t);
    }
  }

  lemma StreamHere(nextSequence: map<Topic, nat>, buffers: map<Topic, seq<StreamEvent>>,
                   histories: map<Topic, seq<StreamEvent>>, limit: nat, topic: Topic)
    requires Streams(nextSequence, buffers, histories, limit)
    ensures Numbered(Get(histories, topic, []))
    ensures Get(nextSequence, topic, 1) == |Get(histories, topic, [])| + 1
    ensures Get(buffers, topic, []) == Newest(Get(histories, topic, []), limit)
  {
    assert StreamOk(nextSequence, buffers, histories, limit, topic);
  }

  lemma BufferReplays(nextSequence: map<Topic, nat>, buffers: map<Topic, seq<StreamEvent>>,
                      histories: map<Topic, seq<StreamEvent>>, limit: nat, topic: Topic, last: Option<int>)
    requires Streams(nextSequence, buffers, histories, limit)
    ensures After(Get(buffers, topic, []), last) == ReplayOf(Get(histories, topic, []), limit, last)
  {
    StreamHere(nextSequence, buffers, histories, limit, topic);
    ReplayIsSuffix(Get(histories, topic, []), limit, last);
  }

  ghost predicate ListOk(subscribers: map<Topic, seq<nat>>, readers: seq<Reader>, topic: Topic) {
    var list := Get(subscribers, topic, []);
    && (forall i :: 0 <= i < |list| ==> list[i] < |readers| && readers[list[i]].topic == topic)
    && (forall i, j :: 0 <= i < j < |list| ==> list[i] != list[j])
    && (forall k :: 0 <= k < |readers| && readers[k].topic == topic && !readers[k].feed.closed ==> k in list)
  }

  /** Lists hold the positions of their stream's subscribers, each once, and no open one is missing. */
  ghost predicate Lists(subscribers: map<Topic, seq<nat>>, readers: seq<Reader>) {
    forall topic :: ListOk(subscribers, readers, topic)
  }

  /** Feeds may change as long as none reopens, and one list may lose members that are closed. */
  lemma NarrowedLists(subscribers: map<Topic, seq<nat>>, readers: seq<Reader>, topic: Topic, live: seq<nat>,
                      readers': seq<Reader>)
    requires Lists(subscribers, readers) && |readers'| == |readers|
    requires forall k :: 0 <= k < |readers| ==>
               readers'[k].topic == readers[k].topic && (readers[k].feed.closed ==> readers'[k].feed.closed)
    requires forall i :: 0 <= i < |live| ==> live[i] in Get(subscribers, topic, [])
    requires forall i, j :: 0 <= i < j < |live| ==> live[i] != live[j]
    requires forall k :: k in Get(subscribers, topic, []) && k < |readers'| && !readers'[k].feed.closed ==> k in live
    ensures Lists(subscribers[topic := live], readers')
  {
    var subscribers' := subscribers[topic := live];
    forall t ensures ListOk(subscribers', readers', t) {
      assert ListOk(subscribers, readers, t);
      assert Get(subscribers', t, []) == if t == topic then live else Get(subscribers, t, []);
    }
  }

  lemma SameLists(subscribers: map<Topic, seq<nat>>, readers: seq<Reader>, readers': seq<Reader>)
    requires Lists(subscribers, readers) && |readers'| == |readers|
    requires forall k :: 0 <= k < |readers| ==>
               readers'[k].topic == readers[k].topic && (readers[k].feed.closed ==> readers'[k].feed.closed)
    ensures Lists(subscribers, readers')
  {
    forall t ensures ListOk(subscribers, readers', t) {
      assert ListOk(subscribers, readers, t);
    }
  }

  lemma AddedLists(subscribers: map<Topic, seq<nat>>, readers: seq<Reader>, r: Reader)
    requires Lists(subscribers, readers)
    ensures Lists(subscribers[r.topic := Get(subscribers, r.topic, []) + [|readers|]], readers + [r])
  {
    var subscribers' := subscribers[r.topic := Get(subscribers, r.topic, []) + [|readers|]];
    forall t ensures ListOk(subscribers', readers + [r], t) {
      assert ListOk(subscribers, readers, t);
      assert Get(subscribers', t, []) ==
             if t == r.topic then Get(subscribers, t, []) + [|readers|] else Get(subscribers, t, []);
    }
  }

  /** After an event a stream's list holds exactly those on it that took the event. */
  ghost predicate KeepsTakers(subscribers: map<Topic, seq<nat>>, readers: seq<Reader>, topic: Topic,
                              subscribers': map<Topic, seq<nat>>)
  {
    forall k: nat :: k in Get(subscribers', topic, []) <==>
      k in Get(subscribers, topic, []) && k < |readers| && HasRoom(readers[k].feed)
  }

  /** Offering an event to the listed subscribers offers it to all that are open. */
  lemma FanoutReaches(h: Hub, subscribers: map<Topic, seq<nat>>, topic: Topic, e: StreamEvent, readers': seq<Reader>)
    requires ListOk(subscribers, h.readers, topic) && |readers'| == |h.readers|
    requires forall k :: 0 <= k < |readers'| ==>
               readers'[k] == if k in Get(subscribers, topic, [])
                              then h.readers[k].(feed := Offered(h.readers[k].feed, e))
                              else h.readers[k]
    ensures readers' == Published(h, topic, e).readers
  {}

  /** Feeds change, topics do not. */
  lemma TopicsKept(h: Hub, h': Hub)
    requires h'.histories.Keys == h.histories.Keys && |h'.readers| == |h.readers|
    requires forall i :: 0 <= i < |h.readers| ==> h'.readers[i].topic == h.readers[i].topic
    ensures Topics(h') == Topics(h)
  {}

  lemma TopicsAdded(h: Hub, topic: Topic, r: Reader)
    requires r.topic == topic
    ensures Topics(h.(readers := h.readers + [r])) == Topics(h) + {topic}
  {
    var h' := h.(readers := h.readers + [r]);
    assert forall i :: 0 <= i < |h.readers| ==> h'.readers[i] == h.readers[i];
    assert h'.readers[|h.readers|].topic == topic;
  }

  /** Until shutdown, exactly the streams ever published or subscribed to have a list. */
  ghost predicate KeysOk(subscribers: map<Topic, seq<nat>>, h: Hub) {
    !h.closed ==> subscribers.Keys == Topics(h)
  }

  /** A new feed for one reader leaves lists and streams as they are, unless it reopens it. */
  lemma FeedChanged(subscribers: map<Topic, seq<nat>>, h: Hub, k: nat, feed: Feed)
    requires Lists(subscribers, h.readers) && KeysOk(subscribers, h) && k < |h.readers|
    requires h.readers[k].feed.closed ==> feed.closed
    ensures var h' := h.(readers := h.readers[k := h.readers[k].(feed := feed)]);
            Lists(subscribers, h'.readers) && KeysOk(subscribers, h')
  {
    var h' := h.(readers := h.readers[k := h.readers[k].(feed := feed)]);
    SameLists(subscribers, h.readers, h'.readers);
    TopicsKept(h, h');
  }

  lemma PublishedKeys(subscribers: map<Topic, seq<nat>>, h: Hub, subscribers': map<Topic, seq<nat>>,
                      topic: Topic, e: StreamEvent)
    requires KeysOk(subscribers, h) && subscribers'.Keys == subscribers.Keys + {topic}
    ensures KeysOk(subscribers', Published(h, topic, e))
  {
    TopicsKept(h.(histories := Published(h, topic, e).histories), Published(h, topic, e));
  }

  /** A new reader joins its stream's list. */
  lemma ReaderJoined(subscribers: map<Topic, seq<nat>>, h: Hub, topic: Topic, last: Option<int>)
    requires Lists(subscribers, h.readers) && KeysOk(subscribers, h)
    ensures var subscribers' := subscribers[topic := Get(subscribers, topic, []) + [|h.readers|]];
            Lists(subscribers', Subscribed(h, topic, last).readers) && KeysOk(subscribers', Subscribed(h, topic, last))
  {
    var all := HistoryOf(h, topic);
    var r := Reader(topic, ReplayStart(all, h.limit, last), OfferAll(FRESH_FEED, ReplayOf(all, h.limit, last)));
    AddedLists(subscribers, h.readers, r);
    TopicsAdded(h, topic, r);
  }

  /**
    `feeds` are all subscribers ever made, in that order; `subscribers` lists their positions
    by stream.  `readers` says which stream each belongs to, where it started, and what its
    feed is; `histories` is what the counters and buffers abbreviate.
   */
  class RealtimeHub {
    const replayLimit: nat
    var nextSequence: map<Topic, nat>
    var buffers: map<Topic, seq<StreamEvent>>
    var subscribers: map<Topic, seq<nat>>
    var feeds: seq<StreamSubscriber>
    var closed: bool
    ghost var readers: seq<Reader>
    ghost var histories: map<Topic, seq<StreamEvent>>

    ghost function State(): Hub
      reads this
    {
      Hub(replayLimit, histories, readers, closed)
    }

    /** The subscriber objects are all different and in the state `readers` says. */
    ghost predicate Linked()
      reads this`feeds, this`readers, feeds
    {
      && |feeds| == |readers|
      && (forall j, k :: 0 <= j < k < |feeds| ==> feeds[j] != feeds[k])
      && forall k :: 0 <= k < |feeds| ==> feeds[k].State() == readers[k].feed
    }

    ghost predicate Valid()
      reads this
    {
      && Streams(nextSequence, buffers, histories, replayLimit)
      && Lists(subscribers, readers)
      && KeysOk(subscribers, State())
    }

    constructor (replayLimit: nat)
      ensures Valid() && Linked() && State() == Hub(replayLimit, map[], [], false)
    {
      this.replayLimit := replayLimit;
      nextSequence, buffers, subscribers, feeds, closed := map[], map[], map[], [], false;
      readers, histories := [], map[];
      new;
      forall topic ensures StreamOk(nextSequence, buffers, histories, replayLimit, topic) {
        assert Get(buffers, topic, []) == [];
      }
    }

    /** Remember an event under the next number, and drop the oldest one beyond the replay limit. */
    method Record(topic: Topic, e: StreamEvent)
      requires Streams(nextSequence, buffers, histories, replayLimit)
      requires e.sequence == Get(nextSequence, topic, 1)
      modifies this`nextSequence, this`buffers, this`histories
      ensures histories == old(histories)[topic := Get(old(histories), topic, []) + [e]]
      ensures Streams(nextSequence, buffers, histories, replayLimit)
    {
      StreamHere(nextSequence, buffers, histories, replayLimit, topic);
      RecordedStreams(nextSequence, buffers, histories, replayLimit, topic, e);
      nextSequence := nextSequence[topic := e.sequence + 1];
      buffers := buffers[topic := Newest(Get(buffers, topic, []) + [e], replayLimit)];
      histories := histories[topic := Get(histories, topic, []) + [e]];
    }

    method PutTo(k: nat, e: StreamEvent) returns (ok: bool)
      requires Linked() && k < |feeds|
      modifies this`readers, feeds[k]
      ensures Linked() && ok == HasRoom(old(readers)[k].feed)
      ensures readers == old(readers)[k := old(readers)[k].(feed := Offered(old(readers)[k].feed, e))]
    {
      ok := feeds[k].Put(e);
      readers := readers[k := readers[k].(feed := feeds[k].State())];
    }

    method CloseOne(k: nat)
      requires Linked() && k < |feeds|
      modifies this`readers, feeds[k]
      ensures Linked() && readers == old(readers)[k := old(readers)[k].(feed := ClosedFeed(old(readers)[k].feed))]
    {
      feeds[k].Close();
      readers := readers[k := readers[k].(feed := feeds[k].State())];
    }

    /** Offer an event to each listed subscriber; the ones that took it stay. */
    method Fanout(list: seq<nat>, e: StreamEvent) returns (live: seq<nat>)
      requires Linked() && forall i :: 0 <= i < |list| ==> list[i] < |readers|
      requires forall i, j :: 0 <= i < j < |list| ==> list[i] != list[j]
      modifies this`readers, feeds
      ensures Linked() && |readers| == |old(readers)|
      ensures forall k :: 0 <= k < |readers| ==>
                readers[k] == if k in list then old(readers)[k].(feed := Offered(old(readers)[k].feed, e))
                              else old(readers)[k]
      ensures forall i, j :: 0 <= i < j < |live| ==> live[i] != live[j]
      ensures forall k: nat :: k in live <==> k in list && HasRoom(old(readers)[k].feed)
    {
      live := [];
      var i := 0;
      while i < |list|
        invariant 0 <= i <= |list| && |readers| == |old(readers)| && Linked()
        invariant forall k :: 0 <= k < |readers| ==>
                    readers[k] == if k in list[..i] then old(readers)[k].(feed := Offered(old(readers)[k].feed, e))
                                  else old(readers)[k]
        invariant forall j, k :: 0 <= j < k < |live| ==> live[j] != live[k]
        invariant forall k: nat :: k in live <==> k in list[..i] && HasRoom(old(readers)[k].feed)
      {
        var k := list[i];
        assert list[..i + 1] == list[..i] + [k] && k !in list[..i];
        var ok := PutTo(k, e);
        if ok {
          live := live + [k];
        }
        i := i + 1;
      }
      assert list[..i] == list;
    }

    method Publish(topic: Topic, event: string, data: string) returns (e: StreamEvent)
      requires Valid() && Linked()
      modifies this`nextSequence, this`buffers, this`histories, this`subscribers, this`readers, feeds
      ensures Valid() && Linked() && e == Next(old(State()), topic, event, data)
      ensures State() == Published(old(State()), topic, e)
      ensures KeepsTakers(old(subscribers), old(readers), topic, subscribers)
    {
      StreamHere(nextSequence, buffers, histories, replayLimit, topic);
      e := StreamEvent(Get(nextSequence, topic, 1), event, data);
      Record(topic, e);
      Announce(topic, e);
      PublishedKeys(old(subscribers), old(State()), subscribers, topic, e);
    }

    /** Offer an event to the stream's open subscribers and drop the ones it closed from the list. */
    method Announce(topic: Topic, e: StreamEvent)
      requires Lists(subscribers, readers) && Linked()
      modifies this`subscribers, this`readers, feeds
      ensures Linked() && Lists(subscribers, readers) && subscribers.Keys == old(subscribers).Keys + {topic}
      ensures readers == Published(old(State()), topic, e).readers
      ensures KeepsTakers(old(subscribers), old(readers), topic, subscribers)
    {
      assert ListOk(subscribers, readers, topic);
      var live := Fanout(Get(subscribers, topic, []), e);
      FanoutReaches(old(State()), subscribers, topic, e, readers);
      NarrowedLists(subscribers, old(readers), topic, live, readers);
      subscribers := subscribers[topic := live];
    }

    /** What the buffer still holds after an id: the end of the history, from `ReplayStart` on. */
    method Replay(topic: Topic, last: Option<int>) returns (events: seq<StreamEvent>)
      requires Streams(nextSequence, buffers, histories, replayLimit)
      ensures events == ReplayOf(Get(histories, topic, []), replayLimit, last)
    {
      BufferReplays(nextSequence, buffers, histories, replayLimit, topic, last);
      events := After(Get(buffers, topic, []), last);
    }

    /** A new subscriber, offered some events. */
    method NewSubscriber(events: seq<StreamEvent>) returns (s: StreamSubscriber)
      ensures fresh(s) && s.State() == OfferAll(FRESH_FEED, events)
    {
      s := new StreamSubscriber();
      var i := 0;
      while i < |events|
        invariant 0 <= i <= |events|
        invariant s.State() == OfferAll(FRESH_FEED, events[..i])
      {
        assert events[..i + 1][..i] == events[..i];
        var _ := s.Put(events[i]);
        i := i + 1;
      }
      assert events[..i] == events;
    }

    method Subscribe(topic: Topic, last: Option<int>) returns (k: nat, s: StreamSubscriber)
      requires Valid() && Linked()
      modifies this`subscribers, this`readers, this`feeds
      ensures Valid() && Linked() && State() == Subscribed(old(State()), topic, last)
      ensures fresh(s) && k == |old(feeds)| && feeds == old(feeds) + [s]
    {
      var events := Replay(topic, last);
      s := NewSubscriber(events);
      k := |feeds|;
      ReaderJoined(subscribers, State(), topic, last);
      Enlist(topic, s, ReplayStart(HistoryOf(State(), topic), replayLimit, last));
    }

    method Enlist(topic: Topic, s: StreamSubscriber, ghost start: nat)
      requires Linked() && s !in feeds
      modifies this`subscribers, this`readers, this`feeds
      ensures Linked() && subscribers == old(subscribers)[topic := Get(old(subscribers), topic, []) + [|old(feeds)|]]
      ensures feeds == old(feeds) + [s] && readers == old(readers) + [Reader(topic, start, s.State())]
    {
      subscribers := subscribers[topic := Get(subscribers, topic, []) + [|feeds|]];
      feeds := feeds + [s];
      readers := readers + [Reader(topic, start, s.State())];
    }

    /** Close a subscriber and take it off the list of the stream the caller names. */
    method Unsubscribe(topic: Topic, k: nat)
      requires Valid() && Linked() && k < |feeds|
      modifies this`subscribers, this`readers, feeds[k]
      ensures Valid() && Linked() && State() == Unsubscribed(old(State()), k)
      ensures k !in Get(subscribers, topic, [])
    {
      FeedChanged(subscribers, State(), k, ClosedFeed(readers[k].feed));
      CloseOne(k);
      Delist(topic, k);
    }

    method Delist(topic: Topic, k: nat)
      requires Lists(subscribers, readers) && k < |readers| && readers[k].feed.closed
      modifies this`subscribers
      ensures Lists(subscribers, readers) && subscribers.Keys == old(subscribers).Keys
      ensures k !in Get(subscribers, topic, [])
    {
      if topic !in subscribers {
        return;
      }
      assert ListOk(subscribers, readers, topic);
      NarrowedLists(subscribers, readers, topic, Without(subscribers[topic], k), readers);
      subscribers := subscribers[topic := Without(subscribers[topic], k)];
    }

    /** A subscriber's consumer takes its turn, outside the hub's lock. */
    method Consume(k: nat, pass: bool) returns (frame: Frame)
      requires Valid() && Linked() && k < |feeds|
      modifies this`readers, feeds[k]
      ensures Valid() && Linked() && State() == Consumed(old(State()), k, pass)
      ensures frame == Taken(old(readers)[k].feed, pass).1
    {
      FeedChanged(subscribers, State(), k, Taken(readers[k].feed, pass).0);
      frame := feeds[k].NextFrame(pass);
      readers := readers[k := readers[k].(feed := feeds[k].State())];
    }

    /** Send the last event to each listed subscriber and close it. */
    method DismissAll(list: seq<nat>, e: StreamEvent)
      requires Linked() && forall i :: 0 <= i < |list| ==> list[i] < |readers|
      requires forall i, j :: 0 <= i < j < |list| ==> list[i] != list[j]
      modifies this`readers, feeds
      ensures Linked() && |readers| == |old(readers)|
      ensures forall k :: 0 <= k < |readers| ==>
                readers[k] == if k in list then Dismissed(old(readers)[k], e) else old(readers)[k]
    {
      var i := 0;
      while i < |list|
        invariant 0 <= i <= |list| && |readers| == |old(readers)| && Linked()
        invariant forall k :: 0 <= k < |readers| ==>
                    readers[k] == if k in list[..i] then Dismissed(old(readers)[k], e) else old(readers)[k]
      {
        var k := list[i];
        assert list[..i + 1] == list[..i] + [k] && k !in list[..i];
        var _ := PutTo(k, e);
        CloseOne(k);
        i := i + 1;
      }
      assert list[..i] == list;
    }

    /** The shutdown of one stream. */
    method EndStream(topic: Topic, ghost h: Hub, ghost pending: set<Topic>)
      requires Streams(nextSequence, buffers, histories, replayLimit)
      requires ListOk(subscribers, h.readers, topic) && topic in subscribers
      requires EndedBut(h, pending, histories, readers) && topic in pending && topic in Topics(h)
      requires Linked()
      modifies this`nextSequence, this`buffers, this`histories, this`readers, feeds
      ensures Linked() && Streams(nextSequence, buffers, histories, replayLimit)
      ensures EndedBut(h, pending - {topic}, histories, readers)
    {
      StreamHere(nextSequence, buffers, histories, replayLimit, topic);
      var e := StreamEvent(Get(nextSequence, topic, 1), "manager.shutdown", "{}");
      assert e == LastEvent(h, topic);
      ghost var histories0, readers0 := histories, readers;
      Record(topic, e);
      assert Get(subscribers, topic, []) == subscribers[topic];
      DismissAll(subscribers[topic], e);
      EndedOneMore(h, pending, topic, subscribers, histories0, readers0, histories, readers);
    }

    /** A second shutdown does nothing; the first ends every stream that has a list. */
    method Shutdown()
      requires Valid() && Linked()
      modifies this`nextSequence, this`buffers, this`histories, this`subscribers, this`readers, this`closed, feeds
      ensures Valid() && Linked() && State() == ShutDown(old(State()))
    {
      if closed {
        return;
      }
      closed := true;
      EndStreams(old(State()));
      subscribers := map[];
      EndedAll(old(State()), histories, readers);
    }

    method EndStreams(ghost h: Hub)
      requires Streams(nextSequence, buffers, histories, replayLimit) && Linked()
      requires histories == h.histories && readers == h.readers
      requires Lists(subscribers, h.readers) && subscribers.Keys == Topics(h)
      modifies this`nextSequence, this`buffers, this`histories, this`readers, feeds
      ensures Streams(nextSequence, buffers, histories, replayLimit) && Linked()
      ensures EndedBut(h, {}, histories, readers)
    {
      var pending := subscribers.Keys;
      NothingEnded(h, pending);
      while pending != {}
        invariant pending <= Topics(h)
        invariant Streams(nextSequence, buffers, histories, replayLimit) && Linked()
        invariant EndedBut(h, pending, histories, readers)
      {
        var topic :| topic in pending;
        assert ListOk(subscribers, h.readers, topic);
        EndStream(topic, h, pending);
        pending := pending - {topic};
      }
    }
  }

  lemma NothingEnded(h: Hub, pending: set<Topic>)
    requires pending == Topics(h)
    ensures EndedBut(h, pending, h.histories, h.readers)
  {}

  /** Shutdown so far: every stream but the pending ones has its last event, and its subscribers are closed. */
  ghost predicate EndedBut(h: Hub, pending: set<Topic>, histories: map<Topic, seq<StreamEvent>>, readers: seq<Reader>) {
    && histories.Keys == h.histories.Keys + (Topics(h) - pending)
    && (forall t :: t in Topics(h) ==>
          Get(histories, t, []) == HistoryOf(h, t) + if t in pending then [] else [LastEvent(h, t)])
    && |readers| == |h.readers|
    && (forall k :: 0 <= k < |readers| ==>
          readers[k] == if h.readers[k].topic in pending then h.readers[k]
                        else Dismissed(h.readers[k], LastEvent(h, h.readers[k].topic)))
  }

  lemma EndedOneMore(h: Hub, pending: set<Topic>, topic: Topic, subscribers: map<Topic, seq<nat>>,
                     histories: map<Topic, seq<StreamEvent>>, readers: seq<Reader>,
                     histories': map<Topic, seq<StreamEvent>>, readers': seq<Reader>)
    requires EndedBut(h, pending, histories, readers) && topic in pending && topic in Topics(h)
    requires ListOk(subscribers, h.readers, topic) && |readers'| == |readers|
    requires histories' == histories[topic := Get(histories, topic, []) + [LastEvent(h, topic)]]
    requires forall k :: 0 <= k < |readers| ==>
               readers'[k] == if k in Get(subscribers, topic, []) then Dismissed(readers[k], LastEvent(h, topic))
                              else readers[k]
    ensures EndedBut(h, pending - {topic}, histories', readers')
  {
    forall k | 0 <= k < |readers|
      ensures readers'[k] == if h.readers[k].topic in pending - {topic} then h.readers[k]
                             else Dismissed(h.readers[k], LastEvent(h, h.readers[k].topic))
    {
      if h.readers[k].topic == topic && k !in Get(subscribers, topic, []) {
        assert h.readers[k].feed.closed;
      }
    }
  }

  lemma EndedAll(h: Hub, histories: map<Topic, seq<StreamEvent>>, readers: seq<Reader>)
    requires !h.closed && EndedBut(h, {}, histories, readers)
    ensures Hub(h.limit, histories, readers, true) == ShutDown(h)
    ensures Lists(map[], readers)
  {
    var end := ShutDown(h);
    assert readers == end.readers;
    assert histories.Keys == end.histories.Keys;
    forall t | t in histories ensures histories[t] == end.histories[t] {
      assert Get(histories, t, []) == HistoryOf(h, t) + [LastEvent(h, t)];
    }
    forall t ensures ListOk(map[], readers, t) {
      assert forall k :: 0 <= k < |readers| ==> readers[k].feed.closed;
    }
  }
}
