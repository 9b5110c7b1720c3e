/**
  Process log lines: truncation to a byte cap, the bounded ring of numbered lines with its
  reconnect protocol, and the fan-out queue of one subscriber.
 */
module LogTail {
  import opened Wrappers
  import opened Utf8

  // ----- Truncation -----

  /** " ...[line truncated]", as scalar values. */
  const SENTINEL: Text := [32, 46, 46, 46, 91, 108, 105, 110, 101, 32, 116, 114, 117, 110, 99, 97, 116, 101, 100, 93]

  /** A line cut to a byte cap and marked. */
  function Cut(line: Text, cap: nat, mark: Text): Text {
    var encoded := Encode(line);
    if |encoded| <= cap then line
    else if cap < |mark| then mark[..cap]
    else DecodeIgnore(encoded[..cap - |mark|]) + mark
  }

  /** The sentinel is as long in bytes as in characters (`SentinelIsAscii`). */
  function TruncateLogLine(line: Text, maxLineBytes: nat): Text {
    Cut(line, maxLineBytes, SENTINEL)
  }

  predicate Ascii(t: Text) {
    forall k :: 0 <= k < |t| ==> t[k] < 0x80
  }

  lemma SentinelIsAscii()
    ensures Ascii(SENTINEL) && |SENTINEL| == 20 && Encode(SENTINEL) == SENTINEL
  {
    AsciiIsItself(SENTINEL);
  }

  lemma CutAndMarked(line: Text, cap: nat, mark: Text)
    requires Ascii(mark) && |Encode(line)| > cap >= |mark|
    ensures var j := Whole(line, cap - |mark|);
            && Cut(line, cap, mark) == line[..j] + mark && |Encode(Cut(line, cap, mark))| <= cap
            && forall i: nat :: i <= |line| ==> (|Encode(line[..i])| + |mark| <= cap <==> i <= j)
  {
    var room := cap - |mark|;
    var j := Whole(line, room);
    DecodePrefix(line, room);
    EncodeConcat(line[..j], mark);
    AsciiIsItself(mark);
    forall i: nat | i <= |line| ensures |Encode(line[..i])| <= room <==> i <= j {
      WholeIsLongest(line, room, i);
    }
  }

  /**
    The result always fits the cap and a fitting line is untouched; otherwise, when there is
    room for the mark, exactly the longest prefix of whole characters that leaves room for it
    is kept, and when there is none, as much of the mark as fits.
   */
  lemma CutExactly(line: Text, cap: nat, mark: Text)
    requires Ascii(mark)
    ensures |Encode(Cut(line, cap, mark))| <= cap
    ensures |Encode(line)| <= cap <==> Cut(line, cap, mark) == line
    ensures |Encode(line)| > cap >= |mark| ==>
              exists j: nat :: j <= |line| && Cut(line, cap, mark) == line[..j] + mark
                               && forall i: nat :: i <= |line| ==> (|Encode(line[..i])| + |mark| <= cap <==> i <= j)
    ensures |Encode(line)| > cap && cap < |mark| ==> Cut(line, cap, mark) == mark[..cap]
  {
    if |Encode(line)| > cap {
      if cap < |mark| {
        AsciiIsItself(mark[..cap]);
      } else {
        CutAndMarked(line, cap, mark);
      }
    }
  }

  /** `CutExactly` for the sentinel and its twenty bytes. */
  lemma TruncationExactly(line: Text, cap: nat)
    ensures |Encode(TruncateLogLine(line, cap))| <= cap
    ensures |Encode(line)| <= cap <==> TruncateLogLine(line, cap) == line
    ensures |Encode(line)| > cap >= 20 ==>
              exists j: nat :: j <= |line| && TruncateLogLine(line, cap) == line[..j] + SENTINEL
                               && forall i: nat :: i <= |line| ==> (|Encode(line[..i])| + 20 <= cap <==> i <= j)
    ensures |Encode(line)| > cap && cap < 20 ==> |SENTINEL| == 20 && TruncateLogLine(line, cap) == SENTINEL[..cap]
  {
    SentinelIsAscii();
    CutExactly(line, cap, SENTINEL);
  }

  /** Truncating twice is truncating once. */
  lemma TruncationIdempotent(line: Text, cap: nat)
    ensures TruncateLogLine(TruncateLogLine(line, cap), cap) == TruncateLogLine(line, cap)
  {
    TruncationExactly(line, cap);
  }

  // ----- The ring of lines, on values -----

  datatype Numbered = Numbered(no: nat, line: Text)

  /** Everything ever appended, and the number of the oldest line still kept. */
  datatype Ring = Ring(maxlen: nat, lines: seq<Text>, from: nat)

  function Numbers(lines: seq<Text>): (out: seq<Numbered>)
    ensures |out| == |lines| && forall i :: 0 <= i < |lines| ==> out[i] == Numbered(i, lines[i])
  {
    seq(|lines|, i requires 0 <= i < |lines| => Numbered(i, lines[i]))
  }

  predicate RingOk(r: Ring) { r.from <= |r.lines| <= r.from + r.maxlen }

  function Kept(r: Ring): seq<Numbered>
    requires RingOk(r)
  {
    Numbers(r.lines)[r.from..]
  }

  function Appended(r: Ring, line: Text): Ring {
    var n := |r.lines| + 1;
    r.(lines := r.lines + [line], from := if n <= r.from + r.maxlen then r.from else n - r.maxlen)
  }

  function Cleared(r: Ring): Ring { r.(from := |r.lines|) }

  /** Replay from line number n. */
  function Since(items: seq<Numbered>, n: nat): seq<Numbered> {
    if items == [] then []
    else (if items[0].no >= n then [items[0]] else []) + Since(items[1..], n)
  }

  lemma SinceNext(before: seq<Numbered>, items: seq<Numbered>, n: nat)
    requires items != []
    ensures before + Since(items, n)
            == (if items[0].no >= n then before + [items[0]] else before) + Since(items[1..], n)
  {
    var rest := Since(items[1..], n);
    if items[0].no >= n {
      assert Since(items, n) == [items[0]] + rest;
      assert before + ([items[0]] + rest) == before + [items[0]] + rest;
    } else {
      assert Since(items, n) == [] + rest == rest;
    }
  }

  predicate Trimmed(r: Ring, n: nat)
    requires RingOk(r)
  {
    if Kept(r) == [] then n > 0 else n < Kept(r)[0].no
  }

  /** Replay gives every line from number n on. */
  predicate Complete(r: Ring, n: nat)
    requires RingOk(r)
  {
    n <= |r.lines| && Since(Kept(r), n) == Numbers(r.lines)[n..]
  }

  lemma {:induction false} SinceIsSuffix(all: seq<Numbered>, from: nat, n: nat)
    requires from <= |all| && forall i :: 0 <= i < |all| ==> all[i].no == i
    ensures Since(all[from..], n) == all[if n <= from then from else if n <= |all| then n else |all|..]
    decreases |all| - from
  {
    if from < |all| {
      assert all[from..][1..] == all[from + 1..];
      SinceIsSuffix(all, from + 1, n);
    }
  }

  lemma CompleteExactly(r: Ring, n: nat)
    requires RingOk(r)
    ensures Complete(r, n) <==> r.from <= n <= |r.lines|
  {
    SinceIsSuffix(Numbers(r.lines), r.from, n);
    if n < r.from {
      assert |Numbers(r.lines)[r.from..]| < |Numbers(r.lines)[n..]|;
    }
  }

  /**
    Asking whether the buffer was trimmed tells whether a replay is complete, for a line
    number up to the next one, unless the buffer is empty although lines were appended; an
    emptied buffer then claims line zero is complete and the next line is not.
   */
  lemma TrimmedTellsExactly(r: Ring, n: nat)
    requires RingOk(r) && n <= |r.lines|
    ensures (!Trimmed(r, n) <==> Complete(r, n)) <==> r.from < |r.lines| || |r.lines| == 0 || 0 < n < |r.lines|
  {
    CompleteExactly(r, n);
  }

  /** Both wrong answers a ring gives after `clear`: about line zero, and about the next line. */
  lemma ClearedMisleads(r: Ring)
    requires RingOk(r) && r.lines != []
    ensures var c, next := Cleared(r), |r.lines|;
            && RingOk(c)
            && !Trimmed(c, 0) && !Complete(c, 0)
            && Trimmed(c, next) && Complete(c, next)
  {
    CompleteExactly(Cleared(r), 0);
    CompleteExactly(Cleared(r), |r.lines|);
  }

  function RunAppends(maxlen: nat, lines: seq<Text>): Ring {
    if lines == [] then Ring(maxlen, [], 0)
    else Appended(RunAppends(maxlen, lines[..|lines| - 1]), lines[|lines| - 1])
  }

  lemma {:induction false} RunKeepsNewest(maxlen: nat, lines: seq<Text>)
    ensures var r := RunAppends(maxlen, lines);
            r.maxlen == maxlen && r.lines == lines && r.from == (if |lines| <= maxlen then 0 else |lines| - maxlen)
  {
    if lines != [] {
      RunKeepsNewest(maxlen, lines[..|lines| - 1]);
    }
  }

  /**
    With appends alone and a buffer that can hold anything, a reconnecting reader gets every
    line from its number on exactly when the buffer does not report trimming and the number
    is not beyond the next line.
   */
  lemma ReconnectExactly(maxlen: nat, lines: seq<Text>, n: nat)
    requires maxlen > 0
    ensures RingOk(RunAppends(maxlen, lines))
    ensures Complete(RunAppends(maxlen, lines), n) <==> !Trimmed(RunAppends(maxlen, lines), n) && n <= |lines|
  {
    var r := RunAppends(maxlen, lines);
    RunKeepsNewest(maxlen, lines);
    CompleteExactly(r, n);
    if n <= |lines| {
      TrimmedTellsExactly(r, n);
    }
  }

  // ----- A subscriber's queue, on values -----

  const SUBSCRIBER_CAPACITY: nat := 256

  /** `submitted` counts the lines offered while open; `handled` are those the callback accepted. */
  datatype Feed = Feed(queue: seq<Numbered>, inHand: Option<Numbered>, handled: seq<Numbered>,
                       submitted: nat, dropped: nat, closed: bool)

  const FRESH_FEED := Feed([], None, [], 0, 0, false)

  function Submitted(f: Feed, item: Numbered): Feed {
    if f.closed then f
    else if |f.queue| < SUBSCRIBER_CAPACITY then f.(queue := f.queue + [item], submitted := f.submitted + 1)
    else f.(dropped := f.dropped + 1, submitted := f.submitted + 1)
  }

  /** The worker may have seen the feed open just before it was closed, so closing does not stop a take. */
  function Taken(f: Feed): Feed {
    if f.inHand.Some? || f.queue == [] then f
    else f.(inHand := Some(f.queue[0]), queue := f.queue[1..])
  }

  /** The callback returned, or it raised and the line is counted as dropped. */
  function Finished(f: Feed, ok: bool): Feed {
    if f.inHand.None? then f
    else if ok then f.(handled := f.handled + [f.inHand.value], inHand := None)
    else f.(dropped := f.dropped + 1, inHand := None)
  }

  /** Lines on their way, oldest first: handled, in hand, queued. */
  function Path(f: Feed): seq<Numbered> {
    f.handled + (if f.inHand.Some? then [f.inHand.value] else []) + f.queue
  }

  predicate Ascending(items: seq<Numbered>) {
    forall j, k :: 0 <= j < k < |items| ==> items[j].no < items[k].no
  }

  predicate Balanced(f: Feed) {
    f.submitted == |f.handled| + f.dropped + |f.queue| + (if f.inHand.Some? then 1 else 0)
    && |f.queue| <= SUBSCRIBER_CAPACITY
  }

  lemma SubmittedPath(f: Feed, item: Numbered)
    ensures Path(Submitted(f, item)) == Path(f) || Path(Submitted(f, item)) == Path(f) + [item]
  {}

  lemma TakenPath(f: Feed)
    ensures Path(Taken(f)) == Path(f)
  {
    if f.inHand.None? && f.queue != [] {
      assert f.handled + [] + f.queue == f.handled + [f.queue[0]] + f.queue[1..];
    }
  }

  lemma FinishedPath(f: Feed, ok: bool)
    ensures var n := |f.handled|;
            Path(Finished(f, ok)) == if f.inHand.Some? && !ok then Path(f)[..n] + Path(f)[n + 1..] else Path(f)
  {
    if f.inHand.Some? {
      assert Path(f)[|f.handled| + 1..] == f.queue;
    }
  }

  // ----- A ring with its subscribers -----

  /** A subscription, and the number of the first line it was there for. */
  datatype Reader = Reader(feed: Feed, start: nat)

  datatype Tailing = Tailing(ring: Ring, readers: seq<Reader>)

  datatype Action =
    | AppendLine(line: Text)
    | ClearRing
    | SubscribeFeed
    | Take(k: nat)
    | Finish(k: nat, ok: bool)
    | Close(k: nat)

  function Offered(readers: seq<Reader>, item: Numbered): (out: seq<Reader>)
    ensures |out| == |readers|
  {
    seq(|readers|, k requires 0 <= k < |readers| => readers[k].(feed := Submitted(readers[k].feed, item)))
  }

  function WithFeed(s: Tailing, k: nat, feed: Feed): Tailing
    requires k < |s.readers|
  {
    s.(readers := s.readers[k := s.readers[k].(feed := feed)])
  }

  function Step(s: Tailing, a: Action): Tailing {
    match a
    case AppendLine(line) => Tailing(Appended(s.ring, line), Offered(s.readers, Numbered(|s.ring.lines|, line)))
    case ClearRing => s.(ring := Cleared(s.ring))
    case SubscribeFeed => s.(readers := s.readers + [Reader(FRESH_FEED, |s.ring.lines|)])
    case Take(k) => if k < |s.readers| then WithFeed(s, k, Taken(s.readers[k].feed)) else s
    case Finish(k, ok) => if k < |s.readers| then WithFeed(s, k, Finished(s.readers[k].feed, ok)) else s
    case Close(k) => if k < |s.readers| then WithFeed(s, k, s.readers[k].feed.(closed := true)) else s
  }

  function Run(maxlen: nat, actions: seq<Action>): Tailing {
    if actions == [] then Tailing(Ring(maxlen, [], 0), [])
    else Step(Run(maxlen, actions[..|actions| - 1]), actions[|actions| - 1])
  }

  /** Some of the lines numbered from `start` on, with their texts, in order. */
  predicate Among(items: seq<Numbered>, lines: seq<Text>, start: nat, end: nat) {
    && end <= |lines| && Ascending(items)
    && forall i :: 0 <= i < |items| ==> start <= items[i].no < end && items[i].line == lines[items[i].no]
  }

  /** Since it subscribed a reader has been offered every line, until it was closed; it has them or counted them. */
  predicate Follows(r: Reader, lines: seq<Text>) {
    var end := r.start + r.feed.submitted;
    Balanced(r.feed) && Among(Path(r.feed), lines, r.start, end) && (!r.feed.closed ==> end == |lines|)
  }

  lemma AmongMore(items: seq<Numbered>, lines: seq<Text>, start: nat, line: Text, item: Numbered)
    requires Among(items, lines, start, |lines|) && item == Numbered(|lines|, line) && start <= |lines|
    ensures Among(items, lines + [line], start, |lines| + 1)
    ensures Among(items + [item], lines + [line], start, |lines| + 1)
  {}

  lemma AmongLess(items: seq<Numbered>, lines: seq<Text>, start: nat, end: nat, n: nat)
    requires Among(items, lines, start, end) && n < |items|
    ensures Among(items[..n] + items[n + 1..], lines, start, end)
  {}

  lemma AmongLater(items: seq<Numbered>, lines: seq<Text>, start: nat, end: nat, line: Text)
    requires Among(items, lines, start, end)
    ensures Among(items, lines + [line], start, end)
  {}

  lemma OfferedFollows(r: Reader, lines: seq<Text>, line: Text)
    requires Follows(r, lines)
    ensures Follows(r.(feed := Submitted(r.feed, Numbered(|lines|, line))), lines + [line])
  {
    var item := Numbered(|lines|, line);
    if r.feed.closed {
      AmongLater(Path(r.feed), lines, r.start, r.start + r.feed.submitted, line);
    } else {
      SubmittedPath(r.feed, item);
      AmongMore(Path(r.feed), lines, r.start, line, item);
    }
  }

  lemma FinishedFollows(r: Reader, lines: seq<Text>, ok: bool)
    requires Follows(r, lines)
    ensures Follows(r.(feed := Finished(r.feed, ok)), lines)
  {
    FinishedPath(r.feed, ok);
    if r.feed.inHand.Some? && !ok {
      AmongLess(Path(r.feed), lines, r.start, r.start + r.feed.submitted, |r.feed.handled|);
    }
  }

  predicate AllFollow(s: Tailing) {
    forall k :: 0 <= k < |s.readers| ==> Follows(s.readers[k], s.ring.lines)
  }

  lemma AppendFollows(s: Tailing, line: Text)
    requires AllFollow(s)
    ensures AllFollow(Step(s, AppendLine(line)))
  {
    forall k | 0 <= k < |s.readers|
      ensures Follows(s.readers[k].(feed := Submitted(s.readers[k].feed, Numbered(|s.ring.lines|, line))),
                      s.ring.lines + [line])
    {
      OfferedFollows(s.readers[k], s.ring.lines, line);
    }
  }

  lemma WithFeedFollows(s: Tailing, k: nat, feed: Feed)
    requires AllFollow(s) && k < |s.readers| && Follows(s.readers[k].(feed := feed), s.ring.lines)
    ensures AllFollow(WithFeed(s, k, feed))
  {}

  lemma ClosedFollows(r: Reader, lines: seq<Text>)
    requires Follows(r, lines)
    ensures Follows(r.(feed := r.feed.(closed := true)), lines)
  {
    assert Path(r.feed.(closed := true)) == Path(r.feed);
  }

  lemma TakenFollows(r: Reader, lines: seq<Text>)
    requires Follows(r, lines)
    ensures Follows(r.(feed := Taken(r.feed)), lines)
  {
    TakenPath(r.feed);
  }

  lemma NewFollows(s: Tailing)
    requires AllFollow(s)
    ensures AllFollow(Step(s, SubscribeFeed))
  {
    assert Path(FRESH_FEED) == [];
  }

  lemma StepFollows(s: Tailing, a: Action)
    requires AllFollow(s)
    ensures AllFollow(Step(s, a))
  {
    match a {
      case AppendLine(line) => AppendFollows(s, line);
      case ClearRing =>
      case SubscribeFeed => NewFollows(s);
      case Take(k) =>
        if k < |s.readers| {
          TakenFollows(s.readers[k], s.ring.lines);
          WithFeedFollows(s, k, Taken(s.readers[k].feed));
        }
      case Finish(k, ok) =>
        if k < |s.readers| {
          FinishedFollows(s.readers[k], s.ring.lines, ok);
          WithFeedFollows(s, k, Finished(s.readers[k].feed, ok));
        }
      case Close(k) =>
        if k < |s.readers| {
          ClosedFollows(s.readers[k], s.ring.lines);
          WithFeedFollows(s, k, s.readers[k].feed.(closed := true));
        }
    }
  }

  lemma {:induction false} RunFollows(maxlen: nat, actions: seq<Action>)
    ensures AllFollow(Run(maxlen, actions))
  {
    if actions != [] {
      RunFollows(maxlen, actions[..|actions| - 1]);
      StepFollows(Run(maxlen, actions[..|actions| - 1]), actions[|actions| - 1]);
    }
  }

  /**
    However appends, subscriptions, workers, closing and clearing interleave: of the lines
    appended while a subscription was open, from the number at which it began, each is handled,
    in hand, queued or counted as dropped, with its own text, in order, none twice.
   */
  lemma EveryLineAccounted(maxlen: nat, actions: seq<Action>, k: nat)
    requires k < |Run(maxlen, actions).readers|
    ensures var s := Run(maxlen, actions);
            var r := s.readers[k];
            var end := r.start + r.feed.submitted;
            && Among(Path(r.feed), s.ring.lines, r.start, end)
            && |Path(r.feed)| + r.feed.dropped == r.feed.submitted
            && (!r.feed.closed ==> end == |s.ring.lines|)
            && (r.feed.dropped == 0 ==> Path(r.feed) == Numbers(s.ring.lines)[r.start..end])
  {
    var s := Run(maxlen, actions);
    RunFollows(maxlen, actions);
    var r := s.readers[k];
    if r.feed.dropped == 0 {
      Dense(Path(r.feed), s.ring.lines, r.start);
    }
  }

  /** As many lines as there are numbers can only be all of them. */
  lemma {:induction false} Dense(items: seq<Numbered>, lines: seq<Text>, start: nat)
    requires Among(items, lines, start, start + |items|)
    ensures items == Numbers(lines)[start..start + |items|]
  {
    if items != [] {
      var n := |items| - 1;
      assert forall i :: 0 <= i < n ==> items[i].no < items[n].no;
      Dense(items[..n], lines, start);
      assert n > 0 ==> items[n - 1] == items[..n][n - 1];
    }
  }

  // ----- The objects -----

  class Subscription {
    var queue: seq<Numbered>
    var inHand: Option<Numbered>
    var dropped: nat
    var closed: bool
    ghost var handled: seq<Numbered>
    ghost var submitted: nat

    ghost function State(): Feed
      reads this
    {
      Feed(queue, inHand, handled, submitted, dropped, closed)
    }

    constructor ()
      ensures State() == FRESH_FEED
    {
      queue, inHand, dropped, closed, handled, submitted := [], None, 0, false, [], 0;
    }

    /** A line for the worker.  When the queue is full the line is lost and only counted. */
    method SubmitLine(item: Numbered)
      modifies this
      ensures State() == Submitted(old(State()), item)
    {
      if closed {
        return;
      }
      submitted := submitted + 1;
      if |queue| < SUBSCRIBER_CAPACITY {
        queue := queue + [item];
      } else {
        dropped := dropped + 1;
      }
    }

    method TakeNext()
      modifies this
      ensures State() == Taken(old(State()))
    {
      if inHand.None? && queue != [] {
        inHand, queue := Some(queue[0]), queue[1..];
      }
    }

    method FinishCallback(ok: bool)
      modifies this
      ensures State() == Finished(old(State()), ok)
    {
      if inHand.Some? {
        if ok {
          handled := handled + [inHand.value];
        } else {
          dropped := dropped + 1;
        }
        inHand := None;
      }
    }

    method CloseFeed()
      modifies this
      ensures State() == old(State()).(closed := true)
    {
      closed := true;
    }
  }

  class RingBuffer {
    const maxlen: nat
    var buffer: seq<Numbered>
    var nextLineNo: nat
    var subscribers: seq<Subscription>
    ghost var ring: Ring

    ghost predicate Valid()
      reads this
    {
      && RingOk(ring) && ring.maxlen == maxlen
      && buffer == Kept(ring) && nextLineNo == |ring.lines|
      && forall j, k :: 0 <= j < k < |subscribers| ==> subscribers[j] != subscribers[k]
    }

    constructor (maxlen: nat)
      ensures Valid() && ring == Ring(maxlen, [], 0) && subscribers == []
    {
      this.maxlen := maxlen;
      buffer, nextLineNo, subscribers, ring := [], 0, [], Ring(maxlen, [], 0);
    }

    /** Number a line, keep it, drop the oldest beyond the limit, and offer it to every subscriber. */
    method Append(line: Text)
      requires Valid()
      modifies this`buffer, this`nextLineNo, this`ring, subscribers
      ensures Valid() && ring == Appended(old(ring), line)
      ensures forall k :: 0 <= k < |subscribers| ==>
                subscribers[k].State() == Submitted(old(subscribers[k].State()), Numbered(|old(ring).lines|, line))
    {
      var item := Numbered(nextLineNo, line);
      AppendedKept(ring, line);
      var grown := buffer + [item];
      buffer := if |grown| <= maxlen then grown else grown[|grown| - maxlen..];
      nextLineNo := nextLineNo + 1;
      ring := Appended(ring, line);
      FanOut(item);
    }

    method FanOut(item: Numbered)
      requires forall j, k :: 0 <= j < k < |subscribers| ==> subscribers[j] != subscribers[k]
      modifies subscribers
      ensures forall k :: 0 <= k < |subscribers| ==>
                subscribers[k].State() == Submitted(old(subscribers[k].State()), item)
    {
      var k := 0;
      while k < |subscribers|
        invariant 0 <= k <= |subscribers|
        invariant forall j :: 0 <= j < k ==> subscribers[j].State() == Submitted(old(subscribers[j].State()), item)
        invariant forall j :: k <= j < |subscribers| ==> subscribers[j].State() == old(subscribers[j].State())
      {
        subscribers[k].SubmitLine(item);
        k := k + 1;
      }
    }

    method Tail(sinceOffset: nat) returns (items: seq<Numbered>)
      requires Valid()
      ensures items == Since(Kept(ring), sinceOffset)
    {
      items := [];
      var k := 0;
      while k < |buffer|
        invariant 0 <= k <= |buffer|
        invariant items + Since(buffer[k..], sinceOffset) == Since(buffer, sinceOffset)
      {
        assert buffer[k..][1..] == buffer[k + 1..];
        SinceNext(items, buffer[k..], sinceOffset);
        if buffer[k].no >= sinceOffset {
          items := items + [buffer[k]];
        }
        k := k + 1;
      }
    }

    method HasTrimmed(sinceOffset: nat) returns (t: bool)
      requires Valid()
      ensures t <==> Trimmed(ring, sinceOffset)
    {
      if buffer == [] {
        return sinceOffset > 0;
      }
      return sinceOffset < buffer[0].no;
    }

    method Subscribe() returns (s: Subscription)
      requires Valid()
      modifies this`subscribers
      ensures Valid() && fresh(s) && subscribers == old(subscribers) + [s]
      ensures s.State() == FRESH_FEED
    {
      s := new Subscription();
      subscribers := subscribers + [s];
    }

    /** Take a subscription off the list, if it is there, and close it. */
    method Unsubscribe(s: Subscription)
      requires Valid()
      modifies this`subscribers, s
      ensures Valid() && s.State() == old(s.State()).(closed := true)
      ensures forall x :: x in subscribers <==> x in old(subscribers) && x != s
    {
      var k := 0;
      while k < |subscribers| && subscribers[k] != s
        invariant 0 <= k <= |subscribers| && s !in subscribers[..k]
      {
        k := k + 1;
      }
      if k < |subscribers| {
        assert subscribers == subscribers[..k] + [s] + subscribers[k + 1..];
        subscribers := subscribers[..k] + subscribers[k + 1..];
      }
      s.CloseFeed();
    }

    method Clear()
      requires Valid()
      modifies this`buffer, this`ring
      ensures Valid() && ring == Cleared(old(ring))
    {
      buffer := [];
      ring := Cleared(ring);
    }
  }

  lemma AppendedKept(r: Ring, line: Text)
    requires RingOk(r)
    ensures RingOk(Appended(r, line))
    ensures var grown := Kept(r) + [Numbered(|r.lines|, line)];
            Kept(Appended(r, line)) == if |grown| <= r.maxlen then grown else grown[|grown| - r.maxlen..]
  {}

  // ----- In words -----

  /** The marker's text. */
  lemma SentinelInWords()
    ensures var text := " ...[line truncated]";
            |SENTINEL| == |text| && forall k :: 0 <= k < |text| ==> SENTINEL[k] == text[k] as int
  {}

  /** An open feed queues a line while fewer than 256 wait, else counts it as dropped; a closed one ignores it. */
  lemma SubmitInWords(f: Feed, item: Numbered)
    ensures var g := Submitted(f, item);
            && g.handled == f.handled && g.inHand == f.inHand && g.closed == f.closed
            && (if f.closed then g == f
                else if |f.queue| < 256 then
                  g.queue == f.queue + [item] && g.dropped == f.dropped && g.submitted == f.submitted + 1
                else g.queue == f.queue && g.dropped == f.dropped + 1 && g.submitted == f.submitted + 1)
  {}

  /** The worker takes the oldest line when it has none in hand, and finishes it as handled or as dropped. */
  lemma WorkInWords(f: Feed, ok: bool)
    ensures f.inHand == None && f.queue != [] ==> Taken(f) == f.(queue := f.queue[1..], inHand := Some(f.queue[0]))
    ensures f.inHand != None || f.queue == [] ==> Taken(f) == f
    ensures f.inHand == None ==> Finished(f, ok) == f
    ensures f.inHand != None ==>
              Finished(f, ok) == if ok then f.(handled := f.handled + [f.inHand.value], inHand := None)
                                 else f.(dropped := f.dropped + 1, inHand := None)
  {}

  /** What a ring holds: the newest lines, as many as fit, numbered from the beginning; nothing after `clear`. */
  lemma RingInWords(r: Ring, line: Text, n: nat)
    requires RingOk(r)
    ensures RingOk(Appended(r, line)) && Appended(r, line).lines == r.lines + [line]
    ensures var kept, room := Kept(r) + [Numbered(|r.lines|, line)], r.maxlen;
            Kept(Appended(r, line)) == if |kept| <= room then kept else kept[|kept| - room..]
    ensures Kept(Cleared(r)) == [] && Cleared(r).lines == r.lines
    ensures Trimmed(r, n) <==> if Kept(r) == [] then n > 0 else n < Kept(r)[0].no
  {
    AppendedKept(r, line);
  }
}
