/** Runs of the synchronizer: messages arrive topic by topic, each arrival may or may not trigger
    the loop.  What is emitted does not depend on the interleaving nor on the trigger choices. */
module StreamArrivals {
  import opened StreamRounds

  /** One call of AddMessage. */
  datatype Arrival<T> = Arrival(topic: nat, msg: Stamped<T>, trigger: bool)

  /** A push into a queue of bounded size: a full queue loses its oldest message. */
  function Pushed<T>(q: seq<Stamped<T>>, capacity: nat, msg: Stamped<T>): seq<Stamped<T>>
    requires capacity >= 1
  {
    if |q| >= capacity then q[1..] + [msg] else q + [msg]
  }

  /** The last n elements. */
  function Latest<T>(s: seq<T>, n: nat): (r: seq<T>)
    ensures |r| == if |s| < n then |s| else n
    ensures forall k {:trigger r[k]} | 0 <= k < |r| :: r[k] == s[|s| - |r| + k]
  {
    if |s| <= n then s else s[|s| - n..]
  }

  /** A push keeps the newest messages, as many as there is room for, and the new one is the last. */
  lemma PushedIsLatest<T>(q: seq<Stamped<T>>, capacity: nat, msg: Stamped<T>)
    requires 1 <= capacity && |q| <= capacity
    ensures Pushed(q, capacity, msg) == Latest(q + [msg], capacity)
    ensures var r := Pushed(q, capacity, msg); |r| > 0 && r[|r| - 1] == msg
  {
  }

  /** The queues after a run, and every round taken on the way. */
  function Feed<T>(b: seq<seq<Stamped<T>>>, threshold: nat, capacity: nat, run: seq<Arrival<T>>)
    : (r: (seq<Round<T>>, seq<seq<Stamped<T>>>))
    requires capacity >= 1
    requires forall k | 0 <= k < |run| :: run[k].topic < |b|
    ensures |r.1| == |b|
    decreases |run|
  {
    if run == [] then ([], b)
    else
      var a := run[0];
      var c := b[a.topic := Pushed(b[a.topic], capacity, a.msg)];
      var taken := if a.trigger then Rounds(c, threshold) else [];
      var d := if a.trigger then Rest(c, threshold) else c;
      var later := Feed(d, threshold, capacity, run[1..]);
      (taken + later.0, later.1)
  }

  /** No push of the run meets a full queue. */
  predicate NoEviction<T>(b: seq<seq<Stamped<T>>>, threshold: nat, capacity: nat, run: seq<Arrival<T>>)
    requires capacity >= 1
    requires forall k | 0 <= k < |run| :: run[k].topic < |b|
    decreases |run|
  {
    run == [] ||
    var a := run[0];
    var c := b[a.topic := Pushed(b[a.topic], capacity, a.msg)];
    && |b[a.topic]| < capacity
    && NoEviction(if a.trigger then Rest(c, threshold) else c, threshold, capacity, run[1..])
  }

  /** The messages a run brings to one topic, in arrival order. */
  function Stream<T>(run: seq<Arrival<T>>, topic: nat): seq<Stamped<T>> {
    if run == [] then []
    else (if run[0].topic == topic then [run[0].msg] else []) + Stream(run[1..], topic)
  }

  function Streams<T>(run: seq<Arrival<T>>, topics: nat): (s: seq<seq<Stamped<T>>>)
    ensures |s| == topics && forall i {:trigger s[i]} | 0 <= i < topics :: s[i] == Stream(run, i)
  {
    seq(topics, i requires 0 <= i < topics => Stream(run, i))
  }

  function Extended<T>(b: seq<seq<Stamped<T>>>, x: seq<seq<Stamped<T>>>): (r: seq<seq<Stamped<T>>>)
    requires |b| == |x|
    ensures |r| == |b| && forall i {:trigger r[i]} | 0 <= i < |b| :: r[i] == b[i] + x[i]
  {
    seq(|b|, i requires 0 <= i < |b| => b[i] + x[i])
  }

  lemma ReadyExtended<T>(b: seq<seq<Stamped<T>>>, x: seq<seq<Stamped<T>>>, threshold: nat)
    requires |b| == |x| && Ready(b)
    ensures Ready(Extended(b, x))
    ensures Matched(Extended(b, x), threshold) == Matched(b, threshold)
    ensures Picks(Extended(b, x), Matched(b, threshold)) == Picks(b, Matched(b, threshold))
    ensures Popped(Extended(b, x), Matched(b, threshold)) == Extended(Popped(b, Matched(b, threshold)), x)
  {
    var c := Extended(b, x);
    assert forall i | 0 <= i < |b| :: c[i][0] == b[i][0];
    assert Fronts(c) == Fronts(b);
    var m := Matched(b, threshold);
    var p, q := Popped(c, m), Extended(Popped(b, m), x);
    assert forall i | 0 <= i < |b| :: p[i] == q[i];
  }

  /** Having taken some rounds and left some queues amounts to running the loop on `all`. */
  ghost predicate Amounts<T>(taken: seq<Round<T>>, left: seq<seq<Stamped<T>>>, all: seq<seq<Stamped<T>>>,
                             threshold: nat) {
    && taken + Rounds(left, threshold) == Rounds(all, threshold)
    && Rest(left, threshold) == Rest(all, threshold)
  }

  lemma AmountsTransitive<T>(taken: seq<Round<T>>, later: seq<Round<T>>, left: seq<seq<Stamped<T>>>,
                             mid: seq<seq<Stamped<T>>>, all: seq<seq<Stamped<T>>>, threshold: nat)
    requires Amounts(taken, mid, all, threshold) && Amounts(later, left, mid, threshold)
    ensures Amounts(taken + later, left, all, threshold)
  {
    assert (taken + later) + Rounds(left, threshold) == taken + (later + Rounds(left, threshold));
  }

  lemma NothingTaken<T>(all: seq<seq<Stamped<T>>>, threshold: nat)
    ensures Amounts([], all, all, threshold)
  {
    assert [] + Rounds(all, threshold) == Rounds(all, threshold);
  }

  lemma OneRoundExtends<T>(b: seq<seq<Stamped<T>>>, x: seq<seq<Stamped<T>>>, threshold: nat)
    requires |b| == |x| && Ready(b)
    ensures var m := Matched(b, threshold);
            Amounts([Picks(b, m)], Extended(Popped(b, m), x), Extended(b, x), threshold)
  {
    ReadyExtended(b, x, threshold);
  }

  /** Messages that arrive later only add rounds at the end. */
  lemma {:induction false} RoundsExtend<T>(b: seq<seq<Stamped<T>>>, x: seq<seq<Stamped<T>>>, threshold: nat)
    requires |b| == |x|
    ensures Amounts(Rounds(b, threshold), Extended(Rest(b, threshold), x), Extended(b, x), threshold)
    decreases Total(b)
  {
    if Ready(b) {
      var m := Matched(b, threshold);
      PopShrinks(b, threshold);
      OneRoundExtends(b, x, threshold);
      var p := Popped(b, m);
      RoundsExtend(p, x, threshold);
      AmountsTransitive([Picks(b, m)], Rounds(p, threshold), Extended(Rest(p, threshold), x), Extended(p, x),
                        Extended(b, x), threshold);
    } else {
      NothingTaken(Extended(b, x), threshold);
    }
  }

  lemma PushExtends<T>(b: seq<seq<Stamped<T>>>, capacity: nat, run: seq<Arrival<T>>)
    requires capacity >= 1 && run != [] && run[0].topic < |b|
    requires |b[run[0].topic]| < capacity
    ensures Extended(b, Streams(run, |b|))
         == Extended(b[run[0].topic := Pushed(b[run[0].topic], capacity, run[0].msg)], Streams(run[1..], |b|))
  {
    var c := b[run[0].topic := Pushed(b[run[0].topic], capacity, run[0].msg)];
    forall i: nat | i < |b|
      ensures b[i] + Stream(run, i) == c[i] + Stream(run[1..], i)
    {
    }
  }

  /** A run without evictions, closed by one last pass of the loop, takes exactly the rounds that
      the complete streams allow, and leaves exactly what they leave. */
  lemma {:induction false} FeedIsRounds<T>(b: seq<seq<Stamped<T>>>, threshold: nat, capacity: nat, run: seq<Arrival<T>>)
    requires capacity >= 1
    requires forall k | 0 <= k < |run| :: run[k].topic < |b|
    requires NoEviction(b, threshold, capacity, run)
    ensures var (taken, left) := Feed(b, threshold, capacity, run);
            Amounts(taken, left, Extended(b, Streams(run, |b|)), threshold)
    decreases |run|
  {
    var all := Extended(b, Streams(run, |b|));
    if run == [] {
      assert forall i | 0 <= i < |b| :: all[i] == b[i];
      assert all == b;
      NothingTaken(b, threshold);
    } else {
      var a := run[0];
      var c := b[a.topic := Pushed(b[a.topic], capacity, a.msg)];
      var s := Streams(run[1..], |b|);
      PushExtends(b, capacity, run);
      var d := if a.trigger then Rest(c, threshold) else c;
      var taken := if a.trigger then Rounds(c, threshold) else [];
      FeedIsRounds(d, threshold, capacity, run[1..]);
      assert Amounts(taken, Extended(d, s), all, threshold) by {
        if a.trigger {
          RoundsExtend(c, s, threshold);
        } else {
          NothingTaken(all, threshold);
        }
      }
      var later := Feed(d, threshold, capacity, run[1..]);
      AmountsTransitive(taken, later.0, later.1, Extended(d, s), all, threshold);
    }
  }

  /** What no pass of the loop has taken: while nothing triggers it, every topic holds the newest of its
      messages, as many as there is room for. */
  lemma {:induction false} UntriggeredKeepsLatest<T>(b: seq<seq<Stamped<T>>>, threshold: nat, capacity: nat,
                                                     run: seq<Arrival<T>>, topic: nat)
    requires capacity >= 1 && topic < |b| && forall i | 0 <= i < |b| :: |b[i]| <= capacity
    requires forall k | 0 <= k < |run| :: run[k].topic < |b| && !run[k].trigger
    ensures var (taken, left) := Feed(b, threshold, capacity, run);
            taken == [] && left[topic] == Latest(b[topic] + Stream(run, topic), capacity)
    decreases |run|
  {
    if run == [] {
      assert b[topic] + Stream(run, topic) == b[topic];
    } else {
      var a := run[0];
      hide Feed, Pushed, Latest, Stream;
      PushedIsLatest(b[a.topic], capacity, a.msg);
      FeedUntriggered(b, threshold, capacity, run);
      var c := b[a.topic := Pushed(b[a.topic], capacity, a.msg)];
      assert forall i | 0 <= i < |c| :: |c[i]| <= capacity;
      UntriggeredKeepsLatest(c, threshold, capacity, run[1..], topic);
      OneMoreInStream(b[topic], c[topic], run, topic, capacity);
    }
  }

  lemma OneMoreInStream<T>(q: seq<Stamped<T>>, r: seq<Stamped<T>>, run: seq<Arrival<T>>, topic: nat, capacity: nat)
    requires run != [] && r == if run[0].topic == topic then Latest(q + [run[0].msg], capacity) else q
    ensures Latest(r + Stream(run[1..], topic), capacity) == Latest(q + Stream(run, topic), capacity)
  {
    hide Latest;
    var later, m := Stream(run[1..], topic), run[0].msg;
    if run[0].topic == topic {
      assert q + ([m] + later) == (q + [m]) + later;
      LatestOfLatest(q + [m], later, capacity);
    } else {
      assert [] + later == later;
    }
  }

  lemma FeedUntriggered<T>(b: seq<seq<Stamped<T>>>, threshold: nat, capacity: nat, run: seq<Arrival<T>>)
    requires capacity >= 1 && forall k | 0 <= k < |run| :: run[k].topic < |b|
    requires run != [] && !run[0].trigger
    ensures var c := b[run[0].topic := Pushed(b[run[0].topic], capacity, run[0].msg)];
            Feed(b, threshold, capacity, run) == Feed(c, threshold, capacity, run[1..])
  {
    hide Pushed, Rounds, Rest;
    var c := b[run[0].topic := Pushed(b[run[0].topic], capacity, run[0].msg)];
    assert [] + Feed(c, threshold, capacity, run[1..]).0 == Feed(c, threshold, capacity, run[1..]).0;
  }

  lemma LatestOfLatest<T>(s: seq<T>, t: seq<T>, n: nat)
    ensures Latest(Latest(s, n) + t, n) == Latest(s + t, n)
  {
    hide Latest;
    var l := Latest(s, n);
    var a, b := Latest(l + t, n), Latest(s + t, n);
    assert |a| == |b|;
    forall k | 0 <= k < |a|
      ensures a[k] == b[k]
    {
      assert a[k] == (l + t)[|l| + |t| - |a| + k];
      assert b[k] == (s + t)[|s| + |t| - |a| + k];
    }
  }

  function Quiet<T>(topics: nat): (b: seq<seq<Stamped<T>>>)
    ensures |b| == topics && forall i {:trigger b[i]} | 0 <= i < topics :: b[i] == []
  {
    seq(topics, _ => [])
  }

  lemma QuietExtended<T>(x: seq<seq<Stamped<T>>>)
    ensures Extended(Quiet<T>(|x|), x) == x
  {
    var all := Extended(Quiet<T>(|x|), x);
    assert forall i | 0 <= i < |x| :: all[i] == x[i];
  }

  /** The callbacks of a whole run from empty queues that ends with a triggered pass. */
  function Callbacks<T>(topics: nat, threshold: nat, capacity: nat, minMessages: nat,
                        run: seq<Arrival<T>>): seq<Emission<T>>
    requires capacity >= 1
    requires forall k | 0 <= k < |run| :: run[k].topic < topics
  {
    var (taken, left) := Feed(Quiet<T>(topics), threshold, capacity, run);
    Emissions(taken + Rounds(left, threshold), minMessages)
  }

  /** The callbacks are a function of the per-topic streams alone. */
  lemma CallbacksOfStreams<T>(topics: nat, threshold: nat, capacity: nat, minMessages: nat, run: seq<Arrival<T>>)
    requires capacity >= 1
    requires forall k | 0 <= k < |run| :: run[k].topic < topics
    requires NoEviction(Quiet<T>(topics), threshold, capacity, run)
    ensures Callbacks(topics, threshold, capacity, minMessages, run)
         == Emissions(Rounds(Streams(run, topics), threshold), minMessages)
  {
    FeedIsRounds(Quiet<T>(topics), threshold, capacity, run);
    QuietExtended(Streams(run, topics));
  }

  /** Interleaving independence: two runs that bring the same stream to every topic fire the same
      callbacks, whatever the order of arrival across topics, the trigger flags and the (big
      enough) queue sizes. */
  lemma InterleavingIndependent<T>(topics: nat, threshold: nat, minMessages: nat,
                                   run1: seq<Arrival<T>>, capacity1: nat, run2: seq<Arrival<T>>, capacity2: nat)
    requires capacity1 >= 1 && capacity2 >= 1
    requires forall k | 0 <= k < |run1| :: run1[k].topic < topics
    requires forall k | 0 <= k < |run2| :: run2[k].topic < topics
    requires NoEviction(Quiet<T>(topics), threshold, capacity1, run1)
    requires NoEviction(Quiet<T>(topics), threshold, capacity2, run2)
    requires forall i | 0 <= i < topics :: Stream(run1, i) == Stream(run2, i)
    ensures Callbacks(topics, threshold, capacity1, minMessages, run1)
         == Callbacks(topics, threshold, capacity2, minMessages, run2)
  {
    CallbacksOfStreams(topics, threshold, capacity1, minMessages, run1);
    CallbacksOfStreams(topics, threshold, capacity2, minMessages, run2);
    assert Streams(run1, topics) == Streams(run2, topics);
  }
}
