/** The synchronizer's loop as a function on the per-topic queues: what one round takes, and all
    the rounds that a set of queues allows. */
module StreamRounds {

  datatype Stamped<T> = Stamped(ts: int, body: T)

  /** What one iteration of the loop removes: topic index and front message, in topic order. */
  type Round<T> = seq<(nat, Stamped<T>)>

  /** A callback invocation. */
  datatype Emission<T> = Emission(stamp: int, picks: Round<T>)

  predicate Ready<T>(b: seq<seq<Stamped<T>>>) {
    |b| > 0 && forall i | 0 <= i < |b| :: |b[i]| > 0
  }

  function Fronts<T>(b: seq<seq<Stamped<T>>>): (f: seq<int>)
    requires Ready(b)
    ensures |f| == |b| && forall i {:trigger f[i]} | 0 <= i < |b| :: f[i] == b[i][0].ts
  {
    seq(|b|, i requires 0 <= i < |b| => b[i][0].ts)
  }

  function Min(s: seq<int>): int
    requires |s| > 0
  {
    if |s| == 1 then s[0]
    else
      var m := Min(s[..|s| - 1]);
      if m <= s[|s| - 1] then m else s[|s| - 1]
  }

  lemma {:induction false} MinIsLeast(s: seq<int>)
    requires |s| > 0
    ensures Min(s) in s && forall i | 0 <= i < |s| :: Min(s) <= s[i]
  {
    if |s| > 1 {
      MinIsLeast(s[..|s| - 1]);
      assert s == s[..|s| - 1] + [s[|s| - 1]];
    }
  }

  predicate Increasing(s: seq<nat>) {
    forall j, k | 0 <= j < k < |s| :: s[j] < s[k]
  }

  /** The indices below n whose value is at most bound, in increasing order. */
  function IndicesUpTo(values: seq<int>, bound: int, n: nat): (s: seq<nat>)
    requires n <= |values|
    ensures Increasing(s)
    ensures forall k | 0 <= k < |s| :: s[k] < n
    ensures forall i: nat {:trigger i in s} :: i in s <==> i < n && values[i] <= bound
  {
    if n == 0 then []
    else
      var t := IndicesUpTo(values, bound, n - 1);
      if values[n - 1] <= bound then t + [n - 1] else t
  }

  function BeforeThreshold(values: seq<int>, threshold: nat): seq<nat> {
    if values == [] then [] else IndicesUpTo(values, Min(values) + threshold, |values|)
  }

  /** The topics one round takes from: those whose front message is within the threshold of the
      earliest front message. */
  function Matched<T>(b: seq<seq<Stamped<T>>>, threshold: nat): (m: seq<nat>)
    requires Ready(b)
    ensures Increasing(m)
    ensures forall k | 0 <= k < |m| :: m[k] < |b|
  {
    BeforeThreshold(Fronts(b), threshold)
  }

  /** A topic is matched exactly when no other front message is earlier by more than the
      threshold; so some topic always is. */
  lemma RoundComplete<T>(b: seq<seq<Stamped<T>>>, threshold: nat)
    requires Ready(b)
    ensures forall i: nat {:trigger i in Matched(b, threshold)} :: i in Matched(b, threshold) <==>
              i < |b| && forall j | 0 <= j < |b| :: b[i][0].ts <= b[j][0].ts + threshold
    ensures Matched(b, threshold) != []
    ensures forall i | 0 <= i < |b| && b[i][0].ts == Min(Fronts(b)) :: i in Matched(b, threshold)
  {
    var f := Fronts(b);
    MinIsLeast(f);
    var e :| 0 <= e < |f| && f[e] == Min(f);
    assert e in Matched(b, threshold);
    assert b[e][0].ts == Min(f);
    assert forall j | 0 <= j < |b| :: f[j] == b[j][0].ts;
  }

  function Picks<T>(b: seq<seq<Stamped<T>>>, m: seq<nat>): (r: Round<T>)
    requires Ready(b)
    requires forall k | 0 <= k < |m| :: m[k] < |b|
    ensures |r| == |m|
    ensures forall k {:trigger r[k]} | 0 <= k < |m| :: r[k] == (m[k], b[m[k]][0])
  {
    seq(|m|, k requires 0 <= k < |m| => (m[k], b[m[k]][0]))
  }

  function Popped<T>(b: seq<seq<Stamped<T>>>, m: seq<nat>): (r: seq<seq<Stamped<T>>>)
    requires Ready(b)
    ensures |r| == |b|
    ensures forall i: nat {:trigger r[i]} | i < |b| :: r[i] == if i in m then b[i][1..] else b[i]
  {
    seq(|b|, i requires 0 <= i < |b| => if i in m then b[i][1..] else b[i])
  }

  function Total<T>(b: seq<seq<Stamped<T>>>): nat {
    if b == [] then 0 else Total(b[..|b| - 1]) + |b[|b| - 1]|
  }

  lemma {:induction false} TotalShrinks<T>(b: seq<seq<Stamped<T>>>, c: seq<seq<Stamped<T>>>)
    requires |b| == |c|
    requires forall i | 0 <= i < |b| :: |c[i]| <= |b[i]|
    ensures Total(c) <= Total(b)
    ensures (exists i :: 0 <= i < |b| && |c[i]| < |b[i]|) ==> Total(c) < Total(b)
  {
    if b != [] {
      TotalShrinks(b[..|b| - 1], c[..|b| - 1]);
      if i :| 0 <= i < |b| && |c[i]| < |b[i]| {
        if i < |b| - 1 {
          assert |c[..|b| - 1][i]| < |b[..|b| - 1][i]|;
        }
      }
    }
  }

  lemma PopShrinks<T>(b: seq<seq<Stamped<T>>>, threshold: nat)
    requires Ready(b)
    ensures Total(Popped(b, Matched(b, threshold))) < Total(b)
  {
    RoundComplete(b, threshold);
    var m := Matched(b, threshold);
    var c := Popped(b, m);
    assert |c[m[0]]| < |b[m[0]]|;
    TotalShrinks(b, c);
  }

  /** Every round the queues allow, oldest first. */
  function Rounds<T>(b: seq<seq<Stamped<T>>>, threshold: nat): seq<Round<T>>
    decreases Total(b)
  {
    if !Ready(b) then []
    else
      PopShrinks(b, threshold);
      [Picks(b, Matched(b, threshold))] + Rounds(Popped(b, Matched(b, threshold)), threshold)
  }

  /** What is still queued after those rounds. */
  function Rest<T>(b: seq<seq<Stamped<T>>>, threshold: nat): (r: seq<seq<Stamped<T>>>)
    ensures |r| == |b|
    decreases Total(b)
  {
    if !Ready(b) then b
    else
      PopShrinks(b, threshold);
      Rest(Popped(b, Matched(b, threshold)), threshold)
  }

  /** The loop stops only when some topic has run dry. */
  lemma {:induction false} SomeTopicRunsDry<T>(b: seq<seq<Stamped<T>>>, threshold: nat)
    requires |b| > 0
    ensures exists i :: 0 <= i < |b| && Rest(b, threshold)[i] == []
    decreases Total(b)
  {
    if Ready(b) {
      PopShrinks(b, threshold);
      var p := Popped(b, Matched(b, threshold));
      SomeTopicRunsDry(p, threshold);
      assert Rest(b, threshold) == Rest(p, threshold);
    } else {
      var i :| 0 <= i < |b| && |b[i]| == 0;
      assert Rest(b, threshold)[i] == [];
    }
  }

  function MaxStamp<T>(r: Round<T>): (t: int)
    ensures t >= -1
    ensures forall k | 0 <= k < |r| :: r[k].1.ts <= t
    ensures t == -1 || exists k | 0 <= k < |r| :: r[k].1.ts == t
  {
    if r == [] then -1
    else
      var t := MaxStamp(r[..|r| - 1]);
      if t < r[|r| - 1].1.ts then r[|r| - 1].1.ts else t
  }

  /** The callbacks fired for a sequence of rounds. */
  function Emissions<T>(rounds: seq<Round<T>>, minMessages: nat): seq<Emission<T>> {
    if rounds == [] then []
    else if |rounds[0]| >= minMessages then
      [Emission(MaxStamp(rounds[0]), rounds[0])] + Emissions(rounds[1..], minMessages)
    else Emissions(rounds[1..], minMessages)
  }

  lemma {:induction false} EmissionsConcat<T>(r: seq<Round<T>>, s: seq<Round<T>>, minMessages: nat)
    ensures Emissions(r + s, minMessages) == Emissions(r, minMessages) + Emissions(s, minMessages)
  {
    if r == [] {
      assert r + s == s;
    } else {
      assert (r + s)[1..] == r[1..] + s;
      EmissionsConcat(r[1..], s, minMessages);
    }
  }

  /** The callback, if any, of one round. */
  function Fired<T>(r: Round<T>, minMessages: nat): seq<Emission<T>> {
    if |r| >= minMessages then [Emission(MaxStamp(r), r)] else []
  }

  /** One iteration of the loop. */
  lemma LoopStep<T>(b: seq<seq<Stamped<T>>>, threshold: nat, minMessages: nat)
    requires Ready(b)
    ensures var m := Matched(b, threshold);
            && Total(Popped(b, m)) < Total(b)
            && Rest(b, threshold) == Rest(Popped(b, m), threshold)
            && Emissions(Rounds(b, threshold), minMessages)
            == Fired(Picks(b, m), minMessages) + Emissions(Rounds(Popped(b, m), threshold), minMessages)
  {
    var m := Matched(b, threshold);
    PopShrinks(b, threshold);
    var r, later := Picks(b, m), Rounds(Popped(b, m), threshold);
    assert ([r] + later)[1..] == later;
    assert [] + Emissions(later, minMessages) == Emissions(later, minMessages);
  }

  // ----- Conservation, soundness and order of what is emitted -----

  /** The messages of one topic that a sequence of rounds takes, oldest first. */
  function Taken<T>(rounds: seq<Round<T>>, topic: nat): seq<Stamped<T>> {
    if rounds == [] then [] else TakenOnce(rounds[0], topic) + Taken(rounds[1..], topic)
  }

  function TakenOnce<T>(r: Round<T>, topic: nat): seq<Stamped<T>> {
    if r == [] then []
    else (if r[0].0 == topic then [r[0].1] else []) + TakenOnce(r[1..], topic)
  }

  ghost predicate Ascending<T>(r: Round<T>) {
    forall j, k | 0 <= j < k < |r| :: r[j].0 < r[k].0
  }

  lemma {:induction false} TakenOnceAt<T>(r: Round<T>, topic: nat)
    requires Ascending(r)
    ensures forall k | 0 <= k < |r| && r[k].0 == topic :: TakenOnce(r, topic) == [r[k].1]
    ensures (forall k | 0 <= k < |r| :: r[k].0 != topic) ==> TakenOnce(r, topic) == []
  {
    if r != [] {
      TakenOnceAt(r[1..], topic);
      forall k | 0 <= k < |r| && r[k].0 == topic
        ensures TakenOnce(r, topic) == [r[k].1]
      {
        if k > 0 {
          assert r[1..][k - 1] == r[k];
        } else {
          assert forall j | 0 <= j < |r[1..]| :: r[1..][j] == r[j + 1];
        }
      }
      if forall k | 0 <= k < |r| :: r[k].0 != topic {
        assert forall j | 0 <= j < |r[1..]| :: r[1..][j] == r[j + 1];
      }
    }
  }

  lemma PicksTake<T>(b: seq<seq<Stamped<T>>>, m: seq<nat>, topic: nat)
    requires Ready(b) && topic < |b| && Increasing(m)
    requires forall k | 0 <= k < |m| :: m[k] < |b|
    ensures TakenOnce(Picks(b, m), topic) + Popped(b, m)[topic] == b[topic]
  {
    var r := Picks(b, m);
    TakenOnceAt(r, topic);
    if topic in m {
      var k :| 0 <= k < |m| && m[k] == topic;
      assert r[k].0 == topic;
      assert [b[topic][0]] + b[topic][1..] == b[topic];
    }
  }

  lemma TakenFirst<T>(r: Round<T>, rest: seq<Round<T>>, topic: nat)
    ensures Taken([r] + rest, topic) == TakenOnce(r, topic) + Taken(rest, topic)
  {
    assert ([r] + rest)[1..] == rest;
  }

  /** Conservation: a topic's queue is what the rounds took from it followed by what is left, so
      no message is lost, duplicated or reordered by the loop. */
  lemma {:induction false} Conserved<T>(b: seq<seq<Stamped<T>>>, threshold: nat, topic: nat)
    requires topic < |b|
    ensures Taken(Rounds(b, threshold), topic) + Rest(b, threshold)[topic] == b[topic]
    decreases Total(b)
  {
    if Ready(b) {
      var m := Matched(b, threshold);
      PopShrinks(b, threshold);
      Conserved(Popped(b, m), threshold, topic);
      ConservedRound(b, m, Rounds(Popped(b, m), threshold), Rest(Popped(b, m), threshold), topic);
    }
  }

  lemma ConservedRound<T>(b: seq<seq<Stamped<T>>>, m: seq<nat>, later: seq<Round<T>>, rest: seq<seq<Stamped<T>>>,
                          topic: nat)
    requires Ready(b) && Increasing(m) && topic < |b| == |rest|
    requires forall k | 0 <= k < |m| :: m[k] < |b|
    requires Taken(later, topic) + rest[topic] == Popped(b, m)[topic]
    ensures Taken([Picks(b, m)] + later, topic) + rest[topic] == b[topic]
  {
    TakenFirst(Picks(b, m), later, topic);
    PicksTake(b, m, topic);
    var once := TakenOnce(Picks(b, m), topic);
    assert (once + Taken(later, topic)) + rest[topic] == once + (Taken(later, topic) + rest[topic]);
  }

  /** What a callback may contain: distinct topics in increasing order, all stamps within the
      threshold of each other. */
  ghost predicate SoundRound<T>(r: Round<T>, topics: nat, threshold: nat) {
    && r != []
    && Ascending(r)
    && (forall k | 0 <= k < |r| :: r[k].0 < topics)
    && (forall j, k | 0 <= j < |r| && 0 <= k < |r| :: r[j].1.ts <= r[k].1.ts + threshold)
  }

  lemma {:induction false} RoundsSound<T>(b: seq<seq<Stamped<T>>>, threshold: nat)
    ensures forall r | r in Rounds(b, threshold) :: SoundRound(r, |b|, threshold)
    decreases Total(b)
  {
    if Ready(b) {
      var m := Matched(b, threshold);
      PopShrinks(b, threshold);
      RoundsSound(Popped(b, m), threshold);
      RoundComplete(b, threshold);
      assert forall k | 0 <= k < |m| :: m[k] in m;
      assert SoundRound(Picks(b, m), |b|, threshold);
    }
  }

  ghost predicate Sorted<T>(s: seq<Stamped<T>>) {
    forall j, k | 0 <= j <= k < |s| :: s[j].ts <= s[k].ts
  }

  ghost predicate AllSorted<T>(b: seq<seq<Stamped<T>>>) {
    forall i | 0 <= i < |b| :: Sorted(b[i])
  }

  /** Per topic, r takes nothing older than the bound. */
  ghost predicate NotOlder<T>(r: Round<T>, bounds: seq<int>) {
    forall k | 0 <= k < |r| :: r[k].0 < |bounds| && bounds[r[k].0] <= r[k].1.ts
  }

  ghost predicate FrontsNotOlder<T>(b: seq<seq<Stamped<T>>>, bounds: seq<int>) {
    |b| == |bounds| && forall i | 0 <= i < |b| && |b[i]| > 0 :: bounds[i] <= b[i][0].ts
  }

  lemma PoppedSorted<T>(b: seq<seq<Stamped<T>>>, m: seq<nat>, bounds: seq<int>)
    requires Ready(b) && AllSorted(b) && FrontsNotOlder(b, bounds)
    ensures AllSorted(Popped(b, m)) && FrontsNotOlder(Popped(b, m), bounds)
  {
    var p := Popped(b, m);
    forall i | 0 <= i < |p|
      ensures Sorted(p[i]) && (|p[i]| > 0 ==> bounds[i] <= p[i][0].ts)
    {
      assert Sorted(b[i]);
    }
  }

  lemma {:induction false} RoundsNotOlder<T>(b: seq<seq<Stamped<T>>>, threshold: nat, bounds: seq<int>)
    requires AllSorted(b) && FrontsNotOlder(b, bounds)
    ensures forall r | r in Rounds(b, threshold) :: NotOlder(r, bounds)
    decreases Total(b)
  {
    if Ready(b) {
      var m := Matched(b, threshold);
      PopShrinks(b, threshold);
      PoppedSorted(b, m, bounds);
      RoundsNotOlder(Popped(b, m), threshold, bounds);
      assert NotOlder(Picks(b, m), bounds);
    }
  }

  ghost predicate StampsOrdered<T>(e: seq<Emission<T>>) {
    forall j, k | 0 <= j <= k < |e| :: e[j].stamp <= e[k].stamp
  }

  lemma {:induction false} EmittedAreRounds<T>(rounds: seq<Round<T>>, minMessages: nat)
    ensures forall e: Emission<T> | e in Emissions(rounds, minMessages) ::
              e.picks in rounds && e.stamp == MaxStamp(e.picks) && |e.picks| >= minMessages
  {
    if rounds != [] {
      EmittedAreRounds(rounds[1..], minMessages);
    }
  }

  /** The indices, among the first n rounds, of those with enough messages. */
  function LargeRounds<T>(rounds: seq<Round<T>>, minMessages: nat, n: nat): (s: seq<nat>)
    requires n <= |rounds|
    ensures Increasing(s)
    ensures forall k | 0 <= k < |s| :: s[k] < n
    ensures forall k: nat {:trigger k in s} :: k in s <==> k < n && |rounds[k]| >= minMessages
  {
    if n == 0 then []
    else
      var t := LargeRounds(rounds, minMessages, n - 1);
      if |rounds[n - 1]| >= minMessages then t + [n - 1] else t
  }

  lemma {:induction false} ReportedUpTo<T>(rounds: seq<Round<T>>, minMessages: nat, n: nat)
    requires n <= |rounds|
    ensures var e, at := Emissions(rounds[..n], minMessages), LargeRounds(rounds, minMessages, n);
            |e| == |at| && forall j {:trigger e[j]} | 0 <= j < |e| :: e[j].picks == rounds[at[j]]
  {
    if n > 0 {
      ReportedUpTo(rounds, minMessages, n - 1);
      assert rounds[..n] == rounds[..n - 1] + [rounds[n - 1]];
      EmissionsConcat(rounds[..n - 1], [rounds[n - 1]], minMessages);
      OneReported(rounds[n - 1], minMessages);
    }
  }

  lemma OneReported<T>(r: Round<T>, minMessages: nat)
    ensures Emissions([r], minMessages) == if |r| >= minMessages then [Emission(MaxStamp(r), r)] else []
  {
    assert [r][1..] == [];
  }

  /** Every round with enough messages is reported exactly once, in the order of the rounds, and nothing
      else is. */
  lemma ReportedExactly<T>(rounds: seq<Round<T>>, minMessages: nat)
    ensures var e, at := Emissions(rounds, minMessages), LargeRounds(rounds, minMessages, |rounds|);
            |e| == |at| && forall j {:trigger e[j]} | 0 <= j < |e| :: e[j].picks == rounds[at[j]]
  {
    ReportedUpTo(rounds, minMessages, |rounds|);
    assert rounds[..|rounds|] == rounds;
  }

  /** The first round: every topic whose front message no other one precedes by more than the threshold
      gives that message, and no other topic does. */
  lemma FirstRound<T>(b: seq<seq<Stamped<T>>>, threshold: nat)
    requires Ready(b)
    ensures Rounds(b, threshold) != []
    ensures forall i: nat, x: Stamped<T> :: (i, x) in Rounds(b, threshold)[0] <==>
              i < |b| && x == b[i][0] && forall j | 0 <= j < |b| :: x.ts <= b[j][0].ts + threshold
  {
    var m := Matched(b, threshold);
    var r := Picks(b, m);
    RoundComplete(b, threshold);
    forall i: nat, x: Stamped<T>
      ensures (i, x) in r <==> i in m && x == b[i][0]
    {
      if i in m && x == b[i][0] {
        var k :| 0 <= k < |m| && m[k] == i;
        assert r[k] == (i, x);
      }
    }
  }

  /** When all front messages are within the threshold of each other, and that many suffice, the next
      pass of the loop reports all of them first. */
  lemma FullRoundReported<T>(b: seq<seq<Stamped<T>>>, threshold: nat, minMessages: nat)
    requires Ready(b) && minMessages <= |b|
    requires forall i, j | 0 <= i < |b| && 0 <= j < |b| :: b[i][0].ts <= b[j][0].ts + threshold
    ensures var e := Emissions(Rounds(b, threshold), minMessages);
            && e != [] && |e[0].picks| == |b|
            && forall i {:trigger e[0].picks[i]} | 0 <= i < |b| :: e[0].picks[i] == (i, b[i][0])
  {
    var m := Matched(b, threshold);
    RoundComplete(b, threshold);
    AllIndices(m, |b|);
  }

  /** An increasing sequence of all the numbers below n. */
  lemma {:induction false} EachAtItsIndex(m: seq<nat>, n: nat, i: nat)
    requires Increasing(m) && forall k: nat {:trigger k in m} :: k in m <==> k < n
    requires i < n
    ensures i < |m| && forall k | 0 <= k <= i :: m[k] == k
  {
    if i > 0 {
      EachAtItsIndex(m, n, i - 1);
    }
    assert i in m;
    var p :| 0 <= p < |m| && m[p] == i;
    assert forall k | 0 <= k < i :: m[k] != i;
    assert i > 0 ==> m[i - 1] < m[i];
  }

  lemma {:induction false} NoSmallerThanIndex(m: seq<nat>, k: nat)
    requires Increasing(m) && k < |m|
    ensures m[k] >= k
  {
    if k > 0 {
      NoSmallerThanIndex(m, k - 1);
      assert m[k - 1] < m[k];
    }
  }

  lemma AllIndices(m: seq<nat>, n: nat)
    requires Increasing(m) && forall k: nat {:trigger k in m} :: k in m <==> k < n
    ensures |m| == n && forall i | 0 <= i < n :: m[i] == i
  {
    if n > 0 {
      EachAtItsIndex(m, n, n - 1);
    }
    if m != [] {
      NoSmallerThanIndex(m, |m| - 1);
      assert m[|m| - 1] in m;
    }
  }

  lemma CompleteRoundBounds<T>(r: Round<T>, later: Round<T>, bounds: seq<int>)
    requires |later| == |r| == |bounds| && Ascending(later) && NotOlder(later, bounds)
    requires forall k | 0 <= k < |r| :: r[k].0 < |bounds| && r[k].1.ts == bounds[r[k].0]
    ensures MaxStamp(r) <= MaxStamp(later)
  {
    AscendingCovers(later, |r|);
    if MaxStamp(r) != -1 {
      var k :| 0 <= k < |r| && r[k].1.ts == MaxStamp(r);
      assert later[r[k].0].0 == r[k].0;
    }
  }

  /** n strictly increasing indices below n are 0, 1, ..., n-1. */
  lemma {:induction false} AscendingCovers<T>(r: Round<T>, n: nat)
    requires |r| == n && Ascending(r) && forall k | 0 <= k < n :: r[k].0 < n
    ensures forall k | 0 <= k < n :: r[k].0 == k
  {
    forall k | 0 <= k < n
      ensures r[k].0 == k
    {
      AtLeastIndex(r, k);
      AtMostIndex(r, k);
    }
  }

  lemma {:induction false} AtLeastIndex<T>(r: Round<T>, k: nat)
    requires Ascending(r) && k < |r|
    ensures r[k].0 >= k
  {
    if k > 0 { AtLeastIndex(r, k - 1); }
  }

  lemma {:induction false} AtMostIndex<T>(r: Round<T>, k: nat)
    requires Ascending(r) && k < |r| && forall j | 0 <= j < |r| :: r[j].0 < |r|
    ensures r[k].0 <= k
    decreases |r| - k
  {
    if k < |r| - 1 { AtMostIndex(r, k + 1); }
  }

  lemma LaterStampsNotSmaller<T>(b: seq<seq<Stamped<T>>>, threshold: nat)
    requires AllSorted(b) && Ready(b) && |Matched(b, threshold)| >= |b|
    ensures var m := Matched(b, threshold);
            forall e: Emission<T> | e in Emissions(Rounds(Popped(b, m), threshold), |b|) ::
              MaxStamp(Picks(b, m)) <= e.stamp
  {
    hide Rounds, Emissions, MaxStamp, Matched, Popped, Sorted;
    var m := Matched(b, threshold);
    var p, r, bounds := Popped(b, m), Picks(b, m), Fronts(b);
    PoppedSorted(b, m, bounds);
    RoundsNotOlder(p, threshold, bounds);
    RoundsSound(p, threshold);
    EmittedAreRounds(Rounds(p, threshold), |b|);
    AscendingShort(r, |b|);
    forall e: Emission<T> | e in Emissions(Rounds(p, threshold), |b|)
      ensures MaxStamp(r) <= e.stamp
    {
      assert SoundRound(e.picks, |b|, threshold) && NotOlder(e.picks, bounds);
      AscendingShort(e.picks, |b|);
      CompleteRoundBounds(r, e.picks, bounds);
    }
  }

  lemma {:induction false} AscendingShort<T>(r: Round<T>, n: nat)
    requires Ascending(r) && forall k | 0 <= k < |r| :: r[k].0 < n
    ensures |r| <= n
  {
    if |r| > 0 { AtLeastIndex(r, |r| - 1); }
  }

  /** When every topic must take part in a match and each stream is in time order, the stamps
      reported to the callback never go back. */
  lemma {:induction false} ReportedStampsOrdered<T>(b: seq<seq<Stamped<T>>>, threshold: nat)
    requires AllSorted(b)
    ensures StampsOrdered(Emissions(Rounds(b, threshold), |b|))
    decreases Total(b)
  {
    if Ready(b) {
      var m := Matched(b, threshold);
      LoopStep(b, threshold, |b|);
      var p := Popped(b, m);
      PoppedSorted(b, m, Fronts(b));
      ReportedStampsOrdered(p, threshold);
      if |m| >= |b| {
        LaterStampsNotSmaller(b, threshold);
      }
    }
  }
}
