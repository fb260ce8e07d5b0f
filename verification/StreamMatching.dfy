/** How good the greedy loop is: which dropped messages were hopeless, and, for two topics, that
    no pairing at all of the messages received so far has more pairs than the loop emits. */
module StreamMatching {
  import opened StreamRounds
  import opened StreamArrivals

  // ----- Dropping -----

  /** One message per topic (by position in the stream), pairwise within the threshold. */
  ghost predicate FullMatch<T>(s: seq<seq<Stamped<T>>>, pick: seq<nat>, threshold: nat) {
    && |pick| == |s|
    && (forall i | 0 <= i < |s| :: pick[i] < |s[i]|)
    && (forall i, j | 0 <= i < |s| && 0 <= j < |s| :: s[i][pick[i]].ts <= s[j][pick[j]].ts + threshold)
  }

  /** Streams in time order that begin with what is queued. */
  ghost predicate Extends<T>(s: seq<seq<Stamped<T>>>, b: seq<seq<Stamped<T>>>) {
    && |s| == |b|
    && AllSorted(s)
    && (forall i | 0 <= i < |s| :: b[i] <= s[i])
  }

  /** Whatever is queued and still to come, the front of topic i is in no full match. */
  ghost predicate Hopeless<T(!new)>(b: seq<seq<Stamped<T>>>, threshold: nat, i: nat)
    requires i < |b|
  {
    forall s: seq<seq<Stamped<T>>>, pick: seq<nat> ::
      Extends(s, b) && FullMatch(s, pick, threshold) ==> pick[i] != 0
  }

  /** A queue that can take part in a match within [lo, lo + threshold]: a queued message lies there,
      or all of them are earlier, so that one may still come. */
  ghost predicate CanServe<T>(q: seq<Stamped<T>>, threshold: nat, lo: int) {
    || (exists k :: 0 <= k < |q| && lo <= q[k].ts <= lo + threshold)
    || (forall k | 0 <= k < |q| :: q[k].ts < lo)
  }

  /** Some window around the front of topic i can be served by every topic. */
  ghost predicate Servable<T>(b: seq<seq<Stamped<T>>>, threshold: nat, i: nat)
    requires i < |b| && |b[i]| > 0
  {
    exists lo :: b[i][0].ts - threshold <= lo <= b[i][0].ts && ServedAt(b, threshold, lo)
  }

  ghost predicate ServedAt<T>(b: seq<seq<Stamped<T>>>, threshold: nat, lo: int) {
    forall j | 0 <= j < |b| :: CanServe(b[j], threshold, lo)
  }

  /** The earliest message of a match. */
  lemma {:induction false} EarliestPick<T>(s: seq<seq<Stamped<T>>>, pick: seq<nat>, n: nat) returns (e: nat)
    requires 0 < n <= |s| == |pick| && forall i | 0 <= i < |s| :: pick[i] < |s[i]|
    ensures e < n && forall j | 0 <= j < n :: s[e][pick[e]].ts <= s[j][pick[j]].ts
  {
    if n == 1 {
      e := 0;
    } else {
      e := EarliestPick(s, pick, n - 1);
      if s[n - 1][pick[n - 1]].ts < s[e][pick[e]].ts {
        e := n - 1;
      }
    }
  }

  /** A full match with the front of topic i gives a window. */
  lemma MatchServes<T>(b: seq<seq<Stamped<T>>>, threshold: nat, i: nat, s: seq<seq<Stamped<T>>>, pick: seq<nat>)
    requires i < |b| && |b[i]| > 0
    requires Extends(s, b) && FullMatch(s, pick, threshold) && pick[i] == 0
    ensures Servable(b, threshold, i)
  {
    var e := EarliestPick(s, pick, |s|);
    var lo := s[e][pick[e]].ts;
    assert b[i] <= s[i] && s[i][0] == b[i][0];
    forall j | 0 <= j < |b|
      ensures CanServe(b[j], threshold, lo)
    {
      QueueServes(b[j], s[j], pick[j], threshold, lo);
    }
    assert ServedAt(b, threshold, lo);
  }

  lemma QueueServes<T>(q: seq<Stamped<T>>, s: seq<Stamped<T>>, k: nat, threshold: nat, lo: int)
    requires q <= s && Sorted(s) && k < |s| && lo <= s[k].ts <= lo + threshold
    ensures CanServe(q, threshold, lo)
  {
    if k < |q| {
      assert q[k] == s[k];
    } else if m :| 0 <= m < |q| && q[m].ts >= lo {
      assert q[m] == s[m] && s[m].ts <= s[k].ts;
    }
  }

  /** How a queue serves a window: the message it takes part with, queued or still to come. */
  lemma Serve<T>(q: seq<Stamped<T>>, threshold: nat, lo: int, body: T) returns (s: seq<Stamped<T>>, k: nat)
    requires Sorted(q) && CanServe(q, threshold, lo)
    ensures Sorted(s) && q <= s && k < |s| && lo <= s[k].ts <= lo + threshold
  {
    if m :| 0 <= m < |q| && lo <= q[m].ts <= lo + threshold {
      s, k := q, m;
    } else {
      s, k := q + [Stamped(lo, body)], |q|;
    }
  }

  /** All topics up to the n-th serve the window. */
  lemma {:induction false} ServeAll<T>(b: seq<seq<Stamped<T>>>, threshold: nat, lo: int, i: nat, n: nat)
    returns (s: seq<seq<Stamped<T>>>, pick: seq<nat>)
    requires i < |b| && |b[i]| > 0 && AllSorted(b) && ServedAt(b, threshold, lo) && n <= |b|
    requires lo <= b[i][0].ts <= lo + threshold
    ensures |s| == |pick| == n
    ensures forall j | 0 <= j < n ::
              Sorted(s[j]) && b[j] <= s[j] && pick[j] < |s[j]| && lo <= s[j][pick[j]].ts <= lo + threshold
    ensures i < n ==> pick[i] == 0
  {
    if n == 0 {
      s, pick := [], [];
    } else {
      s, pick := ServeAll(b, threshold, lo, i, n - 1);
      var t, k := b[n - 1], 0;
      if i != n - 1 {
        t, k := Serve(b[n - 1], threshold, lo, b[i][0].body);
      }
      s, pick := s + [t], pick + [k];
    }
  }

  /** Exactly when it is safe to drop a front message: when no window around it can be served by all
      topics. */
  lemma HopelessIffNotServable<T(!new)>(b: seq<seq<Stamped<T>>>, threshold: nat, i: nat)
    requires i < |b| && |b[i]| > 0 && AllSorted(b)
    ensures Hopeless(b, threshold, i) <==> !Servable(b, threshold, i)
  {
    if lo :| b[i][0].ts - threshold <= lo <= b[i][0].ts && ServedAt(b, threshold, lo) {
      var s, pick := ServeAll(b, threshold, lo, i, |b|);
      assert Extends(s, b) && FullMatch(s, pick, threshold) && pick[i] == 0;
    }
    if !Servable(b, threshold, i) {
      forall s: seq<seq<Stamped<T>>>, pick: seq<nat> | Extends(s, b) && FullMatch(s, pick, threshold)
        ensures pick[i] != 0
      {
        if pick[i] == 0 {
          MatchServes(b, threshold, i, s, pick);
        }
      }
    }
  }

  /** Some other front message is later than that of topic i by more than the threshold. */
  ghost predicate SomeFrontBeyond<T>(b: seq<seq<Stamped<T>>>, threshold: nat, i: nat)
    requires Ready(b) && i < |b|
  {
    exists j :: 0 <= j < |b| && b[j][0].ts > b[i][0].ts + threshold
  }

  lemma TooLate<T>(q: seq<Stamped<T>>, threshold: nat, lo: int)
    requires |q| > 0 && Sorted(q) && q[0].ts > lo + threshold
    ensures !CanServe(q, threshold, lo)
  {
    assert forall k | 0 <= k < |q| :: q[0].ts <= q[k].ts;
  }

  /** That suffices; and when nothing is queued behind the fronts, it is necessary too. */
  lemma HopelessIffSomeFrontBeyond<T(!new)>(b: seq<seq<Stamped<T>>>, threshold: nat, i: nat)
    requires Ready(b) && AllSorted(b) && i < |b|
    ensures SomeFrontBeyond(b, threshold, i) ==> Hopeless(b, threshold, i)
    ensures (forall j | 0 <= j < |b| :: |b[j]| == 1) ==>
            (Hopeless(b, threshold, i) <==> SomeFrontBeyond(b, threshold, i))
  {
    HopelessIffNotServable(b, threshold, i);
    if j :| 0 <= j < |b| && b[j][0].ts > b[i][0].ts + threshold {
      forall lo | lo <= b[i][0].ts
        ensures !ServedAt(b, threshold, lo)
      {
        TooLate(b[j], threshold, lo);
      }
    } else if forall j | 0 <= j < |b| :: |b[j]| == 1 {
      assert forall j | 0 <= j < |b| && b[j][0].ts >= b[i][0].ts :: b[i][0].ts <= b[j][0].ts <= b[i][0].ts + threshold;
      assert ServedAt(b, threshold, b[i][0].ts);
    }
  }

  /** In general it is not: with a message at 100 queued behind the first topic's front, nothing can
      come that the second topic's message at 5 and the third's at 12 would match. */
  lemma QueuedBehindDecides(a: Stamped<int>, z: Stamped<int>, c: Stamped<int>, d: Stamped<int>)
    requires a.ts == 0 && z.ts == 100 && c.ts == 5 && d.ts == 12
    ensures Hopeless([[a, z], [c], [d]], 10, 1) && !SomeFrontBeyond([[a, z], [c], [d]], 10, 1)
  {
    var b: seq<seq<Stamped<int>>> := [[a, z], [c], [d]];
    assert b[0][0] == a && b[1][0] == c && b[2][0] == d;
    forall lo | -5 <= lo <= 5
      ensures !ServedAt(b, 10, lo)
    {
      if lo <= 0 {
        assert b[2][0] == d && !CanServe(b[2], 10, lo);
      } else {
        assert b[0][1] == z && !CanServe(b[0], 10, lo);
      }
    }
    HopelessIffNotServable(b, 10, 1);
  }

  /** The front messages alone. */
  function FrontsOnly<T>(b: seq<seq<Stamped<T>>>): (f: seq<seq<Stamped<T>>>)
    requires Ready(b)
    ensures |f| == |b| && forall i {:trigger f[i]} | 0 <= i < |b| :: f[i] == [b[i][0]]
  {
    seq(|b|, i requires 0 <= i < |b| => [b[i][0]])
  }

  lemma FrontsDecide<T(!new)>(b: seq<seq<Stamped<T>>>, threshold: nat, i: nat)
    requires Ready(b) && i < |b| && Hopeless(FrontsOnly(b), threshold, i)
    ensures Hopeless(b, threshold, i)
  {
    forall s: seq<seq<Stamped<T>>>, pick: seq<nat> | Extends(s, b) && FullMatch(s, pick, threshold)
      ensures pick[i] != 0
    {
      assert forall j | 0 <= j < |b| :: b[j] <= s[j] && s[j][0] == b[j][0];
      assert Extends(s, FrontsOnly(b));
    }
  }

  /** In a round that some topic misses, dropping the earliest message loses no full match, whatever
      is queued behind the fronts. */
  lemma EarliestDropIsSound<T(!new)>(b: seq<seq<Stamped<T>>>, threshold: nat, i: nat)
    requires Ready(b) && i < |b| && b[i][0].ts == Min(Fronts(b))
    requires |Matched(b, threshold)| < |b|
    ensures i in Matched(b, threshold)
    ensures Hopeless(FrontsOnly(b), threshold, i) && Hopeless(b, threshold, i)
  {
    RoundComplete(b, threshold);
    assert i in Matched(b, threshold);
    var j := MissingIndex(Matched(b, threshold), |b|);
    var f: seq<seq<Stamped<T>>> := FrontsOnly(b);
    assert f[j][0].ts > f[i][0].ts + threshold;
    HopelessIffSomeFrontBeyond(f, threshold, i);
    FrontsDecide(b, threshold, i);
  }

  lemma {:induction false} IncreasingShort(m: seq<nat>, n: nat)
    requires Increasing(m) && forall k | 0 <= k < |m| :: m[k] < n
    ensures |m| <= n
  {
    if m != [] {
      IncreasingShort(m[..|m| - 1], m[|m| - 1]);
    }
  }

  lemma {:induction false} MissingIndex(m: seq<nat>, n: nat) returns (j: nat)
    requires Increasing(m) && |m| < n
    ensures j < n && j !in m
  {
    if m == [] || m[|m| - 1] < n - 1 {
      j := n - 1;
      assert forall k | 0 <= k < |m| :: m[k] <= m[|m| - 1];
    } else {
      j := MissingIndex(m[..|m| - 1], n - 1);
      assert j < n - 1 <= m[|m| - 1];
      assert m == m[..|m| - 1] + [m[|m| - 1]];
    }
  }

  /** With two topics that covers every message an incomplete round drops. */
  lemma TwoTopicDropsAreSound<T(!new)>(b: seq<seq<Stamped<T>>>, threshold: nat, i: nat)
    requires Ready(b) && |b| == 2 && |Matched(b, threshold)| < 2
    requires i in Matched(b, threshold)
    ensures Hopeless(FrontsOnly(b), threshold, i) && Hopeless(b, threshold, i)
  {
    var m := Matched(b, threshold);
    assert m == [i];
    RoundComplete(b, threshold);
    var f := Fronts(b);
    MinIsLeast(f);
    var e :| 0 <= e < 2 && f[e] == Min(f);
    assert e in m;
    EarliestDropIsSound(b, threshold, i);
  }

  /** With three topics it does not: the loop drops the second topic's message at 5 although the
      first topic may still deliver one at 6, which would match 5 and 12. */
  lemma ThreeTopicDropCanLoseAMatch(a: Stamped<int>, c: Stamped<int>, d: Stamped<int>)
    requires a.ts == 0 && c.ts == 5 && d.ts == 12
    ensures |Matched([[a], [c], [d]], 10)| < 3
    ensures 1 in Matched([[a], [c], [d]], 10)
    ensures !Hopeless([[a], [c], [d]], 10, 1)
  {
    var b: seq<seq<Stamped<int>>> := [[a], [c], [d]];
    RoundComplete(b, 10);
    var m := Matched(b, 10);
    assert b[0][0].ts == 0 && b[1][0].ts == 5 && b[2][0].ts == 12;
    assert 2 !in m;
    assert forall k | 0 <= k < |m| :: m[k] in m && m[k] < 2;
    IncreasingShort(m, 2);
    HopelessIffSomeFrontBeyond(b, 10, 1);
  }

  // ----- Two-topic optimality -----

  predicate Close<T>(p: Stamped<T>, q: Stamped<T>, threshold: nat) {
    p.ts <= q.ts + threshold && q.ts <= p.ts + threshold
  }

  /** Any one-to-one pairing of close messages, order-preserving or not. */
  ghost predicate Pairing<T>(x: seq<Stamped<T>>, y: seq<Stamped<T>>, threshold: nat, m: set<(nat, nat)>) {
    && (forall p | p in m :: p.0 < |x| && p.1 < |y| && Close(x[p.0], y[p.1], threshold))
    && (forall p, q | p in m && q in m && (p.0 == q.0 || p.1 == q.1) :: p == q)
  }

  ghost predicate From(m: set<(nat, nat)>, a: nat, b: nat) {
    forall p | p in m :: a <= p.0 && b <= p.1
  }

  /** The pairs the loop takes from position a of the first stream and b of the second. */
  function Greedy<T>(x: seq<Stamped<T>>, y: seq<Stamped<T>>, threshold: nat, a: nat, b: nat): seq<(nat, nat)>
    requires a <= |x| && b <= |y|
    decreases |x| - a + |y| - b
  {
    if a == |x| || b == |y| then []
    else if Close(x[a], y[b], threshold) then [(a, b)] + Greedy(x, y, threshold, a + 1, b + 1)
    else if x[a].ts < y[b].ts then Greedy(x, y, threshold, a + 1, b)
    else Greedy(x, y, threshold, a, b + 1)
  }

  lemma {:induction false} AtMostGreedy<T>(x: seq<Stamped<T>>, y: seq<Stamped<T>>, threshold: nat, a: nat, b: nat,
                                           m: set<(nat, nat)>)
    requires a <= |x| && b <= |y| && Sorted(x) && Sorted(y)
    requires Pairing(x, y, threshold, m) && From(m, a, b)
    ensures |m| <= |Greedy(x, y, threshold, a, b)|
    decreases |x| - a + |y| - b
  {
    if a == |x| || b == |y| {
      assert m == {};
    } else if Close(x[a], y[b], threshold) {
      var n := Uncrossed(x, y, threshold, a, b, m);
      AtMostGreedy(x, y, threshold, a + 1, b + 1, n);
    } else if x[a].ts < y[b].ts {
      AtMostGreedy(x, y, threshold, a + 1, b, m);
    } else {
      AtMostGreedy(x, y, threshold, a, b + 1, m);
    }
  }

  lemma PairingWithout<T>(x: seq<Stamped<T>>, y: seq<Stamped<T>>, threshold: nat, m: set<(nat, nat)>,
                          n: set<(nat, nat)>)
    requires Pairing(x, y, threshold, m) && n <= m
    ensures Pairing(x, y, threshold, n)
  {
  }

  lemma PairingWith<T>(x: seq<Stamped<T>>, y: seq<Stamped<T>>, threshold: nat, m: set<(nat, nat)>, r: (nat, nat))
    requires Pairing(x, y, threshold, m)
    requires r.0 < |x| && r.1 < |y| && Close(x[r.0], y[r.1], threshold)
    requires forall p | p in m :: p.0 != r.0 && p.1 != r.1
    ensures Pairing(x, y, threshold, m + {r}) && |m + {r}| == |m| + 1
  {
    assert r !in m;
  }

  /** Exchange: the partners of two close fronts are close to each other. */
  lemma PartnersClose<T>(x: seq<Stamped<T>>, y: seq<Stamped<T>>, threshold: nat, p: (nat, nat), q: (nat, nat))
    requires Sorted(x) && Sorted(y) && p.0 <= q.0 < |x| && q.1 <= p.1 < |y|
    requires Close(x[p.0], y[q.1], threshold) && Close(x[p.0], y[p.1], threshold) && Close(x[q.0], y[q.1], threshold)
    ensures Close(x[q.0], y[p.1], threshold)
  {
    assert x[p.0].ts <= x[q.0].ts && y[q.1].ts <= y[p.1].ts;
  }

  /** So the two pairs can be exchanged for the pair of the partners. */
  lemma Crossed<T>(x: seq<Stamped<T>>, y: seq<Stamped<T>>, threshold: nat, m: set<(nat, nat)>, p: (nat, nat),
                   q: (nat, nat))
    returns (n: set<(nat, nat)>)
    requires Sorted(x) && Sorted(y) && Pairing(x, y, threshold, m) && From(m, p.0, q.1)
    requires p in m && q in m && p != q && Close(x[p.0], y[q.1], threshold)
    ensures Pairing(x, y, threshold, n) && From(n, p.0 + 1, q.1 + 1) && |m| == |n| + 1
  {
    var rest := m - {p, q};
    assert |rest| == |m| - 2;
    PairingWithout(x, y, threshold, m, rest);
    PartnersClose(x, y, threshold, p, q);
    hide Sorted, Close;
    PairingWith(x, y, threshold, rest, (q.0, p.1));
    n := rest + {(q.0, p.1)};
  }

  /** When the two fronts are close, a pairing can give both up at the cost of one pair. */
  lemma Uncrossed<T>(x: seq<Stamped<T>>, y: seq<Stamped<T>>, threshold: nat, a: nat, b: nat, m: set<(nat, nat)>)
    returns (n: set<(nat, nat)>)
    requires a < |x| && b < |y| && Sorted(x) && Sorted(y)
    requires Pairing(x, y, threshold, m) && From(m, a, b) && Close(x[a], y[b], threshold)
    ensures Pairing(x, y, threshold, n) && From(n, a + 1, b + 1) && |m| <= |n| + 1
  {
    if p, q :| p in m && q in m && p.0 == a && q.1 == b && p != q {
      n := Crossed(x, y, threshold, m, p, q);
    } else if p :| p in m && (p.0 == a || p.1 == b) {
      n := m - {p};
      PairingWithout(x, y, threshold, m, n);
    } else {
      n := m;
    }
  }

  lemma NoPairs<T>(x: seq<Stamped<T>>, y: seq<Stamped<T>>, threshold: nat)
    ensures Pairing(x, y, threshold, {})
  {
  }

  lemma {:induction false} GreedyIsPairing<T>(x: seq<Stamped<T>>, y: seq<Stamped<T>>, threshold: nat, a: nat, b: nat)
    returns (m: set<(nat, nat)>)
    requires a <= |x| && b <= |y|
    ensures Pairing(x, y, threshold, m) && From(m, a, b)
    ensures |m| == |Greedy(x, y, threshold, a, b)|
    ensures m == set p | p in Greedy(x, y, threshold, a, b)
    decreases |x| - a + |y| - b
  {
    hide Pairing;
    if a == |x| || b == |y| {
      m := {};
      NoPairs(x, y, threshold);
    } else if Close(x[a], y[b], threshold) {
      m := GreedyIsPairing(x, y, threshold, a + 1, b + 1);
      PairingWith(x, y, threshold, m, (a, b));
      m := m + {(a, b)};
    } else if x[a].ts < y[b].ts {
      m := GreedyIsPairing(x, y, threshold, a + 1, b);
    } else {
      m := GreedyIsPairing(x, y, threshold, a, b + 1);
    }
  }

  /** What the loop matches when the queues hold the streams from positions a and b on. */
  lemma TwoFronts<T>(x: seq<Stamped<T>>, y: seq<Stamped<T>>, threshold: nat)
    requires |x| > 0 && |y| > 0
    ensures var m := Matched([x, y], threshold);
            m == if Close(x[0], y[0], threshold) then [0, 1] else if x[0].ts < y[0].ts then [0] else [1]
  {
    hide Matched, Min, Fronts;
    var b := [x, y];
    var m := Matched(b, threshold);
    RoundComplete(b, threshold);
    assert b[0][0] == x[0] && b[1][0] == y[0];
    assert 0 in m <==> x[0].ts <= y[0].ts + threshold;
    assert 1 in m <==> y[0].ts <= x[0].ts + threshold;
    assert forall k | 0 <= k < |m| :: m[k] in m && m[k] < 2;
    IncreasingShort(m, 2);
    if |m| == 2 {
      assert m[0] < m[1];
      assert m == [0, 1];
    } else {
      assert m == [m[0]];
    }
  }

  /** What one round does to two queues. */
  lemma TwoTopicPop<T>(x: seq<Stamped<T>>, y: seq<Stamped<T>>, threshold: nat)
    requires |x| > 0 && |y| > 0
    ensures var m := Matched([x, y], threshold);
            var p := Popped([x, y], m);
            if Close(x[0], y[0], threshold) then
              Picks([x, y], m) == [(0, x[0]), (1, y[0])] && p == [x[1..], y[1..]]
            else if x[0].ts < y[0].ts then |m| == 1 && p == [x[1..], y]
            else |m| == 1 && p == [x, y[1..]]
  {
    TwoFronts(x, y, threshold);
    var m := Matched([x, y], threshold);
    var p := Popped([x, y], m);
    assert p[0] == if 0 in m then x[1..] else x;
    assert p[1] == if 1 in m then y[1..] else y;
  }

  lemma TwoTopicRound<T>(x: seq<Stamped<T>>, y: seq<Stamped<T>>, threshold: nat)
    requires |x| > 0 && |y| > 0
    ensures Emissions(Rounds([x, y], threshold), 2) ==
            if Close(x[0], y[0], threshold) then
              Fired([(0, x[0]), (1, y[0])], 2) + Emissions(Rounds([x[1..], y[1..]], threshold), 2)
            else if x[0].ts < y[0].ts then Emissions(Rounds([x[1..], y], threshold), 2)
            else Emissions(Rounds([x, y[1..]], threshold), 2)
  {
    TwoTopicPop(x, y, threshold);
    LoopStep([x, y], threshold, 2);
  }

  /** The callbacks e carry exactly the messages at the position pairs g. */
  ghost predicate Carries<T>(e: seq<Emission<T>>, x: seq<Stamped<T>>, y: seq<Stamped<T>>, g: seq<(nat, nat)>) {
    && |e| == |g|
    && forall k | 0 <= k < |g| :: g[k].0 < |x| && g[k].1 < |y| && e[k].picks == [(0, x[g[k].0]), (1, y[g[k].1])]
  }

  lemma CarriesCons<T>(e: seq<Emission<T>>, x: seq<Stamped<T>>, y: seq<Stamped<T>>, g: seq<(nat, nat)>, a: nat, b: nat)
    requires Carries(e, x, y, g) && a < |x| && b < |y|
    ensures Carries(Fired([(0, x[a]), (1, y[b])], 2) + e, x, y, [(a, b)] + g)
  {
  }

  /** The callbacks for two topics are, one for one, the greedy pairs. */
  lemma {:induction false} LoopIsGreedy<T>(x: seq<Stamped<T>>, y: seq<Stamped<T>>, threshold: nat, a: nat, b: nat)
    requires a <= |x| && b <= |y|
    ensures Carries(Emissions(Rounds([x[a..], y[b..]], threshold), 2), x, y, Greedy(x, y, threshold, a, b))
    decreases |x| - a + |y| - b
  {
    if a < |x| && b < |y| {
      TwoTopicRound(x[a..], y[b..], threshold);
      assert x[a..][1..] == x[a + 1..] && y[b..][1..] == y[b + 1..];
      if Close(x[a], y[b], threshold) {
        LoopIsGreedy(x, y, threshold, a + 1, b + 1);
        CarriesCons(Emissions(Rounds([x[a + 1..], y[b + 1..]], threshold), 2), x, y,
                    Greedy(x, y, threshold, a + 1, b + 1), a, b);
      } else if x[a].ts < y[b].ts {
        LoopIsGreedy(x, y, threshold, a + 1, b);
      } else {
        LoopIsGreedy(x, y, threshold, a, b + 1);
      }
    } else {
      var q := [x[a..], y[b..]];
      assert |q[if a == |x| then 0 else 1]| == 0;
      assert !Ready(q);
    }
  }

  /** The greedy pairs are a largest pairing. */
  lemma GreedyOptimal<T>(x: seq<Stamped<T>>, y: seq<Stamped<T>>, threshold: nat)
    requires Sorted(x) && Sorted(y)
    ensures exists m :: Pairing(x, y, threshold, m) && |m| == |Greedy(x, y, threshold, 0, 0)|
    ensures forall m :: Pairing(x, y, threshold, m) ==> |m| <= |Greedy(x, y, threshold, 0, 0)|
  {
    var best := GreedyIsPairing(x, y, threshold, 0, 0);
    forall m | Pairing(x, y, threshold, m)
      ensures |m| <= |Greedy(x, y, threshold, 0, 0)|
    {
      AtMostGreedy(x, y, threshold, 0, 0, m);
    }
  }

  lemma CallbacksAreGreedy<T>(capacity: nat, threshold: nat, run: seq<Arrival<T>>)
    requires capacity >= 1
    requires forall k | 0 <= k < |run| :: run[k].topic < 2
    requires NoEviction(Quiet<T>(2), threshold, capacity, run)
    ensures |Callbacks(2, threshold, capacity, 2, run)| == |Greedy(Stream(run, 0), Stream(run, 1), threshold, 0, 0)|
  {
    CallbacksOfStreams(2, threshold, capacity, 2, run);
    var x, y := Stream(run, 0), Stream(run, 1);
    assert Streams(run, 2) == [x[0..], y[0..]];
    LoopIsGreedy(x, y, threshold, 0, 0);
  }

  /** Optimality: once the loop is quiet, the number of callbacks for two time-ordered topics is
      the greatest size of any one-to-one pairing of the messages received so far. */
  lemma TwoTopicOptimal<T>(capacity: nat, threshold: nat, run: seq<Arrival<T>>)
    requires capacity >= 1
    requires forall k | 0 <= k < |run| :: run[k].topic < 2
    requires NoEviction(Quiet<T>(2), threshold, capacity, run)
    requires Sorted(Stream(run, 0)) && Sorted(Stream(run, 1))
    ensures var emitted := |Callbacks(2, threshold, capacity, 2, run)|;
            && (exists m :: Pairing(Stream(run, 0), Stream(run, 1), threshold, m) && |m| == emitted)
            && (forall m :: Pairing(Stream(run, 0), Stream(run, 1), threshold, m) ==> |m| <= emitted)
  {
    CallbacksAreGreedy(capacity, threshold, run);
    GreedyOptimal(Stream(run, 0), Stream(run, 1), threshold);
  }
}
