/** The bounded message queue of one topic, with its cached timestamps. */
module MessageBuffers {
  import opened StreamRounds
  import opened StreamArrivals

  function Bodies<T>(s: seq<Stamped<T>>): (r: seq<T>)
    ensures |r| == |s| && forall i | 0 <= i < |s| :: r[i] == s[i].body
  {
    seq(|s|, i requires 0 <= i < |s| => s[i].body)
  }

  /** The messages stamped from start to end, in queue order. */
  function Between<T>(s: seq<Stamped<T>>, start: int, end: int): seq<Stamped<T>> {
    if s == [] then []
    else
      var r := Between(s[..|s| - 1], start, end);
      if start <= s[|s| - 1].ts <= end then r + [s[|s| - 1]] else r
  }

  /** The messages stamped after t, in queue order. */
  function After<T>(s: seq<Stamped<T>>, t: int): (r: seq<Stamped<T>>)
    ensures (forall m | m in r :: m in s && m.ts > t) && (forall m | m in s && m.ts > t :: m in r)
    ensures |r| <= |s|
  {
    if s == [] then []
    else
      var r := After(s[..|s| - 1], t);
      assert s == s[..|s| - 1] + [s[|s| - 1]];
      if s[|s| - 1].ts > t then r + [s[|s| - 1]] else r
  }

  /** Selecting goes message by message, and keeps the order. */
  lemma {:induction false} BetweenOfSum<T>(s: seq<Stamped<T>>, t: seq<Stamped<T>>, start: int, end: int)
    ensures Between(s + t, start, end) == Between(s, start, end) + Between(t, start, end)
  {
    if t == [] {
      assert s + t == s;
    } else {
      var front, m := t[..|t| - 1], t[|t| - 1];
      BetweenOfSum(s, front, start, end);
      assert (s + t)[..|s + t| - 1] == s + front && (s + t)[|s + t| - 1] == m;
    }
  }

  lemma {:induction false} AfterOfSum<T>(s: seq<Stamped<T>>, t: seq<Stamped<T>>, end: int)
    ensures After(s + t, end) == After(s, end) + After(t, end)
  {
    if t == [] {
      assert s + t == s;
    } else {
      var front, m := t[..|t| - 1], t[|t| - 1];
      AfterOfSum(s, front, end);
      assert (s + t)[..|s + t| - 1] == s + front && (s + t)[|s + t| - 1] == m;
    }
  }

  lemma BetweenOfOne<T>(m: Stamped<T>, start: int, end: int)
    ensures Between([m], start, end) == if start <= m.ts && m.ts <= end then [m] else []
    ensures After([m], end) == if end < m.ts then [m] else []
  {
    var none: seq<Stamped<T>> := [];
    assert [m][..0] == none;
    assert none + [m] == [m];
  }

  lemma {:induction false} BetweenAll<T>(s: seq<Stamped<T>>, start: int, end: int)
    ensures multiset(Between(s, start, end)) <= multiset(s)
    ensures |Between(s, start, end)| + |After(s, end)| <= |s|
    ensures |Between(s, start, end)| + |After(s, end)| == |s| <==> forall m | m in s :: m.ts <= end ==> start <= m.ts
  {
    if s != [] {
      assert s == s[..|s| - 1] + [s[|s| - 1]];
      BetweenAll(s[..|s| - 1], start, end);
    }
  }

  lemma {:induction false} AfterFront<T>(s: seq<Stamped<T>>, t: int)
    requires |s| > 0 && s[0].ts > t
    ensures |After(s, t)| > 0 && After(s, t)[0] == s[0]
  {
    if |s| > 1 {
      AfterFront(s[..|s| - 1], t);
    } else {
      assert s[..0] == [];
    }
  }

  class MessageBuffer<T> {
    const maxSize: int
    var lastStamp: int
    var currentStamp: int
    var nextStamp: int
    var buffer: seq<Stamped<T>>

    /** The cached stamp of the next message is the stamp of the front message. */
    ghost predicate CacheFresh()
      reads this
    {
      |buffer| > 0 ==> nextStamp == buffer[0].ts
    }

    ghost predicate Valid()
      reads this
    {
      maxSize >= 1 && |buffer| <= maxSize && CacheFresh()
    }

    constructor (maxSize: int)
      requires maxSize >= 1
      ensures Valid() && buffer == [] && this.maxSize == maxSize
      ensures lastStamp == currentStamp == nextStamp == -1
    {
      this.maxSize := maxSize;
      lastStamp, currentStamp, nextStamp := -1, -1, -1;
      buffer := [];
    }

    method Push(stamp: int, msg: T)
      requires Valid()
      modifies this
      ensures Valid()
      ensures buffer == Pushed(old(buffer), maxSize, Stamped(stamp, msg))
      ensures buffer == Latest(old(buffer) + [Stamped(stamp, msg)], maxSize)
      ensures currentStamp == stamp && lastStamp == old(lastStamp)
    {
      if |buffer| >= maxSize {
        buffer := buffer[1..];
      }
      buffer := buffer + [Stamped(stamp, msg)];
      currentStamp := stamp;
      nextStamp := buffer[0].ts;
    }

    method Pop() returns (msg: T)
      requires Valid() && |buffer| > 0
      modifies this
      ensures Valid()
      ensures [Stamped(lastStamp, msg)] + buffer == old(buffer)
      ensures currentStamp == old(currentStamp)
      ensures buffer == [] ==> nextStamp == -1
    {
      var result := buffer[0];
      buffer := buffer[1..];
      lastStamp := result.ts;
      nextStamp := if buffer == [] then -1 else buffer[0].ts;
      msg := result.body;
    }

    method Peek() returns (msg: T)
      requires |buffer| > 0
      ensures msg == buffer[0].body
    {
      msg := buffer[0].body;
    }

    method ClearAll()
      requires Valid()
      modifies this`buffer
      ensures Valid() && buffer == []
    {
      buffer := [];
    }

    /** Removing old messages does not refresh the cache: it stays right exactly when the front
        message survives or nothing does. */
    method ClearUpto(stamp: int)
      requires Valid()
      modifies this`buffer
      ensures buffer == After(old(buffer), stamp)
      ensures CacheFresh() <==> buffer == [] || old(buffer)[0].ts > stamp
    {
      var kept: seq<Stamped<T>> := [];
      ghost var was := buffer;
      for i := 0 to |buffer|
        invariant buffer == was && nextStamp == old(nextStamp)
        invariant kept == After(buffer[..i], stamp)
      {
        assert buffer[..i + 1][..i] == buffer[..i];
        if buffer[i].ts > stamp {
          kept := kept + [buffer[i]];
        }
      }
      assert buffer[..|buffer|] == buffer;
      buffer := kept;
      if |was| > 0 && was[0].ts > stamp {
        AfterFront(was, stamp);
      } else if |kept| > 0 {
        assert kept[0] in kept;
      }
    }

    method GetUpto(start: int, end: int) returns (result: seq<T>)
      ensures result == Bodies(Between(buffer, start, end))
    {
      result := [];
      for i := 0 to |buffer|
        invariant result == Bodies(Between(buffer[..i], start, end))
      {
        assert buffer[..i + 1][..i] == buffer[..i];
        if start <= buffer[i].ts <= end {
          result := result + [buffer[i].body];
        }
      }
      assert buffer[..|buffer|] == buffer;
    }

    /** Meant to hand back what it removes; it does so exactly when nothing it removes is stamped
        before -1, because the collecting pass starts at -1 and the removing pass does not. */
    method ClearAndGetUpto(stamp: int) returns (values: seq<T>)
      requires Valid()
      modifies this`buffer
      ensures values == Bodies(Between(old(buffer), -1, stamp)) && buffer == After(old(buffer), stamp)
      ensures |values| + |buffer| == |old(buffer)| <==> forall m | m in old(buffer) :: m.ts <= stamp ==> -1 <= m.ts
    {
      values := GetUpto(-1, stamp);
      BetweenAll(buffer, -1, stamp);
      ClearUpto(stamp);
    }

    method GetAll() returns (result: seq<T>)
      ensures result == Bodies(buffer)
    {
      result := [];
      for i := 0 to |buffer|
        invariant result == Bodies(buffer[..i])
      {
        result := result + [buffer[i].body];
      }
      assert buffer[..|buffer|] == buffer;
    }
  }
}
