/** The synchronizer as it runs: one bounded buffer per topic, popped in place by the loop.  Its
    methods are proved against the functions of StreamRounds. */
module StreamSynchronizers {
  import opened StreamRounds
  import opened StreamArrivals
  import opened MessageBuffers

  /** The indices of all values that are within threshold of the smallest one. */
  method IndicesBeforeThreshold(values: seq<int>, threshold: nat) returns (indices: seq<nat>)
    ensures indices == BeforeThreshold(values, threshold)
  {
    if values == [] {
      return [];
    }
    var least := values[0];
    for i := 1 to |values|
      invariant least in values && forall j | 0 <= j < i :: least <= values[j]
    {
      if values[i] < least {
        least := values[i];
      }
    }
    MinIsLeast(values);
    assert least == Min(values);
    indices := [];
    for i := 0 to |values|
      invariant indices == IndicesUpTo(values, least + threshold, i)
    {
      if values[i] <= least + threshold {
        indices := indices + [i];
      }
    }
  }

  /** From the queues `all`, the loop has fired `calls` and left `b`. */
  ghost predicate Reached<T>(all: seq<seq<Stamped<T>>>, threshold: nat, minMessages: nat,
                             calls: seq<Emission<T>>, b: seq<seq<Stamped<T>>>)
  {
    && calls + Emissions(Rounds(b, threshold), minMessages) == Emissions(Rounds(all, threshold), minMessages)
    && Rest(b, threshold) == Rest(all, threshold)
  }

  lemma ReachedStep<T>(all: seq<seq<Stamped<T>>>, threshold: nat, minMessages: nat,
                       calls: seq<Emission<T>>, b: seq<seq<Stamped<T>>>)
    requires Ready(b) && Reached(all, threshold, minMessages, calls, b)
    ensures var m := Matched(b, threshold);
            && Total(Popped(b, m)) < Total(b)
            && Reached(all, threshold, minMessages, calls + Fired(Picks(b, m), minMessages), Popped(b, m))
  {
    LoopStep(b, threshold, minMessages);
    var m := Matched(b, threshold);
    var fired, later := Fired(Picks(b, m), minMessages), Emissions(Rounds(Popped(b, m), threshold), minMessages);
    assert (calls + fired) + later == calls + (fired + later);
  }

  lemma MaxStampOfNone<T>()
    ensures MaxStamp<T>([]) == -1
  {
  }

  lemma MaxStampStep<T>(r: Round<T>, k: nat)
    requires k < |r|
    ensures MaxStamp(r[..k + 1]) == if MaxStamp(r[..k]) < r[k].1.ts then r[k].1.ts else MaxStamp(r[..k])
  {
    assert r[..k + 1][..k] == r[..k];
  }

  lemma ReachedStart<T>(all: seq<seq<Stamped<T>>>, threshold: nat, minMessages: nat)
    ensures Reached(all, threshold, minMessages, [], all)
  {
    assert [] + Emissions(Rounds(all, threshold), minMessages) == Emissions(Rounds(all, threshold), minMessages);
  }

  lemma ReachedEnd<T>(all: seq<seq<Stamped<T>>>, threshold: nat, minMessages: nat, calls: seq<Emission<T>>,
                      b: seq<seq<Stamped<T>>>)
    requires Reached(all, threshold, minMessages, calls, b) && !Ready(b)
    ensures calls == Emissions(Rounds(all, threshold), minMessages) && b == Rest(all, threshold)
  {
    assert calls + [] == calls;
  }

  class MessageStreamSynchronizer<T> {
    const threshold: nat
    const minMessages: nat
    const capacity: int
    const buffers: seq<MessageBuffer<T>>

    ghost predicate Valid()
      reads this, buffers
    {
      && capacity >= 1
      && (forall i | 0 <= i < |buffers| :: buffers[i].Valid() && buffers[i].maxSize == capacity)
      && (forall i, j | 0 <= i < j < |buffers| :: buffers[i] != buffers[j])
    }

    function Queues(): (b: seq<seq<Stamped<T>>>)
      reads this, buffers
      ensures |b| == |buffers| && forall i | 0 <= i < |buffers| :: b[i] == buffers[i].buffer
    {
      seq(|buffers|, i requires 0 <= i < |buffers| reads this, buffers => buffers[i].buffer)
    }

    constructor (topics: nat, threshold: nat, minMessages: nat, capacity: int)
      requires capacity >= 1
      ensures Valid() && fresh(buffers)
      ensures Queues() == Quiet<T>(topics)
      ensures this.threshold == threshold && this.minMessages == minMessages && this.capacity == capacity
    {
      var made: seq<MessageBuffer<T>> := [];
      for n := 0 to topics
        invariant |made| == n
        invariant forall i | 0 <= i < n ::
                    fresh(made[i]) && made[i].Valid() && made[i].maxSize == capacity && made[i].buffer == []
        invariant forall i, j | 0 <= i < j < n :: made[i] != made[j]
      {
        var one := new MessageBuffer<T>(capacity);
        made := made + [one];
      }
      this.threshold := threshold;
      this.minMessages := minMessages;
      this.capacity := capacity;
      buffers := made;
      new;
      assert forall i | 0 <= i < topics :: Queues()[i] == [];
    }

    /** The stamps of the front messages, or nothing as soon as one topic has none. */
    method PeekMessageTimestamps() returns (stamps: seq<int>)
      requires Valid()
      ensures stamps == if Ready(Queues()) then Fronts(Queues()) else []
    {
      stamps := [];
      for i := 0 to |buffers|
        invariant |stamps| == i
        invariant forall j | 0 <= j < i :: |buffers[j].buffer| > 0 && stamps[j] == buffers[j].buffer[0].ts
      {
        if |buffers[i].buffer| == 0 {
          assert |Queues()[i]| == 0;
          return [];
        }
        stamps := stamps + [buffers[i].nextStamp];
      }
    }

    /** The callback invocation for the front messages of the given topics. */
    method TriggerCallbackWithMessages(indices: seq<nat>) returns (call: Emission<T>)
      requires Valid() && Ready(Queues())
      requires forall k | 0 <= k < |indices| :: indices[k] < |buffers|
      ensures call == Emission(MaxStamp(Picks(Queues(), indices)), Picks(Queues(), indices))
    {
      hide MaxStamp;
      var latest := -1;
      var picks: Round<T> := [];
      MaxStampOfNone<T>();
      ghost var all := Picks(Queues(), indices);
      for k := 0 to |indices|
        invariant picks == all[..k]
        invariant latest == MaxStamp(all[..k])
      {
        assert |Queues()[indices[k]]| > 0;
        var stamp := buffers[indices[k]].nextStamp;
        var msg := buffers[indices[k]].Peek();
        latest := if latest < stamp then stamp else latest;
        picks := picks + [(indices[k], Stamped(stamp, msg))];
        MaxStampStep(all, k);
        assert all[..k + 1] == all[..k] + [all[k]];
      }
      assert all[..|indices|] == all;
      call := Emission(latest, picks);
    }

    /** One removal per matched topic. */
    method PopMatched(indices: seq<nat>)
      requires Valid() && Ready(Queues()) && Increasing(indices)
      requires forall k | 0 <= k < |indices| :: indices[k] < |buffers|
      modifies buffers
      ensures Valid()
      ensures Queues() == Popped(old(Queues()), indices)
    {
      for k := 0 to |indices|
        invariant Valid()
        invariant forall i: nat | i < |buffers| ::
            buffers[i].buffer == if i in indices[..k] then old(buffers[i].buffer)[1..] else old(buffers[i].buffer)
      {
        var i := indices[k];
        assert |old(Queues())[i]| > 0;
        assert i !in indices[..k];
        var dropped := buffers[i].Pop();
        assert indices[..k + 1] == indices[..k] + [i];
      }
      assert indices[..|indices|] == indices;
    }

    /** One loop iteration on given front stamps: match, fire the callback if enough topics match,
        remove one message from every matched topic. */
    method RunRound(stamps: seq<int>) returns (fired: seq<Emission<T>>)
      requires Valid() && Ready(Queues()) && stamps == Fronts(Queues())
      modifies buffers
      ensures Valid()
      ensures fired == Fired(Picks(old(Queues()), Matched(old(Queues()), threshold)), minMessages)
      ensures Queues() == Popped(old(Queues()), Matched(old(Queues()), threshold))
    {
      var indices := IndicesBeforeThreshold(stamps, threshold);
      fired := [];
      if |indices| >= minMessages {
        var call := TriggerCallbackWithMessages(indices);
        fired := [call];
      }
      PopMatched(indices);
    }

    /** Runs rounds until some topic has no message; returns the callbacks fired. */
    method PopBuffersAndTriggerCallback() returns (calls: seq<Emission<T>>)
      requires Valid()
      modifies buffers
      ensures Valid()
      ensures calls == Emissions(Rounds(old(Queues()), threshold), minMessages)
      ensures Queues() == Rest(old(Queues()), threshold)
    {
      hide Reached, Rounds, Emissions, Rest, Picks, Popped, Fired;
      calls := [];
      ghost var all := Queues();
      ReachedStart(all, threshold, minMessages);
      while true
        invariant Valid()
        invariant Reached(all, threshold, minMessages, calls, Queues())
        decreases Total(Queues())
      {
        var stamps := PeekMessageTimestamps();
        if stamps == [] {
          ReachedEnd(all, threshold, minMessages, calls, Queues());
          return;
        }
        ReachedStep(all, threshold, minMessages, calls, Queues());
        var fired := RunRound(stamps);
        calls := calls + fired;
      }
    }

    method AddMessage(topic: nat, stamp: int, msg: T, trigger: bool) returns (calls: seq<Emission<T>>)
      requires Valid() && topic < |buffers|
      modifies buffers
      ensures Valid()
      ensures var run := [Arrival(topic, Stamped(stamp, msg), trigger)];
              var (taken, left) := Feed(old(Queues()), threshold, capacity, run);
              calls == Emissions(taken, minMessages) && Queues() == left
      ensures var c := old(Queues())[topic := Latest(old(Queues())[topic] + [Stamped(stamp, msg)], capacity)];
              if trigger then calls == Emissions(Rounds(c, threshold), minMessages) && Queues() == Rest(c, threshold)
              else calls == [] && Queues() == c
    {
      hide Rounds, Rest, Emissions, Feed, Pushed, Latest;
      NoEmissions<T>(minMessages);
      ghost var b := Queues();
      ghost var c := b[topic := Pushed(b[topic], capacity, Stamped(stamp, msg))];
      buffers[topic].Push(stamp, msg);
      assert Queues() == c;
      calls := [];
      if trigger {
        calls := PopBuffersAndTriggerCallback();
      }
      FeedOne(b, threshold, capacity, Arrival(topic, Stamped(stamp, msg), trigger));
    }

    method ClearBuffers()
      requires Valid()
      modifies buffers
      ensures Valid() && Queues() == Quiet<T>(|buffers|)
    {
      for i := 0 to |buffers|
        invariant Valid()
        invariant forall j | 0 <= j < i :: buffers[j].buffer == []
      {
        buffers[i].ClearAll();
      }
    }
  }

  lemma NoEmissions<T>(minMessages: nat)
    ensures Emissions<T>([], minMessages) == []
  {
  }

  lemma FeedOne<T>(b: seq<seq<Stamped<T>>>, threshold: nat, capacity: nat, a: Arrival<T>)
    requires capacity >= 1 && a.topic < |b|
    ensures var c := b[a.topic := Pushed(b[a.topic], capacity, a.msg)];
            Feed(b, threshold, capacity, [a]) ==
            if a.trigger then (Rounds(c, threshold), Rest(c, threshold)) else ([], c)
  {
    var run := [a];
    var c := b[a.topic := Pushed(b[a.topic], capacity, a.msg)];
    var d := if a.trigger then Rest(c, threshold) else c;
    assert run[1..] == [];
    assert Feed(d, threshold, capacity, run[1..]) == ([], d);
    assert Rounds(c, threshold) + [] == Rounds(c, threshold);
    var none: seq<Round<T>> := [];
    assert none + none == none;
  }
}
