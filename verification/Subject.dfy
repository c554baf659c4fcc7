/** `katla::Subject<void>`: an observer list that is notified from a snapshot. */
module Subject {
  import opened Sequences

  /** Erasing the first occurrence of `x`. */
  function Without<T(==)>(xs: seq<T>, x: T): seq<T> {
    if xs == [] then [] else if xs[0] == x then xs[1..] else [xs[0]] + Without(xs[1..], x)
  }

  lemma {:induction false} WithoutCounts<T>(xs: seq<T>, x: T)
    ensures multiset(Without(xs, x)) == multiset(xs) - multiset{x}
  {
    if xs != [] {
      assert xs == [xs[0]] + xs[1..];
      if xs[0] != x {
        WithoutCounts(xs[1..], x);
      }
    }
  }

  lemma {:induction false} WithoutSkips<T>(front: seq<T>, rest: seq<T>, x: T)
    requires forall i :: 0 <= i < |front| ==> front[i] != x
    ensures Without(front + rest, x) == front + Without(rest, x)
  {
    if front == [] {
      assert front + rest == rest;
    } else {
      WithoutSkips(front[1..], rest, x);
      assert (front + rest)[1..] == front[1..] + rest;
      Associate([front[0]], front[1..], Without(rest, x));
    }
  }

  /** The first occurrence is erased, or nothing when there is none. */
  lemma WithoutAt<T>(xs: seq<T>, x: T, k: nat)
    requires k <= |xs| && (forall i :: 0 <= i < k ==> xs[i] != x) && (k == |xs| || xs[k] == x)
    ensures Without(xs, x) == if k == |xs| then xs else xs[..k] + xs[k + 1..]
  {
    WithoutSkips(xs[..k], xs[k..], x);
    assert xs == xs[..k] + xs[k..];
  }

  /** How often x is subscribed. */
  function CountOf<T(==)>(xs: seq<T>, x: T): nat {
    if xs == [] then 0 else (if xs[0] == x then 1 else 0) + CountOf(xs[1..], x)
  }

  lemma {:induction false} CountedIffIn<T>(xs: seq<T>, x: T)
    ensures x in xs <==> CountOf(xs, x) > 0
  {
    if xs != [] {
      CountedIffIn(xs[1..], x);
      assert xs == [xs[0]] + xs[1..];
    }
  }

  lemma {:induction false} CountAfterAppend<T>(xs: seq<T>, x: T, y: T)
    ensures CountOf(xs + [x], y) == CountOf(xs, y) + if x == y then 1 else 0
  {
    if xs == [] {
      assert xs + [x] == [x];
    } else {
      CountAfterAppend(xs[1..], x, y);
      TailOfSnoc(xs, x);
    }
  }

  lemma {:induction false} CountAfterErase<T>(xs: seq<T>, x: T, y: T)
    requires x in xs
    ensures CountOf(Without(xs, x), y) == CountOf(xs, y) - if x == y then 1 else 0
  {
    if xs[0] != x {
      assert xs == [xs[0]] + xs[1..];
      CountAfterErase(xs[1..], x, y);
    }
  }

  /** Taking back one subscription of each of ys, in their order. */
  function WithoutAll<T(==)>(xs: seq<T>, ys: seq<T>): seq<T> {
    if ys == [] then xs else Without(WithoutAll(xs, ys[..|ys| - 1]), ys[|ys| - 1])
  }

  function At<T>(ss: seq<seq<T>>, i: nat): seq<T> { if i < |ss| then ss[i] else [] }

  /** The observers after the first n notified ones have unsubscribed and subscribed others. */
  function AfterRound<T(==)>(xs: seq<T>, leave: seq<seq<T>>, join: seq<seq<T>>, n: nat): seq<T> {
    if n == 0 then xs else WithoutAll(AfterRound(xs, leave, join, n - 1), At(leave, n - 1)) + At(join, n - 1)
  }

  class Subject<T(==)> {
    var observers: seq<T>

    constructor ()
      ensures observers == []
    {
      observers := [];
    }

    method Subscribe(observer: T)
      modifies this
      ensures observers == old(observers) + [observer]
    {
      observers := observers + [observer];
    }

    /** One call takes back one subscription. */
    method Unsubscribe(observer: T)
      modifies this
      ensures observers == Without(old(observers), observer)
      ensures multiset(observers) == multiset(old(observers)) - multiset{observer}
    {
      var it := 0;
      while it < |observers| && observers[it] != observer
        invariant it <= |observers| && observers == old(observers)
        invariant forall i :: 0 <= i < it ==> observers[i] != observer
      {
        it := it + 1;
      }
      WithoutAt(observers, observer, it);
      WithoutCounts(observers, observer);
      if it != |observers| {
        observers := observers[..it] + observers[it + 1..];
      }
    }

    method Clear()
      modifies this
      ensures observers == []
    {
      observers := [];
    }

    /** `next` notifies the observers subscribed when it was called. `leave[i]` and `join[i]` are the observers
        that the i-th notified observer unsubscribes and subscribes; who leaves is still notified in this
        round, and who joins is not. */
    method Next(leave: seq<seq<T>>, join: seq<seq<T>>) returns (notified: seq<T>)
      modifies this
      ensures notified == old(observers)
      ensures observers == AfterRound(old(observers), leave, join, |old(observers)|)
    {
      var snapshot := observers;
      notified := [];
      for i := 0 to |snapshot|
        invariant notified == snapshot[..i]
        invariant observers == AfterRound(snapshot, leave, join, i)
      {
        notified := notified + [snapshot[i]];
        Change(At(leave, i), At(join, i));
      }
    }

    /** What one notified observer does to the list. */
    method Change(leave: seq<T>, join: seq<T>)
      modifies this
      ensures observers == WithoutAll(old(observers), leave) + join
    {
      for j := 0 to |leave|
        invariant observers == WithoutAll(old(observers), leave[..j])
      {
        assert leave[..j + 1][..j] == leave[..j];
        Unsubscribe(leave[j]);
      }
      assert leave[..|leave|] == leave;
      ghost var left := observers;
      for j := 0 to |join|
        invariant observers == left + join[..j]
      {
        Subscribe(join[j]);
      }
    }
  }
}
