/** Sequence vocabulary shared by the models. */
module Sequences {

  datatype Option<+T> = None | Some(value: T)

  /** Concatenation of a sequence of sequences. */
  function Flatten<T>(ss: seq<seq<T>>): seq<T> {
    if ss == [] then [] else ss[0] + Flatten(ss[1..])
  }

  lemma Associate<T>(a: seq<T>, b: seq<T>, c: seq<T>)
    ensures (a + b) + c == a + (b + c)
  {
  }

  lemma AppendSnoc<T>(a: seq<T>, b: seq<T>)
    requires b != []
    ensures a + b == (a + b[..|b| - 1]) + [b[|b| - 1]]
  {
  }

  lemma TailOfSnoc<T>(s: seq<T>, x: T)
    requires s != []
    ensures (s + [x])[0] == s[0] && (s + [x])[1..] == s[1..] + [x]
  {
  }

  lemma TakeSnoc<T>(s: seq<T>, k: nat)
    requires k < |s|
    ensures s[..k + 1] == s[..k] + [s[k]]
  {
  }

  lemma SplitAt<T>(a: seq<T>, s: seq<T>, k: nat)
    requires k <= |s|
    ensures (a + s[..k]) + s[k..] == a + s
  {
  }

  lemma SliceOfSlice<T>(s: seq<T>, lo: nat, hi: nat, a: nat, b: nat)
    requires lo <= hi <= |s| && a <= b <= hi - lo
    ensures s[lo..hi][a..b] == s[lo + a..lo + b]
  {
    var t := s[lo..hi];
    forall k | 0 <= k < b - a
      ensures t[a..b][k] == s[lo + a..lo + b][k]
    {
      assert t[a..b][k] == t[a + k] == s[lo + (a + k)];
    }
  }

  /** `sub` is obtained from `full` by deleting elements and keeping the order. */
  ghost predicate Subsequence<T>(sub: seq<T>, full: seq<T>) {
    if sub == [] then true
    else if full == [] then false
    else (sub[0] == full[0] && Subsequence(sub[1..], full[1..])) || Subsequence(sub, full[1..])
  }

  /** Deleting one more element keeps a subsequence one. */
  lemma {:induction false} SubsequenceWeaken<T>(sub: seq<T>, full: seq<T>, x: T)
    requires Subsequence(sub, full)
    ensures Subsequence(sub, full + [x])
  {
    if sub != [] {
      assert (full + [x])[1..] == full[1..] + [x];
      if sub[0] == full[0] && Subsequence(sub[1..], full[1..]) {
        SubsequenceWeaken(sub[1..], full[1..], x);
      } else {
        SubsequenceWeaken(sub, full[1..], x);
      }
    }
  }

  lemma {:induction false} SubsequenceSnoc<T>(sub: seq<T>, full: seq<T>, x: T)
    requires Subsequence(sub, full)
    ensures Subsequence(sub + [x], full + [x])
    decreases |full|
  {
    if full == [] {
      assert sub + [x] == [x] && full + [x] == [x];
    } else {
      assert (full + [x])[1..] == full[1..] + [x];
      if sub != [] && sub[0] == full[0] && Subsequence(sub[1..], full[1..]) {
        SubsequenceSnoc(sub[1..], full[1..], x);
        assert (sub + [x])[1..] == sub[1..] + [x];
      } else {
        SubsequenceSnoc(sub, full[1..], x);
      }
    }
  }
}
