/** Vocabulary shared by the models: optional values, results, and a few facts about sequences. */
module Common {

  datatype Option<+T> = None | Some(value: T)

  /** A return value, or the exception the source raises instead. */
  datatype Result<+T, +E> = Ok(value: T) | Raised(error: E)

  /** `a` can be obtained from `b` by deleting elements. */
  predicate Subsequence<T(==)>(a: seq<T>, b: seq<T>)
  {
    if a == [] then true
    else if b == [] then false
    else if a[0] == b[0] then Subsequence(a[1..], b[1..])
    else Subsequence(a, b[1..])
  }

  lemma {:induction false} SubsequenceEmpty<T>(b: seq<T>)
    ensures Subsequence([], b)
  {
  }

  /** Greedy matching never loses: dropping the head of a subsequence keeps it one. */
  lemma {:induction false} SubsequenceTail<T>(a: seq<T>, b: seq<T>)
    requires a != [] && Subsequence(a, b)
    ensures b != [] && Subsequence(a[1..], b) && Subsequence(a[1..], b[1..])
    decreases |b|
  {
    if a[0] == b[0] {
      if a[1..] != [] { SubsequenceTail(a[1..], b[1..]); }
    } else {
      SubsequenceTail(a, b[1..]);
      if a[1..] != [] && a[1] == b[0] {
        SubsequenceTail(a[1..], b[1..]);
      }
    }
  }

  lemma {:induction false} SubsequenceSkip<T>(a: seq<T>, x: T, b: seq<T>)
    requires Subsequence(a, b)
    ensures Subsequence(a, [x] + b)
  {
    assert ([x] + b)[1..] == b;
    if a != [] && a[0] == x { SubsequenceTail(a, b); }
  }

  lemma {:induction false} SubsequenceAppend<T>(a: seq<T>, b: seq<T>, c: seq<T>, d: seq<T>)
    requires Subsequence(a, b) && Subsequence(c, d)
    ensures Subsequence(a + c, b + d)
    decreases |b|
  {
    if b == [] {
      assert a + c == c && b + d == d;
    } else {
      assert (b + d)[1..] == b[1..] + d;
      assert b + d == [b[0]] + (b[1..] + d);
      if a == [] {
        assert a + c == c;
        SubsequenceEmpty(b[1..]);
        SubsequenceAppend(a, b[1..], c, d);
        SubsequenceSkip(a + c, b[0], b[1..] + d);
      } else if a[0] == b[0] {
        assert (a + c)[1..] == a[1..] + c;
        SubsequenceAppend(a[1..], b[1..], c, d);
      } else {
        SubsequenceAppend(a, b[1..], c, d);
        SubsequenceSkip(a + c, b[0], b[1..] + d);
      }
    }
  }

  /** `picked` lists, in order, the kept elements and no others: one strictly increasing position for each. */
  ghost predicate Picks<T>(all: seq<T>, keep: T -> bool, picked: seq<T>, at: seq<int>)
  {
    && |at| == |picked|
    && (forall i | 0 <= i < |at| :: 0 <= at[i] < |all| && all[at[i]] == picked[i] && keep(picked[i]))
    && (forall i, j | 0 <= i < j < |at| :: at[i] < at[j])
    && (forall n | 0 <= n < |all| && keep(all[n]) :: n in at)
  }

  lemma PicksOne<T>(init: seq<T>, a: T, keep: T -> bool, picked: seq<T>, at: seq<int>)
    requires Picks(init, keep, picked, at) && keep(a)
    ensures Picks(init + [a], keep, picked + [a], at + [|init|])
  {
    var all, n := init + [a], |init|;
    assert forall i | 0 <= i < n :: all[i] == init[i];
    forall m | 0 <= m <= n && keep(all[m]) ensures m in at + [n] {
      if m < n { assert m in at; } else { assert (at + [n])[|at|] == n; }
    }
  }

  lemma PicksNone<T>(init: seq<T>, a: T, keep: T -> bool, picked: seq<T>, at: seq<int>)
    requires Picks(init, keep, picked, at) && !keep(a)
    ensures Picks(init + [a], keep, picked, at)
  {
    var all, n := init + [a], |init|;
    assert forall i | 0 <= i < n :: all[i] == init[i];
  }

  lemma PicksNext<T>(all: seq<T>, keep: T -> bool, before: seq<T>, picked: seq<T>, at: seq<int>) returns (next: seq<int>)
    requires all != [] && Picks(all[..|all| - 1], keep, before, at)
    requires picked == if keep(all[|all| - 1]) then before + [all[|all| - 1]] else before
    ensures Picks(all, keep, picked, next)
  {
    var n := |all| - 1;
    hide Picks;
    assert all == all[..n] + [all[n]];
    if keep(all[n]) {
      next := at + [n];
      PicksOne(all[..n], all[n], keep, before, at);
    } else {
      next := at;
      PicksNone(all[..n], all[n], keep, before, at);
    }
  }
}
