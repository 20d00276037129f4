/**
 The shape of a revision graph. Each revision names at most one predecessor; counting roots and heads and
 walking every revision back is enough to know that the revisions form one line.
 */
module Chains {
  import opened Common

  /** Which revision each revision supersedes. */
  type Links = map<string, Option<string>>

  predicate Closed(sup: Links)
  {
    forall id | id in sup && sup[id].Some? :: sup[id].value in sup
  }

  /** Walking back from `at` leaves the graph through a root within `k` steps. */
  predicate Ends(sup: Links, at: Option<string>, k: nat)
    decreases k
  {
    at.None? || (k > 0 && at.value in sup && Ends(sup, sup[at.value], k - 1))
  }

  ghost predicate WalkEnds(sup: Links, id: string)
  {
    exists k: nat :: Ends(sup, Some(id), k)
  }

  function Roots(sup: Links): set<string>
  {
    set id | id in sup && sup[id].None?
  }

  function Targets(sup: Links): set<string>
  {
    set id | id in sup && sup[id].Some? :: sup[id].value
  }

  function Heads(sup: Links): set<string>
  {
    sup.Keys - Targets(sup)
  }

  /** What the validator checks of one group. */
  ghost predicate Accepted(sup: Links)
  {
    && Closed(sup) && |Roots(sup)| == 1 && |Heads(sup)| == 1
    && forall id | id in sup :: WalkEnds(sup, id)
  }

  /** The `i`-th of a sequence of revisions supersedes the one before it; the first supersedes nothing. */
  predicate LinkAt(sup: Links, t: seq<string>, i: int)
    requires 0 <= i < |t|
  {
    t[i] in sup && if i == 0 then sup[t[0]].None? else sup[t[i]] == Some(t[i - 1])
  }

  predicate Linked(sup: Links, t: seq<string>)
  {
    forall i | 0 <= i < |t| :: LinkAt(sup, t, i)
  }

  /** A listing of all revisions, oldest first, each superseding the one before it. */
  predicate IsChain(sup: Links, chain: seq<string>)
  {
    && chain != []
    && (forall i, j | 0 <= i < j < |chain| :: chain[i] != chain[j])
    && Linked(sup, chain)
    && (forall id | id in sup :: id in chain)
  }

  // ---------------------------------------------------------------- counting

  function Image(sup: Links, ids: set<string>): set<string>
    requires forall id | id in ids :: id in sup && sup[id].Some?
  {
    set id | id in ids :: sup[id].value
  }

  lemma {:induction false} ImageSmaller(sup: Links, ids: set<string>)
    requires forall id | id in ids :: id in sup && sup[id].Some?
    ensures |Image(sup, ids)| <= |ids|
  {
    if ids != {} {
      var x :| x in ids;
      var rest := ids - {x};
      ImageSmaller(sup, rest);
      assert Image(sup, ids) == Image(sup, rest) + {sup[x].value};
    }
  }

  /** No two revisions supersede the same one when there are as many targets as pointers. */
  lemma {:induction false} FullImageInjective(sup: Links, ids: set<string>, x: string, y: string)
    requires forall id | id in ids :: id in sup && sup[id].Some?
    requires |Image(sup, ids)| == |ids| && x in ids && y in ids && sup[x] == sup[y]
    ensures x == y
  {
    var rest := ids - {y};
    ImageSmaller(sup, rest);
    assert Image(sup, ids) == Image(sup, rest) + {sup[y].value};
    assert sup[y].value !in Image(sup, rest);
    assert x !in rest;
  }

  lemma OnlyElement<T>(s: set<T>, x: T, y: T)
    requires |s| == 1 && x in s && y in s
    ensures x == y
  {
    assert |s - {x}| == 0;
    assert y !in s - {x};
  }

  lemma PointersInjective(sup: Links, x: string, y: string)
    requires Closed(sup) && |Roots(sup)| == 1 && |Heads(sup)| == 1
    requires x in sup && y in sup && sup[x].Some? && sup[x] == sup[y]
    ensures x == y
  {
    var pointing := sup.Keys - Roots(sup);
    assert Image(sup, pointing) == Targets(sup);
    assert Targets(sup) <= sup.Keys && Roots(sup) <= sup.Keys;
    assert |Targets(sup)| == |sup.Keys| - 1;
    FullImageInjective(sup, pointing, x, y);
  }

  // ---------------------------------------------------------------- the walk back as a sequence

  function Trail(sup: Links, at: Option<string>, k: nat): seq<string>
    requires Ends(sup, at, k)
    decreases k
  {
    if at.None? then [] else Trail(sup, sup[at.value], k - 1) + [at.value]
  }

  lemma {:induction false} TrailLinked(sup: Links, at: Option<string>, k: nat)
    requires Ends(sup, at, k)
    ensures var t := Trail(sup, at, k);
            && (at.None? <==> t == []) && (t != [] ==> t[|t| - 1] == at.value)
            && Linked(sup, t)
    decreases k
  {
    if at.Some? {
      TrailLinked(sup, sup[at.value], k - 1);
      var t, front := Trail(sup, at, k), Trail(sup, sup[at.value], k - 1);
      forall i | 0 <= i < |t| ensures LinkAt(sup, t, i) {
        if i < |front| { assert LinkAt(sup, front, i); }
      }
    }
  }

  lemma {:induction false} LinkedDistinct(sup: Links, t: seq<string>, i: nat, j: nat)
    requires Linked(sup, t) && i < j < |t|
    ensures t[i] != t[j]
  {
    assert LinkAt(sup, t, i) && LinkAt(sup, t, j);
    if i > 0 { LinkedDistinct(sup, t, i - 1, j - 1); }
  }

  /** Nothing lies outside the line that leads to the only head. */
  lemma {:induction false} NothingOutside(sup: Links, t: seq<string>, x: string, k: nat)
    requires Closed(sup) && |Roots(sup)| == 1 && |Heads(sup)| == 1
    requires t != [] && t[|t| - 1] in Heads(sup)
    requires Linked(sup, t)
    requires x in sup && Ends(sup, Some(x), k)
    ensures x in t
    decreases k
  {
    if sup[x].None? {
      assert LinkAt(sup, t, 0);
      assert x in Roots(sup) && t[0] in Roots(sup);
      OnlyElement(Roots(sup), x, t[0]);
    } else {
      var y := sup[x].value;
      NothingOutside(sup, t, y, k - 1);
      var i :| 0 <= i < |t| && t[i] == y;
      assert y in Targets(sup);
      assert i + 1 < |t|;
      assert LinkAt(sup, t, i + 1);
      PointersInjective(sup, x, t[i + 1]);
    }
  }

  lemma AcceptedIsChain(sup: Links) returns (chain: seq<string>)
    requires Accepted(sup)
    ensures IsChain(sup, chain) && Heads(sup) == {chain[|chain| - 1]}
  {
    var head :| head in Heads(sup);
    var k: nat :| Ends(sup, Some(head), k);
    chain := Trail(sup, Some(head), k);
    TrailLinked(sup, Some(head), k);
    forall i, j | 0 <= i < j < |chain| ensures chain[i] != chain[j] { LinkedDistinct(sup, chain, i, j); }
    forall id | id in sup ensures id in chain {
      var n: nat :| Ends(sup, Some(id), n);
      NothingOutside(sup, chain, id, n);
    }
    forall h | h in Heads(sup) ensures h == head { OnlyElement(Heads(sup), h, head); }
  }

  lemma {:induction false} ChainEnds(sup: Links, chain: seq<string>, i: nat)
    requires IsChain(sup, chain) && i < |chain|
    ensures Ends(sup, Some(chain[i]), i + 1)
  {
    assert LinkAt(sup, chain, i);
    if i > 0 { ChainEnds(sup, chain, i - 1); }
  }

  lemma ChainEnd(sup: Links, chain: seq<string>, i: nat)
    requires IsChain(sup, chain) && i < |chain|
    ensures chain[i] in Roots(sup) <==> i == 0
    ensures chain[i] in Heads(sup) <==> i == |chain| - 1
  {
    assert LinkAt(sup, chain, i);
    if i + 1 < |chain| { assert LinkAt(sup, chain, i + 1); }
    if chain[i] in Targets(sup) {
      var x :| x in sup && sup[x] == Some(chain[i]);
      var j :| 0 <= j < |chain| && chain[j] == x;
      assert LinkAt(sup, chain, j);
    }
  }

  lemma ChainAccepted(sup: Links, chain: seq<string>)
    requires IsChain(sup, chain)
    ensures Accepted(sup) && Roots(sup) == {chain[0]} && Heads(sup) == {chain[|chain| - 1]}
  {
    var last := |chain| - 1;
    ChainEnd(sup, chain, 0);
    ChainEnd(sup, chain, last);
    forall id | id in sup
      ensures WalkEnds(sup, id) && (id in Roots(sup) ==> id == chain[0]) && (id in Heads(sup) ==> id == chain[last])
      ensures sup[id].Some? ==> sup[id].value in sup
    {
      var i :| 0 <= i < |chain| && chain[i] == id;
      ChainEnds(sup, chain, i);
      ChainEnd(sup, chain, i);
      assert LinkAt(sup, chain, i);
    }
    assert Roots(sup) == {chain[0]};
    assert Heads(sup) == {chain[last]};
  }

  /** The counts and the cycle walk accept exactly the graphs that are one line from the root to the head. */
  lemma AcceptedIffChain(sup: Links)
    ensures Accepted(sup) <==> exists chain :: IsChain(sup, chain)
  {
    if Accepted(sup) { var chain := AcceptedIsChain(sup); }
    if chain :| IsChain(sup, chain) { ChainAccepted(sup, chain); }
  }

  // ---------------------------------------------------------------- the validator's cycle walk

  /** The `n`-th revision of a walk back supersedes the next one; the last supersedes `end`. */
  predicate StepAt(sup: Links, path: seq<string>, end: Option<string>, n: int)
    requires 0 <= n < |path|
  {
    path[n] in sup && if n + 1 < |path| then sup[path[n]] == Some(path[n + 1]) else sup[path[n]] == end
  }

  predicate Steps(sup: Links, path: seq<string>, end: Option<string>)
  {
    forall n | 0 <= n < |path| :: StepAt(sup, path, end, n)
  }

  /** A revisited revision proves that the walk never ends. */
  lemma {:induction false} RevisitNeverEnds(sup: Links, path: seq<string>, back: nat, j: nat, k: nat)
    requires back <= j < |path|
    requires Steps(sup, path, Some(path[back]))
    ensures !Ends(sup, Some(path[j]), k)
    decreases k
  {
    assert StepAt(sup, path, Some(path[back]), j);
    if k > 0 {
      RevisitNeverEnds(sup, path, back, if j + 1 < |path| then j + 1 else back, k - 1);
    }
  }

  lemma {:induction false} EndsLater(sup: Links, path: seq<string>, end: Option<string>, j: nat, k: nat)
    requires j < |path| && Steps(sup, path, end)
    requires Ends(sup, Some(path[0]), k)
    ensures k >= j && Ends(sup, Some(path[j]), k - j)
  {
    if j > 0 {
      EndsLater(sup, path, end, j - 1, k);
      assert StepAt(sup, path, end, j - 1);
    }
  }

  lemma {:induction false} EndsEarlier(sup: Links, path: seq<string>, j: nat)
    requires j < |path|
    requires Steps(sup, path, None)
    ensures Ends(sup, Some(path[j]), |path| - j)
    decreases |path| - j
  {
    assert StepAt(sup, path, None, j);
    if j + 1 < |path| { EndsEarlier(sup, path, j + 1); }
  }

  /** One walk of the cycle check: it stops at a root, or at the first revision seen before. */
  method WalkBack(sup: Links, start: string) returns (cycle: bool)
    requires Closed(sup) && start in sup
    ensures cycle <==> !WalkEnds(sup, start)
  {
    var seen: set<string> := {};
    var cursor := Some(start);
    ghost var path: seq<string> := [];
    while cursor.Some?
      invariant cursor.Some? ==> cursor.value in sup
      invariant seen <= sup.Keys
      invariant forall x :: x in seen <==> x in path
      invariant Steps(sup, path, cursor)
      invariant if path == [] then cursor == Some(start) else path[0] == start
      decreases |sup.Keys - seen|, cursor.Some?
    {
      if cursor.value in seen {
        ghost var back :| 0 <= back < |path| && path[back] == cursor.value;
        forall k: nat ensures !Ends(sup, Some(start), k) {
          if Ends(sup, Some(start), k) {
            EndsLater(sup, path, cursor, back, k);
            RevisitNeverEnds(sup, path, back, back, k - back);
          }
        }
        return true;
      }
      assert sup.Keys - (seen + {cursor.value}) < sup.Keys - seen by { assert cursor.value in sup.Keys - seen; }
      SmallerSet(sup.Keys - (seen + {cursor.value}), sup.Keys - seen);
      seen := seen + {cursor.value};
      ghost var longer, next := path + [cursor.value], sup[cursor.value];
      forall n | 0 <= n < |longer| ensures StepAt(sup, longer, next, n) {
        if n < |path| { assert StepAt(sup, path, cursor, n); }
      }
      path := longer;
      cursor := sup[cursor.value];
    }
    EndsEarlier(sup, path, 0);
    cycle := false;
  }

  lemma SmallerSet<T>(a: set<T>, b: set<T>)
    requires a < b
    ensures |a| < |b|
  {
    assert b == a + (b - a);
    assert |b| == |a| + |b - a|;
  }
}
