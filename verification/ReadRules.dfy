/**
 What a read shows: the selected rows, the live ones among them, and the current value of each group.
 */
module ReadRules {
  import opened Common
  import opened SourceIdentity
  import opened Annotations
  import opened Revisions

  /** Every filter that was given fits the row. */
  predicate Asked(r: Row, f: Filter)
  {
    match (f.source, f.field, f.seat)
    case (Some(k), Some(id), Some(s)) => r.sourceKey == Some(k) && r.field == id && r.seat == Some(s)
    case (Some(k), Some(id), None) => r.sourceKey == Some(k) && r.field == id
    case (Some(k), None, Some(s)) => r.sourceKey == Some(k) && r.seat == Some(s)
    case (Some(k), None, None) => r.sourceKey == Some(k)
    case (None, Some(id), Some(s)) => r.field == id && r.seat == Some(s)
    case (None, Some(id), None) => r.field == id
    case (None, None, Some(s)) => r.seat == Some(s)
    case (None, None, None) => true
  }

  lemma SelectedNext(rows: seq<Row>, f: Filter)
    requires rows != []
    ensures var n := |rows| - 1;
      Selected(rows, f) ==
        if Asked(rows[n], f) then Selected(rows[..n], f) + [rows[n]] else Selected(rows[..n], f)
  {
    assert Passes(rows[|rows| - 1], f) <==> Asked(rows[|rows| - 1], f);
    assert Selected(rows[..|rows| - 1], f) + [] == Selected(rows[..|rows| - 1], f);
  }

  /** The history shown lists, in append order, the rows asked for and no others. */
  lemma {:induction false} HistoryExactly(rows: seq<Row>, f: Filter, keep: Row -> bool) returns (at: seq<int>)
    requires forall r: Row :: keep(r) <==> Asked(r, f)
    ensures Picks(rows, keep, Selected(rows, f), at)
  {
    at := [];
    if rows != [] {
      var init := rows[..|rows| - 1];
      SelectedNext(rows, f);
      hide Selected, Picks, Asked;
      at := HistoryExactly(init, f, keep);
      at := PicksNext(rows, keep, Selected(init, f), Selected(rows, f), at);
    }
  }

  /** A row of a group is live exactly when no row of the group supersedes it. */
  predicate Standing(rows: seq<Row>, g: Option<GroupKey>, r: Row)
  {
    r.groupKey == g && forall q | q in rows && q.groupKey == g :: q.supersedes != Some(r.revisionId)
  }

  lemma MembersNext(rows: seq<Row>, g: Option<GroupKey>)
    requires rows != []
    ensures var n := |rows| - 1;
      Members(rows, g) ==
        if rows[n].groupKey == g then Members(rows[..n], g) + [rows[n]] else Members(rows[..n], g)
  {
    assert Members(rows[..|rows| - 1], g) + [] == Members(rows[..|rows| - 1], g);
  }

  lemma {:induction false} MembersExactly(rows: seq<Row>, g: Option<GroupKey>, keep: Row -> bool)
    returns (at: seq<int>)
    requires forall r: Row :: keep(r) <==> r.groupKey == g
    ensures Picks(rows, keep, Members(rows, g), at)
  {
    at := [];
    if rows != [] {
      var init := rows[..|rows| - 1];
      MembersNext(rows, g);
      hide Members, Picks;
      at := MembersExactly(init, g, keep);
      at := PicksNext(rows, keep, Members(init, g), Members(rows, g), at);
    }
  }

  lemma WithoutNext(rows: seq<Row>, dead: set<string>)
    requires rows != []
    ensures var n := |rows| - 1;
      Without(rows, dead) ==
        if rows[n].revisionId !in dead then Without(rows[..n], dead) + [rows[n]] else Without(rows[..n], dead)
  {
    assert Without(rows[..|rows| - 1], dead) + [] == Without(rows[..|rows| - 1], dead);
  }

  lemma {:induction false} WithoutExactly(rows: seq<Row>, dead: set<string>, keep: Row -> bool) returns (at: seq<int>)
    requires forall r: Row :: keep(r) <==> r.revisionId !in dead
    ensures Picks(rows, keep, Without(rows, dead), at)
  {
    at := [];
    if rows != [] {
      var init := rows[..|rows| - 1];
      WithoutNext(rows, dead);
      hide Without, Picks;
      at := WithoutExactly(init, dead, keep);
      at := PicksNext(rows, keep, Without(init, dead), Without(rows, dead), at);
    }
  }

  /** Picking twice is picking once what both keep. */
  lemma PicksTwice<T>(
      all: seq<T>, k1: T -> bool, some: seq<T>, at1: seq<int>, k2: T -> bool, few: seq<T>, at2: seq<int>,
      both: T -> bool) returns (at: seq<int>)
    requires Picks(all, k1, some, at1) && Picks(some, k2, few, at2)
    requires forall x :: x in all ==> (both(x) <==> k1(x) && k2(x))
    ensures Picks(all, both, few, at)
  {
    at := seq(|at2|, i requires 0 <= i < |at2| => at1[at2[i]]);
    forall i | 0 <= i < |at| ensures 0 <= at[i] < |all| && all[at[i]] == few[i] && both(few[i]) {
      assert all[at1[at2[i]]] == some[at2[i]] && some[at2[i]] == few[i];
      assert few[i] in all;
    }
    forall n | 0 <= n < |all| && both(all[n]) ensures n in at {
      assert all[n] in all;
      assert n in at1;
      var j :| 0 <= j < |at1| && at1[j] == n;
      assert k2(some[j]);
      var i :| 0 <= i < |at2| && at2[i] == j;
      assert at[i] == n;
    }
  }

  /** The live rows of a group are, in append order, those that stand. */
  lemma LiveExactly(rows: seq<Row>, g: Option<GroupKey>) returns (at: seq<int>)
    ensures Picks(rows, r => Standing(rows, g, r), Live(rows, g), at)
  {
    var members := Members(rows, g);
    var dead := SupersededBy(members);
    InMembers(rows, g);
    forall r: Row | r in rows ensures Standing(rows, g, r) <==> r.groupKey == g && r.revisionId !in dead {
      if r.revisionId in dead {
        var q :| q in members && q.supersedes.Some? && q.supersedes.value == r.revisionId;
      }
      if r.groupKey == g && r.revisionId !in dead {
        forall q | q in rows && q.groupKey == g ensures q.supersedes != Some(r.revisionId) {
          assert q in members;
        }
      }
    }
    var own, kept := (r: Row) => r.groupKey == g, (r: Row) => r.revisionId !in dead;
    var at1 := MembersExactly(rows, g, own);
    var at2 := WithoutExactly(members, dead, kept);
    hide Members, SupersededBy, Without, Standing, Picks;
    at := PicksTwice(rows, own, members, at1, kept, Without(members, dead), at2, r => Standing(rows, g, r));
  }
}
