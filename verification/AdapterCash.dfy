/**
 Cash conservation in the state adapter: since the last reset or new epoch, the amounts published with cash
 evidence are paid for by distinct recorded balance decreases of the same seats.
 */
module AdapterCash {
  import opened Common
  import opened StateAdapter
  import opened AdapterRuns

  function KeyOf(d: Cash): (k: (int, int))
  {
    (d.seat, d.first)
  }

  predicate Spends(a: Action)
  {
    a.debit.Some?
  }

  /** A pot increase of the same amount was seen near the decrease. */
  predicate SeenInPot(d: Cash, window: int, pots: seq<PotChange>)
  {
    exists i :: 0 <= i < |pots| && pots[i].amount == d.amount && Distance(pots[i].first, d.first) <= window
  }

  /**
   The action is backed by a decrease on record, of its own seat, near its glyph, marked as used, and by a pot increase.
   */
  predicate Backed(a: Action, window: int, cash: seq<Cash>, pots: seq<PotChange>, used: set<(int, int)>)
    requires Spends(a)
  {
    var d := a.debit.value;
    && d in cash && d.seat == a.slot && Distance(d.first, a.frame) <= window && KeyOf(d) in used
    && SeenInPot(d, window, pots)
    && a.amount == Some(if Zero(a.kind) then 0.0 else d.amount)
  }

  predicate Evidence(actions: seq<Action>, window: int, cash: seq<Cash>, pots: seq<PotChange>, used: set<(int, int)>)
  {
    && (forall i | 0 <= i < |actions| && Spends(actions[i]) :: Backed(actions[i], window, cash, pots, used))
    && (forall i, j | 0 <= i < j < |actions| && Spends(actions[i]) && Spends(actions[j]) ::
          KeyOf(actions[i].debit.value) != KeyOf(actions[j].debit.value))
  }

  lemma {:induction false} MatchesFit(window: int, cash: seq<Cash>, used: set<(int, int)>, a: Pending)
    ensures forall d | d in Matches(window, cash, used, a) ::
      d in cash && d.seat == a.slot && Distance(d.first, a.frame) <= window && KeyOf(d) !in used
  {
    if cash != [] { MatchesFit(window, cash[..|cash| - 1], used, a); }
  }

  lemma {:induction false} PotEvidenceFits(window: int, pots: seq<PotChange>, d: Cash)
    ensures PotEvidence(window, pots, d) != [] ==> SeenInPot(d, window, pots)
  {
    if pots != [] {
      var n := |pots| - 1;
      PotEvidenceFits(window, pots[..n], d);
      if SeenInPot(d, window, pots[..n]) {
        var i :| 0 <= i < n && pots[..n][i].amount == d.amount && Distance(pots[..n][i].first, d.first) <= window;
        assert pots[i] == pots[..n][i];
      }
    }
  }

  lemma EvidenceSnoc(
      actions: seq<Action>, a: Action, window: int, cash: seq<Cash>, pots: seq<PotChange>, used: set<(int, int)>)
    requires Evidence(actions, window, cash, pots, used)
    requires Spends(a) ==> KeyOf(a.debit.value) !in used && Backed(a, window, cash, pots, used + {KeyOf(a.debit.value)})
    ensures Evidence(actions + [a], window, cash, pots, if Spends(a) then used + {KeyOf(a.debit.value)} else used)
  {
    var next := if Spends(a) then used + {KeyOf(a.debit.value)} else used;
    forall i | 0 <= i < |actions + [a]| && Spends((actions + [a])[i])
      ensures Backed((actions + [a])[i], window, cash, pots, next)
    {
      if i < |actions| { assert Backed(actions[i], window, cash, pots, used); }
    }
    forall i, j | 0 <= i < j < |actions + [a]| && Spends((actions + [a])[i]) && Spends((actions + [a])[j])
      ensures KeyOf((actions + [a])[i].debit.value) != KeyOf((actions + [a])[j].debit.value)
    {
      assert Backed(actions[i], window, cash, pots, used);
    }
  }

  lemma ResolutionBacked(t: Adapter, frame: int, a: Pending)
    ensures var r := Resolution(t, frame, a);
      Spends(r) ==>
        KeyOf(r.debit.value) !in t.usedCash
        && Backed(r, t.window, t.cash, t.potChanges, t.usedCash + {KeyOf(r.debit.value)})
  {
    hide Crowded, PotEvidence;
    MatchesFit(t.window, t.cash, t.usedCash, a);
    if DebitFor(t, a).Some? { PotEvidenceFits(t.window, t.potChanges, DebitFor(t, a).value); }
  }

  lemma ResolveOneBacked(t: Adapter, frame: int, a: Pending, base: nat)
    requires base <= |t.actions| && Evidence(t.actions[base..], t.window, t.cash, t.potChanges, t.usedCash)
    ensures var u := ResolveOne(t, frame, a);
      && base <= |u.actions| && u.window == t.window && u.cash == t.cash && u.potChanges == t.potChanges
      && Evidence(u.actions[base..], u.window, u.cash, u.potChanges, u.usedCash)
  {
    hide Backed, Evidence, Resolves, Resolution, Paired, DebitFor, RemoveFirst;
    if Resolves(t, frame, a) {
      var r := Resolution(t, frame, a);
      ResolutionBacked(t, frame, a);
      EvidenceSnoc(t.actions[base..], r, t.window, t.cash, t.potChanges, t.usedCash);
      assert (t.actions + [r])[base..] == t.actions[base..] + [r];
      assert t.usedCash + {} == t.usedCash;
    }
  }

  lemma {:induction false} ResolveAllBacked(t: Adapter, frame: int, todo: seq<Pending>, base: nat)
    requires base <= |t.actions| && Evidence(t.actions[base..], t.window, t.cash, t.potChanges, t.usedCash)
    ensures var u := ResolveAll(t, frame, todo);
      && base <= |u.actions| && u.window == t.window && u.cash == t.cash && u.potChanges == t.potChanges
      && Evidence(u.actions[base..], u.window, u.cash, u.potChanges, u.usedCash)
  {
    hide Evidence, ResolveOne;
    if todo != [] {
      ResolveAllBacked(t, frame, todo[..|todo| - 1], base);
      ResolveOneBacked(ResolveAll(t, frame, todo[..|todo| - 1]), frame, todo[|todo| - 1], base);
    }
  }

  lemma EvidenceGrows(
      actions: seq<Action>, window: int, cash: seq<Cash>, more: seq<Cash>, pots: seq<PotChange>, later: seq<PotChange>,
      used: set<(int, int)>)
    requires Evidence(actions, window, cash, pots, used) && pots <= later
    ensures Evidence(actions, window, cash + more, later, used)
  {
    forall i | 0 <= i < |actions| && Spends(actions[i]) ensures Backed(actions[i], window, cash + more, later, used) {
      assert Backed(actions[i], window, cash, pots, used);
    }
  }

  // ---------------------------------------------------------------- runs

  /** Where the current accounts begin: the actions before `base` predate the last reset or new epoch. */
  datatype Accounts = Accounts(state: Adapter, base: nat, drops: seq<Cash>)

  function Audit(t: Accounts, row: Row): Accounts
  {
    if BadFrame(t.state, row) then t
    else
      var next := Advance(t.state, row);
      if Blocked(row) then Accounts(next, |t.state.actions|, [])
      else if Renewed(t.state, row) then Accounts(next, |t.state.actions|, row.drops)
      else Accounts(next, t.base, t.drops + row.drops)
  }

  function Audited(window: int, rows: seq<Row>): Accounts
  {
    if rows == [] then Accounts(Initial(window), 0, [])
      else Audit(Audited(window, rows[..|rows| - 1]), rows[|rows| - 1])
  }

  lemma {:induction false} AuditFollowsRun(window: int, rows: seq<Row>)
    ensures Audited(window, rows).state == Run(Initial(window), rows)
  {
    hide Advance, Renewed;
    if rows == [] {
    } else {
      AuditFollowsRun(window, rows[..|rows| - 1]);
      var t, row := Audited(window, rows[..|rows| - 1]), rows[|rows| - 1];
      if BadFrame(t.state, row) { AdvanceBad(t.state, row); }
    }
  }

  lemma AdvanceBad(s: Adapter, row: Row)
    requires BadFrame(s, row)
    ensures Advance(s, row) == s
  {}

  predicate Solvent(t: Accounts)
  {
    && t.base <= |t.state.actions|
    && t.state.cash == t.drops
    && Evidence(t.state.actions[t.base..], t.state.window, t.drops, t.state.potChanges, t.state.usedCash)
  }

  lemma UnblockedSolvent(t: Accounts, row: Row)
    requires Solvent(t) && !BadFrame(t.state, row) && !Blocked(row)
    ensures Solvent(Audit(t, row))
  {
    PreparedKeeps(t.state, row);
    var s := t.state;
    var base := if Renewed(s, row) then |s.actions| else t.base;
    var p := WithGlyphs(Prepared(s, row), row);
    assert Evidence(p.actions[base..], p.window, p.cash, p.potChanges, p.usedCash) by {
      if !Renewed(s, row) {
        EvidenceGrows(s.actions[base..], s.window, s.cash, row.drops, s.potChanges, p.potChanges, s.usedCash);
      }
    }
    hide Prepared, Renewed, Evidence, Arrivals, ResolveAll;
    ResolveAllBacked(p, row.frame, p.pending, base);
    CloseBacked(Settled(s, row), row, base);
  }

  lemma CloseBacked(t: Adapter, row: Row, base: nat)
    requires base <= |t.actions| && Evidence(t.actions[base..], t.window, t.cash, t.potChanges, t.usedCash)
    ensures var u := Closed(t, row);
      && base <= |u.actions| && u.window == t.window && u.cash == t.cash && u.potChanges == t.potChanges
      && Evidence(u.actions[base..], u.window, u.cash, u.potChanges, u.usedCash)
  {
    if row.shortCall.Some? {
      var c := ShortCallAction(t, row.frame, row.shortCall.value);
      EvidenceSnoc(t.actions[base..], c, t.window, t.cash, t.potChanges, t.usedCash);
      assert (t.actions + [c])[base..] == t.actions[base..] + [c];
    }
  }

  /**
   On every run the published evidence since the last reset is backed, drop by drop, by distinct recorded decreases.
   */
  lemma {:induction false} AlwaysSolvent(window: int, rows: seq<Row>)
    ensures Audited(window, rows).state == Run(Initial(window), rows)
    ensures Solvent(Audited(window, rows))
  {
    AuditFollowsRun(window, rows);
    hide Run;
    if rows == [] {
    } else {
      var t, row := Audited(window, rows[..|rows| - 1]), rows[|rows| - 1];
      AlwaysSolvent(window, rows[..|rows| - 1]);
      if !BadFrame(t.state, row) {
        if Blocked(row) {
          assert Advance(t.state, row).cash == [] && Advance(t.state, row).actions == t.state.actions;
        } else {
          UnblockedSolvent(t, row);
        }
      }
    }
  }

  // ---------------------------------------------------------------- sums

  function Dropped(cash: seq<Cash>, seat: int): real
  {
    if cash == [] then 0.0
    else Dropped(cash[1..], seat) + if cash[0].seat == seat then cash[0].amount else 0.0
  }

  /** What the actions with cash evidence say that one seat paid. */
  function Paid(actions: seq<Action>, seat: int): real
  {
    if actions == [] then 0.0
    else
      var a := actions[|actions| - 1];
      Paid(actions[..|actions| - 1], seat) + if a.slot == seat && Spends(a) && a.amount.Some? then a.amount.value
        else 0.0
  }

  predicate Decreases(cash: seq<Cash>)
  {
    forall i | 0 <= i < |cash| :: cash[i].amount >= 0.0
  }

  lemma {:induction false} RemoveDrop(cash: seq<Cash>, d: Cash, seat: int)
    requires d in cash
    ensures Dropped(cash, seat) == Dropped(RemoveFirst(cash, d), seat) + if d.seat == seat then d.amount else 0.0
  {
    if cash[0] != d {
      RemoveDrop(cash[1..], d, seat);
      var rest := RemoveFirst(cash[1..], d);
      assert ([cash[0]] + rest)[1..] == rest;
    }
  }

  lemma {:induction false} RemoveKeeps(cash: seq<Cash>, d: Cash)
    ensures forall e | e in cash && e != d :: e in RemoveFirst(cash, d)
    ensures forall e | e in RemoveFirst(cash, d) :: e in cash
  {
    if cash != [] && cash[0] != d { RemoveKeeps(cash[1..], d); }
  }

  lemma {:induction false} PaidAtMostDropped(
      actions: seq<Action>, window: int, cash: seq<Cash>, pots: seq<PotChange>, used: set<(int, int)>, seat: int)
    requires Evidence(actions, window, cash, pots, used) && Decreases(cash)
    ensures Paid(actions, seat) <= Dropped(cash, seat)
    decreases |actions|
  {
    if actions == [] {
      DroppedNonnegative(cash, seat);
    } else {
      var init, a := actions[..|actions| - 1], actions[|actions| - 1];
      assert forall i | 0 <= i < |init| :: init[i] == actions[i];
      if Spends(a) {
        assert Backed(a, window, cash, pots, used);
        var d := a.debit.value;
        var rest := RemoveFirst(cash, d);
        RemoveKeeps(cash, d);
        RemoveDrop(cash, d, seat);
        forall i | 0 <= i < |rest| ensures rest[i].amount >= 0.0 { assert rest[i] in cash; }
        forall i | 0 <= i < |init| && Spends(init[i]) ensures Backed(init[i], window, rest, pots, used) {
          assert Backed(actions[i], window, cash, pots, used);
        }
        PaidAtMostDropped(init, window, rest, pots, used, seat);
        assert d.amount >= 0.0;
      } else {
        forall i | 0 <= i < |init| && Spends(init[i]) ensures Backed(init[i], window, cash, pots, used) {
          assert Backed(actions[i], window, cash, pots, used);
        }
        PaidAtMostDropped(init, window, cash, pots, used, seat);
      }
    }
  }

  lemma {:induction false} DroppedNonnegative(cash: seq<Cash>, seat: int)
    requires Decreases(cash)
    ensures Dropped(cash, seat) >= 0.0
  {
    if cash != [] { DroppedNonnegative(cash[1..], seat); }
  }

  /** Per seat, what the adapter published as paid since the last reset never exceeds the balance decreases it saw. */
  lemma CashIsConserved(window: int, rows: seq<Row>, seat: int)
    requires forall i | 0 <= i < |rows| :: Decreases(rows[i].drops)
    ensures var t := Audited(window, rows);
      t.state == Run(Initial(window), rows) && t.base <= |t.state.actions|
        && Paid(t.state.actions[t.base..], seat) <= Dropped(t.drops, seat)
  {
    AlwaysSolvent(window, rows);
    DropsDecrease(window, rows);
    var t := Audited(window, rows);
    PaidAtMostDropped(t.state.actions[t.base..], t.state.window, t.drops, t.state.potChanges, t.state.usedCash, seat);
  }

  lemma {:induction false} DropsDecrease(window: int, rows: seq<Row>)
    requires forall i | 0 <= i < |rows| :: Decreases(rows[i].drops)
    ensures Decreases(Audited(window, rows).drops)
  {
    hide Renewed, Advance;
    if rows != [] { DropsDecrease(window, rows[..|rows| - 1]); }
  }
}
