/**
 The accounts of the hand ledger over whole runs: opening posts plus each applied action once, never decreasing
 inside an epoch, with an absorbing taint, and complete whenever they are published as observed.
 */
module HandAccounts {
  import opened Common
  import opened StateAdapter
  import opened AdapterRuns
  import opened LiveWagers
  import opened WagerRuns
  import opened HandLedger

  function EpochActions(actions: seq<Action>, epoch: Option<int>): seq<Action>
  {
    if actions == [] then []
    else
      var a := actions[|actions| - 1];
      EpochActions(actions[..|actions| - 1], epoch) + if a.epoch == epoch then [a] else []
  }

  lemma {:induction false} EpochActionsHold(actions: seq<Action>, epoch: Option<int>)
    ensures forall a | a in actions && a.epoch == epoch :: a in EpochActions(actions, epoch)
    ensures forall a | a in EpochActions(actions, epoch) :: a in actions && a.epoch == epoch
  {
    if actions != [] {
      var init := actions[..|actions| - 1];
      assert actions == init + [actions[|actions| - 1]];
      EpochActionsHold(init, epoch);
    }
  }

  /** Seat by seat, the totals are the first amounts plus what the actions add. */
  predicate Grown(start: Totals, totals: Totals, taken: seq<Action>)
  {
    forall s | 0 <= s < SEATS :: totals[s] == start[s] + SeatDebits(taken, s)
  }

  lemma GrownSnoc(start: Totals, totals: Totals, taken: seq<Action>, a: Action)
    requires Grown(start, totals, taken) && 0 <= a.slot < SEATS && Amount(a.amount).Some?
    ensures Grown(start, totals[a.slot := totals[a.slot] + a.amount.value], taken + [a])
  {
    assert (taken + [a])[..|taken|] == taken;
  }

  predicate Drawn(epoch: Option<int>, seen: seq<Action>, taken: seq<Action>)
  {
    forall a | a in taken :: a in seen && a.epoch == epoch && Amount(a.amount).Some? && 0 <= a.slot < SEATS
  }

  lemma DrawnSnoc(epoch: Option<int>, seen: seq<Action>, taken: seq<Action>, a: Action, after: seq<Action>)
    requires Drawn(epoch, seen, taken) && a.epoch == epoch && Amount(a.amount).Some? && 0 <= a.slot < SEATS
    requires after == seen + [a] || (after == seen && a in seen)
    ensures Drawn(epoch, after, taken + [a])
  {
    forall b | b in taken + [a]
      ensures b in after && b.epoch == epoch && Amount(b.amount).Some? && 0 <= b.slot < SEATS {}
  }

  predicate Totalled(h: Hand, taken: seq<Action>)
  {
    h.totals.Some? && h.opening.Some? && Grown(Posts(h.opening.value.debits), h.totals.value, taken)
  }

  predicate Booked(applied: set<Identity>, taken: seq<Action>)
  {
    Ids(taken) == applied && |taken| == |applied|
  }

  lemma BookedSnoc(applied: set<Identity>, taken: seq<Action>, a: Action)
    requires Booked(applied, taken) && IdentityOf(a) !in applied
    ensures Booked(applied + {IdentityOf(a)}, taken + [a])
  {
    IdsSnoc(taken, a);
  }

  predicate Complete(tainted: bool, epoch: Option<int>, seen: seq<Action>, taken: seq<Action>)
  {
    !tainted ==> taken == FirstOnes(EpochActions(seen, epoch))
  }

  /** The totals are the opening posts plus the actions `taken`, one for each applied identity, out of those seen. */
  predicate Explains(h: Hand, seen: seq<Action>, taken: seq<Action>)
  {
    Totalled(h, taken) && Booked(h.applied, taken) && Drawn(h.epoch, seen, taken)
      && Complete(h.tainted, h.epoch, seen, taken)
  }

  lemma TotalledTake(h: Hand, taken: seq<Action>, a: Action, frame: int)
    requires Totalled(h, taken) && a.epoch == h.epoch && IdentityOf(a) !in h.applied && Usable(a, frame)
    ensures Totalled(Consume(h, a, frame), taken + [a])
  {
    GrownSnoc(Posts(h.opening.value.debits), h.totals.value, taken, a);
    hide Posts, Grown;
  }

  lemma ConsumeShape(h: Hand, a: Action, frame: int)
    requires h.totals.Some? && a.epoch == h.epoch && IdentityOf(a) !in h.applied && Usable(a, frame)
    ensures var c := Consume(h, a, frame);
      c.applied == h.applied + {IdentityOf(a)} && c.tainted == h.tainted && c.epoch == h.epoch
  {}

  lemma CompleteTake(
      tainted: bool, epoch: Option<int>, seen: seq<Action>, taken: seq<Action>, applied: set<Identity>, a: Action,
      after: seq<Action>)
    requires Complete(tainted, epoch, seen, taken) && Booked(applied, taken) && a.epoch == epoch
      && IdentityOf(a) !in applied
    requires !tainted ==> after == seen + [a]
    ensures Complete(tainted, epoch, after, taken + [a])
  {
    hide FirstOnes, EpochActions, Ids;
    if !tainted { FirstOnesNew(seen, epoch, a); }
  }

  lemma TakeMore(h: Hand, seen: seq<Action>, taken: seq<Action>, a: Action, frame: int, after: seq<Action>)
    requires Explains(h, seen, taken) && a.epoch == h.epoch && IdentityOf(a) !in h.applied && Usable(a, frame)
    requires after == seen + [a] || (after == seen && a in seen && h.tainted)
    ensures Explains(Consume(h, a, frame), after, taken + [a])
  {
    BookedSnoc(h.applied, taken, a);
    TotalledTake(h, taken, a, frame);
    ConsumeShape(h, a, frame);
    hide Totalled, Booked, Complete, Drawn, Consume;
    assert Usable(a, frame) ==> Amount(a.amount).Some? && 0 <= a.slot < SEATS;
    DrawnSnoc(h.epoch, seen, taken, a, after);
    CompleteTake(h.tainted, h.epoch, seen, taken, h.applied, a, after);
  }

  lemma EpochActionsSnoc(seen: seq<Action>, epoch: Option<int>, a: Action)
    ensures EpochActions(seen + [a], epoch) == EpochActions(seen, epoch) + if a.epoch == epoch then [a] else []
  {
    assert (seen + [a])[..|seen|] == seen;
  }

  lemma FirstOnesNew(seen: seq<Action>, epoch: Option<int>, a: Action)
    requires a.epoch == epoch
    ensures IdentityOf(a) !in Ids(FirstOnes(EpochActions(seen, epoch))) ==>
      FirstOnes(EpochActions(seen + [a], epoch)) == FirstOnes(EpochActions(seen, epoch)) + [a]
    ensures IdentityOf(a) in Ids(FirstOnes(EpochActions(seen, epoch))) ==>
      FirstOnes(EpochActions(seen + [a], epoch)) == FirstOnes(EpochActions(seen, epoch))
  {
    EpochActionsSnoc(seen, epoch, a);
    var e := EpochActions(seen, epoch);
    FirstOnesAreDistinct(e);
    assert (e + [a])[..|e|] == e;
    assert FirstOnes(e) + [] == FirstOnes(e);
  }

  /** Of an action already seen, an untainted ledger has the identity. */
  lemma SeenIsApplied(h: Hand, seen: seq<Action>, taken: seq<Action>, a: Action)
    requires Explains(h, seen, taken) && a in seen && a.epoch == h.epoch && IdentityOf(a) !in h.applied
    ensures h.tainted
  {
    EpochActionsHold(seen, h.epoch);
    FirstOnesAreDistinct(EpochActions(seen, h.epoch));
    hide EpochActions, FirstOnes, Totalled, Drawn;
    assert IdentityOf(a) in Ids(EpochActions(seen, h.epoch));
  }

  /** Reading one action that had been seen before: an untainted ledger skips it, a tainted one may still take it. */
  lemma ReadAgain(h: Hand, seen: seq<Action>, taken: seq<Action>, a: Action, frame: int) returns (more: seq<Action>)
    requires Explains(h, seen, taken) && a in seen
    ensures Explains(Consume(h, a, frame), seen, more)
  {
    more := taken;
    hide Totalled, Booked, Drawn, Usable;
    if a.epoch == h.epoch && IdentityOf(a) !in h.applied {
      SeenIsApplied(h, seen, taken, a);
      if Usable(a, frame) {
        TakeMore(h, seen, taken, a, frame, seen);
        more := taken + [a];
      } else {
        SpoilKeeps(h, seen, taken, a, frame, seen);
      }
    }
  }

  lemma SpoilKeeps(h: Hand, seen: seq<Action>, taken: seq<Action>, a: Action, frame: int, after: seq<Action>)
    requires Explains(h, seen, taken) && a.epoch == h.epoch && IdentityOf(a) !in h.applied && !Usable(a, frame)
    requires after == seen || after == seen + [a]
    ensures Explains(Consume(h, a, frame), after, taken)
  {
    DrawnMore(h.epoch, seen, taken, after);
    hide Posts, Grown, Ids, Drawn, FirstOnes, EpochActions;
  }

  lemma DrawnMore(epoch: Option<int>, seen: seq<Action>, taken: seq<Action>, after: seq<Action>)
    requires Drawn(epoch, seen, taken) && seen <= after
    ensures Drawn(epoch, after, taken)
  {}

  /** An action of another epoch, or of an applied identity, changes nothing. */
  lemma SkipKeeps(h: Hand, seen: seq<Action>, taken: seq<Action>, a: Action)
    requires Explains(h, seen, taken) && (a.epoch == h.epoch ==> IdentityOf(a) in h.applied)
    ensures Explains(h, seen + [a], taken)
  {
    DrawnMore(h.epoch, seen, taken, seen + [a]);
    EpochActionsSnoc(seen, h.epoch, a);
    assert EpochActions(seen, h.epoch) + [] == EpochActions(seen, h.epoch);
    if a.epoch == h.epoch { FirstOnesNew(seen, h.epoch, a); }
    hide Posts, Grown, Drawn, FirstOnes, EpochActions;
  }

  lemma ReadNew(h: Hand, seen: seq<Action>, taken: seq<Action>, a: Action, frame: int) returns (more: seq<Action>)
    requires Explains(h, seen, taken)
    ensures Explains(Consume(h, a, frame), seen + [a], more)
  {
    more := taken;
    if a.epoch != h.epoch || IdentityOf(a) in h.applied {
      SkipKeeps(h, seen, taken, a);
    } else if Usable(a, frame) {
      TakeMore(h, seen, taken, a, frame, seen + [a]);
      more := taken + [a];
    } else {
      SpoilKeeps(h, seen, taken, a, frame, seen + [a]);
    }
    hide Explains;
  }

  function Later(i: nat, n: nat): nat
  {
    if i <= n then n else i
  }

  lemma {:induction false} ReadAll(h: Hand, actions: seq<Action>, n: nat, taken: seq<Action>, i: nat, frame: int)
    returns (more: seq<Action>)
    requires n <= |actions| && i <= |actions| && Explains(h, actions[..n], taken)
    ensures Explains(ConsumeAll(h, actions[..i], frame), actions[..Later(i, n)], more)
  {
    hide Explains, Consume;
    if i == 0 {
      more := taken;
    } else {
      var before := ReadAll(h, actions, n, taken, i - 1, frame);
      assert actions[..i][..i - 1] == actions[..i - 1];
      var u := ConsumeAll(h, actions[..i - 1], frame);
      if i <= n {
        assert actions[i - 1] in actions[..n];
        more := ReadAgain(u, actions[..n], before, actions[i - 1], frame);
      } else {
        assert actions[..i] == actions[..i - 1] + [actions[i - 1]];
        more := ReadNew(u, actions[..i - 1], before, actions[i - 1], frame);
      }
    }
  }

  /** Nothing known, or the totals are explained by some of the first `n` actions of the adapter. */
  ghost predicate Explained(h: Hand, actions: seq<Action>, n: nat)
  {
    n <= |actions| && (if h.totals.None? then h.applied == {} else exists taken :: Explains(h, actions[..n], taken))
  }

  lemma OpenedExplained(last: Option<int>, epoch: Option<int>, events: seq<EpochEvent>, actions: seq<Action>)
    ensures Explained(Opened(last, epoch, events), actions, 0)
  {
    hide Posts;
    var h := Opened(last, epoch, events);
    if h.totals.Some? {
      assert actions[..0] == [];
      assert Ids([]) == {};
      assert Explains(h, actions[..0], []);
    }
  }

  lemma EnteredExplained(h: Hand, g: Glance, n: nat)
    requires Explained(h, g.adapter.actions, n)
    ensures exists m: nat :: Explained(Entered(h, g), g.adapter.actions, m)
  {
    var actions := g.adapter.actions;
    var m := if Resets(h, g) then 0 else n;
    var begun := if Resets(h, g) then Opened(Some(g.frame), g.epoch, g.adapter.epochEvents)
      else h.(last := Some(g.frame));
    OpenedExplained(Some(g.frame), g.epoch, g.adapter.epochEvents, actions);
    hide Opened;
    var e := Entered(h, g);
    assert e == begun.(tainted := e.tainted, reasons := e.reasons) && (begun.tainted ==> e.tainted);
    if !Resets(h, g) && h.totals.Some? {
      var taken :| Explains(h, actions[..n], taken);
      assert Explains(e, actions[..m], taken);
    } else if begun.totals.Some? {
      var taken :| Explains(begun, actions[..m], taken);
      assert Explains(e, actions[..m], taken);
    }
    assert Explained(e, actions, m);
  }

  lemma SeenExplained(h: Hand, g: Glance, n: nat)
    requires Explained(h, g.adapter.actions, n)
    ensures Rejects(h, g) || Explained(Seen(h, g), g.adapter.actions, |g.adapter.actions|)
  {
    if !Rejects(h, g) {
      EnteredExplained(h, g, n);
      hide Entered, Explains;
      var actions, e := g.adapter.actions, Entered(h, g);
      var m: nat :| Explained(e, actions, m);
      assert actions[..|actions|] == actions;
      if e.totals.Some? {
        var taken :| Explains(e, actions[..m], taken);
        var more := ReadAll(e, actions, m, taken, |actions|, g.frame);
        assert ConsumeAll(e, actions,
          g.frame).totals.Some? by { ExplainedTotals(ConsumeAll(e, actions, g.frame), actions, more); }
      } else {
        NothingToConsume(e, actions, g.frame);
      }
    }
  }

  lemma ExplainedTotals(h: Hand, seen: seq<Action>, taken: seq<Action>)
    requires Explains(h, seen, taken)
    ensures h.totals.Some?
  {}

  // ---------------------------------------------------------------- joint runs

  /** One frame shown to the adapter and then to the ledger, with whatever epoch the row claims to observe. */
  datatype Exhibit = Exhibit(row: Row, epoch: Option<int>)

  datatype Companions = Companions(adapter: Adapter, hand: Hand)

  function GlanceAt(a: Adapter, i: Exhibit): Glance
  {
    Glance(i.row.frame, i.epoch, i.row.modal, i.row.pot, a)
  }

  function Together(j: Companions, i: Exhibit): Companions
  {
    if Step(j.adapter, i.row).Raised? then j
    else
      var a := Advance(j.adapter, i.row);
      Companions(a, Seen(j.hand, GlanceAt(a, i)))
  }

  function RunTogether(window: int, inputs: seq<Exhibit>): Companions
  {
    if inputs == [] then Companions(Initial(window), Hand(None, None, None, {}, None, false, []))
    else Together(RunTogether(window, inputs[..|inputs| - 1]), inputs[|inputs| - 1])
  }

  lemma ExplainedGrows(h: Hand, before: seq<Action>, after: seq<Action>, n: nat)
    requires Explained(h, before, n) && before <= after
    ensures Explained(h, after, n)
  {
    hide Explains;
    assert before[..n] == after[..n];
  }

  /**
   On every run the commitments are the opening posts plus the amount of one action for each applied identity; and
   while the ledger is untainted these are the first actions of all identities the adapter holds for the epoch.
   */
  lemma {:induction false} CommitmentsExplained(window: int, inputs: seq<Exhibit>)
    ensures var j := RunTogether(window, inputs);
      Explained(j.hand, j.adapter.actions, |j.adapter.actions|) && j.hand.last == j.adapter.last
  {
    if inputs == [] {
    } else {
      var j, i := RunTogether(window, inputs[..|inputs| - 1]), inputs[|inputs| - 1];
      CommitmentsExplained(window, inputs[..|inputs| - 1]);
      if Step(j.adapter, i.row).Ok? {
        ActionsOnlyGrow(j.adapter, i.row);
        var a := Advance(j.adapter, i.row);
        AdvanceMovesOn(j.adapter, i.row);
        hide Step, Advance, Explained, Entered;
        ExplainedGrows(j.hand, j.adapter.actions, a.actions, |j.adapter.actions|);
        SeenExplained(j.hand, GlanceAt(a, i), |j.adapter.actions|);
        LastSeen(j.hand, GlanceAt(a, i));
      }
    }
  }

  lemma AdvanceMovesOn(s: Adapter, row: Row)
    requires Step(s, row).Ok?
    ensures !BadFrame(s, row) && Advance(s, row).last == Some(row.frame)
  {
    if !Blocked(row) {
      SettledBalance(s, row);
      hide Settled, Balanced, Prepared;
      CloseKeeps(Settled(s, row), row, 0);
    }
  }

  lemma {:induction false} ConsumeAllKeeps(h: Hand, actions: seq<Action>, frame: int)
    ensures var c := ConsumeAll(h, actions, frame);
      && c.last == h.last && c.epoch == h.epoch && c.opening == h.opening && h.applied <= c.applied
      && (h.tainted ==> c.tainted) && (h.totals.Some? <==> c.totals.Some?)
      && (h.totals.Some? ==> forall s | 0 <= s < SEATS :: h.totals.value[s] <= c.totals.value[s])
  {
    if actions != [] { ConsumeAllKeeps(h, actions[..|actions| - 1], frame); }
  }

  lemma LastSeen(h: Hand, g: Glance)
    requires !Rejects(h, g)
    ensures Seen(h, g).last == Some(g.frame)
  {
    ConsumeAllKeeps(Entered(h, g), g.adapter.actions, g.frame);
  }

  // ---------------------------------------------------------------- within an epoch

  /** Without a gap and within one epoch the commitments only grow, and a taint stays. */
  lemma CommitmentsOnlyGrow(h: Hand, g: Glance)
    requires !Rejects(h, g) && !Resets(h, g)
    ensures var c := Seen(h, g);
      && c.opening == h.opening && h.applied <= c.applied && (h.tainted ==> c.tainted)
      && (h.totals.Some? <==> c.totals.Some?)
      && (h.totals.Some? ==> forall s | 0 <= s < SEATS :: h.totals.value[s] <= c.totals.value[s])
  {
    ConsumeAllKeeps(Entered(h, g), g.adapter.actions, g.frame);
  }

  /** A frame gap suspends the ledger at once, so only the contiguous start of another epoch can lift a taint. */
  lemma TaintLiftsOnlyWithTheEpoch(h: Hand, g: Glance)
    requires !Rejects(h, g)
    ensures Gap(h, g) ==> Seen(h, g).tainted
    ensures h.tainted && !Seen(h, g).tainted ==> g.epoch != h.epoch && !Gap(h, g)
  {
    ConsumeAllKeeps(Entered(h, g), g.adapter.actions, g.frame);
  }

  /** A tainted ledger stays suspended through any further frames of its epoch. */
  lemma {:induction false} TaintIsAbsorbing(h: Hand, glances: seq<Glance>)
    requires h.tainted && forall i | 0 <= i < |glances| :: glances[i].epoch == h.epoch
    ensures var c := SeenAll(h, glances); c.tainted && c.epoch == h.epoch
    ensures ReportOf(SeenAll(h, glances), None).status != CommitmentsObserved
  {
    if glances != [] {
      var init, g := glances[..|glances| - 1], glances[|glances| - 1];
      TaintIsAbsorbing(h, init);
      var c := SeenAll(h, init);
      if !Rejects(c, g) {
        TaintLiftsOnlyWithTheEpoch(c, g);
        ConsumeAllKeeps(Entered(c, g), g.adapter.actions, g.frame);
      }
    }
  }

  function SeenAll(h: Hand, glances: seq<Glance>): Hand
  {
    if glances == [] then h else Seen(SeenAll(h, glances[..|glances| - 1]), glances[|glances| - 1])
  }

  /**
   Commitments published as observed account for every action the adapter holds for their epoch, each identity once.
   */
  lemma ObservedIsComplete(window: int, inputs: seq<Exhibit>)
    requires var h := RunTogether(window, inputs).hand; ReportOf(h, None).status == CommitmentsObserved
    ensures var j := RunTogether(window, inputs);
      var acts := EpochActions(j.adapter.actions, j.hand.epoch);
      && j.hand.opening.Some? && j.hand.applied == Ids(acts)
      && (forall s | 0 <= s < SEATS ::
            j.hand.totals.value[s] == Posts(j.hand.opening.value.debits)[s] + SeatDebits(FirstOnes(acts), s))
  {
    CommitmentsExplained(window, inputs);
    hide RunTogether;
    var j := RunTogether(window, inputs);
    var actions := j.adapter.actions;
    assert actions[..|actions|] == actions;
    var taken :| Explains(j.hand, actions[..|actions|], taken);
    FirstOnesAreDistinct(EpochActions(actions, j.hand.epoch));
  }
}
