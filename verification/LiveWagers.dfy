/**
 The causal wager ledger of one street: it starts from a two-frame baseline, adds every confirmed action of the
 street once, and shows its totals only while the display agrees with them.
 */
module LiveWagers {
  import opened Common
  import opened StateAdapter
  import opened StreetBaseline

  /** What the wager reader adds to the adapter's row. */
  datatype Display = Display(title: Reading, center: Reading, wagers: Readings, visibility: Visibilities,
    actor: Option<int>, actorFresh: bool)

  datatype Observed = Observed(epoch: Option<int>, stage: Option<Street>)

  datatype Identity = Identity(frame: int, slot: int, kind: Kind)

  datatype Signature = Signature(wagers: Readings, title: Money, center: real)

  datatype Ledger = Ledger(
    last: Option<int>, key: Option<Observed>, previous: Option<(int, Partition)>, baseline: Option<Baseline>,
    totals: seq<Wager>, used: set<Identity>, signature: Option<Signature>, conflictStart: Option<int>)

  datatype Failure = AdapterFirst | IncreasingFramesRequired | InBaseline(error: StreetBaseline.Error) | NoAmounts

  datatype Why =
    | NoStreetContext | DealUnanchored | NoBaseline(reason: Reason) | CenterUnreadable | CenterChanged
    | UnresolvedAction | DisplayConflict | PendingAction

  datatype Outcome =
    | Published(wagers: seq<Wager>, price: real, first: int, second: int, applied: nat)
    | Withheld(why: Why)
    | Failed(failure: Failure)

  datatype Reply = Reply(next: Ledger, outcome: Outcome)

  // ---------------------------------------------------------------- reading the adapter

  /** The stage of the current frame: the supported street, or one a new board geometry proposes. */
  function Stage(a: Adapter): Option<Street>
  {
    var stage := if a.boardSupported then a.street else None;
    if a.geometryRun.Some? && 3 <= a.geometryRun.value.count <= 5
       && a.geometryRun.value.count >= CountOf(stage) && a.geometryRun.value.count >= CountOf(a.street)
    then Some(StreetOf(a.geometryRun.value.count)) else stage
  }

  function KeyNow(a: Adapter): Observed
  {
    Observed(a.epoch, Stage(a))
  }

  predicate OfKey(epoch: Option<int>, street: Option<Street>, k: Key)
  {
    epoch == Some(k.epoch) && street == Some(k.street)
  }

  /** The actions of one epoch and street, oldest first. */
  function ActionsOf(actions: seq<Action>, k: Key): seq<Action>
  {
    if actions == [] then []
    else
      var a := actions[|actions| - 1];
      ActionsOf(actions[..|actions| - 1], k) + if OfKey(a.epoch, a.street, k) then [a] else []
  }

  predicate Waiting(pending: seq<Pending>, k: Key)
  {
    exists i | 0 <= i < |pending| :: OfKey(pending[i].epoch, pending[i].street, k)
  }

  predicate CashMoved(cash: seq<Cash>, street: Street)
  {
    exists i | 0 <= i < |cash| :: cash[i].street == Some(street)
  }

  predicate NothingYet(a: Adapter, k: Key)
  {
    ActionsOf(a.actions, k) == [] && !Waiting(a.pending, k) && !CashMoved(a.cash, k.street)
  }

  /** How the last event of an epoch was opened. */
  function LastStatus(events: seq<EpochEvent>, epoch: int): Option<EpochStatus>
  {
    if events == [] then None
    else if events[|events| - 1].epoch == epoch then Some(events[|events| - 1].status)
    else LastStatus(events[..|events| - 1], epoch)
  }

  function ContextOf(row: Row, a: Adapter, k: Key): Context
  {
    Context(Some(k), true, NothingYet(a, k), false, seq(SEATS, s requires 0 <= s < SEATS => Absent(row.cues[s])))
  }

  function CurrentOf(row: Row, d: Display): Observation
  {
    Observation(row.sceneSupported, !Blocked(row), d.actor, d.actorFresh, d.title, d.center, d.wagers, d.visibility)
  }

  // ---------------------------------------------------------------- one turn

  function Empty(): Ledger
  {
    Ledger(None, None, None, None, [], {}, None, None)
  }

  function Invalidated(w: Ledger): Ledger
  {
    Ledger(w.last, w.key, None, None, [], {}, None, None)
  }

  function Rekeyed(w: Ledger, frame: int, k: Observed): Ledger
  {
    (if w.key == Some(k) then w else Invalidated(w)).(last := Some(frame), key := Some(k))
  }

  function IdentityOf(a: Action): Identity
  {
    Identity(a.frame, a.slot, a.kind)
  }

  datatype Applied = Applied(totals: seq<Wager>, used: set<Identity>)

  predicate Addable(a: Action, totals: seq<Wager>)
  {
    Amount(a.amount).Some? && 0 <= a.slot < |totals| && totals[a.slot].Chips? && totals[a.slot].value >= 0.0
  }

  function ApplyOne(t: Applied, a: Action): Option<Applied>
  {
    if IdentityOf(a) in t.used then Some(t)
    else if !Addable(a, t.totals) then None
    else Some(Applied(t.totals[a.slot := Chips(t.totals[a.slot].value + a.amount.value)], t.used + {IdentityOf(a)}))
  }

  /** Adds each action whose identity is new; one that cannot be added spoils the ledger. */
  function Apply(t: Applied, actions: seq<Action>): Option<Applied>
  {
    if actions == [] then Some(t)
    else
      match Apply(t, actions[..|actions| - 1])
      case None => None
      case Some(u) => ApplyOne(u, actions[|actions| - 1])
  }

  predicate Contradicts(d: Display, totals: seq<Wager>, s: int)
    requires 0 <= s < SEATS
  {
    d.wagers[s] != Missing && Value(d.wagers[s]) != (if s < |totals| then Amount(Numeric(totals[s])) else None)
  }

  predicate UnknownRegion(d: Display, s: int)
    requires 0 <= s < SEATS
  {
    d.wagers[s] == Missing && d.visibility[s] != VisibleEmpty
  }

  predicate AnyContradiction(d: Display, totals: seq<Wager>)
  {
    exists s | 0 <= s < SEATS :: Contradicts(d, totals, s)
  }

  predicate AnyUnknownRegion(d: Display)
  {
    exists s | 0 <= s < SEATS :: UnknownRegion(d, s)
  }

  /** The last gate: the display has to confirm the ledger, and no glyph of the street may still be waiting. */
  function Compared(w: Ledger, frame: int, k: Key, a: Adapter, d: Display, b: Baseline, center: real): Reply
  {
    var title, expected := Value(d.title), center + Sum(w.totals);
    var signature := Signature(d.wagers, title, center);
    var seen := w.(signature := Some(signature));
    if AnyContradiction(d, w.totals) || AnyUnknownRegion(d) || title != Some(expected) then
      var positive := AnyContradiction(d, w.totals) || (title.Some? && title.value != expected);
      var since := if !positive then None else if w.conflictStart.None? then Some(frame) else w.conflictStart;
      Reply(if positive && w.signature == Some(signature) && !Waiting(a.pending, k) && frame - since.value > 12
           then Invalidated(seen) else seen.(conflictStart := since),
           Withheld(DisplayConflict))
    else
      var calm := seen.(conflictStart := None);
      if Waiting(a.pending, k) then Reply(calm, Withheld(PendingAction))
      else if Price(w.totals).None? then Reply(calm, Failed(NoAmounts))
      else Reply(calm, Published(w.totals, Price(w.totals).value, b.first, b.second, |w.used|))
  }

  /** With a baseline at hand: the center must not have moved, and every action of the street must be known. */
  function Accounted(w: Ledger, frame: int, k: Key, a: Adapter, d: Display, b: Baseline): Reply
  {
    var center := Value(d.center);
    if center.None? then Reply(w.(signature := None, conflictStart := None), Withheld(CenterUnreadable))
    else if center.value != b.view.center then Reply(Invalidated(w), Withheld(CenterChanged))
    else
      match Apply(Applied(w.totals, w.used), ActionsOf(a.actions, k))
      case None => Reply(Invalidated(w), Withheld(UnresolvedAction))
      case Some(t) => Compared(w.(totals := t.totals, used := t.used), frame, k, a, d, b, center.value)
  }

  function Based(w: Ledger, row: Row, k: Key, a: Adapter, d: Display): Reply
  {
    if w.baseline.Some? then Accounted(w, row.frame, k, a, d, w.baseline.value)
    else
      var tracked := Track(w.previous, row.frame, CurrentOf(row, d), ContextOf(row, a, k));
      var seen := w.(previous := tracked.0);
      match tracked.1
      case Raised(e) => Reply(seen, Failed(InBaseline(e)))
      case Ok(Diagnostic(reason)) => Reply(seen, Withheld(NoBaseline(reason)))
      case Ok(Conditional(b)) =>
        Accounted(seen.(baseline := Some(b), totals := b.view.wagers), row.frame, k, a, d, b)
  }

  function Gated(w: Ledger, row: Row, a: Adapter, d: Display): Reply
  {
    var now := KeyNow(a);
    var rekeyed := Rekeyed(w, row.frame, now);
    if (w.last.Some? && row.frame != w.last.value + 1) || Blocked(row) || now.stage.None? || now.epoch.None?
    then Reply(Invalidated(rekeyed), Withheld(NoStreetContext))
    else
      var k := Key(now.epoch.value, now.stage.value);
      if k.street == Preflop && LastStatus(a.epochEvents, k.epoch) != Some(MultiPostDeal)
        then Reply(rekeyed, Withheld(DealUnanchored))
      else Based(rekeyed, row, k, a, d)
  }

  function Observing(w: Ledger, row: Row, a: Adapter, d: Display): Reply
  {
    if a.last != Some(row.frame) then Reply(w, Failed(AdapterFirst))
    else if w.last.Some? && row.frame <= w.last.value then Reply(w, Failed(IncreasingFramesRequired))
    else Gated(w, row, a, d)
  }

  // ---------------------------------------------------------------- the object

  class CausalWagersV2 {
    var last: Option<int>
    var key: Option<Observed>
    var initializer: StreetBaselineCandidate
    var baseline: Option<Baseline>
    var totals: seq<Wager>
    var used: set<Identity>
    var signature: Option<Signature>
    var conflictStart: Option<int>

    constructor ()
      ensures State() == Empty() && fresh(initializer)
    {
      last, key, baseline, totals, used, signature, conflictStart := None, None, None, [], {}, None, None;
      initializer := new StreetBaselineCandidate();
    }

    function State(): Ledger
      reads this, initializer
    {
      Ledger(last, key, initializer.previous, baseline, totals, used, signature, conflictStart)
    }

    method Invalidate()
      modifies this
      ensures fresh(initializer) && State() == Invalidated(old(State()))
    {
      baseline, totals, used := None, [], {};
      initializer := new StreetBaselineCandidate();
      signature, conflictStart := None, None;
    }

    method Rekey(frame: int, k: Observed)
      modifies this
      ensures (fresh(initializer) || initializer == old(initializer)) && State() == Rekeyed(old(State()), frame, k)
    {
      last := Some(frame);
      if Some(k) != key {
        Invalidate();
        key := Some(k);
      }
    }

    method ApplyActions(actions: seq<Action>) returns (known: bool)
      modifies `totals, `used
      ensures known == Apply(Applied(old(totals), old(used)), actions).Some?
      ensures known ==> Apply(Applied(old(totals), old(used)), actions).value == Applied(totals, used)
    {
      ghost var start := Applied(totals, used);
      for i := 0 to |actions|
        invariant Apply(start, actions[..i]) == Some(Applied(totals, used))
      {
        assert actions[..i + 1][..i] == actions[..i];
        var a := actions[i];
        if IdentityOf(a) !in used {
          if !Addable(a, totals) {
            Spoiled(start, actions, i + 1);
            return false;
          }
          totals := totals[a.slot := Chips(totals[a.slot].value + a.amount.value)];
          used := used + {IdentityOf(a)};
        }
      }
      assert actions[..|actions|] == actions;
      known := true;
    }

    method Compare(frame: int, k: Key, a: Adapter, d: Display, b: Baseline, center: real) returns (r: Outcome)
      modifies this
      ensures (fresh(initializer) || initializer == old(initializer))
      ensures Reply(State(), r) == Compared(old(State()), frame, k, a, d, b, center)
    {
      hide ActionsOf;
      var title, expected := Value(d.title), center + Sum(totals);
      var now := Signature(d.wagers, title, center);
      var stable := signature == Some(now);
      signature := Some(now);
      if AnyContradiction(d, totals) || AnyUnknownRegion(d) || title != Some(expected) {
        var positive := AnyContradiction(d, totals) || (title.Some? && title.value != expected);
        if !positive {
          conflictStart := None;
        } else if conflictStart.None? {
          conflictStart := Some(frame);
        }
        if positive && stable && !Waiting(a.pending, k) && frame - conflictStart.value > 12 { Invalidate(); }
        return Withheld(DisplayConflict);
      }
      conflictStart := None;
      if Waiting(a.pending, k) { return Withheld(PendingAction); }
      var price := Price(totals);
      if price.None? { return Failed(NoAmounts); }
      r := Published(totals, price.value, b.first, b.second, |used|);
    }

    method Account(frame: int, k: Key, a: Adapter, d: Display, b: Baseline) returns (r: Outcome)
        modifies this
      ensures (fresh(initializer) || initializer == old(initializer))
      ensures Reply(State(), r) == Accounted(old(State()), frame, k, a, d, b)
    {
      hide Compared, Apply, ActionsOf;
      var center := Value(d.center);
      if center.None? {
        signature, conflictStart := None, None;
        return Withheld(CenterUnreadable);
      }
      if center.value != b.view.center {
        Invalidate();
        return Withheld(CenterChanged);
      }
      var known := ApplyActions(ActionsOf(a.actions, k));
      if !known {
        Invalidate();
        return Withheld(UnresolvedAction);
      }
      r := Compare(frame, k, a, d, b, center.value);
    }

    method StartOrAccount(row: Row, k: Key, a: Adapter, d: Display) returns (r: Outcome)
      modifies this, initializer
      ensures (fresh(initializer) || initializer == old(initializer))
      ensures Reply(State(), r) == Based(old(State()), row, k, a, d)
    {
      hide Accounted, ActionsOf;
      if baseline.None? {
        var verdict := initializer.Observe(row.frame, CurrentOf(row, d), ContextOf(row, a, k));
        match verdict {
          case Raised(e) => return Failed(InBaseline(e));
          case Ok(Diagnostic(reason)) => return Withheld(NoBaseline(reason));
          case Ok(Conditional(b)) =>
            baseline := Some(b);
            totals := b.view.wagers;
        }
      }
      r := Account(row.frame, k, a, d, baseline.value);
    }

    /** Consumes the adapter after the adapter consumed the same row. */
    method Observe(row: Row, adapter: AA8StateAdapterV2, d: Display) returns (r: Outcome)
      modifies this, initializer
      ensures (fresh(initializer) || initializer == old(initializer))
      ensures Reply(State(), r) == Observing(old(State()), row, adapter.State(), d)
    {
      hide Based, Invalidated, Rekeyed;
      var a := adapter.State();
      if a.last != Some(row.frame) { return Failed(AdapterFirst); }
      if last.Some? && row.frame <= last.value { return Failed(IncreasingFramesRequired); }
      var gap := last.Some? && row.frame != last.value + 1;
      var now := KeyNow(a);
      Rekey(row.frame, now);
      if gap || Blocked(row) || now.stage.None? || now.epoch.None? {
        Invalidate();
        return Withheld(NoStreetContext);
      }
      var k := Key(now.epoch.value, now.stage.value);
      if k.street == Preflop && LastStatus(a.epochEvents, k.epoch) != Some(MultiPostDeal) {
        return Withheld(DealUnanchored);
      }
      r := StartOrAccount(row, k, a, d);
    }
  }

  lemma {:induction false} Spoiled(t: Applied, actions: seq<Action>, n: nat)
    requires n <= |actions| && Apply(t, actions[..n]).None?
    ensures Apply(t, actions).None?
    decreases |actions|
  {
    if n == |actions| {
      assert actions[..n] == actions;
    } else {
      var init := actions[..|actions| - 1];
      assert init[..n] == actions[..n];
      Spoiled(t, init, n);
    }
  }
}
