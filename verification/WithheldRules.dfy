/**
 What the wager ledger answers and remembers on the frames it does not publish: the reason, and what it forgets.
 */
module WithheldRules {
  import opened Common
  import opened StateAdapter
  import opened StreetBaseline
  import opened LiveWagers
  import opened WagerRuns
  import opened WagerRules

  /** Nothing of the street is kept: no baseline, no totals, no counted action, no tracked frame, no conflict. */
  predicate Forgotten(w: Ledger)
  {
    w.previous == None && w.baseline == None && w.totals == [] && w.used == {} && w.signature == None
    && w.conflictStart == None
  }

  // ---------------------------------------------------------------- the display

  /** A wager is shown that is not the ledger's. */
  predicate Differs(d: Display, t: seq<Wager>, s: int)
    requires 0 <= s < SEATS
  {
    d.wagers[s] != Missing && !Confirmed(d, t, s)
  }

  predicate TitleRead(d: Display)
  {
    d.title.Shown? && d.title.value >= 0.0
  }

  /** A seat or the title fails to confirm the totals. */
  predicate Doubtful(d: Display, center: real, t: seq<Wager>)
  {
    (exists s | 0 <= s < SEATS :: !Confirmed(d, t, s)) || !TitleRead(d) || d.title.value != center + Sum(t)
  }

  /** More than that: a shown wager or the title speaks against them. */
  predicate Positive(d: Display, center: real, t: seq<Wager>)
  {
    (exists s | 0 <= s < SEATS :: Differs(d, t, s)) || (TitleRead(d) && d.title.value != center + Sum(t))
  }

  predicate GlyphWaits(a: Adapter, k: Key)
  {
    exists i | 0 <= i < |a.pending| :: a.pending[i].epoch == Some(k.epoch) && a.pending[i].street == Some(k.street)
  }

  function Image(d: Display, center: real): Signature
  {
    Signature(d.wagers, if TitleRead(d) then Some(d.title.value) else None, center)
  }

  lemma DoubtExactly(d: Display, center: real, t: seq<Wager>)
    ensures Doubtful(d, center, t) <==>
      AnyContradiction(d, t) || AnyUnknownRegion(d) || Value(d.title) != Some(center + Sum(t))
    ensures Positive(d, center, t) <==>
      AnyContradiction(d, t) || (Value(d.title).Some? && Value(d.title).value != center + Sum(t))
  {
    forall s | 0 <= s < SEATS ensures (Confirmed(d, t, s) <==> !Contradicts(d, t, s) && !UnknownRegion(d, s))
      && (Differs(d, t, s) <==> Contradicts(d, t, s))
    {
      ConfirmedExactly(d, t, s);
    }
    hide Confirmed, Contradicts, UnknownRegion, Differs, Sum;
  }

  /**
   The comparison with the display. An unchanged image that has spoken against the totals for more than twelve frames,
   with no glyph waiting, makes the ledger forget the street. Any other doubt withholds the frame and dates the
   conflict, and an image that confirms the totals clears it.
   */
  lemma ComparedMemory(w: Ledger, frame: int, k: Key, a: Adapter, d: Display, b: Baseline, center: real)
    ensures var r := Compared(w, frame, k, a, d, b, center);
      if Doubtful(d, center, w.totals) then
        && r.outcome == Withheld(DisplayConflict)
        && if Positive(d, center, w.totals) && w.signature == Some(Image(d, center)) && !GlyphWaits(a, k)
              && w.conflictStart.Some? && frame > w.conflictStart.value + 12
           then Forgotten(r.next) && r.next.last == w.last && r.next.key == w.key
           else r.next == w.(signature := Some(Image(d, center)),
                             conflictStart := if !Positive(d, center, w.totals) then None
                                              else if w.conflictStart.None? then Some(frame) else w.conflictStart)
      else
        && r.next == w.(signature := Some(Image(d, center)), conflictStart := None)
        && (r.outcome == Withheld(PendingAction) <==> GlyphWaits(a, k))
        && (r.outcome == Failed(NoAmounts) <==>
              !GlyphWaits(a, k) && forall s | 0 <= s < |w.totals| :: w.totals[s].NotApplicable?)
        && (r.outcome.Withheld? || r.outcome.Published? || r.outcome == Failed(NoAmounts))
        && r.outcome != Withheld(DisplayConflict)
  {
    DoubtExactly(d, center, w.totals);
    PriceIsMaximum(w.totals);
    assert Waiting(a.pending, k) <==> GlyphWaits(a, k);
    hide Doubtful, Positive, AnyContradiction, AnyUnknownRegion, Waiting, GlyphWaits, Sum, Price;
  }

  // ---------------------------------------------------------------- the accounts

  /** With a baseline: an unreadable center, a moved center and an action that cannot be counted come first. */
  lemma AccountedMemory(w: Ledger, frame: int, k: Key, a: Adapter, d: Display, b: Baseline)
    ensures var r, start, actions := Accounted(w, frame, k, a, d, b), Applied(w.totals, w.used),
      ActionsOf(a.actions, k);
      && (r.outcome == Withheld(CenterUnreadable) <==> !(d.center.Shown? && d.center.value >= 0.0))
      && (r.outcome == Withheld(CenterUnreadable) ==> r.next == w.(signature := None, conflictStart := None))
      && (r.outcome == Withheld(CenterChanged) <==>
            d.center.Shown? && d.center.value >= 0.0 && d.center.value != b.view.center)
      && (r.outcome == Withheld(UnresolvedAction) <==>
            d.center == Shown(b.view.center) && b.view.center >= 0.0 && !Countable(actions, start))
      && (r.outcome == Withheld(CenterChanged) || r.outcome == Withheld(UnresolvedAction) ==>
            Forgotten(r.next) && r.next.last == w.last && r.next.key == w.key)
      && (d.center == Shown(b.view.center) && b.view.center >= 0.0 && Countable(actions, start) ==>
            Apply(start, actions).Some? &&
            var t := Apply(start, actions).value;
            r == Compared(w.(totals := t.totals, used := t.used), frame, k, a, d, b, b.view.center))
  {
    var start, actions := Applied(w.totals, w.used), ActionsOf(a.actions, k);
    CountedExactly(start, actions);
    if Apply(start, actions).Some? && Value(d.center).Some? {
      var t := Apply(start, actions).value;
      ComparedMemory(w.(totals := t.totals, used := t.used), frame, k, a, d, b, d.center.value);
    }
    hide Compared, Apply, ActionsOf, Countable, Doubtful, Positive, GlyphWaits, Image, SameSeats;
  }

  // ---------------------------------------------------------------- one frame

  /** The ledger as it enters a frame: what it kept, unless epoch or street have changed. */
  function Carried(w: Ledger, row: Row, a: Adapter, stage: Option<Street>): Ledger
  {
    if w.key == Some(Observed(a.epoch, stage)) then w.(last := Some(row.frame))
    else Ledger(Some(row.frame), Some(Observed(a.epoch, stage)), None, None, [], {}, None, None)
  }

  /** The frame follows the last one, is not covered, and has an epoch and a street. */
  predicate Followed(w: Ledger, row: Row, a: Adapter, stage: Option<Street>)
  {
    (w.last.Some? ==> row.frame == w.last.value + 1) && row.sceneSupported && !row.modal && a.epoch.Some? && stage.Some?
  }

  /** What is done before any account is made. */
  lemma GateMemory(w: Ledger, row: Row, a: Adapter, d: Display, stage: Option<Street>)
    requires StageIs(a, stage)
    ensures var r, now := Observing(w, row, a, d), Carried(w, row, a, stage);
      && (a.last != Some(row.frame) <==> r.outcome == Failed(AdapterFirst))
      && (r.outcome == Failed(IncreasingFramesRequired) <==>
            a.last == Some(row.frame) && w.last.Some? && row.frame <= w.last.value)
      && (r.outcome == Failed(AdapterFirst) || r.outcome == Failed(IncreasingFramesRequired) ==> r.next == w)
      && (a.last == Some(row.frame) && (w.last.Some? ==> row.frame > w.last.value) ==>
            && (r.outcome == Withheld(NoStreetContext) <==> !Followed(w, row, a, stage))
            && (!Followed(w, row, a, stage) ==>
                  Forgotten(r.next) && r.next.last == Some(row.frame) && r.next.key == Some(Observed(a.epoch, stage)))
            && (Followed(w, row, a, stage) ==>
                  var k := Key(a.epoch.value, stage.value);
                  && (r.outcome == Withheld(DealUnanchored) <==> !Anchored(a, k))
                  && (!Anchored(a, k) ==> r.next == now)
                  && (Anchored(a, k) ==> r == Based(now, row, k, a, d))))
  {
    StageExactly(a, stage);
    if a.epoch.Some? { PostedExactly(a.epochEvents, a.epoch.value); }
    assert Blocked(row) <==> !row.sceneSupported || row.modal;
    if stage.Some? && a.epoch.Some? {
      BasedOutcome(Carried(w, row, a, stage), row, Key(a.epoch.value, stage.value), a, d);
    }
    hide Stage, StageIs, LastStatus, LastPosted, Based, Blocked;
  }

  /** Once the street is open, the first two answers are not given any more. */
  lemma BasedOutcome(w: Ledger, row: Row, k: Key, a: Adapter, d: Display)
    ensures var o := Based(w, row, k, a, d).outcome;
      o != Failed(AdapterFirst) && o != Failed(IncreasingFramesRequired) && o != Withheld(NoStreetContext)
      && o != Withheld(DealUnanchored)
  {
    hide Track, Apply, ActionsOf, AnyContradiction, AnyUnknownRegion, Waiting, Sum, Price, ContextOf, CurrentOf;
  }

  /** Without a baseline, only what the tracker saw is kept; with one, held or new, the accounts are made. */
  lemma BasedMemory(w: Ledger, row: Row, k: Key, a: Adapter, d: Display, c: Context)
    requires Starting(row, a, k, c)
    ensures var r, tracked := Based(w, row, k, a, d), Track(w.previous, row.frame, Looked(row, d), c);
      && (w.baseline.Some? ==> r == Accounted(w, row.frame, k, a, d, w.baseline.value))
      && (w.baseline.None? ==>
            && (forall e | tracked.1 == Raised(e) ::
                  r == Reply(w.(previous := tracked.0), Failed(InBaseline(e))))
            && (forall why | tracked.1 == Ok(Diagnostic(why)) ::
                  r == Reply(w.(previous := tracked.0), Withheld(NoBaseline(why))))
            && (forall b | tracked.1 == Ok(Conditional(b)) ::
                  r == Accounted(w.(previous := tracked.0, baseline := Some(b), totals := b.view.wagers), row.frame, k,
                    a,
                                 d, b)))
  {
    StartingExactly(row, a, k, c);
    assert Looked(row, d) == CurrentOf(row, d);
    hide Track, Accounted, ContextOf, CurrentOf, Looked, Starting;
  }
}
