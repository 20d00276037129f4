/**
 The street baseline over the raw observation: which frames are consistent, with what view, and the reason given for
 every other frame.
 */
module BaselineRules {
  import opened Common
  import opened StateAdapter
  import opened StreetBaseline

  // ---------------------------------------------------------------- one seat

  predicate Amounts(r: Reading)
  {
    r.Shown? && r.value >= 0.0
  }

  /** An absent seat shows nothing; any other shows a coin with an amount, or neither. */
  predicate SeatClear(o: Observation, c: Context, s: int)
    requires 0 <= s < SEATS
  {
    if c.absent[s] then o.wagers[s] == Missing && o.visibility[s] == VisibleEmpty
    else
      || (o.wagers[s] == Missing && o.visibility[s] == VisibleEmpty)
      || (Amounts(o.wagers[s]) && o.visibility[s] == VisibleCoin)
  }

  /** What a clear seat contributes, and why. */
  predicate SeatIs(o: Observation, c: Context, s: int, w: Wager, support: Support)
    requires 0 <= s < SEATS
  {
    if c.absent[s] then w == NotApplicable && support == AbsentAndEmpty
    else if o.wagers[s].Shown? then w == Chips(o.wagers[s].value) && support == CoinPrefixed
    else w == Chips(0.0) && support == EmptyBeforeAction
  }

  /** The reason an unclear seat gives. */
  function Complaint(o: Observation, c: Context, s: int): Reason
    requires 0 <= s < SEATS
  {
    if c.absent[s] then AbsentSeatConflict
    else if o.wagers[s] != Missing && o.visibility[s] == VisibleCoin then UnknownMoney else UnknownRectangle
  }

  lemma SeatExactly(o: Observation, c: Context, s: int)
    requires 0 <= s < SEATS
    ensures ReadSeat(o, c, s).Ok? <==> SeatClear(o, c, s)
    ensures ReadSeat(o, c, s).Ok? ==> SeatIs(o, c, s, ReadSeat(o, c, s).value.0, ReadSeat(o, c, s).value.1)
    ensures ReadSeat(o, c, s).Raised? ==> ReadSeat(o, c, s).error == Complaint(o, c, s)
  {}

  lemma {:induction false} SeatsExactly(o: Observation, c: Context, n: int)
    requires 0 <= n <= SEATS
    ensures ReadSeats(o, c, n).Ok? <==> forall s | 0 <= s < n :: SeatClear(o, c, s)
    ensures ReadSeats(o, c, n).Ok? ==>
      var r := ReadSeats(o, c, n).value;
      |r.0| == |r.1| == n && forall s | 0 <= s < n :: SeatIs(o, c, s, r.0[s], r.1[s])
    ensures ReadSeats(o, c, n).Raised? ==>
      exists s :: FirstUnclear(o, c, s) && s < n && ReadSeats(o, c, n).error == Complaint(o, c, s)
  {
    if n > 0 {
      SeatsExactly(o, c, n - 1);
      SeatExactly(o, c, n - 1);
      hide SeatClear, SeatIs, Complaint, ReadSeat;
      if ReadSeats(o, c, n - 1).Raised? {
        var s :| FirstUnclear(o, c, s) && s < n - 1 && ReadSeats(o, c, n - 1).error == Complaint(o, c, s);
      } else if ReadSeats(o, c, n).Raised? {
        assert FirstUnclear(o, c, n - 1);
      }
    }
  }

  predicate FirstUnclear(o: Observation, c: Context, s: int)
  {
    0 <= s < SEATS && !SeatClear(o, c, s) && forall t | 0 <= t < s :: SeatClear(o, c, t)
  }

  // ---------------------------------------------------------------- one frame

  predicate Causal(o: Observation, c: Context)
  {
    && o.sceneSupported && o.unobstructed && c.epoch.Some? && c.newStreet && c.noEarlierActions
    && !c.collectionOrModal && o.actor.Some? && 0 <= o.actor.value < 8
  }

  function Chip(o: Observation, c: Context, s: int): real
    requires 0 <= s < SEATS
  {
    if !c.absent[s] && o.wagers[s].Shown? then o.wagers[s].value else 0.0
  }

  function ChipsShown(o: Observation, c: Context): real
  {
    Chip(o, c, 0) + Chip(o, c, 1) + Chip(o, c, 2) + Chip(o, c, 3) + Chip(o, c, 4) + Chip(o, c, 5) + Chip(o, c, 6)
    + Chip(o, c, 7)
  }

  predicate AllClear(o: Observation, c: Context)
  {
    forall s | 0 <= s < SEATS :: SeatClear(o, c, s)
  }

  lemma SumExactly(o: Observation, c: Context)
    requires ReadSeats(o, c, SEATS).Ok?
    ensures Sum(ReadSeats(o, c, SEATS).value.0) == ChipsShown(o, c)
  {
    SeatsExactly(o, c, SEATS);
    var w := ReadSeats(o, c, SEATS).value.0;
    hide ReadSeats;
    forall s | 0 <= s < SEATS ensures (if w[s].Chips? then w[s].value else 0.0) == Chip(o, c, s) {
      assert SeatIs(o, c, s, w[s], ReadSeats(o, c, SEATS).value.1[s]);
    }
    hide SeatIs, SeatClear, Chip;
    SumNext(w, 0);
    SumNext(w, 1);
    SumNext(w, 2);
    SumNext(w, 3);
    SumNext(w, 4);
    SumNext(w, 5);
    SumNext(w, 6);
    SumNext(w, 7);
    assert w[..8] == w && w[..0] == [];
  }

  lemma SumNext(w: seq<Wager>, n: nat)
    requires n < |w|
    ensures Sum(w[..n + 1]) == Sum(w[..n]) + if w[n].Chips? then w[n].value else 0.0
  {
    assert w[..n + 1][..n] == w[..n];
  }

  /**
   A frame is consistent with a view exactly when its context is causal, its actor fresh, its title the center plus all
   chips shown, all seats clear and some seat present; the view then holds what the frame shows.
   */
  lemma ConsistentExactly(o: Observation, c: Context, v: View)
    ensures Evidence(o, c) == Ok(Consistent(v)) <==>
      && Causal(o, c) && o.actorFresh && AllClear(o, c) && (exists s :: 0 <= s < SEATS && !c.absent[s])
      && Amounts(o.title) && Amounts(o.center) && o.title.value == o.center.value + ChipsShown(o, c)
      && Views(o, c, v)
  {
    SeatsExactly(o, c, SEATS);
    var seats := ReadSeats(o, c, SEATS);
    if seats.Ok? {
      SumExactly(o, c);
      PriceExactly(o, c);
      hide ReadSeats, Sum, Price, ChipsShown, FirstUnclear;
      if Views(o, c, v) { SameSeats(o, c, v, seats.value.0, seats.value.1); }
    }
    hide ReadSeats, Sum, Price, ChipsShown, FirstUnclear, SeatClear, SeatIs;
  }

  /** The view: the context's epoch, the actor, what each seat contributes, the largest contribution, the amounts. */
  predicate Views(o: Observation, c: Context, v: View)
  {
    && c.epoch == Some(v.epoch) && o.actor == Some(v.actor) && o.title == Shown(v.title) && o.center == Shown(v.center)
    && |v.wagers| == 8 && |v.supports| == 8
    && (forall s | 0 <= s < SEATS :: SeatIs(o, c, s, v.wagers[s], v.supports[s]))
    && (forall s | 0 <= s < SEATS && !c.absent[s] :: Chip(o, c, s) <= v.price)
    && (exists s :: 0 <= s < SEATS && !c.absent[s] && Chip(o, c, s) == v.price)
  }

  lemma SameSeats(o: Observation, c: Context, v: View, wagers: seq<Wager>, supports: seq<Support>)
    requires Views(o, c, v) && |wagers| == |supports| == 8
    requires forall s | 0 <= s < SEATS :: SeatIs(o, c, s, wagers[s], supports[s])
    ensures v.wagers == wagers && v.supports == supports
  {
    forall s | 0 <= s < SEATS ensures v.wagers[s] == wagers[s] && v.supports[s] == supports[s] {
      assert SeatIs(o, c, s, v.wagers[s], v.supports[s]) && SeatIs(o, c, s, wagers[s], supports[s]);
    }
  }

  /** The price of readable seats: the largest chip of a seat that is not absent. */
  lemma PriceExactly(o: Observation, c: Context)
    requires ReadSeats(o, c, SEATS).Ok?
    ensures var price := Price(ReadSeats(o, c, SEATS).value.0);
      && (price.None? <==> forall s | 0 <= s < SEATS :: c.absent[s])
      && (forall p :: price == Some(p) <==>
            (forall s | 0 <= s < SEATS && !c.absent[s] :: Chip(o, c, s) <= p)
            && (exists s :: 0 <= s < SEATS && !c.absent[s] && Chip(o, c, s) == p))
  {
    SeatsExactly(o, c, SEATS);
    var w := ReadSeats(o, c, SEATS).value.0;
    PriceIsMaximum(w);
    var price := Price(w);
    forall s | 0 <= s < SEATS
      ensures (w[s].NotApplicable? <==> c.absent[s]) && (w[s].Chips? ==> w[s].value == Chip(o, c, s))
    {
      assert SeatIs(o, c, s, w[s], ReadSeats(o, c, SEATS).value.1[s]);
    }
    hide ReadSeats, Price, SeatIs, SeatClear, FirstUnclear;
    if price.Some? {
      var s :| 0 <= s < SEATS && w[s] == Chips(price.value);
      assert !c.absent[s] && Chip(o, c, s) == price.value;
    }
  }

  /** The reason given for a frame is that of the first requirement it misses; seats complain in order. */
  lemma ReasonExactly(o: Observation, c: Context, r: Reason)
    ensures Evidence(o, c) == Ok(Unclear(r)) <==>
      if !Causal(o, c) then r == IncompleteContext
      else if !o.actorFresh then r == NoFreshActor
      else if !Amounts(o.title) || !Amounts(o.center) then r == UnknownMoney
      else if !AllClear(o, c) then exists s :: FirstUnclear(o, c, s) && r == Complaint(o, c, s)
      else r == PartitionDisagrees && o.title.value != o.center.value + ChipsShown(o, c)
  {
    SeatsExactly(o, c, SEATS);
    var seats := ReadSeats(o, c, SEATS);
    if seats.Ok? { SumExactly(o, c); }
    hide ReadSeats, Sum, Price, ChipsShown, Complaint, SeatIs, SeatClear;
  }

  // ---------------------------------------------------------------- the tracker

  /**
   One observation: a negative frame or a raising partition changes nothing; a frame that is not later forgets
   everything; otherwise the frame is remembered, and yields a candidate exactly when the frame before it was the one
   remembered and both are consistent with the same view.
   */
  lemma TrackExactly(previous: Option<(int, Partition)>, frame: int, o: Observation, c: Context)
    ensures var t, e := Track(previous, frame, o, c), Evidence(o, c);
      && (frame < 0 ==> t == (previous, Raised(NonnegativeFrameRequired)))
      && (frame >= 0 && e.Raised? ==> t == (previous, Raised(NoNumericWager)))
      && (frame >= 0 && e.Ok? && previous.Some? && frame <= previous.value.0 ==>
            t == (None, Raised(DuplicateOrBackwards)))
      && (frame >= 0 && e.Ok? && (previous.Some? ==> previous.value.0 < frame) ==>
            && t.0 == Some((frame, e.value))
            && (forall r | e.value == Unclear(r) :: t.1 == Ok(Diagnostic(r)))
            && (forall v | e.value == Consistent(v) ::
                  t.1 == if previous == Some((frame - 1, Consistent(v)))
                         then Ok(Conditional(Baseline(v, frame - 1, frame)))
                         else Ok(Diagnostic(TwoStableFramesRequired))))
  {
    hide ReadSeats, Sum, Price, CausalContext, Value;
  }
}
