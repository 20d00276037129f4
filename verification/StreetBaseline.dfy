/**
 The street baseline: one frame partitions the displayed title into the center and the seats' visible wagers, and
 two consecutive frames that agree in everything become a baseline candidate.
 */
module StreetBaseline {
  import opened Common
  import opened StateAdapter

  /** What a reader returned for one amount: nothing, a text that is not a valid amount, or a number. */
  datatype Reading = Missing | Garbled | Shown(value: real)

  datatype Visibility = VisibleEmpty | VisibleCoin | OtherVisibility

  type Readings = s: seq<Reading> | |s| == SEATS
    witness [Missing, Missing, Missing, Missing, Missing, Missing, Missing, Missing]

  type Visibilities = s: seq<Visibility> | |s| == SEATS
    witness [VisibleEmpty, VisibleEmpty, VisibleEmpty, VisibleEmpty, VisibleEmpty, VisibleEmpty, VisibleEmpty,
      VisibleEmpty]

  type SeatFlags = s: seq<bool> | |s| == SEATS witness [false, false, false, false, false, false, false, false]

  datatype Key = Key(epoch: int, street: Street)

  datatype Observation = Observation(
    sceneSupported: bool, unobstructed: bool, actor: Option<int>, actorFresh: bool, title: Reading, center: Reading,
    wagers: Readings, visibility: Visibilities)

  datatype Context = Context(epoch: Option<Key>, newStreet: bool, noEarlierActions: bool, collectionOrModal: bool,
    absent: SeatFlags)

  datatype Wager = NotApplicable | Chips(value: real)

  datatype Support = AbsentAndEmpty | CoinPrefixed | EmptyBeforeAction

  datatype Reason =
    | IncompleteContext | NoFreshActor | AbsentSeatConflict | UnknownRectangle | UnknownMoney | PartitionDisagrees
    | TwoStableFramesRequired

  datatype View = View(epoch: Key, actor: int, wagers: seq<Wager>, supports: seq<Support>, price: real, title: real,
    center: real)

  datatype Partition = Unclear(reason: Reason) | Consistent(view: View)

  datatype Error = NoNumericWager | NonnegativeFrameRequired | DuplicateOrBackwards

  function Value(r: Reading): Money
  {
    if r.Shown? && r.value >= 0.0 then Some(r.value) else None
  }

  function Numeric(w: Wager): Money
  {
    if w.Chips? then Some(w.value) else None
  }

  // ---------------------------------------------------------------- one frame

  function ReadSeat(o: Observation, c: Context, s: int): Result<(Wager, Support), Reason>
    requires 0 <= s < SEATS
  {
    var shown, visible := o.wagers[s], o.visibility[s];
    if c.absent[s] then
      if shown != Missing || visible != VisibleEmpty then Raised(AbsentSeatConflict)
        else Ok((NotApplicable, AbsentAndEmpty))
    else if shown != Missing && visible == VisibleCoin then
      if Value(shown).None? then Raised(UnknownMoney) else Ok((Chips(shown.value), CoinPrefixed))
    else if shown == Missing && visible == VisibleEmpty then Ok((Chips(0.0), EmptyBeforeAction))
    else Raised(UnknownRectangle)
  }

  /** The first seats of a frame in order; the first seat that cannot be read decides the reason. */
  function ReadSeats(o: Observation, c: Context, n: int): Result<(seq<Wager>, seq<Support>), Reason>
    requires 0 <= n <= SEATS
  {
    if n == 0 then Ok(([], []))
    else
      match ReadSeats(o, c, n - 1)
      case Raised(e) => Raised(e)
      case Ok(before) =>
        match ReadSeat(o, c, n - 1)
        case Raised(e) => Raised(e)
        case Ok(seat) => Ok((before.0 + [seat.0], before.1 + [seat.1]))
  }

  function Sum(wagers: seq<Wager>): real
  {
    if wagers == [] then 0.0
    else Sum(wagers[..|wagers| - 1]) + if wagers[|wagers| - 1].Chips? then wagers[|wagers| - 1].value else 0.0
  }

  /** The largest numeric wager, if there is one. */
  function Price(wagers: seq<Wager>): Option<real>
  {
    if wagers == [] then None
    else
      var before, w := Price(wagers[..|wagers| - 1]), wagers[|wagers| - 1];
      if w.Chips? && (before.None? || w.value > before.value) then Some(w.value) else before
  }

  lemma {:induction false} PriceIsMaximum(wagers: seq<Wager>)
    ensures Price(wagers).None? <==> forall i | 0 <= i < |wagers| :: wagers[i].NotApplicable?
    ensures Price(wagers).Some? ==>
      && (forall i | 0 <= i < |wagers| && wagers[i].Chips? :: wagers[i].value <= Price(wagers).value)
      && (exists i | 0 <= i < |wagers| :: wagers[i] == Chips(Price(wagers).value))
  {
    if wagers != [] {
      var init, w := wagers[..|wagers| - 1], wagers[|wagers| - 1];
      PriceIsMaximum(init);
      assert forall i | 0 <= i < |init| :: init[i] == wagers[i];
      if Price(wagers) == Price(init) && Price(init).Some? {
        var i :| 0 <= i < |init| && init[i] == Chips(Price(init).value);
        assert wagers[i] == Chips(Price(wagers).value);
      }
    }
  }

  predicate CausalContext(o: Observation, c: Context)
  {
    && o.sceneSupported && o.unobstructed && c.epoch.Some? && c.newStreet && c.noEarlierActions && !c.collectionOrModal
    && o.actor.Some? && 0 <= o.actor.value < SEATS
  }

  function Evidence(o: Observation, c: Context): Result<Partition, Error>
  {
    if !CausalContext(o, c) then Ok(Unclear(IncompleteContext))
    else if !o.actorFresh then Ok(Unclear(NoFreshActor))
    else if Value(o.title).None? || Value(o.center).None? then Ok(Unclear(UnknownMoney))
    else
      match ReadSeats(o, c, SEATS)
      case Raised(e) => Ok(Unclear(e))
      case Ok(seats) =>
        if o.center.value + Sum(seats.0) != o.title.value then Ok(Unclear(PartitionDisagrees))
        else if Price(seats.0).None? then Raised(NoNumericWager)
        else Ok(Consistent(View(c.epoch.value, o.actor.value, seats.0, seats.1, Price(seats.0).value, o.title.value,
          o.center.value)))
  }

  method PartitionEvidence(o: Observation, c: Context) returns (r: Result<Partition, Error>)
    ensures r == Evidence(o, c)
  {
    if !CausalContext(o, c) { return Ok(Unclear(IncompleteContext)); }
    if !o.actorFresh { return Ok(Unclear(NoFreshActor)); }
    var title, center := Value(o.title), Value(o.center);
    if title.None? || center.None? { return Ok(Unclear(UnknownMoney)); }
    var wagers: seq<Wager>, supports: seq<Support>, failed: Option<Reason> := [], [], None;
    var s := 0;
    while s < SEATS && failed.None?
      invariant 0 <= s <= SEATS
      invariant ReadSeats(o, c, s) == (if failed.Some? then Raised(failed.value) else Ok((wagers, supports)))
    {
      match ReadSeat(o, c, s) {
        case Raised(e) => failed := Some(e);
        case Ok(seat) => wagers, supports := wagers + [seat.0], supports + [seat.1];
      }
      s := s + 1;
    }
    if failed.Some? {
      FirstFailureDecides(o, c, s, SEATS);
      return Ok(Unclear(failed.value));
    }
    if center.value + Sum(wagers) != title.value { return Ok(Unclear(PartitionDisagrees)); }
    var price := Price(wagers);
    if price.None? { return Raised(NoNumericWager); }
    r := Ok(Consistent(View(c.epoch.value, o.actor.value, wagers, supports, price.value, title.value, center.value)));
  }

  lemma {:induction false} FirstFailureDecides(o: Observation, c: Context, n: int, m: int)
    requires 0 <= n <= m <= SEATS && ReadSeats(o, c, n).Raised?
    ensures ReadSeats(o, c, m) == ReadSeats(o, c, n)
  {
    if n < m { FirstFailureDecides(o, c, n, m - 1); }
  }

  lemma {:induction false} SeatsRead(o: Observation, c: Context, n: int)
    requires 0 <= n <= SEATS
    ensures ReadSeats(o, c, n).Ok? <==> forall s | 0 <= s < n :: ReadSeat(o, c, s).Ok?
    ensures ReadSeats(o, c, n).Ok? ==>
      var r := ReadSeats(o, c, n).value;
      |r.0| == |r.1| == n && forall s | 0 <= s < n :: ReadSeat(o, c, s) == Ok((r.0[s], r.1[s]))
  {
    if n > 0 { SeatsRead(o, c, n - 1); }
  }

  /**
   A frame is consistent exactly when the context is causal, every seat is readable and the title is the center
   plus the wagers; then each seat's wager is what its rectangle shows, and the price is the largest of them.
   */
  lemma ConsistentMeans(o: Observation, c: Context, p: Partition)
    requires Evidence(o, c) == Ok(p)
    ensures p.Consistent? <==>
      && CausalContext(o, c) && o.actorFresh && Value(o.title).Some? && Value(o.center).Some?
      && (forall s | 0 <= s < SEATS :: ReadSeat(o, c, s).Ok?)
      && ReadSeats(o, c, SEATS).Ok? && o.title.value == o.center.value + Sum(ReadSeats(o, c, SEATS).value.0)
    ensures p.Consistent? ==>
      var v := p.view;
      && c.epoch == Some(v.epoch) && c.noEarlierActions && |v.wagers| == SEATS
      && v.title == v.center + Sum(v.wagers) && Value(o.title) == Some(v.title) && Value(o.center) == Some(v.center)
      && (forall s | 0 <= s < SEATS :: v.wagers[s].NotApplicable? <==> c.absent[s])
      && (forall s | 0 <= s < SEATS && !c.absent[s] ::
            v.wagers[s] ==
              Chips(if o.visibility[s] == VisibleCoin && o.wagers[s].Shown? then o.wagers[s].value else 0.0)
            && v.wagers[s].value >= 0.0 && (o.wagers[s] != Missing <==> o.visibility[s] == VisibleCoin))
      && (forall s | 0 <= s < SEATS && v.wagers[s].Chips? :: v.wagers[s].value <= v.price)
      && (exists s | 0 <= s < SEATS :: v.wagers[s] == Chips(v.price))
  {
    SeatsRead(o, c, SEATS);
    if p.Consistent? {
      PriceIsMaximum(p.view.wagers);
      forall s | 0 <= s < SEATS ensures ReadSeat(o, c, s) == Ok((p.view.wagers[s], p.view.supports[s])) {}
    }
  }

  /** A table of absent seats only has no price: the partition raises exactly when the title is the bare center. */
  lemma AllAbsentRaises(o: Observation, c: Context)
    ensures Evidence(o, c).Raised? <==>
      && CausalContext(o, c) && o.actorFresh && Value(o.title).Some? && Value(o.title) == Value(o.center)
      && forall s | 0 <= s < SEATS :: c.absent[s] && o.wagers[s] == Missing && o.visibility[s] == VisibleEmpty
  {
    SeatsRead(o, c, SEATS);
    var seats := ReadSeats(o, c, SEATS);
    if seats.Ok? {
      PriceIsMaximum(seats.value.0);
      forall s | 0 <= s < SEATS ensures ReadSeat(o, c, s).Ok? && seats.value.0[s] == ReadSeat(o, c, s).value.0 {}
      var wagers := seats.value.0;
      if Price(wagers).None? {
        NothingToAdd(wagers);
        forall s | 0 <= s < SEATS ensures c.absent[s] && o.wagers[s] == Missing && o.visibility[s] == VisibleEmpty {
          assert wagers[s].NotApplicable? && ReadSeat(o, c, s).value.0 == wagers[s];
        }
      }
      if forall s | 0 <= s < SEATS :: c.absent[s] && o.wagers[s] == Missing && o.visibility[s] == VisibleEmpty {
        forall s | 0 <= s < SEATS ensures seats.value.0[s].NotApplicable? {
          assert ReadSeat(o, c, s) == Ok((NotApplicable, AbsentAndEmpty));
        }
        NothingToAdd(wagers);
        assert Price(wagers).None?;
      }
    } else {
      var s :| 0 <= s < SEATS && !ReadSeat(o, c, s).Ok?;
      assert !(c.absent[s] && o.wagers[s] == Missing && o.visibility[s] == VisibleEmpty);
    }
  }

  lemma {:induction false} NothingToAdd(wagers: seq<Wager>)
    requires forall i | 0 <= i < |wagers| :: wagers[i].NotApplicable?
    ensures Sum(wagers) == 0.0
  {
    if wagers != [] { NothingToAdd(wagers[..|wagers| - 1]); }
  }

  // ---------------------------------------------------------------- two frames

  datatype Baseline = Baseline(view: View, first: int, second: int)

  datatype Verdict = Conditional(baseline: Baseline) | Diagnostic(reason: Reason)

  function Track(
      previous: Option<(int, Partition)>, frame: int, o: Observation, c: Context): (Option<(int, Partition)>,
      Result<Verdict, Error>)
  {
    if frame < 0 then (previous, Raised(NonnegativeFrameRequired))
    else
      match Evidence(o, c)
      case Raised(e) => (previous, Raised(e))
      case Ok(current) =>
        if previous.Some? && frame <= previous.value.0 then (None, Raised(DuplicateOrBackwards))
        else
          (Some((frame, current)),
           if current.Unclear? then Ok(Diagnostic(current.reason))
           else if previous != Some((frame - 1, current)) then Ok(Diagnostic(TwoStableFramesRequired))
           else Ok(Conditional(Baseline(current.view, frame - 1, frame))))
  }

  /**
   A table nobody sits at, with any readable title that equals its center: the tracker's step raises on it, whatever
   came before.
   */
  lemma EmptyTableRaises(amount: real) returns (o: Observation, c: Context)
    requires amount >= 0.0
    ensures o.title == Shown(amount) && Evidence(o, c) == Raised(NoNumericWager)
    ensures forall previous, frame | frame >= 0 :: Track(previous, frame, o, c) == (previous, Raised(NoNumericWager))
  {
    var nobody := seq(SEATS, _ => true);
    o := Observation(true, true, Some(0), true, Shown(amount), Shown(amount), seq(SEATS, _ => Missing),
      seq(SEATS, _ => VisibleEmpty));
    c := Context(Some(Key(0, Preflop)), true, true, false, nobody);
    AllAbsentRaises(o, c);
    hide ReadSeats, Sum, Price;
  }

  class StreetBaselineCandidate {
    var previous: Option<(int, Partition)>

    constructor ()
      ensures previous == None
    {
      previous := None;
    }

    method Observe(frame: int, o: Observation, c: Context) returns (r: Result<Verdict, Error>)
      modifies this
      ensures (previous, r) == Track(old(previous), frame, o, c)
    {
      if frame < 0 { return Raised(NonnegativeFrameRequired); }
      var before := previous;
      var evidence := PartitionEvidence(o, c);
      if evidence.Raised? { return Raised(evidence.error); }
      var current := evidence.value;
      previous := Some((frame, current));
      if before.Some? && frame <= before.value.0 {
        previous := None;
        return Raised(DuplicateOrBackwards);
      }
      if current.Unclear? { return Ok(Diagnostic(current.reason)); }
      if before.None? || frame != before.value.0 + 1 || current != before.value.1 {
        return Ok(Diagnostic(TwoStableFramesRequired));
      }
      r := Ok(Conditional(Baseline(current.view, before.value.0, frame)));
    }
  }

  datatype Look = Look(frame: int, observation: Observation, context: Context)

  function Tracked(looks: seq<Look>): Option<(int, Partition)>
  {
    if looks == [] then None
    else
      var l := looks[|looks| - 1];
      Track(Tracked(looks[..|looks| - 1]), l.frame, l.observation, l.context).0
  }

  predicate Reads(l: Look, frame: int, p: Partition)
  {
    l.frame == frame && Evidence(l.observation, l.context) == Ok(p)
  }

  /** The reading a tracker holds is the reading of one of the frames it was shown. */
  lemma {:induction false} TrackedComesFrom(looks: seq<Look>)
    ensures Tracked(looks).Some? ==> exists l :: l in looks && Reads(l, Tracked(looks).value.0, Tracked(looks).value.1)
  {
    hide Evidence;
    if looks != [] && Tracked(looks).Some? {
      var init, last := looks[..|looks| - 1], looks[|looks| - 1];
      if Tracked(looks) == Tracked(init) {
        TrackedComesFrom(init);
        var l :| l in init && Reads(l, Tracked(init).value.0, Tracked(init).value.1);
        assert l in looks;
      } else {
        assert last in looks && Reads(last, Tracked(looks).value.0, Tracked(looks).value.1);
      }
    }
  }

  /**
   On every sequence of observations a candidate rests on two seen frames, one right after the other, with one
   consistent partition.
   */
  lemma BaselineNeedsTwoFrames(looks: seq<Look>, l: Look, b: Baseline)
    requires Track(Tracked(looks), l.frame, l.observation, l.context).1 == Ok(Conditional(b))
    ensures b.second == b.first + 1
    ensures Reads(l, b.second, Consistent(b.view))
    ensures exists k :: k in looks && Reads(k, b.first, Consistent(b.view))
  {
    TrackedComesFrom(looks);
  }

  /** After an accepted observation, the next one yields a candidate exactly when it agrees with it in everything. */
  lemma BaselineExactly(looks: seq<Look>, k: Look, l: Look, b: Baseline)
    requires Track(Tracked(looks), k.frame, k.observation, k.context).1.Ok?
    ensures Track(Tracked(looks + [k]), l.frame, l.observation, l.context).1 == Ok(Conditional(b)) <==>
      Reads(k, b.first, Consistent(b.view)) && Reads(l, b.second, Consistent(b.view)) && b.second == b.first + 1
  {
    hide Evidence;
    assert (looks + [k])[..|looks|] == looks;
  }
}
