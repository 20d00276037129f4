/**
 The acceptance gate without its own vocabulary: a manifest passes exactly when its hands, rows and records meet the
 conditions written out here, and the counters count what is written out here.
 */
module AcceptanceRules {
  import opened Common
  import opened Acceptance
  import opened AcceptanceSoundness

  // ---------------------------------------------------------------- one field of one frame

  function Of(fields: Fields, f: Field): Entry
  {
    if f in fields then fields[f] else Entry(NoStatus, None, false, Some(true), false)
  }

  /** A value that says "not applicable" is explained by a known street or by the presence of the seat. */
  predicate Explained(f: Field, v: Value, fields: Fields)
  {
    var presence, street := Of(fields, Participation), Of(fields, Street);
    && (f == HeroCards && v == NotApplicable ==>
          || (street.status == Known && street.value == Some(StreetIs(IdleWord)))
          || (presence.status == Known && presence.value.Some? && presence.value.value.Presences?
              && 4 in presence.value.value.seats
              && (presence.value.value.seats[4] == Folded || presence.value.value.seats[4] == Empty
                  || presence.value.value.seats[4] == Waiting)))
    && ((f == StreetWagers || f == Stacks) && v.BySeat? ==>
          forall s | s in v.amounts && v.amounts[s] == SeatNotApplicable ::
            && presence.status == Known && presence.value.Some? && presence.value.value.Presences?
            && s in presence.value.value.seats
            && (presence.value.value.seats[s] == Waiting || presence.value.value.seats[s] == Empty))
  }

  /** A known, well-formed and explained value. */
  predicate Valid(valid: (Field, Value) -> bool, fields: Fields, f: Field)
  {
    var a := Of(fields, f);
    a.status == Known && a.value.Some? && valid(f, a.value.value) && Explained(f, a.value.value, fields)
  }

  /** Label and prediction are known, valid and the same, and the prediction was made automatically. */
  predicate Confirmed(valid: (Field, Value) -> bool, gold: Fields, predicted: Fields, f: Field)
  {
    && Valid(valid, gold, f) && Valid(valid, predicted, f) && Of(predicted, f).automatic
    && Of(gold, f).value.value == Of(predicted, f).value.value
  }

  /** What one field of one frame needs. */
  predicate FieldPasses(
      valid: (Field, Value) -> bool, opportunity: Option<bool>, gold: Fields, predicted: Fields, f: Field)
  {
    var a, o := Of(gold, f), Of(predicted, f);
    && a.status != NoStatus && a.value.Some? && o.status != NoStatus && o.value.Some? && a.required.Some?
    && (o.status == Known ==> Confirmed(valid, gold, predicted, f))
    && (if a.required == Some(false) then a.exemptionValid && opportunity == Some(false)
        else Confirmed(valid, gold, predicted, f))
  }

  lemma CellExactly(e: Env, k: Key, f: Field)
    ensures var gold, predicted := FieldsOf(e.truth, k), FieldsOf(e.prediction, k);
      && Gold(e, k, f) == Of(gold, f) && Output(e, k, f) == Of(predicted, f)
      && (KnownGold(e, k, f) <==> Valid(e.valid, gold, f))
      && (AutomaticKnown(e, k, f) <==> Valid(e.valid, predicted, f) && Of(predicted, f).automatic)
      && (Matched(e, k, f) <==> Confirmed(e.valid, gold, predicted, f))
      && (Required(e, k, f) <==> !(Of(gold, f).required == Some(false) && OpportunityOf(e.truth, k) == Some(false)))
  {
    hide FieldsOf, OpportunityOf;
    forall fields, v
      ensures ValidNaContext(f, v, fields) <==> Explained(f, v, fields)
    {
      ExplainedExactly(f, v, fields);
    }
    hide ValidNaContext, Explained;
  }

  lemma ExplainedExactly(f: Field, v: Value, fields: Fields)
    ensures ValidNaContext(f, v, fields) <==> Explained(f, v, fields)
  {}

  lemma FieldExactly(e: Env, k: Key, f: Field)
    ensures FieldIssues(e, k, f) == {} && (Required(e, k, f) ==> Matched(e, k, f)) <==>
            FieldPasses(e.valid, OpportunityOf(e.truth, k), FieldsOf(e.truth, k), FieldsOf(e.prediction, k), f)
  {
    CellExactly(e, k, f);
    hide KnownGold, AutomaticKnown, Matched, Required, Valid, FieldsOf, OpportunityOf, Gold, Output, Of;
    var issues := FieldIssues(e, k, f);
    if issues == {} {
      assert GoldMissing(f) !in issues && PredictionMissing(f) !in issues && InvalidRequired(f) !in issues;
      assert InvalidExemption(f) !in issues && OpportunityExempted(f) !in issues && WrongKnown(f) !in issues;
    }
  }

  // ---------------------------------------------------------------- one frame

  /** An actor slot, or an action value that is not empty, is known. */
  predicate Moment(fields: Fields)
  {
    var actor, actions := Of(fields, Actor), Of(fields, Actions);
    || (actor.status == Known && actor.value.Some? && actor.value.value.Slot?)
    || (actions.status == Known && actions.value.Some? && Filled(actions.value.value))
  }

  predicate Filled(v: Value)
  {
    && (v.Plain? ==> v.truthy) && v != Slot(0) && v != Items([]) && v != BySeat(map[]) && v != Presences(map[])
  }

  /** No card is both in the hand and on the board. */
  predicate CardsApart(fields: Fields)
  {
    var hero, board := Of(fields, HeroCards).value, Of(fields, BoardCards).value;
    hero.Some? && hero.value.Items? && board.Some? && board.value.Items? ==>
      forall c | c in hero.value.items :: c !in board.value.items
  }

  /** The board has the size of the street. */
  predicate BoardFits(fields: Fields)
  {
    var board, street := Of(fields, BoardCards).value, Of(fields, Street).value;
    street.Some? && street.value.StreetIs? && board.Some? && board.value.Items? ==>
      var n := |board.value.items|;
      match street.value.word
      case FlopWord => n == 3
      case TurnWord => n == 4
      case RiverWord => n == 5
      case SettlementWord => true
      case _ => n == 0
  }

  predicate CardsFit(fields: Fields)
  {
    CardsApart(fields) && BoardFits(fields)
  }

  lemma FrameExactly(e: Env, k: Key)
    ensures FrameIssues(e, k) == {} <==>
      && OpportunityOf(e.truth, k).Some?
      && (Moment(FieldsOf(e.truth, k)) ==> OpportunityOf(e.truth, k) == Some(true))
      && CardsFit(FieldsOf(e.truth, k)) && CardsFit(FieldsOf(e.prediction, k))
  {
    hide OpportunityOf, FieldsOf;
    var gold, pred := FieldsOf(e.truth, k), FieldsOf(e.prediction, k);
    MomentExactly(gold);
    CardsExactly(gold);
    CardsExactly(pred);
    hide PositiveMoment, Moment, Collides, WrongBoard, CardsApart, BoardFits;
    var issues := FrameIssues(e, k);
    if issues == {} {
      assert OpportunityMissing !in issues && MomentExcluded !in issues;
      assert CardCollision(Labels) !in issues && CardCollision(Predictions) !in issues;
      assert BoardMismatch(Labels) !in issues && BoardMismatch(Predictions) !in issues;
    }
  }

  lemma MomentExactly(fields: Fields)
    ensures PositiveMoment(fields) <==> Moment(fields)
  {}

  lemma SharedCard(mine: seq<int>, theirs: seq<int>)
    ensures (exists i | 0 <= i < |mine| :: mine[i] in theirs) <==> !forall c | c in mine :: c !in theirs
  {
    if c :| c in mine && c in theirs {
      var i :| 0 <= i < |mine| && mine[i] == c;
      assert mine[i] in theirs;
    }
    if i :| 0 <= i < |mine| && mine[i] in theirs {
      var c := mine[i];
      assert c in mine && c in theirs;
    }
  }

  lemma CardsExactly(fields: Fields)
    ensures Collides(fields) <==> !CardsApart(fields)
    ensures WrongBoard(fields) <==> !BoardFits(fields)
  {
    var hero, board := Of(fields, HeroCards).value, Of(fields, BoardCards).value;
    if hero.Some? && hero.value.Items? && board.Some? && board.value.Items? {
      SharedCard(hero.value.items, board.value.items);
    }
  }

  // ---------------------------------------------------------------- the counters

  /** Each counter is the number of frames with the property written beside it. */
  lemma CountersExactly(e: Env, keys: set<Key>, f: Field)
    ensures var c := Counted(e, keys, f);
      && c.known == |set k | k in keys && Valid(e.valid, FieldsOf(e.truth, k), f)|
      && c.automatic == |set k | k in keys && Valid(e.valid, FieldsOf(e.prediction, k), f)
                                  && Of(FieldsOf(e.prediction, k), f).automatic|
      && c.matched == |set k | k in keys && Confirmed(e.valid, FieldsOf(e.truth, k), FieldsOf(e.prediction, k), f)|
  {
    forall k { CellExactly(e, k, f); }
    hide KnownGold, AutomaticKnown, Matched, Required, Valid, Confirmed, FieldsOf, Output, Of;
    assert Having(e, keys, f, MarkKnown) == set k | k in keys && Valid(e.valid, FieldsOf(e.truth, k), f);
    assert Having(e, keys, f, MarkAutomatic) ==
      set k | k in keys && Valid(e.valid, FieldsOf(e.prediction, k), f) && Of(FieldsOf(e.prediction, k), f).automatic;
    assert Having(e, keys, f, MarkMatched) ==
      set k | k in keys && Confirmed(e.valid, FieldsOf(e.truth, k), FieldsOf(e.prediction, k), f);
  }

  /** The same for the counters of required and exempted frames. */
  lemma RequiredExactly(e: Env, keys: set<Key>, f: Field)
    ensures var c := Counted(e, keys, f);
      var exempt := set k | k in keys && Of(FieldsOf(e.truth, k), f).required == Some(false)
                            && OpportunityOf(e.truth, k) == Some(false);
      && c.exempt == |exempt| && c.required == |keys - exempt|
      && c.abstained == |set k | k in exempt && Of(FieldsOf(e.prediction, k), f).status == Unknown|
      && c.requiredMatched ==
           |set k | k in keys - exempt && Confirmed(e.valid, FieldsOf(e.truth, k), FieldsOf(e.prediction, k), f)|
  {
    forall k { CellExactly(e, k, f); }
    hide KnownGold, AutomaticKnown, Matched, Required, Valid, Confirmed, FieldsOf, OpportunityOf, Output, Of;
    var exempt := set k | k in keys && Of(FieldsOf(e.truth, k), f).required == Some(false)
                          && OpportunityOf(e.truth, k) == Some(false);
    assert Having(e, keys, f, MarkExempt) == exempt;
    assert Having(e, keys, f, MarkRequired) == keys - exempt;
    assert Having(e, keys, f, MarkAbstained) == set k | k in exempt
      && Of(FieldsOf(e.prediction, k), f).status == Unknown;
    assert Having(e, keys, f, MarkRequiredMatched) ==
      set k | k in keys - exempt && Confirmed(e.valid, FieldsOf(e.truth, k), FieldsOf(e.prediction, k), f);
  }

  // ---------------------------------------------------------------- hands

  predicate Covers(h: Hand, f: int)
  {
    h.first.Some? && h.last.Some? && h.first.value <= f <= h.last.value
  }

  /** A hand that may be used at all. */
  predicate Usable(h: Hand)
  {
    && h.id.Some? && h.session.Some? && h.holdout && h.complete && h.labelsReviewed && !h.tuningExposed
    && h.first.Some? && h.last.Some? && 0 <= h.first.value <= h.last.value
  }

  /** Usable hands with ids of their own, none sharing a frame with another hand or a development interval. */
  predicate HandsPass(m: Manifest)
  {
    && (forall i | 0 <= i < |m.hands| :: Usable(m.hands[i]))
    && (forall i, j | 0 <= i < j < |m.hands| :: HandsApart(m.hands[i], m.hands[j]))
    && (forall i, j | 0 <= i < |m.hands| && 0 <= j < |m.development| :: Clear(m.hands[i], m.development[j]))
  }

  predicate HandsApart(h: Hand, g: Hand)
  {
    && h.id != g.id && h.first.Some? && h.last.Some? && g.first.Some? && g.last.Some?
    && (h.session != g.session || h.last.value < g.first.value || g.last.value < h.first.value)
  }

  predicate Clear(h: Hand, d: Development)
  {
    h.first.Some? && h.last.Some? && (h.session != d.session || h.last.value < d.first || d.last < h.first.value)
  }

  lemma HandsExactly(m: Manifest)
    ensures HandIssues(m, |m.hands|) == {} <==> HandsPass(m)
  {
    hide HandIssues;
    if HandIssues(m, |m.hands|) == {} { HandsSound(m); }
    if HandsPass(m) { HandsEnough(m, |m.hands|); }
  }

  lemma HandsSound(m: Manifest)
    requires HandIssues(m, |m.hands|) == {}
    ensures HandsPass(m)
  {
    hide HandIssues, AcceptedAfter, SeenIds, Crosses;
    forall i | 0 <= i < |m.hands| ensures Usable(m.hands[i]) { AllClean(m, i); }
    forall i, j | 0 <= i < j < |m.hands| ensures HandsApart(m.hands[i], m.hands[j]) { HandsAreDisjoint(m, i, j); }
    forall i, j | 0 <= i < |m.hands| && 0 <= j < |m.development| ensures Clear(m.hands[i], m.development[j]) {
      AllClean(m, i);
      var d := m.development[j];
      assert !Overlaps(m.hands[i], d.session, d.first, d.last);
    }
  }

  /** Accepted hands are hands of the list, each under its own id. */
  lemma {:induction false} AcceptedFrom(hands: seq<Hand>, id: Option<int>)
    requires id in AcceptedAfter(hands)
    ensures exists i :: 0 <= i < |hands| && hands[i] == AcceptedAfter(hands)[id] && hands[i].id == id
  {
    hide ValidInterval;
    var n := |hands| - 1;
    var h := hands[n];
    if ValidInterval(h) && h.id == id {
      assert AcceptedAfter(hands)[id] == h;
    } else {
      AcceptedFrom(hands[..n], id);
      var i :| 0 <= i < n && hands[..n][i] == AcceptedAfter(hands[..n])[id] && hands[..n][i].id == id;
      assert hands[i] == AcceptedAfter(hands)[id];
    }
  }

  lemma {:induction false} SeenFrom(hands: seq<Hand>, id: Option<int>)
    requires id in SeenIds(hands)
    ensures exists i :: 0 <= i < |hands| && hands[i].id == id
  {
    var n := |hands| - 1;
    if hands[n].id != id {
      SeenFrom(hands[..n], id);
      var i :| 0 <= i < n && hands[..n][i].id == id;
      assert hands[i].id == id;
    }
  }

  lemma {:induction false} HandsEnough(m: Manifest, n: nat)
    requires HandsPass(m) && n <= |m.hands|
    ensures HandIssues(m, n) == {}
  {
    hide HandsPass, OneHand;
    if n > 0 {
      HandsEnough(m, n - 1);
      HandEnough(m, n - 1);
    }
  }

  lemma HandEnough(m: Manifest, n: nat)
    requires HandsPass(m) && n < |m.hands|
    ensures OneHand(m, m.hands[..n], m.hands[n]) == {}
  {
    hide SeenIds, AcceptedAfter;
    var earlier, h := m.hands[..n], m.hands[n];
    assert Usable(h);
    forall i | 0 <= i < n ensures HandsApart(earlier[i], h) { assert earlier[i] == m.hands[i]; }
    forall j | 0 <= j < |m.development| ensures Clear(h, m.development[j]) {}
    assert h.id !in SeenIds(earlier) by {
      if h.id in SeenIds(earlier) { SeenFrom(earlier, h.id); }
    }
    assert !CrossesDevelopment(m.development, h);
    var accepted := AcceptedAfter(earlier);
    forall id | id in accepted
      ensures !Overlaps(h, accepted[id].session, accepted[id].first.value, accepted[id].last.value)
    {
      AcceptedFrom(earlier, id);
    }
  }

  /** Then the frames compared are the frames of the hands. */
  lemma FramesExactly(m: Manifest, k: Key)
    requires HandsPass(m)
    ensures Inside(AcceptedAfter(m.hands), k) <==>
      k.frame.Some? && exists h :: h in m.hands && h.id == k.hand && Covers(h, k.frame.value)
    ensures forall i | 0 <= i < |m.hands| ::
      m.hands[i].id in AcceptedAfter(m.hands) && AcceptedAfter(m.hands)[m.hands[i].id] == m.hands[i]
  {
    hide AcceptedAfter;
    var accepted := AcceptedAfter(m.hands);
    forall i | 0 <= i < |m.hands| ensures m.hands[i].id in accepted && accepted[m.hands[i].id] == m.hands[i] {
      assert Usable(m.hands[i]);
      forall j | i < j < |m.hands| ensures m.hands[j].id != m.hands[i].id { assert HandsApart(m.hands[i], m.hands[j]); }
      AcceptedHolds(m.hands, i);
    }
    if Inside(accepted, k) {
      AcceptedFrom(m.hands, k.hand);
      var i :| 0 <= i < |m.hands| && m.hands[i] == accepted[k.hand];
      assert m.hands[i] in m.hands && Covers(m.hands[i], k.frame.value);
    }
  }

  // ---------------------------------------------------------------- rows

  /** One row for every frame of every hand, and no other. */
  ghost predicate RowsPass(hands: seq<Hand>, rows: seq<Row>)
  {
    && (forall i, j | 0 <= i < j < |rows| :: !(rows[i].hand == rows[j].hand && rows[i].frame == rows[j].frame))
    && (forall r | r in rows :: InSome(hands, r))
    && (forall h, f: int | h in hands && Covers(h, f) :: exists r :: r in rows && r.hand == h.id && r.frame == Some(f))
  }

  ghost predicate InSome(hands: seq<Hand>, r: Row)
  {
    r.frame.Some? && exists h :: h in hands && h.id == r.hand && Covers(h, r.frame.value)
  }

  lemma RowsExactly(m: Manifest, rows: seq<Row>, kind: Kind)
    requires HandsPass(m)
    ensures IndexIssues(rows, kind, AcceptedAfter(m.hands)) == {}
            && Indexed(rows).Keys == Expected(AcceptedAfter(m.hands)) <==>
            RowsPass(m.hands, rows)
  {
    hide HandsPass, AcceptedAfter, Indexed, Covers, Inside, Expected;
    var accepted := AcceptedAfter(m.hands);
    var issues := IndexIssues(rows, kind, accepted);
    assert issues == {} <==> !Twins(rows) && !Strays(rows, accepted) by {
      assert DuplicateRow(kind) in issues <==> Twins(rows);
      assert OutsideHand(kind) in issues <==> Strays(rows, accepted);
    }
    assert Strays(rows, accepted) <==> !forall r | r in rows :: InSome(m.hands, r) by {
      forall r: Row ensures Inside(accepted, KeyOf(r)) <==> InSome(m.hands, r) { FramesExactly(m, KeyOf(r)); }
      hide InSome, KeyOf;
      if r :| r in rows && !InSome(m.hands, r) {
        var i :| 0 <= i < |rows| && rows[i] == r;
        assert !Inside(accepted, KeyOf(rows[i]));
      }
      if i :| 0 <= i < |rows| && !Inside(accepted, KeyOf(rows[i])) { assert rows[i] in rows; }
    }
    if !Strays(rows, accepted) { KeysExactly(m, rows); }
  }

  /** The keys of an index are the keys of its rows. */
  lemma IndexKeys(rows: seq<Row>, k: Key)
    ensures k in Indexed(rows) <==> exists r :: r in rows && KeyOf(r) == k
  {
    hide KeyOf, Indexed;
    LastRowWins(rows);
    if k in Indexed(rows) {
      assert LastOf(rows, k, Indexed(rows)[k]);
      var i :| 0 <= i < |rows| && KeyOf(rows[i]) == k;
      assert rows[i] in rows;
    }
    if r :| r in rows && KeyOf(r) == k {
      var i :| 0 <= i < |rows| && rows[i] == r;
      IndexedHas(rows, i);
    }
  }

  lemma KeysExactly(m: Manifest, rows: seq<Row>)
    requires HandsPass(m) && !Strays(rows, AcceptedAfter(m.hands))
    ensures Indexed(rows).Keys == Expected(AcceptedAfter(m.hands)) <==>
      forall h, f: int | h in m.hands && Covers(h, f) :: exists r :: r in rows && r.hand == h.id && r.frame == Some(f)
  {
    hide HandsPass, AcceptedAfter, Indexed, Covers, Inside, Expected;
    var accepted := AcceptedAfter(m.hands);
    var keys := Indexed(rows).Keys;
    forall k ensures k in keys <==> exists r :: r in rows && KeyOf(r) == k { IndexKeys(rows, k); }
    forall k | k in keys ensures k in Expected(accepted) {
      var r :| r in rows && KeyOf(r) == k;
      var i :| 0 <= i < |rows| && rows[i] == r;
      assert Inside(accepted, KeyOf(rows[i]));
    }
    if keys == Expected(accepted) {
      forall h, f: int | h in m.hands && Covers(h, f)
        ensures exists r :: r in rows && r.hand == h.id && r.frame == Some(f)
      {
        var k := Key(h.id, Some(f));
        FramesExactly(m, k);
        assert k in keys;
        var r :| r in rows && KeyOf(r) == k;
        assert r.hand == h.id && r.frame == Some(f);
      }
    }
    if forall h, f: int | h in m.hands && Covers(h, f) ::
         exists r :: r in rows && r.hand == h.id && r.frame == Some(f) {
      forall k | k in Expected(accepted) ensures k in keys {
        FramesExactly(m, k);
        var h :| h in m.hands && h.id == k.hand && Covers(h, k.frame.value);
        var r :| r in rows && r.hand == h.id && r.frame == Some(k.frame.value);
        assert KeyOf(r) == k;
      }
      assert keys == Expected(accepted);
    }
  }

  /** With one row a frame, the index gives each row under its own key, and nothing else. */
  lemma RowIndexed(hands: seq<Hand>, rows: seq<Row>, k: Key)
    requires RowsPass(hands, rows)
    ensures forall r :: k in Indexed(rows) && Indexed(rows)[k] == r <==> r in rows && KeyOf(r) == k
  {
    hide Covers, InSome, Indexed;
    LastRowWins(rows);
    forall r ensures LastOf(rows, k, r) <==> r in rows && KeyOf(r) == k {
      if r in rows && KeyOf(r) == k {
        var i :| 0 <= i < |rows| && rows[i] == r;
        assert KeyOf(rows[i]) == k && forall j | i < j < |rows| :: KeyOf(rows[j]) != k;
      }
    }
  }

  // ---------------------------------------------------------------- the registry

  /** The registered frames are reviewed, increasing and inside, and are exactly the labelled opportunities. */
  ghost predicate RegistryPasses(h: Hand, gold: seq<Row>)
  {
    && h.opportunitiesReviewed && h.opportunityFrames != []
    && (forall i, j | 0 <= i < j < |h.opportunityFrames| :: h.opportunityFrames[i] < h.opportunityFrames[j])
    && (forall f | f in h.opportunityFrames :: Covers(h, f))
    && (forall r | r in gold && r.hand == h.id :: r.opportunity == Some(true) <==>
                                                   r.frame.Some? && r.frame.value in h.opportunityFrames)
  }

  lemma RegistryExactly(m: Manifest, h: Hand)
    requires HandsPass(m) && RowsPass(m.hands, m.gold) && h in m.hands && ValidInterval(h)
    ensures OpportunityIssues(Indexed(m.gold), h) == {} <==> RegistryPasses(h, m.gold)
  {
    hide HandsPass, Indexed, InSome;
    var truth, frames := Indexed(m.gold), h.opportunityFrames;
    var issues := OpportunityIssues(truth, h);
    assert issues == {} <==> RegistryValid(h) && h.opportunitiesReviewed && RegistryMatches(truth, h) by {
      hide RegistryValid, RegistryMatches, ValidInterval;
      if issues == {} {
        assert OpportunitiesInvalid(h.id) !in issues && OpportunitiesUnreviewed(h.id) !in issues
          && OpportunitiesMismatch(h.id) !in issues;
      }
    }
    forall k, r ensures k in truth && truth[k] == r <==> r in m.gold && KeyOf(r) == k {
      RowIndexed(m.hands, m.gold, k);
    }
    if RegistryValid(h) && RegistryMatches(truth, h) {
      forall r | r in m.gold && r.hand == h.id
        ensures r.opportunity == Some(true) <==> r.frame.Some? && r.frame.value in frames
      {
        assert KeyOf(r) in truth && truth[KeyOf(r)] == r;
      }
    }
    if RegistryPasses(h, m.gold) && h.opportunitiesReviewed {
      forall i | 0 <= i < |frames|
        ensures Key(h.id, Some(frames[i])) in truth && truth[Key(h.id, Some(frames[i]))].opportunity == Some(true)
      {
        assert frames[i] in frames && Covers(h, frames[i]);
        var r :| r in m.gold && r.hand == h.id && r.frame == Some(frames[i]);
        assert KeyOf(r) == Key(h.id, Some(frames[i]));
      }
      forall k | k in truth && k.hand == h.id && truth[k].opportunity == Some(true)
        ensures k.frame.Some? && k.frame.value in frames
      {
        var r := truth[k];
        assert r in m.gold && KeyOf(r) == k;
      }
    }
  }

  // ---------------------------------------------------------------- the verdict

  /** Label and prediction of one frame. */
  predicate FramePasses(valid: (Field, Value) -> bool, gold: Row, predicted: Row)
  {
    && gold.opportunity.Some? && (Moment(gold.fields) ==> gold.opportunity == Some(true))
    && CardsFit(gold.fields) && CardsFit(predicted.fields)
    && forall f :: FieldPasses(valid, gold.opportunity, gold.fields, predicted.fields, f)
  }

  /** The field is compared on some frame: not all its frames are exempted outside an opportunity. */
  predicate Counts(gold: seq<Row>, f: Field)
  {
    exists r :: r in gold && !(Of(r.fields, f).required == Some(false) && r.opportunity == Some(false))
  }

  /** The whole condition of a pass. */
  ghost predicate Passes(m: Manifest, valid: (Field, Value) -> bool)
  {
    && m.hands != [] && !m.elsewhere && HandsPass(m)
    && RowsPass(m.hands, m.gold) && RowsPass(m.hands, m.predicted)
    && (forall h | h in m.hands :: RegistryPasses(h, m.gold)) && CellsPass(m, valid)
  }

  /** Label and prediction agree where they must on every frame, and every field is compared somewhere. */
  predicate CellsPass(m: Manifest, valid: (Field, Value) -> bool)
  {
    && (forall a, b | a in m.gold && b in m.predicted && a.hand == b.hand && a.frame == b.frame ::
          FramePasses(valid, a, b))
    && (forall f :: Counts(m.gold, f))
  }

  lemma AllFields(f: Field)
    ensures f in FIELDS
  {
    match f
    case Actor => assert FIELDS[0] == f;
    case StreetWagers => assert FIELDS[1] == f;
    case Actions => assert FIELDS[2] == f;
    case Pot => assert FIELDS[3] == f;
    case Stacks => assert FIELDS[4] == f;
    case Street => assert FIELDS[5] == f;
    case HandField => assert FIELDS[6] == f;
    case Participation => assert FIELDS[7] == f;
    case HeroCards => assert FIELDS[8] == f;
    case BoardCards => assert FIELDS[9] == f;
    case Insurance => assert FIELDS[10] == f;
    case Mushroom => assert FIELDS[11] == f;
    case Bomb => assert FIELDS[12] == f;
  }

  /** The part of the report that looks into frames is empty exactly when every cell is right and every field counts. */
  ghost predicate CellsRight(e: Env, keys: set<Key>)
  {
    && (forall k | k in keys :: FrameIssues(e, k) == {} && forall f :: CellRight(e, k, f))
    && (forall f :: Needed(e, keys, f))
  }

  predicate CellRight(e: Env, k: Key, f: Field)
  {
    FieldIssues(e, k, f) == {} && (Required(e, k, f) ==> Matched(e, k, f))
  }

  predicate Needed(e: Env, keys: set<Key>, f: Field)
  {
    exists k :: k in keys && Required(e, k, f)
  }

  lemma {:induction false} FieldsQuiet(e: Env, k: Key, n: nat)
    requires n <= |FIELDS| && forall f :: FieldIssues(e, k, f) == {}
    ensures FieldIssuesUpTo(e, k, n) == {}
  {
    hide FieldIssues;
    if n > 0 { FieldsQuiet(e, k, n - 1); }
  }

  lemma CellsExactly(e: Env, keys: set<Key>, coverage: map<Field, Count>)
    requires CoverageIs(coverage, e, keys)
    ensures AllKeyIssues(e, keys) == {} && IncompleteFields(coverage) == {} ==> CellsRight(e, keys)
    ensures CellsRight(e, keys) ==> AllKeyIssues(e, keys) == {}
    ensures CellsRight(e, keys) ==> forall f | f in coverage && f in FIELDS :: FieldComplete(coverage[f])
  {
    hide FieldIssues, FrameIssues, Required, Matched, Counted, FieldComplete, AllKeyIssues, CoverageIs,
      IncompleteFields;
    if AllKeyIssues(e, keys) == {} && IncompleteFields(coverage) == {} {
      forall f ensures FieldComplete(Counted(e, keys, f)) && Needed(e, keys, f)
        && forall k | k in keys && Required(e, k, f) :: Matched(e, k, f) {
        CountComplete(e, keys, coverage, f);
        CompleteIff(e, keys, f);
      }
      forall k, f | k in keys ensures CellRight(e, k, f) && FrameIssues(e, k) == {} {
        AllFields(f);
        var i :| 0 <= i < |FIELDS| && FIELDS[i] == f;
        NoKeyIssue(e, keys, k, i);
        assert Needed(e, keys, f);
      }
      forall k | k in keys ensures FrameIssues(e, k) == {} { NoKeyIssue(e, keys, k, 0); }
    }
    if CellsRight(e, keys) {
      CellsQuiet(e, keys);
      forall f | f in coverage && f in FIELDS ensures coverage[f] == Counted(e, keys, f) {
        CountIs(e, keys, coverage, f);
      }
    }
  }

  lemma CountIs(e: Env, keys: set<Key>, coverage: map<Field, Count>, f: Field)
    requires CoverageIs(coverage, e, keys)
    ensures f in coverage && coverage[f] == Counted(e, keys, f)
  {
    hide Counted;
    AllFields(f);
    var i :| 0 <= i < |FIELDS| && FIELDS[i] == f;
  }

  lemma CountComplete(e: Env, keys: set<Key>, coverage: map<Field, Count>, f: Field)
    requires CoverageIs(coverage, e, keys) && IncompleteFields(coverage) == {}
    ensures FieldComplete(Counted(e, keys, f))
  {
    hide Counted, FieldComplete, CoverageIs;
    CountIs(e, keys, coverage, f);
    assert FieldIncomplete(f) !in IncompleteFields(coverage);
  }

  lemma CellsQuiet(e: Env, keys: set<Key>)
    requires CellsRight(e, keys)
    ensures AllKeyIssues(e, keys) == {}
    ensures forall f :: FieldComplete(Counted(e, keys, f))
  {
    hide FieldIssues, FrameIssues, Required, Matched, Counted, FieldComplete;
    forall k | k in keys ensures KeyIssues(e, k) == {} {
      forall f ensures FieldIssues(e, k, f) == {} { assert CellRight(e, k, f); }
      FieldsQuiet(e, k, |FIELDS|);
    }
    forall f ensures FieldComplete(Counted(e, keys, f)) {
      CompleteIff(e, keys, f);
      assert Needed(e, keys, f);
      forall k | k in keys && Required(e, k, f) ensures Matched(e, k, f) { assert CellRight(e, k, f); }
    }
  }

  lemma ReportExactly(m: Manifest, valid: (Field, Value) -> bool, coverage: map<Field, Count>)
    requires CoverageIs(coverage, EnvOf(m, valid), Expected(AcceptedAfter(m.hands)))
    ensures var accepted, e := AcceptedAfter(m.hands), EnvOf(m, valid);
      var expected := Expected(accepted);
      Report(m, valid, coverage) == {} <==>
        && HandIssues(m, |m.hands|) == {} && m.hands != [] && !m.elsewhere
        && IndexIssues(m.gold, Labels, accepted) == {} && IndexIssues(m.predicted, Predictions, accepted) == {}
        && e.truth.Keys == expected && e.prediction.Keys == expected && expected != {}
        && AllOpportunityIssues(e.truth, accepted) == {} && CellsRight(e, expected)
  {
    var accepted, e := AcceptedAfter(m.hands), EnvOf(m, valid);
    var expected := Expected(accepted);
    CellsExactly(e, expected, coverage);
    hide HandIssues, AcceptedAfter, IndexIssues, Indexed, AllOpportunityIssues, AllKeyIssues, Expected, CellsRight,
      CoverageIs, FieldComplete;
    if Report(m, valid, coverage) == {} { ReportPhases(m, valid, coverage); }
    if CellsRight(e, expected) {
      forall f ensures f in FIELDS { AllFields(f); }
      assert IncompleteFields(coverage) == {};
    }
  }

  /** In terms of the rows. */
  lemma CellsOfRows(m: Manifest, valid: (Field, Value) -> bool)
    requires RowsPass(m.hands, m.gold) && RowsPass(m.hands, m.predicted)
    requires Indexed(m.gold).Keys == Indexed(m.predicted).Keys
    ensures CellsRight(EnvOf(m, valid), Indexed(m.gold).Keys) <==> CellsPass(m, valid)
  {
    hide RowsPass, Indexed, FieldPasses, Moment, CardsFit, Matched, Required, FieldIssues, FrameIssues, Of;
    var e, keys := EnvOf(m, valid), Indexed(m.gold).Keys;
    forall k, r ensures k in e.truth && e.truth[k] == r <==> r in m.gold && KeyOf(r) == k {
      RowIndexed(m.hands, m.gold, k);
    }
    forall k, r ensures k in e.prediction && e.prediction[k] == r <==> r in m.predicted && KeyOf(r) == k {
      RowIndexed(m.hands, m.predicted, k);
    }
    forall k | k in keys ensures FramePasses(valid, e.truth[k], e.prediction[k]) <==>
      FrameIssues(e, k) == {} && forall f :: CellRight(e, k, f)
    {
      FramePassesExactly(e, k);
    }
    forall f ensures Counts(m.gold, f) <==> Needed(e, keys, f) { CountsExactly(e, m.gold, f); }
    hide FramePasses, Counts, CellRight, Needed;
    assert (forall a, b | a in m.gold && b in m.predicted && a.hand == b.hand && a.frame == b.frame ::
              FramePasses(valid, a, b)) <==> forall k | k in keys ::
                FramePasses(valid, e.truth[k], e.prediction[k]) by {
      forall k | k in keys ensures var a, b := e.truth[k], e.prediction[k];
        a in m.gold && b in m.predicted && a.hand == b.hand && a.frame == b.frame {}
      forall a, b | a in m.gold && b in m.predicted && a.hand == b.hand && a.frame == b.frame
        ensures KeyOf(a) in keys && e.truth[KeyOf(a)] == a && e.prediction[KeyOf(a)] == b
      {
        assert KeyOf(a) == KeyOf(b);
      }
    }
  }

  lemma FramePassesExactly(e: Env, k: Key)
    requires k in e.truth && k in e.prediction
    ensures FramePasses(e.valid, e.truth[k], e.prediction[k]) <==>
      FrameIssues(e, k) == {} && forall f :: CellRight(e, k, f)
  {
    hide FieldPasses, Moment, CardsFit, Matched, Required, FieldIssues, FrameIssues, Of;
    FrameExactly(e, k);
    var a, b := e.truth[k], e.prediction[k];
    forall f ensures CellRight(e, k, f) <==> FieldPasses(e.valid, a.opportunity, a.fields, b.fields, f) {
      FieldExactly(e, k, f);
    }
  }

  lemma CountsExactly(e: Env, gold: seq<Row>, f: Field)
    requires forall k, r :: k in e.truth && e.truth[k] == r <==> r in gold && KeyOf(r) == k
    ensures Counts(gold, f) <==> Needed(e, e.truth.Keys, f)
  {
    hide Of;
    forall k ensures Required(e, k, f) <==>
      !(Of(FieldsOf(e.truth, k), f).required == Some(false) && OpportunityOf(e.truth, k) == Some(false))
    {
      CellExactly(e, k, f);
    }
    hide Required;
    if k :| k in e.truth.Keys && Required(e, k, f) {
      var r := e.truth[k];
      assert r in gold;
    }
    if r :| r in gold && !(Of(r.fields, f).required == Some(false) && r.opportunity == Some(false)) {
      assert e.truth[KeyOf(r)] == r && Required(e, KeyOf(r), f);
    }
  }

  /** The gate passes exactly the manifests that meet the conditions of `Passes`. */
  lemma PassExactly(m: Manifest, valid: (Field, Value) -> bool, coverage: map<Field, Count>)
    requires CoverageIs(coverage, EnvOf(m, valid), Expected(AcceptedAfter(m.hands)))
    ensures Report(m, valid, coverage) == {} <==> Passes(m, valid)
  {
    ReportExactly(m, valid, coverage);
    HandsExactly(m);
    hide HandIssues, Report, CoverageIs, AcceptedAfter, IndexIssues, Indexed, AllOpportunityIssues, CellsRight,
      Expected,
      HandsPass, RowsPass, RegistryPasses, CellsPass;
    if HandsPass(m) && m.hands != [] {
      RowsExactly(m, m.gold, Labels);
      RowsExactly(m, m.predicted, Predictions);
      SomeFrame(m);
      if RowsPass(m.hands, m.gold) {
        RegistriesExactly(m);
        if RowsPass(m.hands, m.predicted) { CellsOfRows(m, valid); }
      }
    }
  }

  lemma SomeFrame(m: Manifest)
    requires HandsPass(m) && m.hands != []
    ensures Expected(AcceptedAfter(m.hands)) != {}
  {
    hide AcceptedAfter;
    var h := m.hands[0];
    assert Usable(h) && Covers(h, h.first.value);
    FramesExactly(m, Key(h.id, h.first));
    assert Key(h.id, h.first) in Expected(AcceptedAfter(m.hands));
  }

  lemma RegistriesExactly(m: Manifest)
    requires HandsPass(m) && RowsPass(m.hands, m.gold)
    ensures AllOpportunityIssues(Indexed(m.gold), AcceptedAfter(m.hands)) == {} <==>
      forall h | h in m.hands :: RegistryPasses(h, m.gold)
  {
    var truth, accepted := Indexed(m.gold), AcceptedAfter(m.hands);
    FramesExactly(m, Key(None, None));
    forall h | h in m.hands ensures ValidInterval(h) && h.id in accepted && accepted[h.id] == h
      && (OpportunityIssues(truth, h) == {} <==> RegistryPasses(h, m.gold))
    {
      var i :| 0 <= i < |m.hands| && m.hands[i] == h;
      assert Usable(m.hands[i]);
      RegistryExactly(m, h);
    }
    forall id | id in accepted ensures accepted[id] in m.hands { AcceptedFrom(m.hands, id); }
    hide HandsPass, RowsPass, Indexed, AcceptedAfter, OpportunityIssues, RegistryPasses, ValidInterval;
    if AllOpportunityIssues(truth, accepted) == {} {
      forall h | h in m.hands ensures OpportunityIssues(truth, h) == {} {
        forall x ensures x !in OpportunityIssues(truth, h) {
          assert x in OpportunityIssues(truth, accepted[h.id]) ==> x in AllOpportunityIssues(truth, accepted);
        }
      }
    }
  }
}
