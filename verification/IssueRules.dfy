/**
 What the acceptance gate reports of a manifest that does not pass: each issue, exactly when it is reported.
 */
module IssueRules {
  import opened Common
  import opened Acceptance
  import opened AcceptanceSoundness
  import opened AcceptanceRules

  predicate Spans(h: Hand)
  {
    h.first.Some? && h.last.Some? && 0 <= h.first.value && h.first.value <= h.last.value
  }

  predicate Meets(h: Hand, session: Option<int>, first: int, last: int)
  {
    Spans(h) && h.session == session && h.first.value <= last && first <= h.last.value
  }

  /** Among the first `n` hands, `i` is the last with its id that spans frames; this is the one the gate keeps. */
  predicate Kept(hands: seq<Hand>, n: int, i: int)
  {
    && 0 <= i < n <= |hands| && Spans(hands[i])
    && forall j | i < j < n :: !(Spans(hands[j]) && hands[j].id == hands[i].id)
  }

  lemma {:induction false} KeptExactly(hands: seq<Hand>, n: nat)
    requires n <= |hands|
    ensures forall i | Kept(hands, n, i) ::
      hands[i].id in AcceptedAfter(hands[..n]) && AcceptedAfter(hands[..n])[hands[i].id] == hands[i]
    ensures forall id | id in AcceptedAfter(hands[..n]) ::
      exists i :: Kept(hands, n, i) && hands[i].id == id && hands[i] == AcceptedAfter(hands[..n])[id]
  {
    if n > 0 {
      KeptExactly(hands, n - 1);
      assert hands[..n][..n - 1] == hands[..n - 1];
      var before, after, h := AcceptedAfter(hands[..n - 1]), AcceptedAfter(hands[..n]), hands[n - 1];
      assert Spans(h) <==> ValidInterval(h);
      assert after == if Spans(h) then before[h.id := h] else before;
      hide AcceptedAfter, Spans;
      forall i | Kept(hands, n, i) ensures hands[i].id in after && after[hands[i].id] == hands[i] {
        if i < n - 1 { assert Kept(hands, n - 1, i); }
      }
      forall id | id in after ensures exists i :: Kept(hands, n, i) && hands[i].id == id && hands[i] == after[id] {
        if Spans(h) && id == h.id {
          assert Kept(hands, n, n - 1);
        } else {
          var i :| Kept(hands, n - 1, i) && hands[i].id == id && hands[i] == before[id];
          assert Kept(hands, n, i);
        }
      }
    }
  }

  // ---------------------------------------------------------------- issues of hands

  /** What each issue says of hand `i`. */
  ghost predicate OfHand(m: Manifest, i: int, x: Issue)
    requires 0 <= i < |m.hands|
  {
    var h := m.hands[i];
    || (x == DuplicateOrMissingHand && (h.id == None || exists j :: 0 <= j < i && m.hands[j].id == h.id))
    || (x == NotHoldout(h.id) && !h.holdout) || (x == IncompleteHand(h.id) && !h.complete)
    || (x == UnreviewedLabels(h.id) && !h.labelsReviewed) || (x == TuningExposure(h.id) && h.tuningExposed)
    || (x == InvalidInterval(h.id) && !Spans(h)) || (x == MissingSession(h.id) && h.session == None)
    || (x == DevelopmentOverlap(h.id) && MeetsDevelopment(m, h)) || (x == HoldoutOverlap(h.id) && MeetsEarlier(m, i))
  }

  predicate MeetsDevelopment(m: Manifest, h: Hand)
  {
    exists j | 0 <= j < |m.development| ::
      Meets(h, m.development[j].session, m.development[j].first, m.development[j].last)
  }

  /** It shares a frame with one of the hands kept before it. */
  ghost predicate MeetsEarlier(m: Manifest, i: int)
    requires 0 <= i < |m.hands|
  {
    exists j :: Kept(m.hands, i, j)
                && Meets(m.hands[i], m.hands[j].session, m.hands[j].first.value, m.hands[j].last.value)
  }

  lemma {:induction false} SeenExactly(hands: seq<Hand>, n: nat, id: Option<int>)
    requires n <= |hands|
    ensures id in SeenIds(hands[..n]) <==> exists j :: 0 <= j < n && hands[j].id == id
  {
    if id in SeenIds(hands[..n]) {
      SeenFrom(hands[..n], id);
      var j :| 0 <= j < n && hands[..n][j].id == id;
      assert hands[j].id == id;
    }
    if j :| 0 <= j < n && hands[j].id == id { SeenHolds(hands[..n], j); }
  }

  lemma OverlapsExactly(h: Hand, session: Option<int>, first: int, last: int)
    ensures Meets(h, session, first, last) <==> ValidInterval(h) && Overlaps(h, session, first, last)
  {}

  lemma DevelopmentReport(m: Manifest, h: Hand)
    ensures ValidInterval(h) && CrossesDevelopment(m.development, h) <==> MeetsDevelopment(m, h)
  {
    forall session, first, last
      ensures Meets(h, session, first, last) <==> ValidInterval(h) && Overlaps(h, session, first, last)
    {
      OverlapsExactly(h, session, first, last);
    }
    hide Meets, Overlaps;
  }

  lemma EarlierReport(m: Manifest, i: nat)
    requires i < |m.hands|
    ensures ValidInterval(m.hands[i]) && Crosses(AcceptedAfter(m.hands[..i]), m.hands[i]) <==> MeetsEarlier(m, i)
  {
    var h, accepted := m.hands[i], AcceptedAfter(m.hands[..i]);
    forall session, first, last
      ensures Meets(h, session, first, last) <==> ValidInterval(h) && Overlaps(h, session, first, last)
    {
      OverlapsExactly(h, session, first, last);
    }
    KeptExactly(m.hands, i);
    hide Meets, Overlaps, AcceptedAfter;
    if ValidInterval(h) && Crosses(accepted, h) {
      var id :| id in accepted && Overlaps(h, accepted[id].session, accepted[id].first.value, accepted[id].last.value);
      var j :| Kept(m.hands, i, j) && m.hands[j].id == id && m.hands[j] == accepted[id];
      assert Meets(h, m.hands[j].session, m.hands[j].first.value, m.hands[j].last.value);
    }
    if MeetsEarlier(m, i) {
      var j :| Kept(m.hands, i, j) && Meets(h, m.hands[j].session, m.hands[j].first.value, m.hands[j].last.value);
      assert m.hands[j].id in accepted && accepted[m.hands[j].id] == m.hands[j];
    }
  }

  lemma OneHandExactly(m: Manifest, i: nat, x: Issue)
    requires i < |m.hands|
    ensures x in OneHand(m, m.hands[..i], m.hands[i]) <==> OfHand(m, i, x)
  {
    SeenExactly(m.hands, i, m.hands[i].id);
    DevelopmentReport(m, m.hands[i]);
    EarlierReport(m, i);
    assert ValidInterval(m.hands[i]) <==> Spans(m.hands[i]);
    forall c, y ensures x in When(c, y) <==> c && x == y {}
    hide SeenIds, AcceptedAfter, Crosses, CrossesDevelopment, MeetsDevelopment, MeetsEarlier, When, ValidInterval,
      Spans;
  }

  lemma {:induction false} HandsReport(m: Manifest, n: nat, x: Issue)
    requires n <= |m.hands|
    ensures x in HandIssues(m, n) <==> exists i :: 0 <= i < n && OfHand(m, i, x)
  {
    hide OfHand, OneHand;
    if n > 0 {
      HandsReport(m, n - 1, x);
      OneHandExactly(m, n - 1, x);
    }
  }

  // ---------------------------------------------------------------- issues of rows

  /** A frame of a hand the gate keeps. */
  ghost predicate Frame(m: Manifest, k: Key)
  {
    && k.frame.Some?
    && exists i :: Kept(m.hands, |m.hands|, i) && m.hands[i].id == k.hand
                   && m.hands[i].first.value <= k.frame.value <= m.hands[i].last.value
  }

  lemma FramesKept(m: Manifest, k: Key)
    ensures k in Expected(AcceptedAfter(m.hands)) <==> Frame(m, k)
    ensures Inside(AcceptedAfter(m.hands), k) <==> Frame(m, k)
  {
    KeptExactly(m.hands, |m.hands|);
    assert m.hands[..|m.hands|] == m.hands;
    hide AcceptedAfter;
    if Frame(m, k) {
      var i :| Kept(m.hands, |m.hands|, i) && m.hands[i].id == k.hand
        && m.hands[i].first.value <= k.frame.value <= m.hands[i].last.value;
      assert k.hand in AcceptedAfter(m.hands) && AcceptedAfter(m.hands)[k.hand] == m.hands[i];
    }
  }

  predicate Matches(r: Row, k: Key)
  {
    r.hand == k.hand && r.frame == k.frame
  }

  /** The last row of a frame, if it has one. */
  predicate RowIs(rows: seq<Row>, k: Key, row: Option<Row>)
  {
    match row
    case None => forall i | 0 <= i < |rows| :: !Matches(rows[i], k)
    case Some(r) =>
      exists i :: 0 <= i < |rows| && rows[i] == r && Matches(r, k) && forall j | i < j < |rows| :: !Matches(rows[j], k)
  }

  function IndexedAt(rows: seq<Row>, k: Key): Option<Row>
  {
    if k in Indexed(rows) then Some(Indexed(rows)[k]) else None
  }

  lemma RowIsExactly(rows: seq<Row>, k: Key, row: Option<Row>)
    ensures RowIs(rows, k, row) <==> row == IndexedAt(rows, k)
  {
    LastRowWins(rows);
    IndexKeys(rows, k);
    forall r ensures Matches(r, k) <==> KeyOf(r) == k {}
    hide Indexed, Matches, KeyOf;
    match row {
      case None =>
        if r :| r in rows && KeyOf(r) == k {
          var i :| 0 <= i < |rows| && rows[i] == r;
          assert Matches(rows[i], k);
        }
      case Some(r) =>
        assert LastOf(rows, k, r) <==> RowIs(rows, k, row);
    }
  }

  function Fielded(row: Option<Row>): Fields
  {
    if row.Some? then row.value.fields else map[]
  }

  function Opportune(row: Option<Row>): Option<bool>
  {
    if row.Some? then row.value.opportunity else None
  }

  /** What the issues of frames say of the records of one frame. */
  predicate OfCards(opportunity: Option<bool>, gold: Fields, pred: Fields, x: Issue)
  {
    match x
    case OpportunityMissing => opportunity == None
    case MomentExcluded => Moment(gold) && opportunity != Some(true)
    case CardCollision(kind) => !CardsApart(if kind == Labels then gold else pred)
    case BoardMismatch(kind) => !BoardFits(if kind == Labels then gold else pred)
    case _ => false
  }

  /** What the issues of fields say of one field of one frame. */
  predicate OfField(
      valid: (Field, Value) -> bool, opportunity: Option<bool>, gold: Fields, pred: Fields, f: Field, x: Issue)
  {
    var a, o := Of(gold, f), Of(pred, f);
    || (x == GoldMissing(f) && (a.status == NoStatus || a.value == None))
    || (x == PredictionMissing(f) && (o.status == NoStatus || o.value == None))
    || (x == InvalidRequired(f) && a.required == None)
    || (x == InvalidExemption(f) && a.required == Some(false) && !a.exemptionValid)
    || (x == OpportunityExempted(f) && a.required == Some(false) && opportunity != Some(false))
    || (x == ManualKnown(f) && o.status == Known && !(Valid(valid, pred, f) && o.automatic))
    || (x == WrongKnown(f) && o.status == Known && !Confirmed(valid, gold, pred, f))
  }

  predicate OfFrame(valid: (Field, Value) -> bool, a: Option<Row>, b: Option<Row>, x: Issue)
  {
    || OfCards(Opportune(a), Fielded(a), Fielded(b), x)
    || exists f :: OfField(valid, Opportune(a), Fielded(a), Fielded(b), f, x)
  }

  lemma FieldReport(e: Env, k: Key, f: Field, x: Issue)
    ensures x in FieldIssues(e, k, f) <==>
      OfField(e.valid, OpportunityOf(e.truth, k), FieldsOf(e.truth, k), FieldsOf(e.prediction, k), f, x)
  {
    CellExactly(e, k, f);
    hide KnownGold, AutomaticKnown, Matched, Required, Valid, Confirmed, FieldsOf, OpportunityOf, Gold, Output, Of;
    forall c, y ensures x in When(c, y) <==> c && x == y {}
    hide When;
  }

  lemma FrameReport(e: Env, k: Key, x: Issue)
    ensures x in FrameIssues(e, k) <==>
      OfCards(OpportunityOf(e.truth, k), FieldsOf(e.truth, k), FieldsOf(e.prediction, k), x)
  {
    var gold, pred := FieldsOf(e.truth, k), FieldsOf(e.prediction, k);
    hide FieldsOf, OpportunityOf;
    MomentExactly(gold);
    CardsExactly(gold);
    CardsExactly(pred);
    hide PositiveMoment, Moment, Collides, WrongBoard, CardsApart, BoardFits;
    forall c, y ensures x in When(c, y) <==> c && x == y {}
    hide When;
  }

  lemma {:induction false} FieldsReport(e: Env, k: Key, n: nat, x: Issue)
    requires n <= |FIELDS|
    ensures x in FieldIssuesUpTo(e, k, n) <==> exists i :: 0 <= i < n && x in FieldIssues(e, k, FIELDS[i])
  {
    hide FieldIssues;
    if n > 0 { FieldsReport(e, k, n - 1, x); }
  }

  predicate CellSays(e: Env, k: Key, f: Field, x: Issue)
  {
    OfField(e.valid, OpportunityOf(e.truth, k), FieldsOf(e.truth, k), FieldsOf(e.prediction, k), f, x)
  }

  lemma FieldAt(f: Field) returns (i: nat)
    ensures i < |FIELDS| && FIELDS[i] == f
  {
    AllFields(f);
    i :| 0 <= i < |FIELDS| && FIELDS[i] == f;
  }

  lemma AnyField(e: Env, k: Key, x: Issue)
    ensures x in FieldIssuesUpTo(e, k, |FIELDS|) <==> exists f :: CellSays(e, k, f, x)
  {
    FieldsReport(e, k, |FIELDS|, x);
    forall f ensures x in FieldIssues(e, k, f) <==> CellSays(e, k, f, x) { FieldReport(e, k, f, x); }
    hide *;
    if f :| CellSays(e, k, f, x) {
      var i := FieldAt(f);
      assert x in FieldIssues(e, k, FIELDS[i]);
    }
  }

  lemma KeyReport(e: Env, k: Key, a: Option<Row>, b: Option<Row>, x: Issue)
    requires a == if k in e.truth then Some(e.truth[k]) else None
    requires b == if k in e.prediction then Some(e.prediction[k]) else None
    ensures x in KeyIssues(e, k) <==> OfFrame(e.valid, a, b, x)
  {
    FrameReport(e, k, x);
    AnyField(e, k, x);
    assert FieldsOf(e.truth, k) == Fielded(a) && FieldsOf(e.prediction, k) == Fielded(b)
      && OpportunityOf(e.truth, k) == Opportune(a);
    forall f ensures CellSays(e, k, f, x) <==> OfField(e.valid, Opportune(a), Fielded(a), Fielded(b), f, x) {}
    hide FrameIssues, OfField, OfCards, FieldIssuesUpTo, Fielded, Opportune, FieldsOf, OpportunityOf, CellSays;
  }

  // ---------------------------------------------------------------- the whole report

  /** The frame's records say so, for some frame of a kept hand. */
  ghost predicate SomeFrame(m: Manifest, valid: (Field, Value) -> bool, x: Issue)
  {
    exists k, a, b :: Frame(m, k) && RowIs(m.gold, k, a) && RowIs(m.predicted, k, b) && OfFrame(valid, a, b, x)
  }

  lemma FramesReport(m: Manifest, valid: (Field, Value) -> bool, x: Issue)
    ensures x in AllKeyIssues(EnvOf(m, valid), Expected(AcceptedAfter(m.hands))) <==> SomeFrame(m, valid, x)
  {
    var e, expected := EnvOf(m, valid), Expected(AcceptedAfter(m.hands));
    forall k ensures k in expected <==> Frame(m, k) { FramesKept(m, k); }
    forall k, a ensures RowIs(m.gold, k, a) <==> a == IndexedAt(m.gold, k) { RowIsExactly(m.gold, k, a); }
    forall k, b ensures RowIs(m.predicted, k, b) <==> b == IndexedAt(m.predicted, k) {
      RowIsExactly(m.predicted, k, b);
    }
    forall k ensures x in KeyIssues(e, k) <==> OfFrame(valid, IndexedAt(m.gold, k), IndexedAt(m.predicted, k), x) {
      KeyReport(e, k, IndexedAt(m.gold, k), IndexedAt(m.predicted, k), x);
    }
    hide KeyIssues, OfFrame, RowIs, Frame, IndexedAt, Expected, AcceptedAfter, Indexed;
    if x in AllKeyIssues(e, expected) {
      var k :| k in expected && x in KeyIssues(e, k);
      assert Frame(m, k) && RowIs(m.gold, k, IndexedAt(m.gold, k)) && RowIs(m.predicted, k, IndexedAt(m.predicted, k));
    }
  }

  // ---------------------------------------------------------------- the manifest as a whole

  predicate Repeats(rows: seq<Row>)
  {
    exists i, j | 0 <= i < j < |rows| :: rows[i].hand == rows[j].hand && rows[i].frame == rows[j].frame
  }

  /** Some row lies in no frame of a kept hand. */
  ghost predicate Astray(m: Manifest, rows: seq<Row>)
  {
    exists r :: r in rows && !Frame(m, KeyOf(r))
  }

  /** There is no frame at all, or one without a row. */
  ghost predicate Uncovered(m: Manifest, rows: seq<Row>)
  {
    (forall k :: !Frame(m, k)) || exists k :: Frame(m, k) && RowIs(rows, k, None)
  }

  /** Some hand has the issue. */
  ghost predicate SomeHand(m: Manifest, x: Issue)
  {
    exists i :: 0 <= i < |m.hands| && OfHand(m, i, x)
  }

  /** The registry of some kept hand has the issue. */
  ghost predicate SomeRegistry(m: Manifest, x: Issue)
  {
    exists i :: Kept(m.hands, |m.hands|, i) && OfRegistry(m, m.hands[i], x)
  }

  /** The issues that tell of the manifest as a whole. */
  ghost predicate OfWhole(m: Manifest, valid: (Field, Value) -> bool, x: Issue)
  {
    || (x == NoHands && m.hands == []) || (x == Elsewhere && m.elsewhere)
    || (x == DuplicateRow(Labels) && Repeats(m.gold)) || (x == DuplicateRow(Predictions) && Repeats(m.predicted))
    || (x == OutsideHand(Labels) && Astray(m, m.gold)) || (x == OutsideHand(Predictions) && Astray(m, m.predicted))
    || (x == IncompleteFrames(Labels) && (Astray(m, m.gold) || Uncovered(m, m.gold)))
    || (x == IncompleteFrames(Predictions) && (Astray(m, m.predicted) || Uncovered(m, m.predicted)))
    || (x.FieldIncomplete? && !(SomeRequired(m, x.field) && AllConfirmed(m, valid, x.field)))
  }

  /** The field is required of the frame: not exempted, or not known to be outside an opportunity. */
  predicate Needs(a: Option<Row>, f: Field)
  {
    !(Of(Fielded(a), f).required == Some(false) && Opportune(a) == Some(false))
  }

  ghost predicate NeededAt(m: Manifest, k: Key, f: Field)
  {
    Frame(m, k) && exists a :: RowIs(m.gold, k, a) && Needs(a, f)
  }

  ghost predicate ConfirmedAt(m: Manifest, valid: (Field, Value) -> bool, k: Key, f: Field)
  {
    exists a, b :: RowIs(m.gold, k, a) && RowIs(m.predicted, k, b) && Confirmed(valid, Fielded(a), Fielded(b), f)
  }

  ghost predicate SomeRequired(m: Manifest, f: Field)
  {
    exists k :: NeededAt(m, k, f)
  }

  ghost predicate AllConfirmed(m: Manifest, valid: (Field, Value) -> bool, f: Field)
  {
    forall k | NeededAt(m, k, f) :: ConfirmedAt(m, valid, k, f)
  }

  lemma StrayReport(m: Manifest, rows: seq<Row>)
    ensures Strays(rows, AcceptedAfter(m.hands)) <==> Astray(m, rows)
  {
    var accepted := AcceptedAfter(m.hands);
    forall k ensures Inside(accepted, k) <==> Frame(m, k) { FramesKept(m, k); }
    hide Inside, Frame, AcceptedAfter, KeyOf;
    if r :| r in rows && !Frame(m, KeyOf(r)) {
      var i :| 0 <= i < |rows| && rows[i] == r;
      assert !Inside(accepted, KeyOf(rows[i]));
    }
  }

  lemma TwinReport(rows: seq<Row>)
    ensures Twins(rows) <==> Repeats(rows)
  {
    if i, j :| 0 <= i < j < |rows| && rows[i].hand == rows[j].hand && rows[i].frame == rows[j].frame {
      assert KeyOf(rows[i]) == KeyOf(rows[j]);
    }
  }

  lemma IndexReport(m: Manifest, rows: seq<Row>, kind: Kind, x: Issue)
    ensures x in IndexIssues(rows, kind, AcceptedAfter(m.hands)) <==>
      (x == DuplicateRow(kind) && Repeats(rows)) || (x == OutsideHand(kind) && Astray(m, rows))
  {
    StrayReport(m, rows);
    TwinReport(rows);
    hide Strays, Twins, Repeats, Astray, AcceptedAfter;
  }

  lemma CoverReport(m: Manifest, rows: seq<Row>)
    ensures (Indexed(rows).Keys != Expected(AcceptedAfter(m.hands)) || Expected(AcceptedAfter(m.hands)) == {}) <==>
            Astray(m, rows) || Uncovered(m, rows)
  {
    var expected := Expected(AcceptedAfter(m.hands));
    forall k ensures k in expected <==> Frame(m, k) { FramesKept(m, k); }
    forall k ensures RowIs(rows, k, None) <==> k !in Indexed(rows) { RowIsExactly(rows, k, None); }
    forall k ensures k in Indexed(rows) <==> exists r :: r in rows && KeyOf(r) == k { IndexKeys(rows, k); }
    hide Frame, AcceptedAfter, Expected, Indexed, RowIs, KeyOf;
    if forall k :: !Frame(m, k) { assert expected == {}; }
    if expected == {} { forall k ensures !Frame(m, k) {} }
  }

  // ---------------------------------------------------------------- registries

  predicate Ascending(frames: seq<int>)
  {
    forall i, j | 0 <= i < j < |frames| :: frames[i] < frames[j]
  }

  /** The registered frames are there, increase, and lie inside. */
  predicate ListedInside(h: Hand)
  {
    && h.opportunityFrames != [] && Ascending(h.opportunityFrames) && Spans(h)
    && forall f | f in h.opportunityFrames :: h.first.value <= f <= h.last.value
  }

  predicate IsOpportunity(m: Manifest, k: Key)
  {
    exists r :: r in m.gold && RowIs(m.gold, k, Some(r)) && r.opportunity == Some(true)
  }

  /** They are, in increasing order, the frames of the hand that are labelled as opportunities. */
  ghost predicate ListsOpportunities(m: Manifest, h: Hand)
  {
    && Ascending(h.opportunityFrames)
    && forall k: Key | k.hand == h.id ::
         IsOpportunity(m, k) <==> k.frame.Some? && k.frame.value in h.opportunityFrames
  }

  /** What the issues of a registry say of a kept hand. */
  ghost predicate OfRegistry(m: Manifest, h: Hand, x: Issue)
  {
    match x
    case OpportunitiesInvalid(id) => id == h.id && !ListedInside(h)
    case OpportunitiesUnreviewed(id) => id == h.id && !h.opportunitiesReviewed
    case OpportunitiesMismatch(id) => id == h.id && !ListsOpportunities(m, h)
    case _ => false
  }

  lemma ListsExactly(m: Manifest, h: Hand)
    ensures RegistryMatches(Indexed(m.gold), h) <==> ListsOpportunities(m, h)
  {
    var truth, frames := Indexed(m.gold), h.opportunityFrames;
    forall k ensures IsOpportunity(m, k) <==> k in truth && truth[k].opportunity == Some(true) {
      forall r { RowIsExactly(m.gold, k, Some(r)); }
      IndexKeys(m.gold, k);
      OpportunityKept(m, k);
    }
    hide Indexed, IsOpportunity;
    assert Increasing(frames) <==> Ascending(frames);
    hide Increasing, Ascending;
    if RegistryMatches(truth, h) {
      forall k: Key | k.hand == h.id
        ensures IsOpportunity(m, k) <==> k.frame.Some? && k.frame.value in frames
      {
        if k.frame.Some? && k.frame.value in frames {
          var i :| 0 <= i < |frames| && frames[i] == k.frame.value;
          assert k == Key(h.id, Some(frames[i]));
        }
      }
    }
    if ListsOpportunities(m, h) {
      forall i | 0 <= i < |frames|
        ensures var k := Key(h.id, Some(frames[i])); k in truth && truth[k].opportunity == Some(true)
      {
        assert IsOpportunity(m, Key(h.id, Some(frames[i])));
      }
    }
  }

  lemma OpportunityKept(m: Manifest, k: Key)
    ensures IsOpportunity(m, k) <==> k in Indexed(m.gold) && Indexed(m.gold)[k].opportunity == Some(true)
  {
    forall r: Row ensures RowIs(m.gold, k, Some(r)) <==> Some(r) == IndexedAt(m.gold, k) {
      RowIsExactly(m.gold, k, Some(r));
    }
    LastRowWins(m.gold);
    hide RowIs, Indexed;
    if k in Indexed(m.gold) {
      var r := Indexed(m.gold)[k];
      assert LastOf(m.gold, k, r);
      assert r in m.gold && RowIs(m.gold, k, Some(r));
    }
  }

  lemma OneRegistry(m: Manifest, h: Hand, x: Issue)
    requires ValidInterval(h)
    ensures x in OpportunityIssues(Indexed(m.gold), h) <==> OfRegistry(m, h, x)
  {
    ListsExactly(m, h);
    assert RegistryValid(h) <==> ListedInside(h) by {
      var frames := h.opportunityFrames;
      assert Increasing(frames) <==> Ascending(frames);
      hide Increasing, Ascending;
      if ListedInside(h) { forall i | 0 <= i < |frames| ensures frames[i] in frames {} }
    }
    hide Indexed, RegistryMatches, RegistryValid, ListedInside, ListsOpportunities;
  }

  lemma RegistryReport(m: Manifest, x: Issue)
    ensures x in AllOpportunityIssues(Indexed(m.gold), AcceptedAfter(m.hands)) <==>
      exists i :: Kept(m.hands, |m.hands|, i) && OfRegistry(m, m.hands[i], x)
  {
    var truth, accepted := Indexed(m.gold), AcceptedAfter(m.hands);
    KeptExactly(m.hands, |m.hands|);
    assert m.hands[..|m.hands|] == m.hands;
    hide Indexed, AcceptedAfter, OpportunityIssues, OfRegistry, Kept;
    forall i | Kept(m.hands, |m.hands|, i)
      ensures x in OpportunityIssues(truth, accepted[m.hands[i].id]) <==> OfRegistry(m, m.hands[i], x)
    {
      OneRegistry(m, m.hands[i], x);
    }
  }

  lemma NeededExactly(m: Manifest, valid: (Field, Value) -> bool, k: Key, f: Field)
    ensures Required(EnvOf(m, valid), k, f) <==> Needs(IndexedAt(m.gold, k), f)
    ensures Matched(EnvOf(m, valid), k, f) <==>
      Confirmed(valid, Fielded(IndexedAt(m.gold, k)), Fielded(IndexedAt(m.predicted, k)), f)
  {
    CellExactly(EnvOf(m, valid), k, f);
    hide Required, Matched, Confirmed, Of, Indexed, KnownGold, AutomaticKnown, Valid;
  }

  lemma NeededAtExactly(m: Manifest, valid: (Field, Value) -> bool, k: Key, f: Field)
    ensures k in Expected(AcceptedAfter(m.hands)) && Required(EnvOf(m, valid), k, f) <==> NeededAt(m, k, f)
    ensures Matched(EnvOf(m, valid), k, f) <==> ConfirmedAt(m, valid, k, f)
  {
    FramesKept(m, k);
    NeededExactly(m, valid, k, f);
    forall a ensures RowIs(m.gold, k, a) <==> a == IndexedAt(m.gold, k) { RowIsExactly(m.gold, k, a); }
    forall b ensures RowIs(m.predicted, k, b) <==> b == IndexedAt(m.predicted, k) { RowIsExactly(m.predicted, k, b); }
    hide Required, Matched, Confirmed, Needs, RowIs, IndexedAt, Fielded, Frame, Expected, AcceptedAfter;
  }

  lemma RequiredReport(m: Manifest, valid: (Field, Value) -> bool, f: Field)
    ensures (exists k :: k in Expected(AcceptedAfter(m.hands)) && Required(EnvOf(m, valid), k, f)) <==>
            SomeRequired(m, f)
  {
    hide Expected, AcceptedAfter, Required, EnvOf, NeededAt;
    if k :| k in Expected(AcceptedAfter(m.hands)) && Required(EnvOf(m, valid), k, f) {
      NeededAtExactly(m, valid, k, f);
    }
    if k :| NeededAt(m, k, f) { NeededAtExactly(m, valid, k, f); }
  }

  lemma ConfirmedReport(m: Manifest, valid: (Field, Value) -> bool, f: Field)
    ensures (forall k | k in Expected(AcceptedAfter(m.hands)) && Required(EnvOf(m, valid), k, f) ::
               Matched(EnvOf(m, valid), k, f)) <==> AllConfirmed(m, valid, f)
  {
    hide Expected, AcceptedAfter, Required, EnvOf, NeededAt, Matched, ConfirmedAt;
    forall k ensures (k in Expected(AcceptedAfter(m.hands)) && Required(EnvOf(m, valid), k, f) <==> NeededAt(m, k, f))
      && (Matched(EnvOf(m, valid), k, f) <==> ConfirmedAt(m, valid, k, f))
    {
      NeededAtExactly(m, valid, k, f);
    }
  }

  lemma CompleteReport(m: Manifest, valid: (Field, Value) -> bool, coverage: map<Field, Count>, f: Field)
    requires CoverageIs(coverage, EnvOf(m, valid), Expected(AcceptedAfter(m.hands)))
    ensures f in coverage && (FieldComplete(coverage[f]) <==> SomeRequired(m, f) && AllConfirmed(m, valid, f))
  {
    var e, expected := EnvOf(m, valid), Expected(AcceptedAfter(m.hands));
    CountIs(e, expected, coverage, f);
    CompleteIff(e, expected, f);
    RequiredReport(m, valid, f);
    ConfirmedReport(m, valid, f);
    hide CoverageIs, Required, Matched, FieldComplete, Counted, Expected, AcceptedAfter, EnvOf, SomeRequired,
      AllConfirmed;
  }

  lemma IncompleteReport(m: Manifest, valid: (Field, Value) -> bool, coverage: map<Field, Count>, x: Issue)
    requires CoverageIs(coverage, EnvOf(m, valid), Expected(AcceptedAfter(m.hands)))
    ensures x in IncompleteFields(coverage) <==>
      x.FieldIncomplete? && !(SomeRequired(m, x.field) && AllConfirmed(m, valid, x.field))
  {
    if x.FieldIncomplete? { CompleteReport(m, valid, coverage, x.field); }
    hide CoverageIs, SomeRequired, AllConfirmed, FieldComplete;
  }

  // ---------------------------------------------------------------- the whole report

  lemma WholeReport(m: Manifest, valid: (Field, Value) -> bool, coverage: map<Field, Count>, x: Issue)
    ensures x in Report(m, valid, coverage) <==>
      || x in HandIssues(m, |m.hands|) || (x == NoHands && m.hands == []) || (x == Elsewhere && m.elsewhere)
      || x in IndexIssues(m.gold, Labels, AcceptedAfter(m.hands))
      || x in IndexIssues(m.predicted, Predictions, AcceptedAfter(m.hands))
      || (x == IncompleteFrames(Labels)
          && (Indexed(m.gold).Keys != Expected(AcceptedAfter(m.hands)) || Expected(AcceptedAfter(m.hands)) == {}))
      || (x == IncompleteFrames(Predictions)
          && (Indexed(m.predicted).Keys != Expected(AcceptedAfter(m.hands)) || Expected(AcceptedAfter(m.hands)) == {}))
      || x in AllOpportunityIssues(Indexed(m.gold), AcceptedAfter(m.hands))
      || x in AllKeyIssues(EnvOf(m, valid), Expected(AcceptedAfter(m.hands))) || x in IncompleteFields(coverage)
  {
    hide HandIssues, AcceptedAfter, IndexIssues, Indexed, AllOpportunityIssues, AllKeyIssues, Expected,
      IncompleteFields;
  }

  /**
   Each issue is reported exactly when it holds of the whole manifest, of one of its hands, of a kept hand's registry
   or of one of the frames.
   */
  lemma ReportedExactly(m: Manifest, valid: (Field, Value) -> bool, coverage: map<Field, Count>, x: Issue)
    requires CoverageIs(coverage, EnvOf(m, valid), Expected(AcceptedAfter(m.hands)))
    ensures x in Report(m, valid, coverage) <==>
      OfWhole(m, valid, x) || SomeHand(m, x) || SomeRegistry(m, x) || SomeFrame(m, valid, x)
  {
    WholeReport(m, valid, coverage, x);
    HandsReport(m, |m.hands|, x);
    FramesReport(m, valid, x);
    IndexReport(m, m.gold, Labels, x);
    IndexReport(m, m.predicted, Predictions, x);
    CoverReport(m, m.gold);
    CoverReport(m, m.predicted);
    RegistryReport(m, x);
    IncompleteReport(m, valid, coverage, x);
    assert x in HandIssues(m, |m.hands|) <==> SomeHand(m, x);
    assert x in AllOpportunityIssues(Indexed(m.gold), AcceptedAfter(m.hands)) <==> SomeRegistry(m, x);
    hide CoverageIs, SomeFrame, SomeHand, SomeRegistry, HandIssues, AcceptedAfter, IndexIssues, Indexed,
      AllOpportunityIssues, AllKeyIssues, Expected, Astray, Uncovered, Repeats, SomeRequired, AllConfirmed, Report,
      IncompleteFields, EnvOf;
  }
}
