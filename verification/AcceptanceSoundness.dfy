/**
 The acceptance gate tests aggregates; these lemmas say what its verdict means for every hand, frame and field.
 */
module AcceptanceSoundness {
  import opened Common
  import opened Acceptance

  // ---------------------------------------------------------------- counters

  lemma SubsetCounts(a: set<Key>, b: set<Key>)
    requires a <= b
    ensures |a| <= |b| && (|a| == |b| ==> a == b)
  {
    var rest := b - a;
    assert b == a + rest && a !! rest;
    assert |b| == |a| + |rest|;
    assert |rest| == 0 ==> rest == {};
  }

  lemma Implied(e: Env, keys: set<Key>, f: Field, a: Mark, b: Mark)
    requires forall k | Marked(e, k, f, a) :: Marked(e, k, f, b)
    ensures |Having(e, keys, f, a)| <= |Having(e, keys, f, b)|
  {
    hide Marked;
    SubsetCounts(Having(e, keys, f, a), Having(e, keys, f, b));
  }

  lemma MarksImply(e: Env, k: Key, f: Field)
    ensures Marked(e, k, f, MarkMatched) ==> Marked(e, k, f, MarkKnown) && Marked(e, k, f, MarkAutomatic)
    ensures Marked(e, k, f, MarkRequiredMatched) ==> Marked(e, k, f, MarkRequired) && Marked(e, k, f, MarkMatched)
    ensures Marked(e, k, f, MarkAbstained) ==> Marked(e, k, f, MarkExempt)
    ensures Marked(e, k, f, MarkExempt) <==> !Marked(e, k, f, MarkRequired)
  {
    hide KnownGold, AutomaticKnown, Required, Output;
  }

  lemma Complement(e: Env, keys: set<Key>, f: Field, a: Mark, b: Mark)
    requires forall k :: Marked(e, k, f, a) <==> !Marked(e, k, f, b)
    ensures |Having(e, keys, f, a)| + |Having(e, keys, f, b)| == |keys|
  {
    hide Marked;
    var x, y := Having(e, keys, f, a), Having(e, keys, f, b);
    assert keys == x + y && x !! y;
  }

  /** Whatever the records hold, required and exempt frames add up to all, and matches are known on both sides. */
  lemma CountersAreConsistent(e: Env, keys: set<Key>, f: Field)
    ensures var c := Counted(e, keys, f);
      && c.required + c.exempt == |keys| && c.matched <= c.known && c.matched <= c.automatic
      && c.requiredMatched <= c.required && c.requiredMatched <= c.matched && c.abstained <= c.exempt
  {
    hide Having, Marked;
    forall k { MarksImply(e, k, f); }
    Complement(e, keys, f, MarkExempt, MarkRequired);
    Implied(e, keys, f, MarkMatched, MarkKnown);
    Implied(e, keys, f, MarkMatched, MarkAutomatic);
    Implied(e, keys, f, MarkRequiredMatched, MarkRequired);
    Implied(e, keys, f, MarkRequiredMatched, MarkMatched);
    Implied(e, keys, f, MarkAbstained, MarkExempt);
  }

  /** Equal totals mean every required frame, one by one, is matched. */
  lemma CompleteIff(e: Env, keys: set<Key>, f: Field)
    ensures FieldComplete(Counted(e, keys, f)) <==>
      (exists k :: k in keys && Required(e, k, f)) && forall k | k in keys && Required(e, k, f) :: Matched(e, k, f)
  {
    var required, both := Having(e, keys, f, MarkRequired), Having(e, keys, f, MarkRequiredMatched);
    hide Required, Matched;
    assert both <= required;
    SubsetCounts(both, required);
    if |required| > 0 {
      var k :| k in required;
      assert k in keys && Required(e, k, f);
    }
    if FieldComplete(Counted(e, keys, f)) {
      forall k | k in keys && Required(e, k, f) ensures Matched(e, k, f) { assert k in required; }
    }
    if k :| k in keys && Required(e, k, f) { assert k in required; }
    if forall k | k in keys && Required(e, k, f) :: Matched(e, k, f) { assert required == both; }
  }

  // ---------------------------------------------------------------- hands

  predicate Disjoint(h: Hand, other: Hand)
    requires ValidInterval(h) && ValidInterval(other)
  {
    h.session != other.session || h.last.value < other.first.value || other.last.value < h.first.value
  }

  predicate CleanHand(h: Hand)
  {
    h.id.Some? && h.session.Some? && h.holdout && h.complete && h.labelsReviewed && !h.tuningExposed && ValidInterval(h)
  }

  lemma {:induction false} NothingAt(m: Manifest, n: nat, i: nat)
    requires i < n <= |m.hands| && HandIssues(m, n) == {}
    ensures OneHand(m, m.hands[..i], m.hands[i]) == {}
  {
    hide OneHand;
    if i < n - 1 { NothingAt(m, n - 1, i); }
  }

  lemma CleanMeans(m: Manifest, earlier: seq<Hand>, h: Hand)
    requires OneHand(m, earlier, h) == {}
    ensures CleanHand(h) && h.id !in SeenIds(earlier) && !CrossesDevelopment(m.development, h)
      && !Crosses(AcceptedAfter(earlier), h)
  {
    hide Crosses, CrossesDevelopment, AcceptedAfter, SeenIds, ValidInterval;
    var issues := OneHand(m, earlier, h);
    assert DuplicateOrMissingHand !in issues && NotHoldout(h.id) !in issues && IncompleteHand(h.id) !in issues
      && UnreviewedLabels(h.id) !in issues;
    assert TuningExposure(h.id) !in issues && InvalidInterval(h.id) !in issues && MissingSession(h.id) !in issues;
    assert DevelopmentOverlap(h.id) !in issues && HoldoutOverlap(h.id) !in issues;
  }

  lemma {:induction false} SeenHolds(hands: seq<Hand>, i: nat)
    requires i < |hands|
    ensures hands[i].id in SeenIds(hands)
  {
    if i < |hands| - 1 { SeenHolds(hands[..|hands| - 1], i); }
  }

  /** With distinct ids every valid hand is still among the accepted ones. */
  lemma {:induction false} AcceptedHolds(hands: seq<Hand>, i: nat)
    requires i < |hands| && ValidInterval(hands[i])
    requires forall j | i < j < |hands| :: hands[j].id != hands[i].id
    ensures hands[i].id in AcceptedAfter(hands) && AcceptedAfter(hands)[hands[i].id] == hands[i]
  {
    hide ValidInterval;
    var n := |hands| - 1;
    if i < n {
      AcceptedHolds(hands[..n], i);
      assert hands[n].id != hands[i].id;
    }
  }

  lemma AllClean(m: Manifest, i: nat)
    requires i < |m.hands| && HandIssues(m, |m.hands|) == {}
    ensures CleanHand(m.hands[i]) && m.hands[i].id !in SeenIds(m.hands[..i])
      && !Crosses(AcceptedAfter(m.hands[..i]), m.hands[i])
    ensures !CrossesDevelopment(m.development, m.hands[i])
  {
    hide OneHand, HandIssues;
    NothingAt(m, |m.hands|, i);
    CleanMeans(m, m.hands[..i], m.hands[i]);
  }

  lemma DistinctIds(m: Manifest, i: nat, j: nat)
    requires i < j < |m.hands| && HandIssues(m, |m.hands|) == {}
    ensures m.hands[i].id != m.hands[j].id
  {
    hide HandIssues, SeenIds, Crosses, AcceptedAfter, CrossesDevelopment, CleanHand;
    AllClean(m, j);
    SeenHolds(m.hands[..j], i);
  }

  /** Without hand issues, hands of one session never share a frame, nor do they touch a development interval. */
  lemma HandsAreDisjoint(m: Manifest, i: nat, j: nat)
    requires i < j < |m.hands| && HandIssues(m, |m.hands|) == {}
    ensures CleanHand(m.hands[i]) && CleanHand(m.hands[j]) && m.hands[i].id != m.hands[j].id
      && Disjoint(m.hands[i], m.hands[j])
  {
    hide HandIssues, SeenIds, AcceptedAfter, CrossesDevelopment;
    AllClean(m, i);
    AllClean(m, j);
    DistinctIds(m, i, j);
    var earlier := m.hands[..j];
    forall k | i < k < |earlier| ensures earlier[k].id != earlier[i].id { DistinctIds(m, i, k); }
    AcceptedHolds(earlier, i);
    assert !Overlaps(m.hands[j], m.hands[i].session, m.hands[i].first.value, m.hands[i].last.value) by {
      var id := m.hands[i].id;
      assert id in AcceptedAfter(earlier) && AcceptedAfter(earlier)[id] == m.hands[i];
    }
  }

  /** Then the frames compared are all frames of all hands. */
  lemma EveryFrameIsExpected(m: Manifest, i: nat, frame: int)
    requires i < |m.hands| && HandIssues(m, |m.hands|) == {}
    ensures ValidInterval(m.hands[i])
    ensures m.hands[i].first.value <= frame <= m.hands[i].last.value ==>
      Key(m.hands[i].id, Some(frame)) in Expected(AcceptedAfter(m.hands))
  {
    hide HandIssues, SeenIds, AcceptedAfter, CrossesDevelopment, Crosses;
    AllClean(m, i);
    forall j | i < j < |m.hands| ensures m.hands[j].id != m.hands[i].id { DistinctIds(m, i, j); }
    AcceptedHolds(m.hands, i);
  }

  // ---------------------------------------------------------------- a pass

  /**
   One field of one frame after a pass: unless it is validly exempted and the prediction claims nothing, label and
   prediction are known, their values are the same and valid, and the prediction was made automatically.
   */
  predicate Accounted(e: Env, k: Key, f: Field)
  {
    var a, o := Gold(e, k, f), Output(e, k, f);
    var exempted := a.required == Some(false) && a.exemptionValid && OpportunityOf(e.truth, k) == Some(false);
    o.status == Known || !exempted ==>
      && a.status == Known && o.status == Known && o.automatic
      && a.value.Some? && o.value == a.value && e.valid(f, a.value.value)
      && ValidNaContext(f, a.value.value, FieldsOf(e.truth, k))
      && ValidNaContext(f, a.value.value, FieldsOf(e.prediction, k))
  }

  lemma CellAccounted(e: Env, k: Key, f: Field)
    requires FieldIssues(e, k, f) == {} && (Required(e, k, f) ==> Matched(e, k, f))
    ensures Accounted(e, k, f)
  {
    hide Gold, Output, OpportunityOf, ValidNaContext;
    var issues := FieldIssues(e, k, f);
    assert WrongKnown(f) !in issues && InvalidExemption(f) !in issues;
  }

  lemma {:induction false} NoFieldIssue(e: Env, k: Key, n: nat, i: nat)
    requires i < n <= |FIELDS| && FieldIssuesUpTo(e, k, n) == {}
    ensures FieldIssues(e, k, FIELDS[i]) == {}
  {
    hide FieldIssues;
    if i < n - 1 { NoFieldIssue(e, k, n - 1, i); }
  }

  lemma NoKeyIssue(e: Env, keys: set<Key>, k: Key, i: nat)
    requires k in keys && AllKeyIssues(e, keys) == {} && i < |FIELDS|
    ensures FieldIssues(e, k, FIELDS[i]) == {} && FrameIssues(e, k) == {}
  {
    hide FieldIssues, FrameIssues;
    assert KeyIssues(e, k) == {} by {
      hide KeyIssues;
      forall x ensures x !in KeyIssues(e, k) { assert x in KeyIssues(e, k) ==> x in AllKeyIssues(e, keys); }
    }
    NoFieldIssue(e, k, |FIELDS|, i);
  }

  lemma ReportPhases(m: Manifest, valid: (Field, Value) -> bool, coverage: map<Field, Count>)
    requires Report(m, valid, coverage) == {}
    ensures var accepted, e := AcceptedAfter(m.hands), EnvOf(m, valid);
      var expected := Expected(accepted);
      && HandIssues(m, |m.hands|) == {} && m.hands != [] && !m.elsewhere
      && IndexIssues(m.gold, Labels, accepted) == {} && IndexIssues(m.predicted, Predictions, accepted) == {}
      && e.truth.Keys == expected && e.prediction.Keys == expected && expected != {}
      && AllOpportunityIssues(e.truth, accepted) == {} && AllKeyIssues(e, expected) == {}
      && IncompleteFields(coverage) == {}
  {
    hide HandIssues, AcceptedAfter, IndexIssues, Indexed, AllOpportunityIssues, AllKeyIssues, IncompleteFields,
      Expected;
    var all := Report(m, valid, coverage);
    assert NoHands !in all && Elsewhere !in all && IncompleteFrames(Labels) !in all
      && IncompleteFrames(Predictions) !in all;
  }

  /** Every row has a key of its own, lies in an accepted hand, and is the one the comparison uses. */
  predicate CleanRows(rows: seq<Row>, accepted: Accepted)
  {
    && (forall i, j | 0 <= i < j < |rows| :: KeyOf(rows[i]) != KeyOf(rows[j]))
    && (forall i | 0 <= i < |rows| :: Inside(accepted, KeyOf(rows[i])))
    && (forall i | 0 <= i < |rows| :: KeyOf(rows[i]) in Indexed(rows) && Indexed(rows)[KeyOf(rows[i])] == rows[i])
  }

  lemma RowsClean(rows: seq<Row>, kind: Kind, accepted: Accepted)
    requires IndexIssues(rows, kind, accepted) == {}
    ensures CleanRows(rows, accepted)
  {
    hide Inside, Indexed;
    var issues := IndexIssues(rows, kind, accepted);
    assert DuplicateRow(kind) !in issues && OutsideHand(kind) !in issues;
    LastRowWins(rows);
    forall i | 0 <= i < |rows| ensures KeyOf(rows[i]) in Indexed(rows) && Indexed(rows)[KeyOf(rows[i])] == rows[i] {
      assert LastOf(rows, KeyOf(rows[i]), rows[i]);
    }
  }

  /** The registered frames of a hand lie in it in increasing order and are exactly its labelled opportunities. */
  ghost predicate RegistryIsRight(truth: map<Key, Row>, h: Hand)
  {
    && ValidInterval(h) && RegistryValid(h) && h.opportunitiesReviewed
    && forall f :: f in h.opportunityFrames <==>
                   Key(h.id, Some(f)) in truth && truth[Key(h.id, Some(f))].opportunity == Some(true)
  }

  lemma RegistryRight(truth: map<Key, Row>, accepted: Accepted, h: Hand)
    requires AllOpportunityIssues(truth, accepted) == {} && h.id in accepted && accepted[h.id] == h
    ensures RegistryIsRight(truth, h)
  {
    assert OpportunityIssues(truth, h) == {} by {
      hide OpportunityIssues;
      forall x ensures x !in OpportunityIssues(truth, h) {
        assert x in OpportunityIssues(truth, accepted[h.id]) ==> x in AllOpportunityIssues(truth, accepted);
      }
    }
    hide RegistryValid, AllOpportunityIssues, ValidInterval, Increasing;
    var issues := OpportunityIssues(truth, h);
    assert OpportunitiesInvalid(h.id) !in issues && OpportunitiesUnreviewed(h.id) !in issues
      && OpportunitiesMismatch(h.id) !in issues;
    forall f | f in h.opportunityFrames
      ensures Key(h.id, Some(f)) in truth && truth[Key(h.id, Some(f))].opportunity == Some(true)
    {
      var i :| 0 <= i < |h.opportunityFrames| && h.opportunityFrames[i] == f;
    }
  }

  /** One frame after a pass: it is labelled, its moments of action are opportunities, its cards make sense. */
  predicate FrameIsRight(e: Env, k: Key)
  {
    && OpportunityOf(e.truth, k).Some?
    && (PositiveMoment(FieldsOf(e.truth, k)) ==> OpportunityOf(e.truth, k) == Some(true))
    && !Collides(FieldsOf(e.truth, k)) && !Collides(FieldsOf(e.prediction, k))
    && !WrongBoard(FieldsOf(e.truth, k)) && !WrongBoard(FieldsOf(e.prediction, k))
  }

  lemma FrameRight(e: Env, expected: set<Key>, k: Key)
    requires AllKeyIssues(e, expected) == {} && k in expected
    ensures FrameIsRight(e, k)
  {
    hide AllKeyIssues, PositiveMoment, Collides, WrongBoard, OpportunityOf, FieldsOf;
    NoKeyIssue(e, expected, k, 0);
    var issues := FrameIssues(e, k);
    assert OpportunityMissing !in issues && MomentExcluded !in issues;
    assert CardCollision(Labels) !in issues && CardCollision(Predictions) !in issues;
    assert BoardMismatch(Labels) !in issues && BoardMismatch(Predictions) !in issues;
  }

  lemma HandRegistry(m: Manifest, truth: map<Key, Row>, i: nat)
    requires HandIssues(m, |m.hands|) == {} && AllOpportunityIssues(truth, AcceptedAfter(m.hands)) == {}
      && i < |m.hands|
    ensures RegistryIsRight(truth, m.hands[i])
  {
    hide HandIssues, SeenIds, AcceptedAfter, CrossesDevelopment, Crosses, AllOpportunityIssues, RegistryIsRight;
    AllClean(m, i);
    forall j | i < j < |m.hands| ensures m.hands[j].id != m.hands[i].id { DistinctIds(m, i, j); }
    AcceptedHolds(m.hands, i);
    RegistryRight(truth, AcceptedAfter(m.hands), m.hands[i]);
  }

  /**
   A pass means: hands of one session are pairwise disjoint; no two rows share a frame and every row lies in a hand;
   labels and predictions cover exactly the frames of the hands; the registered opportunities of every hand are exactly
   the labelled ones and every known moment of action is among them; every field of every frame is matched unless it is
   validly exempted outside an opportunity; and every prediction claimed as known equals a valid known label.
   */
  lemma PassIsSound(m: Manifest, valid: (Field, Value) -> bool, coverage: map<Field, Count>)
    requires CoverageIs(coverage, EnvOf(m, valid), Expected(AcceptedAfter(m.hands)))
    requires Report(m, valid, coverage) == {}
    ensures forall i, j | 0 <= i < j < |m.hands| ::
      CleanHand(m.hands[i]) && CleanHand(m.hands[j]) && Disjoint(m.hands[i], m.hands[j])
    ensures forall i | 0 <= i < |m.hands| :: RegistryIsRight(EnvOf(m, valid).truth, m.hands[i])
    ensures CleanRows(m.gold, AcceptedAfter(m.hands)) && CleanRows(m.predicted, AcceptedAfter(m.hands))
    ensures var e, expected := EnvOf(m, valid), Expected(AcceptedAfter(m.hands));
      && expected != {} && e.truth.Keys == expected && e.prediction.Keys == expected
      && (forall k | k in expected :: FrameIsRight(e, k))
      && (forall k, f | k in expected && f in FIELDS :: Accounted(e, k, f))
  {
    ReportPhases(m, valid, coverage);
    hide Report, HandIssues, AllKeyIssues, AllOpportunityIssues, Expected, AcceptedAfter, Accounted, Counted, CleanHand,
      Disjoint;
    hide CleanRows, FrameIsRight, RegistryIsRight, IndexIssues, CoverageIs, IncompleteFields;
    RowsClean(m.gold, Labels, AcceptedAfter(m.hands));
    RowsClean(m.predicted, Predictions, AcceptedAfter(m.hands));
    forall i, j | 0 <= i < j < |m.hands|
      ensures CleanHand(m.hands[i]) && CleanHand(m.hands[j]) && Disjoint(m.hands[i], m.hands[j])
    {
      HandsAreDisjoint(m, i, j);
    }
    var e, expected := EnvOf(m, valid), Expected(AcceptedAfter(m.hands));
    forall i | 0 <= i < |m.hands| ensures RegistryIsRight(e.truth, m.hands[i]) { HandRegistry(m, e.truth, i); }
    forall k | k in expected ensures FrameIsRight(e, k) { FrameRight(e, expected, k); }
    forall k, f | k in expected && f in FIELDS ensures Accounted(e, k, f) {
      FieldAccounted(e, expected, coverage, k, f);
    }
  }

  lemma FieldAccounted(e: Env, expected: set<Key>, coverage: map<Field, Count>, k: Key, f: Field)
    requires CoverageIs(coverage, e, expected) && AllKeyIssues(e, expected) == {} && IncompleteFields(coverage) == {}
    requires k in expected && f in FIELDS
    ensures Accounted(e, k, f)
  {
    hide AllKeyIssues, Counted, FieldIssues, FrameIssues, Required, Matched, Accounted;
    var i :| 0 <= i < |FIELDS| && FIELDS[i] == f;
    NoKeyIssue(e, expected, k, i);
    assert FieldIncomplete(f) !in IncompleteFields(coverage);
    assert FieldComplete(coverage[f]);
    CompleteIff(e, expected, f);
    CellAccounted(e, k, f);
  }
}
