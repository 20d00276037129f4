/**
 Why an event does not bind: every reason, exactly when the validator gives it, and every key it marks.
 */
module BindingRules {
  import opened Common
  import opened SourceIdentity
  import opened Annotations
  import opened Exposures

  predicate Blankless(s: string)
  {
    exists i | 0 <= i < |s| :: s[i] != ' ' && !('\t' <= s[i] <= '\r')
  }

  /** The event names the revision. */
  predicate Names(ev: Event, id: string)
  {
    ev.revisionIds.Some? && id in ev.revisionIds.value && Blankless(id)
  }

  /** The revision has this lineage in one of the stores read. */
  predicate HasLineage(index: RevisionIndex, id: string, l: Lineage)
  {
    id in index && l in index[id]
  }

  /** Some revision the event names has this lineage. */
  ghost predicate Reaches(ev: Event, index: RevisionIndex, l: Lineage)
  {
    exists id :: Names(ev, id) && HasLineage(index, id, l)
  }

  /** A key of its own, which both sides have. */
  predicate SharedKey(a: Option<Key>, b: Option<Key>)
  {
    a.Some? && a == b && (a.value.Stored? ==> Blankless(a.value.text))
  }

  /** The keys the event stands for: those of its reference, or the stored ones when that cannot be used. */
  ghost predicate StandsFor(ev: Event, k: Keys, complete: bool)
  {
    match Canonicalise(ev.ref, true)
    case Ok(id) =>
      k == Keys(id.sourceKey, id.rootKey, id.parentSourceKey, id.parentRootKey)
      && (complete <==> id.identityClass == Complete)
    case Raised(_) => k == ev.storedKeys && (complete <==> ev.storedClass == Some(Complete))
  }

  /** What the event targets. */
  predicate Aims(ev: Event, t: Target)
  {
    ev.consumer.Some? && ev.consumer.value.targets.Some? && t in ev.consumer.value.targets.value
  }

  predicate HasTargets(ev: Event)
  {
    ev.consumer.Some? && ev.consumer.value.targets.Some?
  }

  predicate NoText(s: Option<string>)
  {
    s == None || !Blankless(s.value)
  }

  predicate Unsupported(t: Target)
  {
    t.field != PotDisplay && t.field != VisibleActionGlyph
  }

  predicate Negative(t: Target)
  {
    t.seat.Some? && t.seat.value < 0
  }

  /** The first target that is not supported, or is on a negative seat, and which of the two it is. */
  predicate FirstBadTarget(targets: seq<Target>, i: int, p: ConsumerError)
  {
    && 0 <= i < |targets| && (forall j | 0 <= j < i :: !Unsupported(targets[j]) && !Negative(targets[j]))
    && (Unsupported(targets[i]) || Negative(targets[i]))
    && p == if Unsupported(targets[i]) then TargetFieldUnsupported else TargetSeatInvalid
  }

  predicate BadConsumer(c: Consumer, p: ConsumerError)
  {
    if NoText(c.id) then p == ConsumerIdRequired
    else if NoText(c.digest) then p == ConsumerDigestRequired
    else if c.targets == None || c.targets.value == [] then p == TargetsRequired
    else exists i | 0 <= i < |c.targets.value| :: FirstBadTarget(c.targets.value, i, p)
  }

  predicate BadRun(r: Option<RunRef>, p: RunRefError)
  {
    if r == None then p == RunRefRequired
    else if NoText(r.value.kind) then p == RunRefKindRequired
    else NoText(r.value.reference) && p == RunRefDigestRequired
  }

  /** The reasons that speak of the event alone. */
  ghost predicate OfEvent(ev: Event, complete: bool, r: Reason)
  {
    || (r == EventIdentityNotComplete && !complete) || (r == TargetsUnreadable && !HasTargets(ev))
    || (r == RevisionSetMissing && ev.kind != Released && forall id :: !Names(ev, id))
    || (r == ConsumerMissing && ev.consumer == None)
    || (r.ConsumerInvalid? && ev.consumer.Some? && BadConsumer(ev.consumer.value, r.consumer))
    || (r.RunRefInvalid? && BadRun(ev.runRef, r.run))
  }

  /** The reasons that speak of a named revision: of its lineages, or of one of them. */
  ghost predicate OfNamed(ev: Event, k: Keys, index: RevisionIndex, conflicts: set<string>, r: Reason)
  {
    match r
    case Unresolvable(id) => Names(ev, id) && forall l :: !HasLineage(index, id, l)
    case Ambiguous(id) => Names(ev, id)
      && exists l :: HasLineage(index, id, l) && (id in conflicts || Another(index, id, l))
    case LineageMismatch(id) => Names(ev, id)
      && exists l :: HasLineage(index, id, l) && !SharedKey(k.root, l.keys.root) && !SharedKey(k.source, l.keys.source)
    case RevisionNotComplete(id) => Names(ev, id)
      && exists l :: HasLineage(index, id, l) && l.identityClass != Complete
    case ParentIncomplete(id) => Names(ev, id) && exists l :: HasLineage(index, id, l) && l.parentGaps != {}
    case ParentMismatch(id) => Names(ev, id)
      && exists l :: HasLineage(index, id, l)
                     && !SharedKey(k.parentRoot, l.keys.parentRoot) && !SharedKey(k.parentSource, l.keys.parentSource)
                     && !(k.parentRoot == l.keys.parentRoot == k.parentSource == l.keys.parentSource == None)
    case TargetMismatch(id) => Names(ev, id) && HasTargets(ev)
      && exists l :: HasLineage(index, id, l) && !Aims(ev, Target(l.field, l.seat))
    case NotKnown(id) => Names(ev, id) && ev.kind == ActuallyConsumed
      && exists l :: HasLineage(index, id, l) && l.status != Known
    case _ => false
  }

  /** The reason that speaks of a target no reached lineage has. */
  ghost predicate OfTarget(ev: Event, index: RevisionIndex, r: Reason)
  {
    && r.TargetNotCovered? && Aims(ev, r.target) && (exists l :: Reaches(ev, index, l))
    && forall l | Reaches(ev, index, l) :: l.field != r.target.field || l.seat != r.target.seat
  }

  predicate Another(index: RevisionIndex, id: string, l: Lineage)
  {
    id in index && exists m :: m in index[id] && m != l
  }

  // ---------------------------------------------------------------- proofs

  lemma NamesExactly(ev: Event, id: string)
    ensures id in Ids(ev) <==> Names(ev, id)
  {
    assert NonBlank(id) <==> Blankless(id);
    if ev.revisionIds.Some? { NamedIdsNonBlank(ev.revisionIds.value); }
    hide Blankless, NonBlank, NamedIds;
  }

  lemma ClaimExactly(ev: Event, k: Keys, complete: bool)
    requires StandsFor(ev, k, complete)
    ensures ClaimedKeys(ev) == k && (ClaimsComplete(ev) <==> complete)
  {
    hide Canonicalise;
  }

  lemma {:induction false} TargetsExactly(targets: seq<Target>, p: ConsumerError)
    ensures TargetsProblem(targets) == Some(p) <==> exists i :: FirstBadTarget(targets, i, p)
  {
    hide Unsupported, Negative;
    if targets != [] {
      var rest := targets[1..];
      TargetsExactly(rest, p);
      TargetExactly(targets[0]);
      if i :| FirstBadTarget(targets, i, p) {
        if i > 0 { assert FirstBadTarget(rest, i - 1, p); }
      }
      if TargetsProblem(targets) == Some(p) {
        if !Unsupported(targets[0]) && !Negative(targets[0]) {
          var i :| FirstBadTarget(rest, i, p);
          forall j | 0 <= j < i + 1 ensures !Unsupported(targets[j]) && !Negative(targets[j]) {
            if j > 0 { assert targets[j] == rest[j - 1]; }
          }
          assert FirstBadTarget(targets, i + 1, p);
        } else {
          assert FirstBadTarget(targets, 0, p);
        }
      }
    }
  }

  lemma TargetExactly(t: Target)
    ensures FieldProblem(t.field).Some? <==> Unsupported(t)
    ensures t.seat.Some? && t.seat.value < 0 <==> Negative(t)
  {}

  lemma ConsumerExactly(c: Consumer, p: ConsumerError)
    ensures ConsumerProblem(c) == Some(p) <==> BadConsumer(c, p)
  {
    assert forall s :: NonBlank(s) <==> Blankless(s);
    hide NonBlank, Blankless;
    if c.targets.Some? { TargetsExactly(c.targets.value, p); }
    hide TargetsProblem, FirstBadTarget;
  }

  lemma RunExactly(r: Option<RunRef>, p: RunRefError)
    ensures RunRefProblem(r) == Some(p) <==> BadRun(r, p)
  {
    assert forall s :: NonBlank(s) <==> Blankless(s);
    hide NonBlank, Blankless;
  }

  lemma EventExactly(ev: Event, k: Keys, complete: bool, r: Reason)
    requires StandsFor(ev, k, complete)
    ensures r in EventReasons(ev) <==> OfEvent(ev, complete, r)
  {
    ClaimExactly(ev, k, complete);
    forall id ensures id in Ids(ev) <==> Names(ev, id) { NamesExactly(ev, id); }
    assert Ids(ev) == [] <==> forall id :: !Names(ev, id) by {
      hide Ids, Names;
      if Ids(ev) != [] { assert Ids(ev)[0] in Ids(ev); }
    }
    assert Targets(ev).Some? <==> HasTargets(ev);
    if ev.consumer.Some? && r.ConsumerInvalid? { ConsumerExactly(ev.consumer.value, r.consumer); }
    if r.RunRefInvalid? { RunExactly(ev.runRef, r.run); }
    hide ClaimedKeys, ClaimsComplete, Ids, Names, Targets, HasTargets, ConsumerProblem, RunRefProblem, BadConsumer,
      BadRun, StandsFor;
  }

  /** The reasons one candidate gives. */
  predicate OfLineage(ev: Event, k: Keys, id: string, l: Lineage, r: Reason)
  {
    || (r == LineageMismatch(id) && !SharedKey(k.root, l.keys.root) && !SharedKey(k.source, l.keys.source))
    || (r == RevisionNotComplete(id) && l.identityClass != Complete)
    || (r == ParentIncomplete(id) && l.parentGaps != {})
    || (r == ParentMismatch(id)
        && !SharedKey(k.parentRoot, l.keys.parentRoot) && !SharedKey(k.parentSource, l.keys.parentSource)
        && !(k.parentRoot == l.keys.parentRoot == k.parentSource == l.keys.parentSource == None))
    || (r == TargetMismatch(id) && HasTargets(ev) && !Aims(ev, Target(l.field, l.seat)))
    || (r == NotKnown(id) && ev.kind == ActuallyConsumed && l.status != Known)
  }

  lemma LineageExactly(ev: Event, k: Keys, id: string, l: Lineage, r: Reason)
    requires ClaimedKeys(ev) == k
    ensures r in CandidateReasons(ev, id, l) <==> OfLineage(ev, k, id, l, r)
  {
    assert OnEventLineage(k, l.keys) <==> SharedKey(k.root, l.keys.root) || SharedKey(k.source, l.keys.source);
    assert SameParent(k, l.keys) <==>
      (SharedKey(k.parentRoot, l.keys.parentRoot) || SharedKey(k.parentSource, l.keys.parentSource)
       || (k.parentRoot == l.keys.parentRoot == k.parentSource == l.keys.parentSource == None));
    assert Targets(ev).Some? <==> HasTargets(ev);
    assert Targets(ev).Some? ==> forall t :: t in Targets(ev).value <==> Aims(ev, t);
    hide OnEventLineage, SameParent, SharedKey, ClaimedKeys, Targets, HasTargets, Aims;
  }

  lemma Several<T>(s: set<T>)
    ensures |s| > 1 <==> exists x, y :: x in s && y in s && x != y
  {
    if x, y :| x in s && y in s && x != y {
      assert {x, y} <= s;
      var rest := s - {x, y};
      assert s == {x, y} + rest && {x, y} !! rest;
    }
    if |s| > 1 {
      var x :| x in s;
      var rest := s - {x};
      assert |rest| == |s| - 1;
      var y :| y in rest;
    }
  }

  lemma AnotherExactly(index: RevisionIndex, id: string)
    ensures |Lookup(index, id)| > 1 <==> exists l :: HasLineage(index, id, l) && Another(index, id, l)
    ensures Lookup(index, id) == {} <==> forall l :: !HasLineage(index, id, l)
    ensures forall l :: l in Lookup(index, id) <==> HasLineage(index, id, l)
  {
    Several(Lookup(index, id));
    forall l ensures l in Lookup(index, id) <==> HasLineage(index, id, l) {}
    if |Lookup(index, id)| > 1 {
      var l, m :| l in Lookup(index, id) && m in Lookup(index, id) && l != m;
      assert HasLineage(index, id, l) && HasLineage(index, id, m);
      assert Another(index, id, l);
    }
    if l :| HasLineage(index, id, l) && Another(index, id, l) {
      var m :| m in index[id] && m != l;
      assert l in Lookup(index, id) && m in Lookup(index, id);
    }
  }

  /** The reasons one named revision gives. */
  ghost predicate OfRevision(
      ev: Event, k: Keys, id: string, index: RevisionIndex, conflict: bool, r: Reason)
  {
    || (r == Unresolvable(id) && forall l :: !HasLineage(index, id, l))
    || (r == Ambiguous(id) && exists l :: HasLineage(index, id, l) && (conflict || Another(index, id, l)))
    || exists l :: HasLineage(index, id, l) && OfLineage(ev, k, id, l, r)
  }

  lemma RevisionExactly(ev: Event, k: Keys, id: string, index: RevisionIndex, conflict: bool, r: Reason)
    requires ClaimedKeys(ev) == k
    ensures r in RevisionReasons(ev, id, Lookup(index, id), conflict) <==> OfRevision(ev, k, id, index, conflict, r)
  {
    AnotherExactly(index, id);
    forall l ensures r in CandidateReasons(ev, id, l) <==> OfLineage(ev, k, id, l, r) {
      LineageExactly(ev, k, id, l, r);
    }
    hide ClaimedKeys, CandidateReasons, OfLineage, Lookup, Another, HasLineage;
  }

  lemma OfIds(ev: Event, k: Keys, index: RevisionIndex, conflicts: set<string>, r: Reason)
    requires ClaimedKeys(ev) == k
    ensures r in IdReasons(ev, Ids(ev), index, conflicts) <==>
      exists id :: Names(ev, id) && OfRevision(ev, k, id, index, id in conflicts, r)
  {
    forall id ensures id in Ids(ev) <==> Names(ev, id) { NamesExactly(ev, id); }
    hide ClaimedKeys, Ids, Names, OfRevision, RevisionReasons, Lookup;
    if id :| Names(ev, id) && OfRevision(ev, k, id, index, id in conflicts, r) {
      RevisionExactly(ev, k, id, index, id in conflicts, r);
    }
    if id :| id in Ids(ev) && r in RevisionReasons(ev, id, Lookup(index, id), id in conflicts) {
      RevisionExactly(ev, k, id, index, id in conflicts, r);
    }
  }

  lemma ReachedExactly(ev: Event, index: RevisionIndex)
    ensures forall l :: l in Resolved(Ids(ev), index) <==> Reaches(ev, index, l)
  {
    forall id ensures id in Ids(ev) <==> Names(ev, id) { NamesExactly(ev, id); }
    forall id, l ensures l in Lookup(index, id) <==> HasLineage(index, id, l) {}
    hide Ids, Names, Lookup, HasLineage;
  }

  lemma CoverExactly(ev: Event, index: RevisionIndex, r: Reason)
    ensures r in Uncovered(ev, Resolved(Ids(ev), index)) <==> OfTarget(ev, index, r)
  {
    ReachedExactly(ev, index);
    var resolved := Resolved(Ids(ev), index);
    hide Ids, Resolved, Reaches;
    assert Targets(ev).Some? ==> forall t :: t in Targets(ev).value <==> Aims(ev, t);
    assert Targets(ev).None? ==> forall t :: !Aims(ev, t);
    hide Targets, Aims;
    assert resolved != {} <==> exists l :: Reaches(ev, index, l) by {
      if resolved != {} { var l :| l in resolved; }
    }
    if r.TargetNotCovered? {
      var t := r.target;
      assert t in Covered(resolved) <==> exists l :: l in resolved && l.field == t.field && l.seat == t.seat;
      hide Covered;
    }
  }

  lemma RevisionSays(
      ev: Event, k: Keys, index: RevisionIndex, conflicts: set<string>, id: string, r: Reason)
    requires Names(ev, id)
    ensures OfRevision(ev, k, id, index, id in conflicts, r) <==>
      NamesOne(r) && r.id == id && OfNamed(ev, k, index, conflicts, r)
  {
    hide Names, SharedKey, Aims, HasTargets, Another, HasLineage;
  }

  predicate NamesOne(r: Reason)
  {
    r.Unresolvable? || r.Ambiguous? || r.LineageMismatch? || r.RevisionNotComplete? || r.ParentIncomplete?
    || r.ParentMismatch? || r.TargetMismatch? || r.NotKnown?
  }

  lemma NamedExactly(ev: Event, k: Keys, index: RevisionIndex, conflicts: set<string>, r: Reason)
    requires ClaimedKeys(ev) == k
    ensures r in IdReasons(ev, Ids(ev), index, conflicts) <==> OfNamed(ev, k, index, conflicts, r)
  {
    OfIds(ev, k, index, conflicts, r);
    if id :| Names(ev, id) && OfRevision(ev, k, id, index, id in conflicts, r) {
      RevisionSays(ev, k, index, conflicts, id, r);
    }
    if OfNamed(ev, k, index, conflicts, r) {
      assert NamesOne(r) && Names(ev, r.id) by { hide SharedKey, Aims, HasTargets, Another, HasLineage; }
      RevisionSays(ev, k, index, conflicts, r.id, r);
    }
    hide ClaimedKeys, Ids, IdReasons, OfRevision, OfNamed, Names;
  }

  /** The validator gives a reason exactly when it holds of the event, of a named revision or of a target. */
  lemma ReasonExactly(
      ev: Event, k: Keys, complete: bool, index: RevisionIndex, conflicts: set<string>, r: Reason)
    requires StandsFor(ev, k, complete)
    ensures r in BindingReasons(ev, index, conflicts) <==>
      OfEvent(ev, complete, r) || OfNamed(ev, k, index, conflicts, r) || OfTarget(ev, index, r)
  {
    ClaimExactly(ev, k, complete);
    EventExactly(ev, k, complete, r);
    NamedExactly(ev, k, index, conflicts, r);
    CoverExactly(ev, index, r);
    hide ClaimedKeys, ClaimsComplete, StandsFor, EventReasons, IdReasons, Uncovered, Resolved, Ids, OfEvent, OfNamed,
      OfTarget;
  }

  /** Every key the event stands for and every key of a lineage it reaches is marked, and no other. */
  lemma MarksExactly(ev: Event, k: Keys, complete: bool, index: RevisionIndex, x: Key)
    requires StandsFor(ev, k, complete)
    ensures x in Contamination(ev, index) <==> Among(k, x) || exists l :: Reaches(ev, index, l) && Among(l.keys, x)
  {
    ClaimExactly(ev, k, complete);
    ReachedExactly(ev, index);
    forall a ensures x in QueryKeys(a) <==> Among(a, x) {
      forall y: Option<Key> ensures Usable(y) <==> SharedKey(y, y) {}
      hide Usable, SharedKey;
    }
    hide QueryKeys, Among, Resolved, Ids, ClaimedKeys, Reaches, StandsFor;
  }

  predicate Among(k: Keys, x: Key)
  {
    SharedKey(Some(x), Some(x))
    && (k.source == Some(x) || k.root == Some(x) || k.parentSource == Some(x) || k.parentRoot == Some(x))
  }
}
