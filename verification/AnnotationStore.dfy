/**
 One annotation namespace: revisions and exposure events, both append-only. What a binding means, why it does
 not depend on how stores are read, and why exposure only ever grows.
 */
module AnnotationStores {
  import opened Common
  import opened SourceIdentity
  import opened Annotations
  import opened Revisions
  import opened Exposures

  // ---------------------------------------------------------------- what BOUND means

  /** An index and its conflict set as read from some stores. */
  ghost predicate Describes(index: RevisionIndex, conflicts: set<string>, stores: seq<seq<Row>>)
  {
    forall id | NonBlank(id) ::
      && NoDuplicates(Candidates(index, id)) && Lookup(index, id) == LineagesOver(stores, id)
      && (id in conflicts <==> |Candidates(index, id)| > 1)
  }

  /** Both sides carry one and the same key, and a key that was only read back is not blank. */
  predicate Shared(a: Option<Key>, b: Option<Key>)
  {
    a.Some? && a == b && (a.value.Stored? ==> NonBlank(a.value.text))
  }

  /** The parents share their long-term root or their evidence key, or there is no parent on either side. */
  predicate OneParent(a: Keys, b: Keys)
  {
    || Shared(a.parentRoot, b.parentRoot) || Shared(a.parentSource, b.parentSource)
    || (a.parentRoot == b.parentRoot == a.parentSource == b.parentSource == None)
  }

  /** The lineage is the event's own, complete, under the same parent, and KNOWN when it was consumed. */
  predicate Proves(ev: Event, l: Lineage)
  {
    var claimed := ClaimedKeys(ev);
    && (Shared(claimed.root, l.keys.root) || Shared(claimed.source, l.keys.source))
    && l.identityClass == Complete && l.parentGaps == {}
    && OneParent(claimed, l.keys) && (ev.kind == ActuallyConsumed ==> l.status == Known)
  }

  lemma LineageShared(claimed: Keys, proven: Keys)
    ensures OnEventLineage(claimed, proven) <==>
      Shared(claimed.root, proven.root) || Shared(claimed.source, proven.source)
    ensures SameParent(claimed, proven) <==> OneParent(claimed, proven)
  {}

  ghost predicate ProvenBy(ev: Event, index: RevisionIndex, id: string)
  {
    exists l :: Lookup(index, id) == {l} && Proves(ev, l)
      && (Targets(ev).Some? ==> Target(l.field, l.seat) in Targets(ev).value)
  }

  lemma CandidateProven(ev: Event, id: string, l: Lineage)
    ensures CandidateReasons(ev, id, l) == {} <==>
            Proves(ev, l) && (Targets(ev).Some? ==> Target(l.field, l.seat) in Targets(ev).value)
  {
    hide OnEventLineage, SameParent, OneParent, Shared, ClaimedKeys, Targets;
    LineageShared(ClaimedKeys(ev), l.keys);
    var r := CandidateReasons(ev, id, l);
    assert !OnEventLineage(ClaimedKeys(ev), l.keys) ==> LineageMismatch(id) in r;
    assert l.identityClass != Complete ==> RevisionNotComplete(id) in r;
    assert l.parentGaps != {} ==> ParentIncomplete(id) in r;
    assert !SameParent(ClaimedKeys(ev), l.keys) ==> ParentMismatch(id) in r;
    assert Targets(ev).Some? && Target(l.field, l.seat) !in Targets(ev).value ==> TargetMismatch(id) in r;
    assert ev.kind == ActuallyConsumed && l.status != Known ==> NotKnown(id) in r;
  }

  lemma SingletonSet<T>(s: set<T>)
    ensures |s| == 1 <==> exists x :: s == {x}
  {
    if |s| == 1 {
      var x :| x in s;
      assert |s - {x}| == 0;
      assert s == {x};
    }
  }

  lemma RevisionProven(ev: Event, index: RevisionIndex, id: string, conflict: bool)
    requires NoDuplicates(Candidates(index, id)) && (conflict <==> |Candidates(index, id)| > 1)
    ensures RevisionReasons(ev, id, Lookup(index, id), conflict) == {} <==> ProvenBy(ev, index, id)
  {
    hide CandidateReasons, Proves, Targets, NoDuplicates;
    var candidates := Lookup(index, id);
    var r := RevisionReasons(ev, id, candidates, conflict);
    DistinctCount(Candidates(index, id));
    SingletonSet(candidates);
    assert candidates == {} ==> Unresolvable(id) in r;
    assert |candidates| > 1 ==> Ambiguous(id) in r;
    forall l | l in candidates { CandidateProven(ev, id, l); }
    forall l, c | l in candidates && c in CandidateReasons(ev, id, l) && candidates != {} ensures c in r {}
  }

  lemma {:induction false} EventProven(ev: Event)
    ensures EventReasons(ev) == {} <==>
      && ClaimsComplete(ev) && ev.consumer.Some? && ConsumerProblem(ev.consumer.value).None?
      && RunRefProblem(ev.runRef).None? && (Ids(ev) == [] ==> ev.kind == Released)
  {
    hide ClaimsComplete, RunRefProblem, Ids;
    var r := EventReasons(ev);
    assert !ClaimsComplete(ev) ==> EventIdentityNotComplete in r;
    assert Targets(ev).None? ==> TargetsUnreadable in r;
    assert Ids(ev) == [] && ev.kind != Released ==> RevisionSetMissing in r;
    assert ev.consumer.None? ==> ConsumerMissing in r;
    assert ev.consumer.Some? && ConsumerProblem(ev.consumer.value).Some? ==>
      ConsumerInvalid(ConsumerProblem(ev.consumer.value).value) in r;
    assert RunRefProblem(ev.runRef).Some? ==> RunRefInvalid(RunRefProblem(ev.runRef).value) in r;
  }

  lemma NothingUncovered(ev: Event, resolved: set<Lineage>)
    requires Targets(ev).Some? && resolved != {}
    ensures Uncovered(ev, resolved) == {} <==> Targets(ev).value <= Covered(resolved)
  {
    hide Targets;
    forall t | t in Targets(ev).value && t !in Covered(resolved)
      ensures TargetNotCovered(t) in Uncovered(ev, resolved) {}
  }

  /**
   An event is bound exactly when its own identity is complete and its consumer and run are identified; every
   revision it names resolves to a single lineage that proves it; and, unless it names none, the revisions
   cover exactly the (field, seat) targets of the consumer. Only a release may name none.
   */
  lemma BoundMeans(ev: Event, index: RevisionIndex, conflicts: set<string>, stores: seq<seq<Row>>)
    requires Describes(index, conflicts, stores)
    ensures BindingReasons(ev, index, conflicts) == {} <==>
      && ClaimsComplete(ev) && ev.consumer.Some? && ConsumerProblem(ev.consumer.value).None?
      && RunRefProblem(ev.runRef).None? && (Ids(ev) == [] ==> ev.kind == Released)
      && (forall id | id in Ids(ev) :: ProvenBy(ev, index, id))
      && (Ids(ev) != [] ==> Targets(ev).value == Covered(Resolved(Ids(ev), index)))
  {
    hide EventReasons, ClaimsComplete, ConsumerProblem, RunRefProblem, Ids, RevisionReasons, Proves, Candidates;
    hide NoDuplicates, Lookup, LineagesOver, Uncovered, Covered;
    var ids, resolved := Ids(ev), Resolved(Ids(ev), index);
    EventProven(ev);
    IdsNamed(ev);
    forall id | id in ids { RevisionProven(ev, index, id, id in conflicts); }
    var reasons := IdReasons(ev, ids, index, conflicts);
    forall id, r | id in ids && r in RevisionReasons(ev, id, Lookup(index, id), id in conflicts) ensures r in reasons {}
    assert reasons == {} <==> forall id | id in ids :: ProvenBy(ev, index, id);
    if EventReasons(ev) == {} && reasons == {} {
      TargetsReadable(ev);
      if ids == [] {
        NothingResolved(ev, index, conflicts);
        NothingToCover(ev);
      } else {
        assert ProvenBy(ev, index, ids[0]);
        var l :| Lookup(index, ids[0]) == {l};
        assert l in resolved;
        CoveredWithin(ev, index);
        NothingUncovered(ev, resolved);
      }
    }
  }

  lemma NothingToCover(ev: Event)
    ensures Uncovered(ev, {}) == {}
  {
  }

  lemma IdsNamed(ev: Event)
    ensures forall id | id in Ids(ev) :: NonBlank(id)
  {
    NamedIdsNonBlank(if ev.revisionIds.None? then [] else ev.revisionIds.value);
  }

  lemma {:induction false} TargetsReadable(ev: Event)
    requires ev.consumer.Some? && ConsumerProblem(ev.consumer.value).None?
    ensures Targets(ev).Some?
  {
  }

  lemma CoveredWithin(ev: Event, index: RevisionIndex)
    requires Targets(ev).Some? && forall id | id in Ids(ev) :: ProvenBy(ev, index, id)
    ensures Covered(Resolved(Ids(ev), index)) <= Targets(ev).value
  {
    hide Proves, Targets, Lookup, Ids;
    forall id, l | id in Ids(ev) && l in Lookup(index, id) ensures Target(l.field, l.seat) in Targets(ev).value {
      assert ProvenBy(ev, index, id);
    }
  }

  // ---------------------------------------------------------------- no dependence on order or claims

  lemma SameLookupsSameBinding(ev: Event, a: RevisionIndex, ca: set<string>, b: RevisionIndex, cb: set<string>)
    requires forall id | id in Ids(ev) :: Lookup(a, id) == Lookup(b, id) && (id in ca <==> id in cb)
    ensures BindingReasons(ev, a, ca) == BindingReasons(ev, b, cb)
    ensures Contamination(ev, a) == Contamination(ev, b)
  {
    hide Lookup, RevisionReasons, QueryKeys, ClaimedKeys, EventReasons, Uncovered, Ids;
    assert forall id | id in Ids(ev) ::
        RevisionReasons(ev, id, Lookup(a, id), id in ca) == RevisionReasons(ev, id, Lookup(b, id), id in cb);
    assert IdReasons(ev, Ids(ev), a, ca) == IdReasons(ev, Ids(ev), b, cb);
    assert Resolved(Ids(ev), a) == Resolved(Ids(ev), b);
  }

  /** The stored claim is no authority: any other claim gives the same verdict. */
  lemma ClaimIgnored(ev: Event, claim: Option<bool>, violation: bool, index: RevisionIndex, conflicts: set<string>)
    ensures var other := ev.(claimedBound := claim, policyViolation := violation);
            && BindingReasons(other, index, conflicts) == BindingReasons(ev, index, conflicts)
            && Contamination(other, index) == Contamination(ev, index)
  {
    hide RevisionReasons, EventReasons, Uncovered, Lookup;
    var other := ev.(claimedBound := claim, policyViolation := violation);
    assert ClaimedKeys(other) == ClaimedKeys(ev) && Ids(other) == Ids(ev) && Targets(other) == Targets(ev);
    assert EventReasons(other) == EventReasons(ev) by { SameEventReasons(ev, claim, violation); }
    forall id, cs, conflict ensures RevisionReasons(other, id, cs, conflict) == RevisionReasons(ev, id, cs, conflict) {
      SameRevisionReasons(ev, claim, violation, id, cs, conflict);
    }
    assert Uncovered(other, Resolved(Ids(ev), index)) == Uncovered(ev, Resolved(Ids(ev), index)) by {
      SameUncovered(ev, claim, violation, Resolved(Ids(ev), index));
    }
  }

  lemma SameEventReasons(ev: Event, claim: Option<bool>, violation: bool)
    ensures EventReasons(ev.(claimedBound := claim, policyViolation := violation)) == EventReasons(ev)
  {
  }

  lemma SameUncovered(ev: Event, claim: Option<bool>, violation: bool, resolved: set<Lineage>)
    ensures Uncovered(ev.(claimedBound := claim, policyViolation := violation), resolved) == Uncovered(ev, resolved)
  {
  }

  lemma SameRevisionReasons(
      ev: Event, claim: Option<bool>, violation: bool, id: string, cs: set<Lineage>, conflict: bool)
    ensures RevisionReasons(ev.(claimedBound := claim, policyViolation := violation), id, cs, conflict) ==
            RevisionReasons(ev, id, cs, conflict)
  {
    var other := ev.(claimedBound := claim, policyViolation := violation);
    forall l ensures CandidateReasons(other, id, l) == CandidateReasons(ev, id, l) {
      assert ClaimedKeys(other) == ClaimedKeys(ev) && Targets(other) == Targets(ev);
    }
  }

  /**
   Two readings of the same readable stores, in any order and with any repetition, re-derive the same binding,
   the same reasons and the same contamination for every event, whatever binding the line claims.
   */
  lemma OrderIndependent(
      ev: Event, claim: Option<bool>, a: seq<seq<Row>>, ia: RevisionIndex, ca: set<string>,
      b: seq<seq<Row>>, ib: RevisionIndex, cb: set<string>)
    requires Describes(ia, ca, a) && Describes(ib, cb, b)
    requires forall s | ValidStore(s) :: s in a <==> s in b
    ensures var other := ev.(claimedBound := claim);
            && BindingReasons(ev, ia, ca) == BindingReasons(other, ib, cb)
            && Contamination(ev, ia) == Contamination(other, ib)
  {
    hide ValidStore, LineagesIn, Ids, BindingReasons, Contamination, NoDuplicates;
    forall id ensures LineagesOver(a, id) == LineagesOver(b, id) {}
    IdsNamed(ev);
    forall id | id in Ids(ev) ensures Lookup(ia, id) == Lookup(ib, id) && (id in ca <==> id in cb) {
      DistinctCount(Candidates(ia, id));
      DistinctCount(Candidates(ib, id));
    }
    SameLookupsSameBinding(ev, ia, ca, ib, cb);
    ClaimIgnored(ev, claim, ev.policyViolation, ib, cb);
  }

  // ---------------------------------------------------------------- recording exposure

  datatype Purpose = Training | Tuning | TemplateSelection | OtherPurpose(text: string)

  datatype ExposureRequest = ExposureRequest(
    ref: Option<SourceRef>, revisionIds: seq<string>, purpose: Purpose, runRef: Option<RunRef>, kind: EvidenceKind,
    consumer: Option<Consumer>, roleKnown: bool, policyViolation: bool)

  datatype ExposureError =
    | UnsupportedPurpose | UnsupportedEvidenceKind | RunRefRefused(run: RunRefError)
    | ConsumerIdentityRequired | ConsumerRefused(consumer: ConsumerError)
    | SourceRefused(cause: IdentityError) | CoreSourceIdentityRequired
    | BadRevisionId | RevisionSetRequired | UnsupportedRole | StoreUnreadable
    | RevisionNotFound(id: string) | RevisionSourceMismatch(id: string) | RevisionContentMismatch(id: string)
    | RevisionNotATarget(id: string) | UnknownRevisionConsumed(id: string)
    | TargetNotConsumed

  /** What is refused before the store is read. */
  function Screen(req: ExposureRequest): Result<Identity, ExposureError>
  {
    if req.purpose.OtherPurpose? then Raised(UnsupportedPurpose)
    else if req.kind.OtherKind? then Raised(UnsupportedEvidenceKind)
    else if RunRefProblem(req.runRef).Some? then Raised(RunRefRefused(RunRefProblem(req.runRef).value))
    else if req.consumer.None? then Raised(ConsumerIdentityRequired)
    else if ConsumerProblem(req.consumer.value).Some?
      then Raised(ConsumerRefused(ConsumerProblem(req.consumer.value).value))
    else match Canonicalise(req.ref, true)
      case Raised(e) => Raised(ExposureError.SourceRefused(e))
      case Ok(identity) =>
        if identity.sourceKey.None? then Raised(CoreSourceIdentityRequired)
        else if exists i :: 0 <= i < |req.revisionIds| && !NonBlank(req.revisionIds[i]) then Raised(BadRevisionId)
        else if req.kind != Released && req.revisionIds == [] then Raised(RevisionSetRequired)
        else if !req.roleKnown then Raised(UnsupportedRole)
        else Ok(identity)
  }

  function RootOfRow(row: Row): Option<Key>
  {
    if row.rootKey.Some? then row.rootKey
    else match Canonicalise(row.sourceRef, true) case Ok(identity) => identity.rootKey case Raised(_) => None
  }

  function ConsumptionProblem(
      byId: Index, identity: Identity, req: ExposureRequest, targets: seq<Target>, id: string): Option<ExposureError>
  {
    if id !in byId then Some(RevisionNotFound(id))
    else
      var row := byId[id];
      if row.sourceKey.None? || row.sourceKey !in {identity.sourceKey, identity.parentSourceKey}
        then Some(RevisionSourceMismatch(id))
      else if RootOfRow(row).None? || RootOfRow(row) !in {identity.rootKey, identity.parentRootKey}
        then Some(RevisionContentMismatch(id))
      else if Target(row.field, row.seat) !in targets then Some(RevisionNotATarget(id))
      else if req.kind == ActuallyConsumed && row.content.status != Known then Some(UnknownRevisionConsumed(id))
      else None
  }

  /** The first named revision that may not be consumed decides. */
  function FirstProblem(
      byId: Index, identity: Identity, req: ExposureRequest, targets: seq<Target>,
      ids: seq<string>): Option<ExposureError>
  {
    if ids == [] then None
    else
      var problem := ConsumptionProblem(byId, identity, req, targets, ids[0]);
      if problem.Some? then problem else FirstProblem(byId, identity, req, targets, ids[1..])
  }

  function TargetsSeen(byId: Index, ids: seq<string>): set<Target>
  {
    set id | id in ids && id in byId :: Target(byId[id].field, byId[id].seat)
  }

  /** The event before its binding is written into it. */
  function Unsealed(req: ExposureRequest, identity: Identity, eventId: string): Event
    requires req.consumer.Some?
  {
    Event(eventId, Some(identity.normalised), KeysOf(identity), Some(identity.identityClass), Some(req.revisionIds),
          req.kind, req.consumer, req.runRef, None, req.policyViolation)
  }

  /** A mis-bound fact is kept, but only as a policy violation. */
  function Sealed(ev: Event, rows: seq<Row>): Event
  {
    var bound := BindingReasons(ev, Indexed(map[], rows), {}) == {};
    ev.(claimedBound := Some(bound), policyViolation := ev.policyViolation || !bound)
  }

  ghost function RecordOutcome(rows: seq<Row>, req: ExposureRequest, eventId: string): Result<Event, ExposureError>
  {
    match Screen(req)
    case Raised(e) => Raised(e)
    case Ok(identity) =>
      if !ValidStore(rows) then Raised(StoreUnreadable)
      else
        var targets := req.consumer.value.targets.value;
        var problem := FirstProblem(ById(rows), identity, req, targets, req.revisionIds);
        if problem.Some? then Raised(problem.value)
        else if req.revisionIds != [] && exists t :: t in targets && t !in TargetsSeen(ById(rows), req.revisionIds) then
          Raised(TargetNotConsumed)
        else Ok(Sealed(Unsealed(req, identity, eventId), rows))
  }

  // ---------------------------------------------------------------- the store

  datatype View = View(current: map<Option<GroupKey>, Row>, conflicts: set<Option<GroupKey>>, history: seq<Row>)

  datatype ReadError = QueryRefused(cause: IdentityError) | Broken(store: StoreError)

  class AnnotationStore {
    var annotations: seq<Row>
    var exposures: seq<Event>

    constructor ()
      ensures annotations == [] && exposures == []
    {
      annotations, exposures := [], [];
    }

    /** `id` is the revision id the append draws; nothing is written unless the append is accepted. */
    method AppendAnnotation(req: Request, id: string) returns (r: Result<string, AppendError>)
      modifies this`annotations
      ensures match AppendOutcome(old(annotations), req, id)
              case Raised(e) => r == Raised(e) && annotations == old(annotations)
              case Ok(row) => r == Ok(id) && annotations == old(annotations) + [row]
    {
      hide ValidStore, RowProblem, Live, Prepare, Canonicalise, Without, SupersededBy, NewRow, Refutes;
      var prepared := Prepare(req);
      if prepared.Raised? { return Raised(prepared.error); }
      var broken := Validate(annotations);
      if broken.Some? { return Raised(StoreBroken); }
      var group := GroupFor(req);
      var existing: seq<Row> := [];
      for i := 0 to |annotations|
        invariant annotations == old(annotations) && existing == Members(annotations[..i], group)
      {
        assert annotations[..i + 1][..i] == annotations[..i];
        if annotations[i].groupKey == group { existing := existing + [annotations[i]]; }
      }
      assert annotations[..|annotations|] == annotations;
      var live := LiveRows(existing);
      assert live == Live(annotations, group) by { LiveOfMembers(annotations, group); }
      if |live| > 1 { return Raised(MultipleHeads); }
      var head := if |live| == 0 then None else Some(live[0].revisionId);
      if req.expected.None? && head.Some? { return Raised(ExpectedRevisionRequired); }
      if req.expected.Some? && head.None? { return Raised(ExpectedRevisionNotFound); }
      if req.expected != head { return Raised(RevisionConflict); }
      annotations := annotations + [NewRow(req, head, id)];
      r := Ok(id);
    }

    /**
     The current values under a filter. A source reference without a core identity filters by no source at
     all, as in the source.
     */
    method GetAnnotations(ref: Option<Option<SourceRef>>, field: Option<FieldId>, seat: Option<int>)
      returns (r: Result<View, ReadError>)
      ensures r.Ok? <==> ValidStore(annotations) && (ref.Some? ==> Canonicalise(ref.value, true).Ok?)
      ensures r.Ok? ==>
        var wanted := if ref.Some? then Canonicalise(ref.value, true).value.sourceKey else None;
        var f := Filter(wanted, field, seat);
        && r.value.history == Selected(annotations, f)
        && r.value.conflicts == {}
        && (forall g :: g in r.value.current <==> exists row :: row in Selected(annotations, f) && row.groupKey == g)
        && (forall g | g in r.value.current :: Live(annotations, g) == [r.value.current[g]])
    {
      hide ValidStore, Live, Passes, Canonicalise, Refutes, Without, SupersededBy;
      var wanted: Option<Key> := None;
      if ref.Some? {
        var identity := Canonicalise(ref.value, true);
        if identity.Raised? { return Raised(QueryRefused(identity.error)); }
        wanted := identity.value.sourceKey;
      }
      var broken := Validate(annotations);
      if broken.Some? { return Raised(Broken(broken.value)); }
      ghost var f := Filter(wanted, field, seat);
      var rows: seq<Row> := [];
      for i := 0 to |annotations|
        invariant rows == Selected(annotations[..i], f)
      {
        assert annotations[..i + 1][..i] == annotations[..i];
        if Passes(annotations[i], Filter(wanted, field, seat)) { rows := rows + [annotations[i]]; }
      }
      assert annotations[..|annotations|] == annotations;
      var groups, heads := FoldAnnotations(rows);
      forall g | g in heads ensures |heads[g]| == 1 && heads[g] == Live(annotations, g) {
        var row :| row in rows && row.groupKey == g;
        NoConflictUnderAnyFilter(annotations, f, row);
      }
      var current := map g | g in heads && |heads[g]| == 1 :: heads[g][0];
      var conflicts := set g | g in heads && |heads[g]| != 1;
      r := Ok(View(current, conflicts, rows));
    }

    method RecordExposure(req: ExposureRequest, eventId: string) returns (r: Result<Event, ExposureError>)
      modifies this`exposures
      ensures match RecordOutcome(annotations, req, eventId)
              case Raised(e) => r == Raised(e) && exposures == old(exposures)
              case Ok(ev) => r == Ok(ev) && exposures == old(exposures) + [ev]
    {
      hide ValidStore, Screen, BindingReasons, Contamination, ConsumptionProblem;
      var screened := Screen(req);
      if screened.Raised? { return Raised(screened.error); }
      ScreenedConsumer(req);
      var identity := screened.value;
      var broken := Validate(annotations);
      if broken.Some? { return Raised(StoreUnreadable); }
      ValidIds(annotations);
      var indexed := IndexRows(annotations);
      assert indexed.Ok?;
      var targets := req.consumer.value.targets.value;
      var problem := CheckConsumption(indexed.value, identity, req, targets);
      if problem.Some? { return Raised(problem.value); }
      var ev := Seal(Unsealed(req, identity, eventId), annotations);
      exposures := exposures + [ev];
      r := Ok(ev);
    }
  }

  /** Every named revision is checked in turn; afterwards no target may be left over. */
  method CheckConsumption(byId: Index, identity: Identity, req: ExposureRequest, targets: seq<Target>)
    returns (problem: Option<ExposureError>)
    ensures var first := FirstProblem(byId, identity, req, targets, req.revisionIds);
            problem == if first.Some? then first
                       else if req.revisionIds != [] && exists t ::
                         t in targets && t !in TargetsSeen(byId, req.revisionIds)
                            then Some(TargetNotConsumed) else None
  {
    hide ConsumptionProblem;
    var ids, seen: set<Target> := req.revisionIds, {};
    assert ids[0..] == ids;
    for i := 0 to |ids|
      invariant FirstProblem(byId, identity, req, targets, ids) == FirstProblem(byId, identity, req, targets, ids[i..])
      invariant seen == TargetsSeen(byId, ids[..i])
    {
      problem := ConsumptionProblem(byId, identity, req, targets, ids[i]);
      assert ids[i..][1..] == ids[i + 1..];
      if problem.Some? { return; }
      FoundRevision(byId, identity, req, targets, ids[i]);
      assert ids[..i + 1] == ids[..i] + [ids[i]];
      seen := seen + {Target(byId[ids[i]].field, byId[ids[i]].seat)};
    }
    assert ids[..|ids|] == ids;
    var missing := set t | t in targets && t !in seen;
    assert forall t | t in targets && t !in seen :: t in missing;
    if |ids| != 0 && |missing| != 0 {
      ghost var t :| t in missing;
      return Some(TargetNotConsumed);
    }
    problem := None;
  }

  /** The shared evaluator decides what the event may claim. */
  method Seal(ev: Event, rows: seq<Row>) returns (r: Event)
    ensures r == Sealed(ev, rows)
  {
    hide BindingReasons, Contamination, Lookup, NoDuplicates;
    var index := IndexFromRows(rows);
    EmptyIndex(map[]);
    IndexedLookup(map[], rows);
    var claim := EvaluateExposureBinding(ev, index, {});
    r := ev.(claimedBound := Some(claim.bound), policyViolation := ev.policyViolation || !claim.bound);
  }

  lemma LiveOfMembers(rows: seq<Row>, g: Option<GroupKey>)
    ensures Without(Members(rows, g), SupersededBy(Members(rows, g))) == Live(rows, g)
  {
  }

  lemma ValidIds(rows: seq<Row>)
    requires ValidStore(rows)
    ensures UniqueIds(rows) && IdsNonBlank(rows)
  {
  }

  lemma ScreenedConsumer(req: ExposureRequest)
    requires Screen(req).Ok?
    ensures req.consumer.Some? && req.consumer.value.targets.Some?
    ensures ConsumerProblem(req.consumer.value).None? && RunRefProblem(req.runRef).None?
    ensures Canonicalise(req.ref, true) == Ok(Screen(req).value)
    ensures forall i | 0 <= i < |req.revisionIds| :: NonBlank(req.revisionIds[i])
  {
    hide Canonicalise, RunRefProblem, NonBlank, ConsumerProblem;
    ConsumerTargets(req.consumer.value);
  }

  lemma ConsumerTargets(consumer: Consumer)
    requires ConsumerProblem(consumer).None?
    ensures consumer.targets.Some?
  {
    hide NonBlank, TargetsProblem;
  }

  lemma FoundRevision(byId: Index, identity: Identity, req: ExposureRequest, targets: seq<Target>, id: string)
    requires ConsumptionProblem(byId, identity, req, targets, id).None?
    ensures id in byId
  {
  }

  // ---------------------------------------------------------------- the written status stays right

  lemma UniqueLineage(rows: seq<Row>, more: seq<Row>, id: string)
    requires UniqueIds(more) && rows <= more && HasId(rows, id)
    ensures LineagesIn(more, id) == LineagesIn(rows, id) && |LineagesIn(rows, id)| <= 1
  {
    hide LineageOf;
    var i :| 0 <= i < |rows| && rows[i].revisionId == id;
    assert forall r :: r in more && r.revisionId == id ==> r == more[i];
    if LineageOf(rows[i]).Some? {
      assert LineagesIn(rows, id) == {LineageOf(rows[i]).value};
      assert LineagesIn(more, id) == {LineageOf(rows[i]).value};
    } else {
      assert LineagesIn(rows, id) == {} && LineagesIn(more, id) == {};
    }
  }

  lemma OneStore(rows: seq<Row>, id: string)
    requires ValidStore(rows)
    ensures LineagesOver([rows], id) == LineagesIn(rows, id)
  {
    hide ValidStore, LineagesIn;
    assert forall s :: s in [rows] <==> s == rows;
  }

  lemma {:induction false} AllFound(
      byId: Index, identity: Identity, req: ExposureRequest, targets: seq<Target>, ids: seq<string>, id: string)
    requires FirstProblem(byId, identity, req, targets, ids).None? && id in ids
    ensures id in byId
  {
    hide ConsumptionProblem;
    FoundRevision(byId, identity, req, targets, ids[0]);
    if id != ids[0] { AllFound(byId, identity, req, targets, ids[1..], id); }
  }

  lemma RecordedParts(rows: seq<Row>, req: ExposureRequest, eventId: string)
    requires RecordOutcome(rows, req, eventId).Ok?
    ensures ValidStore(rows) && Screen(req).Ok? && req.consumer.Some?
    ensures RecordOutcome(rows, req, eventId).value == Sealed(Unsealed(req, Screen(req).value, eventId), rows)
    ensures forall id | id in req.revisionIds :: id in ById(rows)
  {
    hide ValidStore, Screen, BindingReasons, ConsumptionProblem;
    ScreenedConsumer(req);
    forall id | id in req.revisionIds ensures id in ById(rows) {
      AllFound(ById(rows), Screen(req).value, req, req.consumer.value.targets.value, req.revisionIds, id);
    }
  }

  /**
   The status `record_exposure` writes is the status any later reading of the store re-derives, after any
   number of further appends.
   */
  lemma RecordedStatusStable(
      rows: seq<Row>, req: ExposureRequest, eventId: string, later: seq<Row>, index: RevisionIndex,
        conflicts: set<string>)
    requires RecordOutcome(rows, req, eventId).Ok?
    requires ValidStore(later) && rows <= later && Describes(index, conflicts, [later])
    ensures var ev := RecordOutcome(rows, req, eventId).value;
            && (ev.claimedBound == Some(true) <==> BindingReasons(ev, index, conflicts) == {})
            && Contamination(ev, index) == Contamination(ev, Indexed(map[], rows))
  {
    hide ValidStore, Screen, BindingReasons, Contamination, ConsumptionProblem, LineagesIn, Lookup, NoDuplicates,
      LineagesOver, Ids, Indexed;
    RecordedParts(rows, req, eventId);
    var raw := Unsealed(req, Screen(req).value, eventId);
    var ev := RecordOutcome(rows, req, eventId).value;
    var written := Indexed(map[], rows);
    EmptyIndex(map[]);
    IndexedLookup(map[], rows);
    ValidIds(later);
    IdsNamed(ev);
    forall id | id in Ids(ev) ensures Lookup(written, id) == Lookup(index, id) && (id in {} <==> id in conflicts) {
      IdsWithin(ev, id);
      ByIdKeys(rows, id);
      UniqueLineage(rows, later, id);
      OneStore(later, id);
      assert NonBlank(id) && Lookup(written, id) == LineagesIn(rows, id)
        && Lookup(index, id) == LineagesIn(later, id) by {
        EmptyIndex(map[]);
      }
      CountsMatch(index, id);
    }
    SameLookupsSameBinding(ev, written, {}, index, conflicts);
    ClaimIgnored(raw, ev.claimedBound, ev.policyViolation, written, {});
  }

  lemma IdsWithin(ev: Event, id: string)
    requires id in Ids(ev) && ev.revisionIds.Some?
    ensures id in ev.revisionIds.value
  {
    NamedIdsNonBlank(ev.revisionIds.value);
  }

  lemma CountsMatch(index: RevisionIndex, id: string)
    requires NoDuplicates(Candidates(index, id))
    ensures |Lookup(index, id)| == |Candidates(index, id)|
  {
    DistinctCount(Candidates(index, id));
  }

  // ---------------------------------------------------------------- exposure only grows

  datatype ExposureState = ExposureUnknown | NoneUnderCoverage | ExposedPossiblyUsed | ExposedActuallyConsumed

  function Rank(s: ExposureState): nat
  {
    match s
    case ExposureUnknown => 0
    case NoneUnderCoverage => 0
    case ExposedPossiblyUsed => 1
    case ExposedActuallyConsumed => 2
  }

  /** Releases count like any other trace; absence of records is read as clean only under complete coverage. */
  function FoldExposureState(events: seq<Event>, complete: bool): ExposureState
  {
    var kinds := set ev | ev in events :: ev.kind;
    if events == [] then if complete then NoneUnderCoverage else ExposureUnknown
    else if ActuallyConsumed in kinds then ExposedActuallyConsumed
    else if kinds * {Reserved, Released, PossiblyUsed} != {} then ExposedPossiblyUsed
    else ExposureUnknown
  }

  function EventKeys(ev: Event): set<Key>
  {
    QueryKeys(ev.storedKeys) +
    match Canonicalise(ev.ref, true) case Ok(identity) => QueryKeys(KeysOf(identity)) case Raised(_) => {}
  }

  function EffectiveKeys(ev: Event, index: RevisionIndex): set<Key>
  {
    EventKeys(ev) + if NonBlank(ev.eventId) then Contamination(ev, index) else {}
  }

  function Visible(events: seq<Event>, keys: set<Key>, index: RevisionIndex): seq<Event>
  {
    if events == [] || keys == {} then []
    else
      var last := events[|events| - 1];
      Visible(events[..|events| - 1], keys, index) + if EffectiveKeys(last, index) * keys != {} then [last] else []
  }

  lemma {:induction false} InVisible(events: seq<Event>, keys: set<Key>, index: RevisionIndex)
    ensures forall ev :: ev in Visible(events, keys, index) <==> ev in events && EffectiveKeys(ev, index) * keys != {}
  {
    hide EffectiveKeys;
    if events != [] && keys != {} {
      InVisible(events[..|events| - 1], keys, index);
      assert events == events[..|events| - 1] + [events[|events| - 1]];
    }
  }

  /** A misbound event is seen from the side it claims and from every side its revisions may belong to. */
  lemma SeenFromBothSides(events: seq<Event>, ev: Event, index: RevisionIndex, keys: set<Key>, id: string, l: Lineage)
    requires ev in events && NonBlank(ev.eventId)
    requires || QueryKeys(ClaimedKeys(ev)) * keys != {}
             || (id in Ids(ev) && l in Lookup(index, id) && QueryKeys(l.keys) * keys != {})
    ensures ev in Visible(events, keys, index)
  {
    hide QueryKeys, ClaimedKeys, Lookup, Ids, EventKeys;
    InVisible(events, keys, index);
    if QueryKeys(ClaimedKeys(ev)) * keys != {} {
      var k :| k in QueryKeys(ClaimedKeys(ev)) * keys;
      assert k in EffectiveKeys(ev, index) * keys;
    } else {
      var k :| k in QueryKeys(l.keys) * keys;
      assert l in Resolved(Ids(ev), index);
      assert k in ResolvedKeys(Resolved(Ids(ev), index));
      assert k in EffectiveKeys(ev, index) * keys;
    }
  }

  datatype Store = Store(annotations: seq<Row>, exposures: seq<Event>)

  datatype Op = DoAppend(call: Call) | DoRecord(req: ExposureRequest, eventId: string)

  ghost function Apply(st: Store, op: Op): Store
  {
    match op
    case DoAppend(call) =>
      (match AppendOutcome(st.annotations, call.req, call.id)
       case Raised(_) => st
       case Ok(row) => st.(annotations := st.annotations + [row]))
    case DoRecord(req, eventId) =>
      match RecordOutcome(st.annotations, req, eventId)
      case Raised(_) => st
      case Ok(ev) => st.(exposures := st.exposures + [ev])
  }

  ghost function RunOps(st: Store, ops: seq<Op>): Store
    decreases |ops|
  {
    if ops == [] then st else RunOps(Apply(st, ops[0]), ops[1..])
  }

  /** The state a source with these keys is in, as read from the exposures with an index of the annotations. */
  function StateFor(exposures: seq<Event>, keys: set<Key>, index: RevisionIndex, complete: bool): ExposureState
  {
    FoldExposureState(Visible(exposures, keys, index), complete)
  }

  lemma LineagesGrow(rows: seq<Row>, more: seq<Row>, id: string)
    requires rows <= more
    ensures LineagesIn(rows, id) <= LineagesIn(more, id)
  {
    hide LineageOf;
    assert forall r | r in rows :: r in more;
  }

  lemma LookupGrows(
      others: seq<seq<Row>>, rows: seq<Row>, a: RevisionIndex, ca: set<string>,
      more: seq<Row>, b: RevisionIndex, cb: set<string>, id: string)
    requires rows <= more && ValidStore(more)
    requires Describes(a, ca, others + [rows]) && Describes(b, cb, others + [more]) && NonBlank(id)
    ensures Lookup(a, id) <= Lookup(b, id)
  {
    hide ValidStore, LineagesIn, LineagesOver, NoDuplicates, Candidates, Lookup, NonBlank;
    LineagesGrow(rows, more, id);
    StoresSnoc(others, rows);
    StoresSnoc(others, more);
  }

  lemma ContaminationGrows(
      ev: Event, others: seq<seq<Row>>, rows: seq<Row>, a: RevisionIndex, ca: set<string>,
      more: seq<Row>, b: RevisionIndex, cb: set<string>)
    requires rows <= more && ValidStore(more)
    requires Describes(a, ca, others + [rows]) && Describes(b, cb, others + [more])
    ensures Contamination(ev, a) <= Contamination(ev, b)
  {
    hide QueryKeys, ClaimedKeys, Ids, Lookup, ValidStore, Describes;
    IdsNamed(ev);
    forall id | id in Ids(ev)
      ensures Lookup(a, id) <= Lookup(b, id)
    {
      LookupGrows(others, rows, a, ca, more, b, cb, id);
    }
    assert Resolved(Ids(ev), a) <= Resolved(Ids(ev), b);
  }

  lemma FoldMonotone(a: seq<Event>, b: seq<Event>, complete: bool, complete': bool)
    requires forall ev | ev in a :: ev in b
    ensures Rank(FoldExposureState(a, complete)) <= Rank(FoldExposureState(b, complete'))
  {
    var ka, kb := set ev | ev in a :: ev.kind, set ev | ev in b :: ev.kind;
    assert ka <= kb;
    assert ka * {Reserved, Released, PossiblyUsed} <= kb * {Reserved, Released, PossiblyUsed};
  }

  /**
   A longer store that the validator accepts shows at least as much exposure for every set of keys. Both are read
   beside the same other stores, through indexes that skip every store the validator refuses.
   */
  lemma StateGrows(
      others: seq<seq<Row>>, st: Store, a: RevisionIndex, ca: set<string>,
      later: Store, b: RevisionIndex, cb: set<string>, keys: set<Key>, complete: bool, complete': bool)
    requires st.annotations <= later.annotations && st.exposures <= later.exposures && ValidStore(later.annotations)
    requires Describes(a, ca, others + [st.annotations]) && Describes(b, cb, others + [later.annotations])
    ensures Rank(StateFor(st.exposures, keys, a, complete)) <= Rank(StateFor(later.exposures, keys, b, complete'))
  {
    hide Contamination, EventKeys, ValidStore, Describes, NonBlank;
    InVisible(st.exposures, keys, a);
    InVisible(later.exposures, keys, b);
    forall ev | ev in Visible(st.exposures, keys, a) ensures ev in Visible(later.exposures, keys, b) {
      ContaminationGrows(ev, others, st.annotations, a, ca, later.annotations, b, cb);
      assert EffectiveKeys(ev, a) <= EffectiveKeys(ev, b);
      var k :| k in EffectiveKeys(ev, a) * keys;
      assert k in EffectiveKeys(ev, b) * keys;
    }
    FoldMonotone(Visible(st.exposures, keys, a), Visible(later.exposures, keys, b), complete, complete');
  }

  /** The appends among the operations, in order. */
  function Appends(ops: seq<Op>): seq<Call>
  {
    if ops == [] then [] else (if ops[0].DoAppend? then [ops[0].call] else []) + Appends(ops[1..])
  }

  /** Recordings leave the annotations alone. */
  lemma {:induction false} RunIsAppends(st: Store, ops: seq<Op>)
    ensures RunOps(st, ops).annotations == RunAppends(st.annotations, Appends(ops))
    decreases |ops|
  {
    hide AppendOutcome, RecordOutcome;
    if ops != [] {
      RunIsAppends(Apply(st, ops[0]), ops[1..]);
      if ops[0].DoAppend? {
        assert Appends(ops)[0] == ops[0].call && Appends(ops)[1..] == Appends(ops[1..]);
      } else {
        assert Appends(ops) == Appends(ops[1..]);
      }
    }
  }

  lemma ApplyGrows(st: Store, op: Op)
    ensures st.exposures <= Apply(st, op).exposures
  {
    hide AppendOutcome, RecordOutcome;
  }

  lemma {:induction false} RunGrows(st: Store, ops: seq<Op>)
    ensures st.exposures <= RunOps(st, ops).exposures
    decreases |ops|
  {
    hide Apply;
    if ops != [] {
      ApplyGrows(st, ops[0]);
      RunGrows(Apply(st, ops[0]), ops[1..]);
    }
  }

  /**
   In any run of appends with fresh ids and of recordings, releases included, no source's exposure ever decreases:
   the run never makes the validator refuse the store, so no contamination is lost with it.
   */
  lemma ExposureOnlyGrows(
      others: seq<seq<Row>>, st: Store, ops: seq<Op>, a: RevisionIndex, ca: set<string>,
      b: RevisionIndex, cb: set<string>, keys: set<Key>, complete: bool, complete': bool)
    requires ValidStore(st.annotations) && FreshCalls(st.annotations, Appends(ops))
    requires Describes(a, ca, others + [st.annotations]) && Describes(b, cb, others + [RunOps(st, ops).annotations])
    ensures ValidStore(RunOps(st, ops).annotations)
    ensures Rank(StateFor(st.exposures, keys, a, complete)) <=
            Rank(StateFor(RunOps(st, ops).exposures, keys, b, complete'))
  {
    hide StateFor, ValidStore, FreshCalls, Describes, RunAppends, RunOps;
    RunIsAppends(st, ops);
    RunStaysValid(st.annotations, Appends(ops));
    RunGrows(st, ops);
    StateGrows(others, st, a, ca, RunOps(st, ops), b, cb, keys, complete, complete');
  }
}
