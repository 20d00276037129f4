/**
 Exposure events and the binding re-derived for each of them: what the event claims is compared with what
 the annotation revisions it names can prove, over every candidate of every store read.
 */
module Exposures {
  import opened Common
  import opened SourceIdentity
  import opened Annotations

  datatype EvidenceKind = Reserved | Released | PossiblyUsed | ActuallyConsumed | OtherKind(text: string)

  datatype Target = Target(field: FieldId, seat: Option<int>)

  datatype Consumer = Consumer(id: Option<string>, digest: Option<string>, targets: Option<seq<Target>>)

  datatype RunRef = RunRef(kind: Option<string>, reference: Option<string>)

  /** The four keys under which exposure is looked up. */
  datatype Keys = Keys(source: Option<Key>, root: Option<Key>, parentSource: Option<Key>, parentRoot: Option<Key>)

  datatype Event = Event(
    eventId: string, ref: Option<SourceRef>, storedKeys: Keys, storedClass: Option<IdentityClass>,
    revisionIds: Option<seq<string>>, kind: EvidenceKind, consumer: Option<Consumer>, runRef: Option<RunRef>,
    claimedBound: Option<bool>, policyViolation: bool)

  /** Everything one stored revision can prove about what it annotates. */
  datatype Lineage = Lineage(
    revisionId: string, keys: Keys, identityClass: IdentityClass, parentGaps: set<Gap>,
    field: FieldId, seat: Option<int>, status: Status, groupKey: Option<GroupKey>)

  datatype ConsumerError = ConsumerIdRequired | ConsumerDigestRequired | TargetsRequired | TargetFieldUnsupported
      | TargetSeatInvalid
  datatype RunRefError = RunRefRequired | RunRefKindRequired | RunRefDigestRequired

  datatype Reason =
    | EventIdentityNotComplete | TargetsUnreadable
    | Unresolvable(id: string) | Ambiguous(id: string) | LineageMismatch(id: string) | RevisionNotComplete(id: string)
    | ParentIncomplete(id: string) | ParentMismatch(id: string) | TargetMismatch(id: string) | NotKnown(id: string)
    | RevisionSetMissing | TargetNotCovered(target: Target)
    | ConsumerMissing | ConsumerInvalid(consumer: ConsumerError) | RunRefInvalid(run: RunRefError)

  datatype Binding = Binding(bound: bool, reasons: set<Reason>, contamination: set<Key>)

  // ---------------------------------------------------------------- parts

  function KeysOf(identity: Identity): Keys
  {
    Keys(identity.sourceKey, identity.rootKey, identity.parentSourceKey, identity.parentRootKey)
  }

  predicate Usable(k: Option<Key>)
  {
    k.Some? && (k.value.Stored? ==> NonBlank(k.value.text))
  }

  function QueryKeys(k: Keys): set<Key>
  {
    set x | x in {k.source, k.root, k.parentSource, k.parentRoot} && Usable(x) :: x.value
  }

  /** The lineage an event claims: re-derived when its reference is usable, otherwise as stored. */
  function ClaimedKeys(ev: Event): Keys
  {
    match Canonicalise(ev.ref, true)
    case Ok(identity) => KeysOf(identity)
    case Raised(_) => ev.storedKeys
  }

  predicate ClaimsComplete(ev: Event)
  {
    match Canonicalise(ev.ref, true)
    case Ok(identity) => identity.identityClass == Complete
    case Raised(_) => ev.storedClass == Some(Complete)
  }

  function LineageOf(row: Row): Option<Lineage>
  {
    match Canonicalise(row.sourceRef, true)
    case Raised(_) => None
    case Ok(identity) =>
      Some(Lineage(row.revisionId, KeysOf(identity), identity.identityClass,
                   ParentGaps(CanonicalParent(row.sourceRef.value.parent)),
                   row.field, row.seat, row.content.status, row.groupKey))
  }

  /** Parents agree on the long-term root, or else on the evidence key. */
  predicate SameParent(claimed: Keys, proven: Keys)
  {
    if claimed.parentRoot.None? && proven.parentRoot.None? then
      || (claimed.parentSource.None? && proven.parentSource.None?)
      || (Usable(claimed.parentSource) && claimed.parentSource == proven.parentSource)
    else
      || (Usable(claimed.parentRoot) && claimed.parentRoot == proven.parentRoot)
      || (Usable(claimed.parentSource) && claimed.parentSource == proven.parentSource)
  }

  predicate OnEventLineage(claimed: Keys, proven: Keys)
  {
    || (Usable(proven.root) && proven.root == claimed.root)
    || (Usable(proven.source) && proven.source == claimed.source)
  }

  function ConsumerProblem(c: Consumer): Option<ConsumerError>
  {
    if c.id.None? || !NonBlank(c.id.value) then Some(ConsumerIdRequired)
    else if c.digest.None? || !NonBlank(c.digest.value) then Some(ConsumerDigestRequired)
    else if c.targets.None? || c.targets.value == [] then Some(TargetsRequired)
    else TargetsProblem(c.targets.value)
  }

  function TargetsProblem(targets: seq<Target>): Option<ConsumerError>
  {
    if targets == [] then None
    else if FieldProblem(targets[0].field).Some? then Some(TargetFieldUnsupported)
    else if targets[0].seat.Some? && targets[0].seat.value < 0 then Some(TargetSeatInvalid)
    else TargetsProblem(targets[1..])
  }

  function RunRefProblem(r: Option<RunRef>): Option<RunRefError>
  {
    if r.None? then Some(RunRefRequired)
    else if r.value.kind.None? || !NonBlank(r.value.kind.value) then Some(RunRefKindRequired)
    else if r.value.reference.None? || !NonBlank(r.value.reference.value) then Some(RunRefDigestRequired)
    else None
  }

  function Targets(ev: Event): Option<set<Target>>
  {
    if ev.consumer.None? || ev.consumer.value.targets.None? then None
    else Some(set t | t in ev.consumer.value.targets.value)
  }

  /** The revision ids an event names; blank entries are ignored. */
  function NamedIds(ids: seq<string>): seq<string>
  {
    if ids == [] then []
    else
      var last := ids[|ids| - 1];
      NamedIds(ids[..|ids| - 1]) + if NonBlank(last) then [last] else []
  }

  function Ids(ev: Event): seq<string>
  {
    if ev.revisionIds.None? then [] else NamedIds(ev.revisionIds.value)
  }

  // ---------------------------------------------------------------- the revision index

  /** Revision id to its distinct candidate lineages, in read order. */
  type RevisionIndex = map<string, seq<Lineage>>

  function Candidates(index: RevisionIndex, id: string): seq<Lineage>
  {
    if id in index then index[id] else []
  }

  function Lookup(index: RevisionIndex, id: string): set<Lineage>
  {
    set l | l in Candidates(index, id)
  }

  predicate NoDuplicates<T(==)>(s: seq<T>)
  {
    forall i, j | 0 <= i < j < |s| :: s[i] != s[j]
  }

  lemma {:induction false} DistinctCount<T>(s: seq<T>)
    requires NoDuplicates(s)
    ensures |(set x | x in s)| == |s|
  {
    if s != [] {
      var front, last := s[..|s| - 1], s[|s| - 1];
      DistinctCount(front);
      assert s == front + [last];
      assert (set x | x in s) == (set x | x in front) + {last};
    }
  }

  /** The lineages the rows of one store give to a revision id. */
  function LineagesIn(rows: seq<Row>, id: string): set<Lineage>
  {
    set r | r in rows && r.revisionId == id && LineageOf(r).Some? :: LineageOf(r).value
  }

  /** The lineages all readable stores together give to a revision id. */
  ghost function LineagesOver(stores: seq<seq<Row>>, id: string): set<Lineage>
  {
    set s, l | s in stores && ValidStore(s) && l in LineagesIn(s, id) :: l
  }

  function WithCandidate(index: RevisionIndex, l: Lineage): RevisionIndex
  {
    var bucket := Candidates(index, l.revisionId);
    if l in bucket then index else index[l.revisionId := bucket + [l]]
  }

  /** The index after reading `rows`; a row without an id or with an unusable reference is skipped. */
  function Indexed(index: RevisionIndex, rows: seq<Row>): RevisionIndex
  {
    if rows == [] then index
    else
      var before, last := Indexed(index, rows[..|rows| - 1]), rows[|rows| - 1];
      if NonBlank(last.revisionId) && LineageOf(last).Some? then WithCandidate(before, LineageOf(last).value)
        else before
  }

  lemma CandidateAdded(index: RevisionIndex, l: Lineage)
    requires forall id :: NoDuplicates(Candidates(index, id))
    ensures forall id :: NoDuplicates(Candidates(WithCandidate(index, l), id))
    ensures forall id :: Lookup(WithCandidate(index, l), id) == Lookup(index, id) + if id == l.revisionId then {l}
    else {}
  {
    var r, bucket := WithCandidate(index, l), Candidates(index, l.revisionId);
    forall id ensures NoDuplicates(Candidates(r, id)) {
      assert NoDuplicates(Candidates(index, id));
      if id == l.revisionId { assert Candidates(r, id) == if l in bucket then bucket else bucket + [l]; }
    }
  }

  /** Reading a store keeps every distinct lineage of every id, and nothing else. */
  lemma {:induction false} IndexedLookup(index: RevisionIndex, rows: seq<Row>)
    requires forall id :: NoDuplicates(Candidates(index, id))
    ensures forall id :: NoDuplicates(Candidates(Indexed(index, rows), id))
    ensures forall id | NonBlank(id) :: Lookup(Indexed(index, rows), id) == Lookup(index, id) + LineagesIn(rows, id)
  {
    hide NoDuplicates, Lookup, LineageOf, Candidates, WithCandidate, LineagesIn;
    if rows == [] {
      assert forall id :: LineagesIn(rows, id) == {} by { NoLineages(); }
    } else {
      var front, last := rows[..|rows| - 1], rows[|rows| - 1];
      IndexedLookup(index, front);
      assert rows == front + [last];
      LineagesSnoc(front, last);
      if NonBlank(last.revisionId) && LineageOf(last).Some? {
        LineageId(last);
        CandidateAdded(Indexed(index, front), LineageOf(last).value);
      }
    }
  }

  lemma NoLineages()
    ensures forall id :: LineagesIn([], id) == {}
  {
  }

  method AddRows(index: RevisionIndex, rows: seq<Row>) returns (r: RevisionIndex)
    ensures r == Indexed(index, rows)
  {
    hide LineageOf;
    r := index;
    for i := 0 to |rows|
      invariant r == Indexed(index, rows[..i])
    {
      assert rows[..i + 1][..i] == rows[..i];
      var lineage := LineageOf(rows[i]);
      if NonBlank(rows[i].revisionId) && lineage.Some? {
        var bucket := Candidates(r, lineage.value.revisionId);
        LineageId(rows[i]);
        if lineage.value !in bucket { r := r[rows[i].revisionId := bucket + [lineage.value]]; }
      }
    }
    assert rows[..|rows|] == rows;
  }

  lemma LineageId(row: Row)
    requires LineageOf(row).Some?
    ensures LineageOf(row).value.revisionId == row.revisionId
  {
    hide Canonicalise;
  }

  lemma LineagesSnoc(rows: seq<Row>, row: Row)
    ensures forall id :: LineagesIn(rows + [row], id) ==
              LineagesIn(rows, id) + if row.revisionId == id && LineageOf(row).Some? then {LineageOf(row).value} else {}
  {
    hide LineageOf;
  }

  /** The index of a single store, as the write path builds it. */
  method IndexFromRows(rows: seq<Row>) returns (index: RevisionIndex)
    ensures index == Indexed(map[], rows)
  {
    index := AddRows(map[], rows);
  }

  /** The index merged over every store that can be read, and the ids with more than one candidate. */
  method BuildRevisionIndex(stores: seq<seq<Row>>) returns (index: RevisionIndex, conflicts: set<string>)
    ensures forall id | NonBlank(id) ::
      NoDuplicates(Candidates(index, id)) && Lookup(index, id) == LineagesOver(stores, id)
    ensures conflicts == set id | id in index && |index[id]| > 1
  {
    hide NoDuplicates, Lookup, ValidStore, LineagesIn;
    index := map[];
    assert forall id :: NoDuplicates(Candidates(index, id)) by { EmptyIndex(index); }
    assert forall id | NonBlank(id) :: Lookup(index, id) == {} by { EmptyIndex(index); }
    for i := 0 to |stores|
      invariant forall id :: NoDuplicates(Candidates(index, id))
      invariant forall id | NonBlank(id) :: Lookup(index, id) == LineagesOver(stores[..i], id)
    {
      assert stores[..i + 1] == stores[..i] + [stores[i]];
      StoresSnoc(stores[..i], stores[i]);
      var broken := Validate(stores[i]);
      if broken.None? {
        IndexedLookup(index, stores[i]);
        index := AddRows(index, stores[i]);
      }
    }
    assert stores[..|stores|] == stores;
    conflicts := set id | id in index && |index[id]| > 1;
  }

  lemma EmptyIndex(index: RevisionIndex)
    requires index == map[]
    ensures forall id :: NoDuplicates(Candidates(index, id)) && Lookup(index, id) == {}
  {
  }

  lemma StoresSnoc(stores: seq<seq<Row>>, store: seq<Row>)
    ensures forall id :: LineagesOver(stores + [store], id) ==
              LineagesOver(stores, id) + if ValidStore(store) then LineagesIn(store, id) else {}
  {
    hide ValidStore, LineagesIn;
  }

  // ---------------------------------------------------------------- the binding, by what it means

  function CandidateReasons(ev: Event, id: string, l: Lineage): set<Reason>
  {
    (if OnEventLineage(ClaimedKeys(ev), l.keys) then {} else {LineageMismatch(id)}) +
    (if l.identityClass == Complete then {} else {RevisionNotComplete(id)}) +
    (if l.parentGaps == {} then {} else {ParentIncomplete(id)}) +
    (if SameParent(ClaimedKeys(ev), l.keys) then {} else {ParentMismatch(id)}) +
    (if Targets(ev).Some? && Target(l.field, l.seat) !in Targets(ev).value then {TargetMismatch(id)} else {}) +
    (if ev.kind == ActuallyConsumed && l.status != Known then {NotKnown(id)} else {})
  }

  function RevisionReasons(ev: Event, id: string, candidates: set<Lineage>, conflict: bool): set<Reason>
  {
    if candidates == {} then {Unresolvable(id)}
    else
      (if |candidates| > 1 || conflict then {Ambiguous(id)} else {}) +
      (set l, r | l in candidates && r in CandidateReasons(ev, id, l) :: r)
  }

  function Resolved(ids: seq<string>, index: RevisionIndex): set<Lineage>
  {
    set id, l | id in ids && l in Lookup(index, id) :: l
  }

  function Uncovered(ev: Event, resolved: set<Lineage>): set<Reason>
  {
    if Targets(ev).None? || resolved == {} then {}
    else set t | t in Targets(ev).value && t !in Covered(resolved) :: TargetNotCovered(t)
  }

  function Covered(resolved: set<Lineage>): set<Target>
  {
    set l | l in resolved :: Target(l.field, l.seat)
  }

  function EventReasons(ev: Event): set<Reason>
  {
    (if ClaimsComplete(ev) then {} else {EventIdentityNotComplete}) +
    (if Targets(ev).None? then {TargetsUnreadable} else {}) +
    (if Ids(ev) == [] && ev.kind != Released then {RevisionSetMissing} else {}) +
    (if ev.consumer.None? then {ConsumerMissing}
     else if ConsumerProblem(ev.consumer.value).Some? then {ConsumerInvalid(ConsumerProblem(ev.consumer.value).value)}
     else {}) +
    (if RunRefProblem(ev.runRef).Some? then {RunRefInvalid(RunRefProblem(ev.runRef).value)} else {})
  }

  function IdReasons(ev: Event, ids: seq<string>, index: RevisionIndex, conflicts: set<string>): set<Reason>
  {
    set id, r | id in ids && r in RevisionReasons(ev, id, Lookup(index, id), id in conflicts) :: r
  }

  function BindingReasons(ev: Event, index: RevisionIndex, conflicts: set<string>): set<Reason>
  {
    EventReasons(ev) + IdReasons(ev, Ids(ev), index, conflicts) + Uncovered(ev, Resolved(Ids(ev), index))
  }

  function ResolvedKeys(resolved: set<Lineage>): set<Key>
  {
    set l, k | l in resolved && k in QueryKeys(l.keys) :: k
  }

  function Contamination(ev: Event, index: RevisionIndex): set<Key>
  {
    QueryKeys(ClaimedKeys(ev)) + ResolvedKeys(Resolved(Ids(ev), index))
  }

  // ---------------------------------------------------------------- the evaluator

  method EvaluateCandidate(ev: Event, id: string, l: Lineage) returns (reasons: set<Reason>)
    ensures reasons == CandidateReasons(ev, id, l)
  {
    hide OnEventLineage, SameParent, ClaimedKeys, Targets;
    reasons := {};
    var claimed, targets := ClaimedKeys(ev), Targets(ev);
    if !OnEventLineage(claimed, l.keys) { reasons := reasons + {LineageMismatch(id)}; }
    if l.identityClass != Complete { reasons := reasons + {RevisionNotComplete(id)}; }
    if l.parentGaps != {} { reasons := reasons + {ParentIncomplete(id)}; }
    if !SameParent(claimed, l.keys) { reasons := reasons + {ParentMismatch(id)}; }
    if targets.Some? && Target(l.field, l.seat) !in targets.value { reasons := reasons + {TargetMismatch(id)}; }
    if ev.kind == ActuallyConsumed && l.status != Known { reasons := reasons + {NotKnown(id)}; }
  }

  method EvaluateCandidates(ev: Event, id: string, candidates: seq<Lineage>)
    returns (reasons: set<Reason>, keys: set<Key>)
    ensures reasons == set l, r | l in candidates && r in CandidateReasons(ev, id, l) :: r
    ensures keys == ResolvedKeys(set l | l in candidates)
  {
    hide CandidateReasons, QueryKeys;
    reasons, keys := {}, {};
    for i := 0 to |candidates|
      invariant reasons == set l, r | l in candidates[..i] && r in CandidateReasons(ev, id, l) :: r
      invariant keys == ResolvedKeys(set l | l in candidates[..i])
    {
      var l := candidates[i];
      assert candidates[..i + 1] == candidates[..i] + [l];
      keys := keys + QueryKeys(l.keys);
      var mine := EvaluateCandidate(ev, id, l);
      reasons := reasons + mine;
    }
    assert candidates[..|candidates|] == candidates;
  }

  lemma ResolvedSnoc(ids: seq<string>, id: string, index: RevisionIndex)
    ensures Resolved(ids + [id], index) == Resolved(ids, index) + Lookup(index, id)
  {
    hide Lookup;
  }

  lemma IdReasonsSnoc(ev: Event, ids: seq<string>, id: string, index: RevisionIndex, conflicts: set<string>)
    ensures IdReasons(ev, ids + [id], index, conflicts) ==
            IdReasons(ev, ids, index, conflicts) + RevisionReasons(ev, id, Lookup(index, id), id in conflicts)
  {
    hide Lookup, RevisionReasons;
  }

  lemma ResolvedKeysUnion(a: set<Lineage>, b: set<Lineage>)
    ensures ResolvedKeys(a + b) == ResolvedKeys(a) + ResolvedKeys(b)
  {
    hide QueryKeys;
  }

  method EvaluateRevision(ev: Event, id: string, candidates: seq<Lineage>, conflict: bool)
    returns (reasons: set<Reason>, keys: set<Key>)
    requires NoDuplicates(candidates)
    ensures reasons == RevisionReasons(ev, id, (set l | l in candidates), conflict)
    ensures keys == ResolvedKeys(set l | l in candidates)
  {
    hide CandidateReasons, QueryKeys, NoDuplicates, ResolvedKeys;
    DistinctCount(candidates);
    reasons, keys := {}, {};
    if |candidates| == 0 {
      reasons := reasons + {Unresolvable(id)};
      assert (set l | l in candidates) == {};
      NoKeys();
    } else {
      assert candidates[0] in (set l | l in candidates);
      if |candidates| > 1 || conflict { reasons := reasons + {Ambiguous(id)}; }
      var more;
      more, keys := EvaluateCandidates(ev, id, candidates);
      reasons := reasons + more;
    }
  }

  /** Walks the named revisions in order, collecting reasons and the keys of every candidate. */
  method EvaluateRevisions(ev: Event, ids: seq<string>, index: RevisionIndex, conflicts: set<string>)
    returns (reasons: set<Reason>, resolved: seq<Lineage>, keys: set<Key>)
    requires forall id | id in ids :: NoDuplicates(Candidates(index, id))
    ensures reasons == IdReasons(ev, ids, index, conflicts)
    ensures (set l | l in resolved) == Resolved(ids, index)
    ensures keys == ResolvedKeys(Resolved(ids, index))
  {
    hide RevisionReasons, NoDuplicates, Resolved, ResolvedKeys, IdReasons, Candidates;
    reasons, resolved, keys := {}, [], {};
    NothingResolved(ev, index, conflicts);
    for i := 0 to |ids|
      invariant reasons == IdReasons(ev, ids[..i], index, conflicts)
      invariant (set l | l in resolved) == Resolved(ids[..i], index)
      invariant keys == ResolvedKeys(Resolved(ids[..i], index))
    {
      var id := ids[i];
      assert ids[..i + 1] == ids[..i] + [id];
      IdReasonsSnoc(ev, ids[..i], id, index, conflicts);
      ResolvedSnoc(ids[..i], id, index);
      ResolvedKeysUnion(Resolved(ids[..i], index), Lookup(index, id));
      var more, moreKeys := EvaluateRevision(ev, id, Candidates(index, id), id in conflicts);
      reasons := reasons + more;
      keys := keys + moreKeys;
      SetOfConcat(resolved, Candidates(index, id));
      resolved := resolved + Candidates(index, id);
    }
    assert ids[..|ids|] == ids;
  }

  lemma SetOfConcat<T>(a: seq<T>, b: seq<T>)
    ensures (set x | x in a + b) == (set x | x in a) + (set x | x in b)
  {
  }

  lemma NoKeys()
    ensures ResolvedKeys({}) == {}
  {
  }

  lemma NothingResolved(ev: Event, index: RevisionIndex, conflicts: set<string>)
    ensures Resolved([], index) == {} && ResolvedKeys({}) == {} && IdReasons(ev, [], index, conflicts) == {}
  {
  }

  method EvaluateEvent(ev: Event) returns (reasons: set<Reason>)
    ensures reasons == EventReasons(ev)
  {
    hide ClaimsComplete, ConsumerProblem, Ids, Targets, RunRefProblem;
    reasons := {};
    if !ClaimsComplete(ev) { reasons := reasons + {EventIdentityNotComplete}; }
    if Targets(ev).None? { reasons := reasons + {TargetsUnreadable}; }
    if |Ids(ev)| == 0 && ev.kind != Released { reasons := reasons + {RevisionSetMissing}; }
    if ev.consumer.None? {
      reasons := reasons + {ConsumerMissing};
    } else {
      var problem := ConsumerProblem(ev.consumer.value);
      if problem.Some? { reasons := reasons + {ConsumerInvalid(problem.value)}; }
    }
    var problem := RunRefProblem(ev.runRef);
    if problem.Some? { reasons := reasons + {RunRefInvalid(problem.value)}; }
  }

  method EvaluateCoverage(ev: Event, resolved: seq<Lineage>) returns (reasons: set<Reason>)
    ensures reasons == Uncovered(ev, set l | l in resolved)
  {
    hide Targets;
    ghost var lineages := set l | l in resolved;
    var targets := Targets(ev);
    if targets.None? || |resolved| == 0 {
      assert |resolved| == 0 ==> lineages == {};
      return {};
    }
    var covered := set l | l in resolved :: Target(l.field, l.seat);
    assert resolved[0] in lineages;
    assert covered == Covered(lineages);
    reasons := set t | t in targets.value && t !in covered :: TargetNotCovered(t);
    assert reasons == Uncovered(ev, lineages);
  }

  /** The shared validator of the write path and of every recovery path; the stored claim is never read. */
  method EvaluateExposureBinding(ev: Event, index: RevisionIndex, conflicts: set<string>) returns (b: Binding)
    requires forall id | NonBlank(id) :: NoDuplicates(Candidates(index, id))
    ensures b.reasons == BindingReasons(ev, index, conflicts)
    ensures b.contamination == Contamination(ev, index)
    ensures b.bound <==> b.reasons == {}
  {
    hide NoDuplicates, Candidates, EventReasons, Resolved, ResolvedKeys, IdReasons, QueryKeys, ClaimedKeys, Uncovered;
    var ids := Ids(ev);
    NamedIdsNonBlank(if ev.revisionIds.None? then [] else ev.revisionIds.value);
    var eventReasons := EvaluateEvent(ev);
    var idReasons, resolved, keys := EvaluateRevisions(ev, ids, index, conflicts);
    var uncovered := EvaluateCoverage(ev, resolved);
    var reasons := eventReasons + idReasons + uncovered;
    b := Binding(reasons == {}, reasons, QueryKeys(ClaimedKeys(ev)) + keys);
  }

  lemma {:induction false} NamedIdsNonBlank(ids: seq<string>)
    ensures forall id | id in NamedIds(ids) :: NonBlank(id) && id in ids
    ensures forall id | id in ids && NonBlank(id) :: id in NamedIds(ids)
  {
    if ids != [] {
      NamedIdsNonBlank(ids[..|ids| - 1]);
      assert ids == ids[..|ids| - 1] + [ids[|ids| - 1]];
    }
  }
}
