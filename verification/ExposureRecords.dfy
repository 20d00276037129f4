/**
 When a recorded exposure event is bound: the recording refuses many unfit events, but it accepts revisions of the
 parent source and incomplete identities, and stores those events as unresolved policy violations.
 */
module ExposureRecords {
  import opened Common
  import opened SourceIdentity
  import opened Annotations
  import opened Revisions
  import opened Exposures
  import opened AnnotationStores

  /** A key both identities have and agree on. */
  predicate Agree(a: Option<Key>, b: Option<Key>)
  {
    a.Some? && a == b
  }

  /**
   The row's own identity is complete, has the root or the source of the given one, and the parents agree in the
   long-term root or in the source, or there is none on either side.
   */
  predicate Binds(identity: Identity, row: Row)
  {
    match Canonicalise(row.sourceRef, true)
    case Raised(_) => false
    case Ok(own) =>
      && own.identityClass == Complete
      && (Agree(own.rootKey, identity.rootKey) || Agree(own.sourceKey, identity.sourceKey))
      && (|| Agree(own.parentRootKey, identity.parentRootKey) || Agree(own.parentSourceKey, identity.parentSourceKey)
          || (own.parentRootKey == identity.parentRootKey == own.parentSourceKey == identity.parentSourceKey == None))
  }

  lemma DerivedKeysUsable(ref: Option<SourceRef>)
    requires Canonicalise(ref, true).Ok?
    ensures var k := KeysOf(Canonicalise(ref, true).value);
      && (k.source.Some? ==> !k.source.value.Stored?) && (k.root.Some? ==> !k.root.value.Stored?)
      && (k.parentSource.Some? ==> !k.parentSource.value.Stored?)
        && (k.parentRoot.Some? ==> !k.parentRoot.value.Stored?)
  {
    hide Gaps, ParentGaps, CoreKnown, CanonicalCore;
  }

  /** What a lineage of the row has to prove, said of the row's own identity. */
  lemma BindsIffProven(row: Row, claimed: Identity, ref: Option<SourceRef>)
    requires Canonicalise(ref, true) == Ok(claimed) && LineageOf(row).Some?
    ensures var l := LineageOf(row).value;
      Binds(claimed, row) <==>
        && (Shared(claimed.rootKey, l.keys.root) || Shared(claimed.sourceKey, l.keys.source))
        && l.identityClass == Complete && OneParent(KeysOf(claimed), l.keys)
  {
    hide Canonicalise, ParentGaps, CanonicalParent;
    DerivedKeysUsable(ref);
    DerivedKeysUsable(row.sourceRef);
  }

  lemma {:induction false} NoProblemAt(
      byId: Index, identity: Identity, req: ExposureRequest, targets: seq<Target>, ids: seq<string>, id: string)
    requires FirstProblem(byId, identity, req, targets, ids).None? && id in ids
    ensures ConsumptionProblem(byId, identity, req, targets, id).None?
  {
    hide ConsumptionProblem;
    if id != ids[0] { NoProblemAt(byId, identity, req, targets, ids[1..], id); }
  }

  lemma {:induction false} AllNamed(ids: seq<string>)
    requires forall i | 0 <= i < |ids| :: NonBlank(ids[i])
    ensures NamedIds(ids) == ids
  {
    hide NonBlank;
    if ids != [] {
      AllNamed(ids[..|ids| - 1]);
      assert ids == ids[..|ids| - 1] + [ids[|ids| - 1]];
    }
  }

  /**
   A row the validator accepts has a lineage of its own field, seat and status, and a complete one has no parent gap.
   */
  lemma RowLineage(row: Row)
    requires RowProblem(row).None?
    ensures LineageOf(row).Some?
    ensures var l := LineageOf(row).value;
      && l.field == row.field && l.seat == row.seat && l.status == row.content.status
      && (l.identityClass == Complete ==> l.parentGaps == {})
  {
    var ref := row.sourceRef.value;
    var clean := Cleaned(ref);
    hide CanonicalCore, CanonicalParent, ParentGaps, SlotGaps, LabelProblem, SeatProblem, FieldProblem, Blank,
      Undigestible, RootKey, CoreKnown;
    assert ParentGaps(clean.parent) <= Gaps(clean);
  }

  /** The stored event claims exactly the identity it was recorded under. */
  lemma StoredClaims(req: ExposureRequest, eventId: string)
    requires Screen(req).Ok? && req.consumer.Some?
    ensures var identity, ev := Screen(req).value, Unsealed(req, Screen(req).value, eventId);
      && ClaimedKeys(ev) == KeysOf(identity) && (ClaimsComplete(ev) <==> identity.identityClass == Complete)
  {
    ScreenedConsumer(req);
    StoredReferenceKeepsIdentity(req.ref, false, false);
    hide Canonicalise;
  }

  lemma OwnIndexDescribes(rows: seq<Row>)
    requires ValidStore(rows)
    ensures Describes(Indexed(map[], rows), {}, [rows])
    ensures forall id | NonBlank(id) :: Lookup(Indexed(map[], rows), id) == LineagesIn(rows, id)
  {
    hide *;
    var index := Indexed(map[], rows);
    EmptyIndex(map[]);
    IndexedLookup(map[], rows);
    ValidIds(rows);
    forall id | NonBlank(id) ensures Lookup(index, id) == LineagesOver([rows], id) && |Candidates(index, id)| <= 1 {
      OneStore(rows, id);
      CountsMatch(index, id);
      AtMostOne(rows, id);
    }
    SingleCandidates(index, [rows]);
  }

  lemma SingleCandidates(index: RevisionIndex, stores: seq<seq<Row>>)
    requires forall id :: NoDuplicates(Candidates(index, id))
    requires forall id | NonBlank(id) :: Lookup(index, id) == LineagesOver(stores, id) && |Candidates(index, id)| <= 1
    ensures Describes(index, {}, stores)
  {
    hide NoDuplicates, Candidates, Lookup, LineagesOver, NonBlank;
  }

  lemma AtMostOne(rows: seq<Row>, id: string)
    requires UniqueIds(rows)
    ensures |LineagesIn(rows, id)| <= 1
  {
    if HasId(rows, id) {
      UniqueLineage(rows, rows, id);
    } else {
      hide LineageOf;
      forall r | r in rows ensures r.revisionId != id {
        var i :| 0 <= i < |rows| && rows[i] == r;
      }
      assert LineagesIn(rows, id) == {};
    }
  }

  lemma LineageOfId(rows: seq<Row>, id: string)
    requires ValidStore(rows) && id in ById(rows)
    ensures RowProblem(ById(rows)[id]).None? && LineageOf(ById(rows)[id]).Some?
    ensures LineagesIn(rows, id) == {LineageOf(ById(rows)[id]).value}
  {
    hide LineageOf, RowProblem, ById, LinkProblem, OneRootOneHead;
    ByIdMembers(rows);
    RowLineage(ById(rows)[id]);
    OnlyRow(rows, ById(rows)[id]);
  }

  /** Where ids are distinct, the lineages of an id are those of its one row. */
  lemma OnlyRow(rows: seq<Row>, row: Row)
    requires UniqueIds(rows) && row in rows && LineageOf(row).Some?
    ensures LineagesIn(rows, row.revisionId) == {LineageOf(row).value}
  {
    hide LineageOf;
    forall r | r in rows && r.revisionId == row.revisionId ensures r == row {
      var i :| 0 <= i < |rows| && rows[i] == r;
    }
  }

  lemma AcceptedParts(rows: seq<Row>, req: ExposureRequest, eventId: string)
    requires RecordOutcome(rows, req, eventId).Ok?
    ensures ValidStore(rows) && Screen(req).Ok? && req.consumer.Some? && req.consumer.value.targets.Some?
    ensures FirstProblem(ById(rows), Screen(req).value, req, req.consumer.value.targets.value, req.revisionIds).None?
    ensures req.revisionIds != [] ==>
      forall t | t in req.consumer.value.targets.value :: t in TargetsSeen(ById(rows), req.revisionIds)
  {
    hide ValidStore, Screen, BindingReasons, FirstProblem, TargetsSeen, Indexed;
    ScreenedConsumer(req);
  }

  /** What the recording has checked of a named revision. */
  lemma NamedRevision(rows: seq<Row>, req: ExposureRequest, eventId: string, id: string)
    requires RecordOutcome(rows, req, eventId).Ok? && id in req.revisionIds
    ensures ValidStore(rows) && id in ById(rows) && req.consumer.Some? && req.consumer.value.targets.Some?
    ensures var row := ById(rows)[id];
      && Target(row.field, row.seat) in req.consumer.value.targets.value
      && (req.kind == ActuallyConsumed ==> row.content.status == Known)
  {
    hide ValidStore, Screen, RecordOutcome, ById, RootOfRow;
    AcceptedParts(rows, req, eventId);
    NoProblemAt(ById(rows), Screen(req).value, req, req.consumer.value.targets.value, req.revisionIds, id);
  }

  /**
   With a single lineage that is targeted, and KNOWN where it must be, only identity and lineage are left to prove.
   */
  lemma SingleProven(ev: Event, index: RevisionIndex, id: string, l: Lineage)
    requires Lookup(index, id) == {l} && (l.identityClass == Complete ==> l.parentGaps == {})
    requires ev.kind == ActuallyConsumed ==> l.status == Known
    requires Targets(ev).Some? ==> Target(l.field, l.seat) in Targets(ev).value
    ensures ProvenBy(ev, index, id) <==>
      && (Shared(ClaimedKeys(ev).root, l.keys.root) || Shared(ClaimedKeys(ev).source, l.keys.source))
      && l.identityClass == Complete && OneParent(ClaimedKeys(ev), l.keys)
  {
    hide ClaimedKeys, Shared, OneParent, Targets, Lookup;
    if (Shared(ClaimedKeys(ev).root, l.keys.root) || Shared(ClaimedKeys(ev).source, l.keys.source))
       && l.identityClass == Complete && OneParent(ClaimedKeys(ev), l.keys)
    {
      assert Proves(ev, l);
    }
    if ProvenBy(ev, index, id) {
      var k :| Lookup(index, id) == {k} && Proves(ev, k);
      assert k in {l};
    }
  }

  /** A named and accepted revision resolves to the one lineage of its row, which carries the row's target. */
  lemma NamedLookup(rows: seq<Row>, req: ExposureRequest, eventId: string, id: string)
    requires RecordOutcome(rows, req, eventId).Ok? && id in req.revisionIds
    ensures id in ById(rows) && LineageOf(ById(rows)[id]).Some?
    ensures var row, l := ById(rows)[id], LineageOf(ById(rows)[id]).value;
      && Lookup(Indexed(map[], rows), id) == {l} && l.field == row.field && l.seat == row.seat
      && l.status == row.content.status && (l.identityClass == Complete ==> l.parentGaps == {})
  {
    hide *;
    NamedRevision(rows, req, eventId, id);
    OwnIndexDescribes(rows);
    LineageOfId(rows, id);
    RowLineage(ById(rows)[id]);
    ScreenedIds(rows, req, eventId, id);
  }

  lemma ScreenedIds(rows: seq<Row>, req: ExposureRequest, eventId: string, id: string)
    requires RecordOutcome(rows, req, eventId).Ok? && id in req.revisionIds
    ensures NonBlank(id)
  {
    hide RecordOutcome, Screen, NonBlank;
    AcceptedParts(rows, req, eventId);
    ScreenedConsumer(req);
    var i :| 0 <= i < |req.revisionIds| && req.revisionIds[i] == id;
  }

  lemma UnsealedTargets(req: ExposureRequest, identity: Identity, eventId: string)
    requires req.consumer.Some? && req.consumer.value.targets.Some?
    ensures Targets(Unsealed(req, identity, eventId)) == Some(set t | t in req.consumer.value.targets.value)
    ensures Unsealed(req, identity, eventId).kind == req.kind
  {}

  /** One named and accepted revision is proven exactly when its row binds. */
  lemma RevisionBinds(rows: seq<Row>, req: ExposureRequest, eventId: string, id: string)
    requires RecordOutcome(rows, req, eventId).Ok? && Screen(req).Ok? && req.consumer.Some? && id in req.revisionIds
    requires id in ById(rows)
    ensures ProvenBy(Unsealed(req, Screen(req).value, eventId), Indexed(map[], rows), id) <==>
            Binds(Screen(req).value, ById(rows)[id])
  {
    hide RecordOutcome, Screen, Unsealed, Indexed, ById, LineageOf, ProvenBy, Lookup, ClaimedKeys, Shared, OneParent,
      Canonicalise, Binds;
    NamedRevision(rows, req, eventId, id);
    NamedLookup(rows, req, eventId, id);
    StoredClaims(req, eventId);
    UnsealedTargets(req, Screen(req).value, eventId);
    hide ValidStore, Targets;
    SingleProven(Unsealed(req, Screen(req).value, eventId), Indexed(map[], rows), id, LineageOf(ById(rows)[id]).value);
    ScreenedConsumer(req);
    BindsIffProven(ById(rows)[id], Screen(req).value, req.ref);
  }

  /** An accepted recording already covers the consumer's targets, no more and no less. */
  lemma RecordedCovers(rows: seq<Row>, req: ExposureRequest, eventId: string)
    requires RecordOutcome(rows, req, eventId).Ok? && Screen(req).Ok? && req.consumer.Some? && req.revisionIds != []
    ensures var ev := Unsealed(req, Screen(req).value, eventId);
      Targets(ev).Some? && Targets(ev).value == Covered(Resolved(req.revisionIds, Indexed(map[], rows)))
  {
    hide RecordOutcome, Screen, Unsealed, Indexed, ById, LineageOf, Lookup, ValidStore, FirstProblem, Targets;
    AcceptedParts(rows, req, eventId);
    UnsealedTargets(req, Screen(req).value, eventId);
    var index, targets, ids := Indexed(map[], rows), req.consumer.value.targets.value, req.revisionIds;
    var resolved := Resolved(ids, index);
    forall t | t in targets ensures t in Covered(resolved) {
      var id :| id in ids && id in ById(rows) && Target(ById(rows)[id].field, ById(rows)[id].seat) == t;
      NamedLookup(rows, req, eventId, id);
      assert LineageOf(ById(rows)[id]).value in Lookup(index, id);
      assert LineageOf(ById(rows)[id]).value in resolved;
    }
    forall t | t in Covered(resolved) ensures t in targets {
      var l :| l in resolved && t == Target(l.field, l.seat);
      var id :| id in ids && l in Lookup(index, id);
      NamedLookup(rows, req, eventId, id);
      NamedRevision(rows, req, eventId, id);
      assert l == LineageOf(ById(rows)[id]).value;
    }
  }

  /**
   A recorded event is bound exactly when the request's own identity is complete and every named revision is complete
   and lies on that identity's root or source under the same parent. Otherwise it is stored all the same, as a policy
   violation. All other demands of the binding are already met by an accepted request.
   */
  lemma RecordedBoundIff(rows: seq<Row>, req: ExposureRequest, eventId: string)
    requires RecordOutcome(rows, req, eventId).Ok?
    ensures Screen(req).Ok? && forall id | id in req.revisionIds :: id in ById(rows)
    ensures var ev, identity := RecordOutcome(rows, req, eventId).value, Screen(req).value;
      && (ev.claimedBound == Some(true) <==>
            identity.identityClass == Complete && forall id | id in req.revisionIds :: Binds(identity, ById(rows)[id]))
      && (ev.claimedBound == Some(true) || (ev.claimedBound == Some(false) && ev.policyViolation))
  {
    RecordedParts(rows, req, eventId);
    ScreenedConsumer(req);
    ScreenedKind(req);
    var identity, index := Screen(req).value, Indexed(map[], rows);
    var raw := Unsealed(req, identity, eventId);
    AllNamed(req.revisionIds);
    assert Ids(raw) == req.revisionIds;
    hide Screen, BindingReasons, Indexed, ValidStore, Ids, ClaimsComplete, ConsumerProblem, RunRefProblem, Binds,
      ProvenBy, Resolved, Covered;
    OwnIndexDescribes(rows);
    BoundMeans(raw, index, {}, [rows]);
    StoredClaims(req, eventId);
    forall id | id in req.revisionIds ensures ProvenBy(raw, index, id) <==> Binds(identity, ById(rows)[id]) {
      RevisionBinds(rows, req, eventId, id);
    }
    if req.revisionIds != [] { RecordedCovers(rows, req, eventId); }
  }

  lemma ScreenedKind(req: ExposureRequest)
    requires Screen(req).Ok?
    ensures req.revisionIds == [] ==> req.kind == Released
  {}

  /** A named revision of another source, such as the parent's, always leaves the recorded event unbound. */
  lemma ForeignRevisionIsUnbound(rows: seq<Row>, req: ExposureRequest, eventId: string, id: string, own: Identity)
    requires RecordOutcome(rows, req, eventId).Ok? && id in req.revisionIds && id in ById(rows) && Screen(req).Ok?
    requires Canonicalise(ById(rows)[id].sourceRef, true) == Ok(own)
    requires own.sourceKey != Screen(req).value.sourceKey && own.rootKey != Screen(req).value.rootKey
    ensures RecordOutcome(rows, req, eventId).value.claimedBound == Some(false)
    ensures RecordOutcome(rows, req, eventId).value.policyViolation
  {
    hide RecordOutcome, Screen, Canonicalise, ById;
    RecordedBoundIff(rows, req, eventId);
    assert !Binds(Screen(req).value, ById(rows)[id]);
  }

  /**
   A crop that was re-parented onto another frame is never bound through a revision of its old self: where the row's
   parent root is not the event's parent root, and neither are the parent sources, the event is stored unbound and as a
   policy violation.
   */
  lemma ReparentedIsUnbound(
      rows: seq<Row>, req: ExposureRequest, eventId: string, id: string, own: Identity, claimed: Identity)
    requires RecordOutcome(rows, req, eventId).Ok? && id in req.revisionIds && id in ById(rows)
    requires Canonicalise(ById(rows)[id].sourceRef, true) == Ok(own) && Canonicalise(req.ref, true) == Ok(claimed)
    requires own.parentRootKey.Some? && own.parentRootKey != claimed.parentRootKey
    requires own.parentSourceKey != claimed.parentSourceKey
    ensures RecordOutcome(rows, req, eventId).value.claimedBound == Some(false)
    ensures RecordOutcome(rows, req, eventId).value.policyViolation
  {
    hide RecordOutcome, Screen, Canonicalise, ById;
    RecordedBoundIff(rows, req, eventId);
    ScreenedConsumer(req);
    assert !Binds(claimed, ById(rows)[id]);
  }

  /**
   A re-audit of the parent does not unbind: with a complete identity, revisions that are complete, lie on the event's
   own root and agree with it in the parent root bind the event, however the parent sources differ.
   */
  lemma ReauditedStaysBound(rows: seq<Row>, req: ExposureRequest, eventId: string, claimed: Identity)
    requires RecordOutcome(rows, req, eventId).Ok? && Canonicalise(req.ref, true) == Ok(claimed)
    requires claimed.identityClass == Complete && claimed.rootKey.Some? && claimed.parentRootKey.Some?
    requires forall id | id in req.revisionIds && id in ById(rows) ::
      var own := Canonicalise(ById(rows)[id].sourceRef, true);
      && own.Ok? && own.value.identityClass == Complete && own.value.rootKey == claimed.rootKey
      && own.value.parentRootKey == claimed.parentRootKey
    ensures RecordOutcome(rows, req, eventId).value.claimedBound == Some(true)
    ensures RecordOutcome(rows, req, eventId).value.policyViolation == req.policyViolation
  {
    hide RecordOutcome, Screen, Canonicalise, ById;
    RecordedBoundIff(rows, req, eventId);
    ScreenedConsumer(req);
    SealedViolation(rows, req, eventId);
  }

  /** Sealing adds a violation exactly to what is not bound, and changes nothing else. */
  lemma SealedViolation(rows: seq<Row>, req: ExposureRequest, eventId: string)
    requires RecordOutcome(rows, req, eventId).Ok?
    ensures var ev := RecordOutcome(rows, req, eventId).value;
      && (ev.policyViolation <==> req.policyViolation || ev.claimedBound == Some(false))
      && ev.eventId == eventId && ev.kind == req.kind && ev.consumer == req.consumer && ev.runRef == req.runRef
      && ev.revisionIds == Some(req.revisionIds)
      && ev.ref == Some(Screen(req).value.normalised) && ev.storedKeys == KeysOf(Screen(req).value)
      && ev.storedClass == Some(Screen(req).value.identityClass)
  {
    hide ValidStore, Screen, BindingReasons, FirstProblem, TargetsSeen, Indexed;
  }
}
