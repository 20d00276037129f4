/**
 The rules of recording and of reading exposure, said of the requests, rows and keys themselves.
 */
module ExposureRules {
  import opened Common
  import opened SourceIdentity
  import opened Annotations
  import opened Exposures
  import opened AnnotationStores
  import StoredRequests

  // ---------------------------------------------------------------- what is screened

  predicate Supported(f: FieldId)
  {
    f == PotDisplay || f == VisibleActionGlyph
  }

  /** The consumer names itself, its digest, and at least one supported target. */
  predicate Identified(c: Consumer)
  {
    && c.id.Some? && NonBlank(c.id.value) && c.digest.Some? && NonBlank(c.digest.value)
    && c.targets.Some? && c.targets.value != []
    && forall i | 0 <= i < |c.targets.value| ::
         Supported(c.targets.value[i].field) && (c.targets.value[i].seat.Some? ==> c.targets.value[i].seat.value >= 0)
  }

  predicate RunNamed(r: Option<RunRef>)
  {
    && r.Some? && r.value.kind.Some? && NonBlank(r.value.kind.value)
    && r.value.reference.Some? && NonBlank(r.value.reference.value)
  }

  lemma {:induction false} TargetsExactly(targets: seq<Target>)
    ensures TargetsProblem(targets).None? <==> forall i | 0 <= i < |targets| ::
      Supported(targets[i].field) && (targets[i].seat.Some? ==> targets[i].seat.value >= 0)
  {
    if targets != [] {
      TargetsExactly(targets[1..]);
      assert forall i | 0 < i < |targets| :: targets[i] == targets[1..][i - 1];
      assert forall i | 0 <= i < |targets[1..]| :: targets[1..][i] == targets[i + 1];
    }
  }

  lemma ConsumerExactly(c: Consumer)
    ensures ConsumerProblem(c).None? <==> Identified(c)
  {
    hide NonBlank, TargetsProblem, Supported;
    if c.targets.Some? { TargetsExactly(c.targets.value); }
  }

  lemma RunExactly(r: Option<RunRef>)
    ensures RunRefProblem(r).None? <==> RunNamed(r)
  {
    hide NonBlank;
  }

  /** A request passes the checks made before the store is read exactly when all its parts are named and supported. */
  lemma ScreenedExactly(req: ExposureRequest)
    ensures Screen(req).Ok? <==>
      && !req.purpose.OtherPurpose? && !req.kind.OtherKind? && req.roleKnown && RunNamed(req.runRef)
      && req.consumer.Some? && Identified(req.consumer.value) && StoredRequests.Usable(req.ref)
      && (forall i | 0 <= i < |req.revisionIds| :: NonBlank(req.revisionIds[i]))
      && (req.revisionIds == [] ==> req.kind == Released)
    ensures Screen(req).Ok? ==> Canonicalise(req.ref, true) == Ok(Screen(req).value)
  {
    hide NonBlank, ConsumerProblem, RunRefProblem, Identified, RunNamed, Canonicalise, StoredRequests.Usable;
    StoredRequests.UsableExactly(req.ref);
    RunExactly(req.runRef);
    if req.consumer.Some? { ConsumerExactly(req.consumer.value); }
  }

  // ---------------------------------------------------------------- what is recorded

  /** The row lies on the source and the root of the identity or of its parent, is targeted, and KNOWN when consumed. */
  predicate Consumable(row: Row, claimed: Identity, req: ExposureRequest)
    requires req.consumer.Some? && req.consumer.value.targets.Some?
  {
    var root := if row.rootKey.Some? then row.rootKey
                else match Canonicalise(row.sourceRef, true) case Ok(own) => own.rootKey case Raised(_) => None;
    && row.sourceKey.Some? && (row.sourceKey == claimed.sourceKey || row.sourceKey == claimed.parentSourceKey)
    && root.Some? && (root == claimed.rootKey || root == claimed.parentRootKey)
    && Target(row.field, row.seat) in req.consumer.value.targets.value
    && (req.kind == ActuallyConsumed ==> row.content.status == Known)
  }

  lemma ConsumableExactly(byId: Index, identity: Identity, req: ExposureRequest, id: string)
    requires req.consumer.Some? && req.consumer.value.targets.Some?
    ensures ConsumptionProblem(byId, identity, req, req.consumer.value.targets.value, id).None? <==>
            id in byId && Consumable(byId[id], identity, req)
  {
    hide Canonicalise;
  }

  lemma {:induction false} AllConsumable(byId: Index, identity: Identity, req: ExposureRequest, ids: seq<string>)
    requires req.consumer.Some? && req.consumer.value.targets.Some?
    ensures FirstProblem(byId, identity, req, req.consumer.value.targets.value, ids).None? <==>
            forall id | id in ids :: id in byId && Consumable(byId[id], identity, req)
  {
    hide ConsumptionProblem, Consumable;
    if ids != [] {
      ConsumableExactly(byId, identity, req, ids[0]);
      AllConsumable(byId, identity, req, ids[1..]);
      assert forall id :: id in ids <==> id == ids[0] || id in ids[1..];
    }
  }

  /**
   A screened request is recorded exactly when the validator accepts the store, every named revision is there and may be
   consumed, and no target is left without a named revision.
   */
  lemma RecordedExactly(rows: seq<Row>, req: ExposureRequest, eventId: string)
    requires Screen(req).Ok?
    ensures req.consumer.Some? && req.consumer.value.targets.Some?
    ensures RecordOutcome(rows, req, eventId).Ok? <==>
      && ValidStore(rows)
      && (forall id | id in req.revisionIds ::
            exists row :: row in rows && row.revisionId == id && Consumable(row, Screen(req).value, req))
      && (req.revisionIds != [] ==> forall t | t in req.consumer.value.targets.value ::
            exists row :: row in rows && row.revisionId in req.revisionIds && t == Target(row.field, row.seat))
  {
    hide ValidStore, Screen, FirstProblem, TargetsSeen, Consumable, Sealed, ById;
    ScreenedConsumer(req);
    if ValidStore(rows) {
      ValidIds(rows);
      var byId := ById(rows);
      AllConsumable(byId, Screen(req).value, req, req.revisionIds);
      NamedRows(rows);
      SeenTargets(rows, req.revisionIds);
      forall id | id in req.revisionIds
        ensures (id in byId && Consumable(byId[id], Screen(req).value, req)) <==>
                exists row :: row in rows && row.revisionId == id && Consumable(row, Screen(req).value, req)
      {
        if id in byId { assert byId[id] in rows; }
      }
    }
  }

  lemma NamedRows(rows: seq<Row>)
    requires UniqueIds(rows)
    ensures forall id | id in ById(rows) :: ById(rows)[id] in rows && ById(rows)[id].revisionId == id
    ensures forall row | row in rows :: row.revisionId in ById(rows) && ById(rows)[row.revisionId] == row
  {
    hide ById;
    ByIdMembers(rows);
    forall row | row in rows ensures row.revisionId in ById(rows) && ById(rows)[row.revisionId] == row {
      var i :| 0 <= i < |rows| && rows[i] == row;
    }
  }

  lemma SeenTargets(rows: seq<Row>, ids: seq<string>)
    requires UniqueIds(rows)
    ensures forall t :: t in TargetsSeen(ById(rows), ids) <==>
      exists row :: row in rows && row.revisionId in ids && t == Target(row.field, row.seat)
  {
    hide ById;
    NamedRows(rows);
    forall row | row in rows && row.revisionId in ids
      ensures Target(row.field, row.seat) in TargetsSeen(ById(rows), ids)
    {
      assert ById(rows)[row.revisionId] == row;
    }
  }

  // ---------------------------------------------------------------- keys read back

  /** Two events that claim the same and were recorded alike. */
  ghost predicate SameClaims(a: Event, b: Event)
  {
    && ClaimedKeys(a) == ClaimedKeys(b) && (ClaimsComplete(a) <==> ClaimsComplete(b)) && Ids(a) == Ids(b)
    && Targets(a) == Targets(b) && a.kind == b.kind && a.consumer == b.consumer && a.runRef == b.runRef
  }

  lemma SameRevisions(a: Event, b: Event, id: string, cs: set<Lineage>, conflict: bool)
    requires SameClaims(a, b)
    ensures RevisionReasons(a, id, cs, conflict) == RevisionReasons(b, id, cs, conflict)
  {
    hide ClaimedKeys, ClaimsComplete, Ids, Targets, OnEventLineage, SameParent;
    forall l ensures CandidateReasons(a, id, l) == CandidateReasons(b, id, l) {}
  }

  lemma SameBinding(a: Event, b: Event, index: RevisionIndex, conflicts: set<string>)
    requires SameClaims(a, b)
    ensures BindingReasons(a, index, conflicts) == BindingReasons(b, index, conflicts)
    ensures Contamination(a, index) == Contamination(b, index)
  {
    forall id, cs, conflict { SameRevisions(a, b, id, cs, conflict); }
    hide ClaimedKeys, ClaimsComplete, Ids, Targets, ConsumerProblem, RunRefProblem, Lookup, RevisionReasons;
    assert EventReasons(a) == EventReasons(b);
    hide EventReasons;
    assert IdReasons(a, Ids(a), index, conflicts) == IdReasons(b, Ids(b), index, conflicts);
    assert Uncovered(a, Resolved(Ids(a), index)) == Uncovered(b, Resolved(Ids(b), index));
  }

  /** With a usable reference the keys and the class stored beside it have no influence on the binding. */
  lemma StoredKeysIgnored(
      ev: Event, keys: Keys, identityClass: Option<IdentityClass>, index: RevisionIndex, conflicts: set<string>)
    requires Canonicalise(ev.ref, true).Ok?
    ensures var other := ev.(storedKeys := keys, storedClass := identityClass);
      && BindingReasons(other, index, conflicts) == BindingReasons(ev, index, conflicts)
      && Contamination(other, index) == Contamination(ev, index)
      && ClaimedKeys(ev) == KeysOf(Canonicalise(ev.ref, true).value)
      && (ClaimsComplete(ev) <==> Canonicalise(ev.ref, true).value.identityClass == Complete)
  {
    hide Canonicalise;
    var other := ev.(storedKeys := keys, storedClass := identityClass);
    assert SameClaims(other, ev);
    hide SameClaims, BindingReasons, Contamination;
    SameBinding(other, ev, index, conflicts);
  }

  // ---------------------------------------------------------------- what is visible

  /** One of the four keys, unless it was read back blank. */
  predicate Carries(k: Keys, x: Key)
  {
    && (k.source == Some(x) || k.root == Some(x) || k.parentSource == Some(x) || k.parentRoot == Some(x))
    && (x.Stored? ==> NonBlank(x.text))
  }

  lemma KeysExactly(k: Keys, x: Key)
    ensures x in QueryKeys(k) <==> Carries(k, x)
  {
    hide NonBlank;
    if Carries(k, x) {
      assert Some(x) in {k.source, k.root, k.parentSource, k.parentRoot} && Usable(Some(x));
    }
  }

  /**
   The event is seen from a key it stores, from one its reference re-derives, or, when it has an id of its own, from one
   that a candidate lineage of a named revision carries.
   */
  ghost predicate SeenFrom(ev: Event, index: RevisionIndex, x: Key)
  {
    || Carries(ev.storedKeys, x)
    || (Canonicalise(ev.ref, true).Ok? && Carries(KeysOf(Canonicalise(ev.ref, true).value), x))
    || (NonBlank(ev.eventId) && exists id, l :: id in Ids(ev) && l in Lookup(index, id) && Carries(l.keys, x))
  }

  lemma SeenExactly(ev: Event, index: RevisionIndex, x: Key)
    ensures x in EffectiveKeys(ev, index) <==> SeenFrom(ev, index, x)
  {
    KeysExactly(ev.storedKeys, x);
    KeysExactly(ClaimedKeys(ev), x);
    if Canonicalise(ev.ref, true).Ok? { KeysExactly(KeysOf(Canonicalise(ev.ref, true).value), x); }
    forall l: Lineage { KeysExactly(l.keys, x); }
    hide Canonicalise, QueryKeys, Carries, NonBlank, Ids, Lookup;
    var resolved := Resolved(Ids(ev), index);
    assert x in ResolvedKeys(resolved) <==> exists l :: l in resolved && Carries(l.keys, x);
    if id, l :| id in Ids(ev) && l in Lookup(index, id) && Carries(l.keys, x) { assert l in resolved; }
    if l :| l in resolved && Carries(l.keys, x) { var id :| id in Ids(ev) && l in Lookup(index, id); }
  }

  ghost predicate Shown(exposures: seq<Event>, keys: set<Key>, index: RevisionIndex, ev: Event)
  {
    ev in exposures && exists x :: x in keys && SeenFrom(ev, index, x)
  }

  predicate Intent(k: EvidenceKind)
  {
    k == Reserved || k == Released || k == PossiblyUsed
  }

  lemma ShownExactly(exposures: seq<Event>, keys: set<Key>, index: RevisionIndex, ev: Event)
    ensures ev in Visible(exposures, keys, index) <==> Shown(exposures, keys, index, ev)
  {
    InVisible(exposures, keys, index);
    forall x { SeenExactly(ev, index, x); }
    hide EffectiveKeys, SeenFrom, Visible;
    if x :| x in keys && x in EffectiveKeys(ev, index) { assert x in EffectiveKeys(ev, index) * keys; }
    if EffectiveKeys(ev, index) * keys != {} {
      var x :| x in EffectiveKeys(ev, index) * keys;
      assert SeenFrom(ev, index, x);
    }
  }

  /** The state of a source is decided by the kinds of the events seen from one of its keys, releases included. */
  lemma StateExactly(exposures: seq<Event>, keys: set<Key>, index: RevisionIndex, complete: bool)
    ensures StateFor(exposures, keys, index, complete) ==
      if exists ev :: Shown(exposures, keys, index, ev) && ev.kind == ActuallyConsumed then ExposedActuallyConsumed
      else if exists ev :: Shown(exposures, keys, index, ev) && Intent(ev.kind) then ExposedPossiblyUsed
      else if complete && forall ev :: !Shown(exposures, keys, index, ev) then NoneUnderCoverage else ExposureUnknown
  {
    forall ev ensures ev in Visible(exposures, keys, index) <==> Shown(exposures, keys, index, ev) {
      ShownExactly(exposures, keys, index, ev);
    }
    KindsDecide(Visible(exposures, keys, index), complete);
    hide Visible, Shown, FoldExposureState, Intent;
  }

  lemma KindsDecide(events: seq<Event>, complete: bool)
    ensures FoldExposureState(events, complete) ==
      if exists ev :: ev in events && ev.kind == ActuallyConsumed then ExposedActuallyConsumed
      else if exists ev :: ev in events && Intent(ev.kind) then ExposedPossiblyUsed
      else if complete && forall ev :: ev !in events then NoneUnderCoverage else ExposureUnknown
  {
    var kinds := set ev | ev in events :: ev.kind;
    if events != [] {
      assert events[0] in events;
      if ev :| ev in events && Intent(ev.kind) { assert ev.kind in kinds * {Reserved, Released, PossiblyUsed}; }
      if kinds * {Reserved, Released, PossiblyUsed} != {} {
        var k :| k in kinds * {Reserved, Released, PossiblyUsed};
        var ev :| ev in events && ev.kind == k;
        assert Intent(ev.kind);
      }
    }
  }
}
