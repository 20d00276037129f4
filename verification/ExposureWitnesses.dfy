/**
 Concrete stores and requests: annotations of a frame and of crops of it, and what recording their use does.
 */
module ExposureWitnesses {
  import opened Common
  import opened SourceIdentity
  import opened Annotations
  import opened Revisions
  import opened Exposures
  import opened AnnotationStores
  import opened ExposureRecords

  // ---------------------------------------------------------------- concrete requests

  function Digest(c: char): Json
  {
    Text(seq(64, _ => c))
  }

  /** The core of a frame as one audit describes it. */
  function FrameCore(frame: int, audit: string): Core
  {
    Core(Text(audit), Digest('a'), Text("media"), Digest('b'), Digest('c'), Int(frame))
  }

  /** The parent reference of a crop. */
  function ParentOf(frame: int, audit: string): Parent
  {
    ParentRef(FrameCore(frame, audit), false, {})
  }

  function FrameRef(frame: int, parent: Parent): SourceRef
  {
    SourceRef(FrameCore(frame, "audit"), Text("layout"), Int(8), Object(map k | k in SLOT_NAMES :: k := Text(k)),
      Text("snapshot"), Null, parent, {}, {})
  }

  function FrameRoot(frame: int): Key
  {
    RootDigest(Digest('b'), Int(frame), Digest('c'))
  }

  lemma DigestCanonical(c: char)
    requires 'a' <= c <= 'f'
    ensures CanonicalSha(Digest(c)).Some? && CanonicalDigest(Digest(c)) == Digest(c) && NonBlank(Digest(c).s)
  {
    var s := Digest(c).s;
    assert forall i | 0 <= i < 64 :: s[i] == c && LowerChar(s[i]) == c;
    assert Lower(s) == s;
    assert !IsSpace(s[0]);
  }

  lemma FrameCoreKnown(frame: nat, audit: string)
    requires NonBlank(audit)
    ensures var core := FrameCore(frame, audit);
      && CanonicalCore(core) == core && CoreKnown(core) && Undigestible(core) == {} && FrameOk(core.frameIndex)
      && RootKey(core) == Some(FrameRoot(frame))
  {
    DigestCanonical('a');
    DigestCanonical('b');
    DigestCanonical('c');
    assert Digest('b') != Null && Digest('c') != Null;
    hide Digest, CanonicalDigest, CanonicalSha;
    assert !IsSpace("media"[0]);
    var core := FrameCore(frame, audit);
    assert IsNonEmptyStr(core.auditRef) && IsNonEmptyStr(core.mediaId);
    hide NonBlank;
  }

  lemma FullLayout(frame: int, parent: Parent)
    ensures var ref := FrameRef(frame, parent);
      SlotGaps(ref.slotCount, ref.slotMapping) == {} && IsNonEmptyStr(ref.layoutId) && IsNonEmptyStr(ref.snapshotDigest)
  {
    assert !IsSpace("layout"[0]) && !IsSpace("snapshot"[0]);
    hide SlotGaps, FrameCore;
    AllSlots(SLOT_NAMES);
  }

  lemma AllSlots(names: set<string>)
    requires names == SLOT_NAMES
    ensures SlotGaps(Int(8), Object(map k | k in names :: k := Text(k))) == {}
  {
    hide Printed;
    OwnNames(names);
  }

  lemma OwnNames(names: set<string>)
    ensures var m: map<string, Json> := map k | k in names :: k := Text(k);
      m.Keys == names && (set k | k in m :: Printed(m[k])) == names
  {
    var m: map<string, Json> := map k | k in names :: k := Text(k);
    forall k | k in names ensures k in (set x | x in m :: Printed(m[x])) { assert k in m && Printed(m[k]) == k; }
  }

  /** The identity of a whole frame, or of a crop of it under a parent frame. */
  lemma FrameIdentity(frame: nat, parent: Parent, of: nat, audit: string)
    requires NonBlank(audit) && (parent == NoParent || parent == ParentOf(of, audit))
    ensures var r := Canonicalise(Some(FrameRef(frame, parent)), true);
      && r.Ok? && r.value.identityClass == Complete
      && r.value.sourceKey == Some(SourceDigest(FrameCore(frame, "audit")))
      && r.value.rootKey == Some(FrameRoot(frame))
      && r.value.parentSourceKey == (if parent == NoParent then None else Some(SourceDigest(FrameCore(of, audit))))
      && r.value.parentRootKey == (if parent == NoParent then None else Some(FrameRoot(of)))
  {
    assert NonBlank("audit") by { assert !IsSpace("audit"[0]); }
    hide Digest, SlotGaps, Undigestible, Blank, IsNonEmptyStr, CanonicalCore, FrameOk, RootKey, NonBlank, FrameRoot;
    FrameCoreKnown(of, audit);
    FrameCoreKnown(frame, "audit");
    FullLayout(frame, parent);
    hide FrameCore, CoreKnown;
    NoParentGap(parent, of, audit);
    CompleteIdentity(FrameRef(frame, parent));
  }

  lemma NoParentGap(parent: Parent, of: nat, audit: string)
    requires NonBlank(audit) && (parent == NoParent || parent == ParentOf(of, audit))
    ensures ParentGaps(parent) == {} && CanonicalParent(parent) == parent
  {
    hide Undigestible, Blank, IsNonEmptyStr, CanonicalCore, FrameOk, RootKey, NonBlank, FrameRoot, FrameCore;
    FrameCoreKnown(of, audit);
  }

  /** The identity of a reference without a gap, spelled canonically. */
  lemma CompleteIdentity(ref: SourceRef)
    requires CanonicalCore(ref.core) == ref.core && CanonicalParent(ref.parent) == ref.parent
    requires ref.locationKeys == {} && ref.unknownKeys == {} && CoreKnown(ref.core) && Gaps(ref) == {}
    ensures var r := Canonicalise(Some(ref), true);
      && r.Ok? && r.value.identityClass == Complete && r.value.sourceKey == Some(SourceDigest(ref.core))
      && r.value.rootKey == RootKey(ref.core)
      && r.value.parentSourceKey == (if ref.parent.ParentRef? then Some(SourceDigest(ref.parent.core)) else None)
      && r.value.parentRootKey == (if ref.parent.ParentRef? then RootKey(ref.parent.core) else None)
  {
    hide CanonicalCore, CanonicalParent, CoreKnown, RootKey, ParentGaps, SlotGaps, Blank, Undigestible, IsNonEmptyStr;
    assert Cleaned(ref) == ref;
    assert ParentGaps(ref.parent) <= Gaps(ref);
  }

  function PotRequest(frame: int, parent: Parent): Request
  {
    Request(Some(FrameRef(frame, parent)), PotDisplay, None, Label(Known, Int(5), Some("chips"), None), None, "auditor",
      None, false, true)
  }

  /** One accepted annotation of the pot of a frame or crop. */
  lemma PotStored(frame: nat, parent: Parent, of: nat, audit: string) returns (row: Row)
    requires NonBlank(audit) && (parent == NoParent || parent == ParentOf(of, audit))
    ensures AppendOutcome([], PotRequest(frame, parent), "r1") == Ok(row) && ValidStore([row])
    ensures row.revisionId == "r1" && row.field == PotDisplay && row.seat == None && row.content.status == Known
    ensures row.sourceKey == Some(SourceDigest(FrameCore(frame, "audit"))) && row.rootKey == Some(FrameRoot(frame))
    ensures Canonicalise(row.sourceRef, true) == Canonicalise(Some(FrameRef(frame, parent)), true)
  {
    hide Canonicalise, FrameRef, Digest;
    var req := PotRequest(frame, parent);
    FrameIdentity(frame, parent, of, audit);
    EmptyStoreValid();
    assert !IsSpace("auditor"[0]) && !IsSpace("r1"[0]);
    assert Prepare(req).Ok?;
    assert FreshFor([], "r1");
    hide NonBlank, ValidStore, FrameRoot;
    assert Live([], GroupFor(req)) == [];
    row := NewRow(req, None, "r1");
    StoredReferenceKeepsIdentity(req.ref, false, false);
    var _ := AppendExtendsLine([], req, "r1");
    assert [] + [row] == [row];
  }

  function PotConsumer(): Consumer
  {
    Consumer(Some("reader"), Some("digest"), Some([Target(PotDisplay, None)]))
  }

  function TrainingRequest(ref: SourceRef, ids: seq<string>, kind: EvidenceKind): ExposureRequest
  {
    ExposureRequest(Some(ref), ids, Training, Some(RunRef(Some("run"), Some("digest"))), kind, Some(PotConsumer()),
      true, false)
  }

  lemma TrainingScreened(ref: SourceRef, ids: seq<string>, kind: EvidenceKind)
    requires !kind.OtherKind? && Canonicalise(Some(ref), true).Ok?
      && Canonicalise(Some(ref), true).value.sourceKey.Some?
    requires ids == ["r1"] || (ids == [] && kind == Released)
    ensures Screen(TrainingRequest(ref, ids, kind)) == Ok(Canonicalise(Some(ref), true).value)
  {
    hide Canonicalise;
    assert !IsSpace("reader"[0]) && !IsSpace("digest"[0]) && !IsSpace("run"[0]) && !IsSpace("r1"[0]);
    hide NonBlank;
  }

  /** Training on a reference with an annotation of its own or its parent's source is accepted by the recording. */
  lemma UseRecorded(row: Row, ref: SourceRef)
    requires ValidStore([row]) && row.revisionId == "r1" && row.field == PotDisplay && row.seat == None
    requires Canonicalise(Some(ref), true).Ok? && row.sourceKey.Some? && row.rootKey.Some?
    requires var identity := Canonicalise(Some(ref), true).value;
      && identity.sourceKey.Some? && row.sourceKey in {identity.sourceKey, identity.parentSourceKey}
      && row.rootKey in {identity.rootKey, identity.parentRootKey}
    ensures var req := TrainingRequest(ref, ["r1"], PossiblyUsed);
      && RecordOutcome([row], req, "e1").Ok? && Screen(req) == Canonical(ref)
      && ById([row]) == map["r1" := row] && "r1" in ById([row])
  {
    hide Canonicalise, LineageOf, RowProblem, ValidStore, Screen, BindingReasons;
    var rows, req := [row], TrainingRequest(ref, ["r1"], PossiblyUsed);
    TrainingScreened(ref, ["r1"], PossiblyUsed);
    assert ById(rows) == map["r1" := row] by { assert rows[..0] == []; }
    var targets := req.consumer.value.targets.value;
    assert req.revisionIds[1..] == [];
    assert ConsumptionProblem(ById(rows), Screen(req).value, req, targets, "r1").None?;
    assert Target(PotDisplay, None) in TargetsSeen(ById(rows), req.revisionIds);
    hide ConsumptionProblem;
    assert FirstProblem(ById(rows), Screen(req).value, req, targets, []).None?;
    assert req.revisionIds[0] == "r1";
    assert FirstProblem(ById(rows), Screen(req).value, req, targets, req.revisionIds).None?;
    assert forall t | t in targets :: t == Target(PotDisplay, None);
    hide FirstProblem, TargetsSeen, Sealed;
  }

  function Canonical(ref: SourceRef): Result<Identity, ExposureError>
    requires Canonicalise(Some(ref), true).Ok?
  {
    Ok(Canonicalise(Some(ref), true).value)
  }

  /**
   A training use of a crop that names an annotation of its whole frame is recorded, although nothing is bound: the
   parent's source is accepted when consuming and refused when binding.
   */
  lemma ParentRevisionRecorded() returns (rows: seq<Row>, req: ExposureRequest)
    ensures rows != [] && ValidStore(rows) && req.revisionIds != []
    ensures Screen(req).Ok? && Screen(req).value.identityClass == Complete
    ensures RecordOutcome(rows, req, "e1").Ok?
    ensures RecordOutcome(rows, req, "e1").value.claimedBound == Some(false)
    ensures RecordOutcome(rows, req, "e1").value.policyViolation
  {
    assert !IsSpace("audit"[0]);
    hide Canonicalise, Digest, FrameRef, ValidStore, FrameCore, Screen, RecordOutcome, NonBlank, FrameRoot,
      AppendOutcome;
    var row := PotStored(0, NoParent, 0, "audit");
    var crop := FrameRef(1, ParentOf(0, "audit"));
    FrameIdentity(0, NoParent, 0, "audit");
    FrameIdentity(1, ParentOf(0, "audit"), 0, "audit");
    rows, req := [row], TrainingRequest(crop, ["r1"], PossiblyUsed);
    UseRecorded(row, crop);
    CoresDiffer(0, "audit", 1, "audit");
    RootsDiffer(0, 1);
    ForeignRevisionIsUnbound(rows, req, "e1", "r1", Canonicalise(row.sourceRef, true).value);
  }

  lemma CoresDiffer(a: int, x: string, b: int, y: string)
    requires a != b || x != y
    ensures FrameCore(a, x) != FrameCore(b, y)
  {
    assert FrameCore(a, x).frameIndex == Int(a) && FrameCore(b, y).frameIndex == Int(b);
    assert FrameCore(a, x).auditRef == Text(x) && FrameCore(b, y).auditRef == Text(y);
  }

  lemma RootsDiffer(a: int, b: int)
    requires a != b
    ensures FrameRoot(a) != FrameRoot(b)
  {
    assert FrameRoot(a).frameIndex == Int(a) && FrameRoot(b).frameIndex == Int(b);
  }

  /** A crop annotated under frame 0 and then re-parented onto frame 2: its use is recorded and not bound. */
  lemma ReparentedCropRecorded() returns (rows: seq<Row>, req: ExposureRequest)
    ensures rows != [] && ValidStore(rows) && req.revisionIds != []
    ensures Screen(req).Ok? && Screen(req).value.identityClass == Complete
    ensures rows[0].sourceKey == Screen(req).value.sourceKey && rows[0].rootKey == Screen(req).value.rootKey
    ensures RecordOutcome(rows, req, "e1").Ok?
    ensures RecordOutcome(rows, req, "e1").value.claimedBound == Some(false)
    ensures RecordOutcome(rows, req, "e1").value.policyViolation
  {
    assert !IsSpace("audit"[0]);
    hide Canonicalise, Digest, FrameRef, ValidStore, FrameCore, Screen, RecordOutcome, NonBlank, FrameRoot,
      AppendOutcome;
    var row := PotStored(1, ParentOf(0, "audit"), 0, "audit");
    var moved := FrameRef(1, ParentOf(2, "audit"));
    FrameIdentity(1, ParentOf(0, "audit"), 0, "audit");
    FrameIdentity(1, ParentOf(2, "audit"), 2, "audit");
    rows, req := [row], TrainingRequest(moved, ["r1"], PossiblyUsed);
    UseRecorded(row, moved);
    CoresDiffer(0, "audit", 2, "audit");
    RootsDiffer(0, 2);
    ReparentedIsUnbound(rows, req, "e1", "r1", Canonicalise(row.sourceRef, true).value,
      Canonicalise(Some(moved), true).value);
  }

  /**
   The same crop after its parent frame was audited again, under another audit name: its use is recorded and bound.
   */
  lemma ReauditedCropRecorded() returns (rows: seq<Row>, req: ExposureRequest)
    ensures rows != [] && ValidStore(rows) && req.revisionIds != []
    ensures RecordOutcome(rows, req, "e1").Ok? && Screen(req).Ok?
    ensures Canonicalise(rows[0].sourceRef, true).Ok?
      && Canonicalise(rows[0].sourceRef, true).value.parentSourceKey != Screen(req).value.parentSourceKey
    ensures RecordOutcome(rows, req, "e1").value.claimedBound == Some(true)
    ensures !RecordOutcome(rows, req, "e1").value.policyViolation
  {
    assert NonBlank("audit") by { assert !IsSpace("audit"[0]); }
    assert NonBlank("again") by { assert !IsSpace("again"[0]); }
    hide *;
    var row := PotStored(1, ParentOf(0, "audit"), 0, "audit");
    var again := FrameRef(1, ParentOf(0, "again"));
    OtherParents();
    FrameIdentity(1, ParentOf(0, "audit"), 0, "audit");
    FrameIdentity(1, ParentOf(0, "again"), 0, "again");
    rows, req := [row], TrainingRequest(again, ["r1"], PossiblyUsed);
    UseRecorded(row, again);
    OneBound(row, again);
    CoresDiffer(0, "audit", 0, "again");
    TrainingNames(again, ["r1"], PossiblyUsed);
    assert rows[0] == row;
  }

  lemma OtherParents()
    ensures ParentOf(0, "audit") != NoParent && ParentOf(0, "again") != NoParent
  {}

  lemma TrainingNames(ref: SourceRef, ids: seq<string>, kind: EvidenceKind)
    ensures var req := TrainingRequest(ref, ids, kind);
      req.revisionIds == ids && req.ref == Some(ref) && !req.policyViolation
  {}

  /** One revision of the event's own root, under the same parent root, binds the use. */
  lemma OneBound(row: Row, ref: SourceRef)
    requires RecordOutcome([row], TrainingRequest(ref, ["r1"], PossiblyUsed), "e1").Ok?
      && ById([row]) == map["r1" := row]
    requires Canonicalise(Some(ref), true).Ok? && Canonicalise(row.sourceRef, true).Ok?
    requires var claimed, own := Canonicalise(Some(ref), true).value, Canonicalise(row.sourceRef, true).value;
      && claimed.identityClass == own.identityClass == Complete && claimed.rootKey.Some? && claimed.parentRootKey.Some?
      && own.rootKey == claimed.rootKey && own.parentRootKey == claimed.parentRootKey
    ensures RecordOutcome([row], TrainingRequest(ref, ["r1"], PossiblyUsed), "e1").value.claimedBound == Some(true)
    ensures !RecordOutcome([row], TrainingRequest(ref, ["r1"], PossiblyUsed), "e1").value.policyViolation
  {
    hide *;
    TrainingNames(ref, ["r1"], PossiblyUsed);
    assert forall id | id in ["r1"] :: id == "r1";
    ReauditedStaysBound([row], TrainingRequest(ref, ["r1"], PossiblyUsed), "e1", Canonicalise(Some(ref), true).value);
  }

  /** A release under an identity that lacks its layout is recorded on an empty store and left unbound. */
  lemma IncompleteReleaseRecorded() returns (req: ExposureRequest)
    ensures RecordOutcome([], req, "e1").Ok? && req.kind == Released && req.revisionIds == []
    ensures Screen(req).Ok? && Screen(req).value.identityClass == Incomplete
    ensures RecordOutcome([], req, "e1").value.claimedBound == Some(false)
    ensures RecordOutcome([], req, "e1").value.policyViolation
  {
    var ref := FrameRef(0, NoParent).(layoutId := Null);
    assert NonBlank("audit") by { assert !IsSpace("audit"[0]); }
    hide Digest, BindingReasons, ValidStore, NonBlank;
    assert Canonicalise(Some(ref), true).Ok? && Canonicalise(Some(ref), true).value.sourceKey.Some?
           && Canonicalise(Some(ref), true).value.identityClass == Incomplete by {
      hide SlotGaps, Undigestible, Blank, CanonicalCore;
      assert !IsSpace("audit"[0]);
      FrameCoreKnown(0, "audit");
      assert MissingLayout in Gaps(ref);
    }
    hide Canonicalise, FrameRef;
    req := TrainingRequest(ref, [], Released);
    TrainingScreened(ref, [], Released);
    EmptyStoreValid();
    hide Screen;
    RecordedBoundIff([], req, "e1");
  }

  // ---------------------------------------------------------------- queries without a core identity

  /**
   A query by a usable source reference shows every store unfiltered exactly when the reference has no core identity;
   any other one hides the rows of other sources.
   */
  lemma CorelessQueryShowsAll(ref: SourceRef)
    requires Canonicalise(Some(ref), true).Ok?
    ensures var f := Filter(Canonicalise(Some(ref), true).value.sourceKey, None, None);
      (forall rows | ValidStore(rows) :: Selected(rows, f) == rows) <==> !CoreKnown(CanonicalCore(ref.core))
  {
    var key := Canonicalise(Some(ref), true).value.sourceKey;
    assert key.Some? <==> CoreKnown(CanonicalCore(ref.core)) by { hide Gaps, CoreKnown, CanonicalCore; }
    hide Canonicalise, CoreKnown, CanonicalCore, ValidStore;
    if key.None? {
      forall rows | ValidStore(rows) ensures Selected(rows, Filter(key, None, None)) == rows { NoFilter(rows); }
    } else {
      var other := if key == Some(SourceDigest(FrameCore(0, "audit"))) then 1 else 0;
      assert !IsSpace("audit"[0]);
      CoresDiffer(0, "audit", 1, "audit");
      var row := PotStored(other, NoParent, 0, "audit");
      hide FrameCore, LineageOf, RowProblem, AppendOutcome;
      InSelected([row], Filter(key, None, None));
      assert row in [row] && !Passes(row, Filter(key, None, None));
      assert ValidStore([row]) && Selected([row], Filter(key, None, None)) != [row];
    }
  }

  lemma {:induction false} NoFilter(rows: seq<Row>)
    ensures Selected(rows, Filter(None, None, None)) == rows
  {
    if rows != [] {
      NoFilter(rows[..|rows| - 1]);
      assert rows == rows[..|rows| - 1] + [rows[|rows| - 1]];
    }
  }

  /** Such a reference exists: one whose core is not given at all is accepted, and selects everything. */
  lemma CorelessReference() returns (ref: SourceRef)
    ensures Canonicalise(Some(ref), true).Ok?
    ensures forall rows | ValidStore(rows) ::
      Selected(rows, Filter(Canonicalise(Some(ref), true).value.sourceKey, None, None)) == rows
  {
    ref := SourceRef(Core(Null, Null, Null, Null, Null, Null), Null, Null, Null, Null, Null, NoParent, {}, {});
    assert Canonicalise(Some(ref), true).Ok? && !CoreKnown(CanonicalCore(ref.core));
    CorelessQueryShowsAll(ref);
  }
}
