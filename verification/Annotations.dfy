/**
 The append-only store of annotation revisions: its validator, its fold to current values,
 and the append that must name the durable head of its (source, field, seat) group.
 */
module Annotations {
  import opened Common
  import opened SourceIdentity
  import opened Chains

  datatype Status = Known | Unknown | NotApplicable | OtherStatus(text: string)

  /** Supported fields, fields owned by another truth source, and fields deferred to a later phase. */
  datatype FieldId = PotDisplay | VisibleActionGlyph | ForbiddenTruth(name: string) | Deferred(name: string)
      | OtherField(name: string)

  datatype AmountRole = PotDisplayTotal | WagerRole(name: string) | OtherRole(name: string)

  datatype Label = Label(status: Status, value: Json, unit: Option<string>, reason: Option<string>)

  /** The group key string joins a digest, a field and a seat with a separator none of them contains. */
  datatype GroupKey = GroupKey(source: Key, field: FieldId, seat: Option<int>)

  datatype Row = Row(
    revisionId: string, groupKey: Option<GroupKey>, sourceKey: Option<Key>, rootKey: Option<Key>,
    sourceRef: Option<SourceRef>, field: FieldId, seat: Option<int>, content: Label,
    supersedes: Option<string>, expected: Option<string>,
    amountRole: Option<AmountRole>, fullActionsDeclared: bool, actor: string)

  datatype FieldError = ForbiddenTruthField | UnsupportedField

  datatype LabelError =
    | UnknownStatus | KnownRequiresValue | UnitNotAllowed | UnitRequired | ValueTypeMismatch | ValueNotAllowed
    | NegativeAmount | NonKnownCarriesValue | ReasonRequired
    | GlyphVersusFullActions | PotVersusWager | PotRoleMismatch

  datatype SeatError = SeatNegative | SeatNeedsSupportedLayout | SeatNotMapped

  datatype RowError =
    | MissingSourceRef | UnusableSourceRef(cause: IdentityError) | UnboundSourceKey | SourceKeyMismatch
    | ForgedGroupKey | BadField(field: FieldError) | LabelViolation(problem: LabelError) | BadSeat(seat: SeatError)

  datatype LinkError = ExpectedWithoutSupersedes | BadSupersedes | OrphanSupersedes | CrossGroupSupersedes
      | ExpectedMismatch

  datatype StoreError =
    | MissingRevisionId
    | DuplicateRevisionId(id: string)
    | BadRow(id: string, row: RowError)
    | BadLink(id: string, link: LinkError)
    | RevisionCycle(id: string)
    | RootNotUnique(group: Option<GroupKey>)
    | HeadNotUnique(group: Option<GroupKey>)

  // ---------------------------------------------------------------- single rows

  const GLYPHS: set<string> := {"fold", "check", "call", "bet", "raise", "all_in", "muck", "none"}

  function FieldProblem(f: FieldId): Option<FieldError>
  {
    match f
    case PotDisplay => None
    case VisibleActionGlyph => None
    case ForbiddenTruth(_) => Some(ForbiddenTruthField)
    case _ => Some(UnsupportedField)
  }

  function ValueProblem(f: FieldId, l: Label): Option<LabelError>
  {
    if l.value.Null? then Some(KnownRequiresValue)
    else if l.unit.Some? && !(f.PotDisplay? && l.unit.value == "chips") then Some(UnitNotAllowed)
    else if f.PotDisplay? && l.unit.None? then Some(UnitRequired)
    else if f.PotDisplay? then
      if !l.value.Int? then Some(ValueTypeMismatch) else if l.value.i < 0 then Some(NegativeAmount) else None
    else
      if !l.value.Text? then Some(ValueTypeMismatch) else if l.value.s !in GLYPHS then Some(ValueNotAllowed) else None
  }

  /** The per-field contract; only called for a supported field. */
  function LabelProblem(f: FieldId, l: Label, role: Option<AmountRole>, fullActions: bool): Option<LabelError>
  {
    var value :=
      match l.status
      case OtherStatus(_) => Some(UnknownStatus)
      case Known => ValueProblem(f, l)
      case _ =>
        if !l.value.Null? then Some(NonKnownCarriesValue)
        else if l.reason.None? || !NonBlank(l.reason.value) then Some(ReasonRequired) else None;
    if value.Some? then value
    else if f.VisibleActionGlyph? && fullActions then Some(GlyphVersusFullActions)
    else if role.None? || !f.PotDisplay? then None
    else if role.value.WagerRole? then Some(PotVersusWager)
    else if role.value != PotDisplayTotal then Some(PotRoleMismatch)
    else None
  }

  function SeatProblem(seat: Option<int>, slotCount: Json, mapping: map<string, Json>): Option<SeatError>
  {
    if seat.None? then None
    else if seat.value < 0 then Some(SeatNegative)
    else if slotCount != Int(SUPPORTED_SLOT_COUNT) then Some(SeatNeedsSupportedLayout)
    else if exists k :: k in mapping && Printed(mapping[k]) == Numeral(seat.value) then None
    else Some(SeatNotMapped)
  }

  function RowProblem(row: Row): Option<RowError>
  {
    if row.sourceRef.None? then Some(MissingSourceRef)
    else match Canonicalise(row.sourceRef, true)
      case Raised(e) => Some(UnusableSourceRef(e))
      case Ok(identity) =>
        if identity.sourceKey.None? then Some(UnboundSourceKey)
        else if identity.sourceKey != row.sourceKey then Some(SourceKeyMismatch)
        else if row.groupKey != Some(GroupKey(identity.sourceKey.value, row.field, row.seat)) then Some(ForgedGroupKey)
        else if FieldProblem(row.field).Some? then Some(BadField(FieldProblem(row.field).value))
        else
          var labelProblem := LabelProblem(row.field, row.content, row.amountRole, row.fullActionsDeclared);
          var seatProblem := SeatProblem(row.seat, identity.slotCount, identity.slotMapping);
          if labelProblem.Some? then Some(LabelViolation(labelProblem.value))
          else if seatProblem.Some? then Some(BadSeat(seatProblem.value))
          else None
  }

  // ---------------------------------------------------------------- the store as a graph

  type Index = map<string, Row>

  function ById(rows: seq<Row>): Index
  {
    if rows == [] then map[]
    else ById(rows[..|rows| - 1])[rows[|rows| - 1].revisionId := rows[|rows| - 1]]
  }

  predicate UniqueIds(rows: seq<Row>)
  {
    forall i, j | 0 <= i < j < |rows| :: rows[i].revisionId != rows[j].revisionId
  }

  lemma {:induction false} ByIdMembers(rows: seq<Row>)
    ensures forall i | 0 <= i < |rows| :: rows[i].revisionId in ById(rows)
    ensures forall id | id in ById(rows) :: ById(rows)[id].revisionId == id && ById(rows)[id] in rows
    ensures UniqueIds(rows) ==> forall i | 0 <= i < |rows| :: ById(rows)[rows[i].revisionId] == rows[i]
  {
    if rows != [] {
      var front := rows[..|rows| - 1];
      ByIdMembers(front);
      assert rows == front + [rows[|rows| - 1]];
    }
  }

  function LinksOf(byId: Index): Links
  {
    map id | id in byId :: byId[id].supersedes
  }

  function GroupOf(byId: Index, g: Option<GroupKey>): Index
  {
    map id | id in byId && byId[id].groupKey == g :: byId[id]
  }

  function LinkProblem(byId: Index, row: Row): Option<LinkError>
  {
    if row.supersedes.None? then
      if row.expected.Some? then Some(ExpectedWithoutSupersedes) else None
    else
      var target := row.supersedes.value;
      if !NonBlank(target) then Some(BadSupersedes)
      else if target !in byId then Some(OrphanSupersedes)
      else if byId[target].groupKey != row.groupKey then Some(CrossGroupSupersedes)
      else if row.expected != row.supersedes then Some(ExpectedMismatch)
      else None
  }

  predicate RowsOk(byId: Index)
  {
    forall id | id in byId :: RowProblem(byId[id]).None?
  }

  predicate LinksOk(byId: Index)
  {
    forall id | id in byId :: LinkProblem(byId, byId[id]).None?
  }

  predicate OneRootOneHead(byId: Index, g: Option<GroupKey>)
  {
    |Roots(LinksOf(GroupOf(byId, g)))| == 1 && |Heads(LinksOf(GroupOf(byId, g)))| == 1
  }

  ghost predicate ValidGraph(byId: Index)
  {
    && RowsOk(byId) && LinksOk(byId)
    && (forall id | id in byId :: WalkEnds(LinksOf(byId), id))
    && (forall id | id in byId :: OneRootOneHead(byId, byId[id].groupKey))
  }

  ghost predicate ValidStore(rows: seq<Row>)
  {
    && IdsNonBlank(rows) && UniqueIds(rows) && ValidGraph(ById(rows))
  }

  /** What each refusal of the validator proves about the store. */
  ghost predicate Refutes(rows: seq<Row>, e: StoreError)
  {
    var byId := ById(rows);
    match e
    case MissingRevisionId => exists i :: 0 <= i < |rows| && !NonBlank(rows[i].revisionId)
    case DuplicateRevisionId(id) => exists i, j :: 0 <= i < j < |rows| && rows[i].revisionId == rows[j].revisionId == id
    case BadRow(id, problem) => id in byId && RowProblem(byId[id]) == Some(problem)
    case BadLink(id, problem) => id in byId && LinkProblem(byId, byId[id]) == Some(problem)
    case RevisionCycle(id) => id in byId && !WalkEnds(LinksOf(byId), id)
    case RootNotUnique(g) =>
      (exists id :: id in byId && byId[id].groupKey == g)
      && |Roots(LinksOf(GroupOf(byId, g)))| != 1
    case HeadNotUnique(g) =>
      (exists id :: id in byId && byId[id].groupKey == g)
      && |Heads(LinksOf(GroupOf(byId, g)))| != 1
  }

  // ---------------------------------------------------------------- the validator

  predicate IdsNonBlank(rows: seq<Row>)
  {
    forall i | 0 <= i < |rows| :: NonBlank(rows[i].revisionId)
  }

  predicate HasId(rows: seq<Row>, id: string)
  {
    exists i :: 0 <= i < |rows| && rows[i].revisionId == id
  }

  lemma {:induction false} ByIdKeys(rows: seq<Row>, id: string)
    ensures id in ById(rows) <==> HasId(rows, id)
  {
    if rows != [] {
      var front, last := rows[..|rows| - 1], rows[|rows| - 1];
      ByIdKeys(front, id);
      assert rows[|rows| - 1].revisionId == last.revisionId;
      if HasId(front, id) {
        var i :| 0 <= i < |front| && front[i].revisionId == id;
        assert rows[i].revisionId == id;
      }
    }
  }

  method IndexRows(rows: seq<Row>) returns (r: Result<Index, StoreError>)
    ensures r.Ok? <==> UniqueIds(rows) && IdsNonBlank(rows)
    ensures r.Ok? ==> r.value == ById(rows)
    ensures r.Raised? ==> r.error.MissingRevisionId? || r.error.DuplicateRevisionId?
    ensures r.Raised? ==> Refutes(rows, r.error)
  {
    hide NonBlank, RowProblem, LinkProblem;
    var byId: Index := map[];
    for i := 0 to |rows|
      invariant byId == ById(rows[..i]) && UniqueIds(rows[..i]) && IdsNonBlank(rows[..i])
    {
      var id := rows[i].revisionId;
      if !NonBlank(id) { return Raised(MissingRevisionId); }
      ByIdKeys(rows[..i], id);
      if id in byId {
        RepeatedId(rows, i);
        return Raised(DuplicateRevisionId(id));
      }
      NewId(rows, i);
      byId := byId[id := rows[i]];
    }
    assert rows[..|rows|] == rows;
    r := Ok(byId);
  }

  lemma RepeatedId(rows: seq<Row>, i: nat)
    requires i < |rows| && HasId(rows[..i], rows[i].revisionId)
    ensures !UniqueIds(rows) && Refutes(rows, DuplicateRevisionId(rows[i].revisionId))
  {
    var j :| 0 <= j < i && rows[..i][j].revisionId == rows[i].revisionId;
    assert rows[j].revisionId == rows[i].revisionId;
  }

  lemma NewId(rows: seq<Row>, i: nat)
    requires i < |rows| && UniqueIds(rows[..i]) && IdsNonBlank(rows[..i])
    requires NonBlank(rows[i].revisionId) && !HasId(rows[..i], rows[i].revisionId)
    ensures UniqueIds(rows[..i + 1]) && IdsNonBlank(rows[..i + 1])
    ensures ById(rows[..i + 1]) == ById(rows[..i])[rows[i].revisionId := rows[i]]
  {
    hide NonBlank;
    assert rows[..i + 1][..i] == rows[..i];
    assert forall j | 0 <= j < i :: rows[..i][j].revisionId != rows[i].revisionId;
  }

  method CheckRows(rows: seq<Row>) returns (error: Option<StoreError>)
    requires UniqueIds(rows)
    ensures error.None? <==> RowsOk(ById(rows))
    ensures error.Some? ==> Refutes(rows, error.value)
  {
    hide RowProblem;
    ghost var byId := ById(rows);
    ByIdMembers(rows);
    for i := 0 to |rows|
      invariant forall j | 0 <= j < i :: RowProblem(rows[j]).None?
    {
      var problem := RowProblem(rows[i]);
      assert byId[rows[i].revisionId] == rows[i];
      if problem.Some? { return Some(BadRow(rows[i].revisionId, problem.value)); }
    }
    error := None;
  }

  method CheckLinks(rows: seq<Row>, byId: Index) returns (error: Option<StoreError>)
    requires byId == ById(rows) && UniqueIds(rows)
    ensures error.None? <==> LinksOk(byId)
    ensures error.Some? ==> Refutes(rows, error.value)
  {
    ByIdMembers(rows);
    for i := 0 to |rows|
      invariant forall j | 0 <= j < i :: LinkProblem(byId, rows[j]).None?
    {
      var problem := LinkProblem(byId, rows[i]);
      assert byId[rows[i].revisionId] == rows[i];
      if problem.Some? { return Some(BadLink(rows[i].revisionId, problem.value)); }
    }
    error := None;
  }

  method CheckCycles(rows: seq<Row>, byId: Index) returns (error: Option<StoreError>)
    requires byId == ById(rows) && UniqueIds(rows) && LinksOk(byId)
    ensures error.None? <==> forall id | id in byId :: WalkEnds(LinksOf(byId), id)
    ensures error.Some? ==> Refutes(rows, error.value)
  {
    ByIdMembers(rows);
    LinksClosed(byId);
    for i := 0 to |rows|
      invariant forall j | 0 <= j < i :: WalkEnds(LinksOf(byId), rows[j].revisionId)
    {
      var cycle := WalkBack(LinksOf(byId), rows[i].revisionId);
      if cycle { return Some(RevisionCycle(rows[i].revisionId)); }
    }
    error := None;
  }

  /** The revisions of each group, in a dictionary keyed by group. */
  method GatherGroups(rows: seq<Row>, byId: Index)
    returns (groups: map<Option<GroupKey>, set<string>>, order: seq<Option<GroupKey>>)
    requires byId == ById(rows) && UniqueIds(rows)
    ensures forall g :: g in order <==> g in groups
    ensures forall g | g in groups :: groups[g] == GroupOf(byId, g).Keys && groups[g] != {}
    ensures forall g, id | g in groups && id in groups[g] :: id in byId && byId[id].groupKey == g
    ensures forall id | id in byId :: byId[id].groupKey in groups
  {
    ByIdMembers(rows);
    hide ById, RowProblem, LinkProblem;
    groups, order := map[], [];
    for i := 0 to |rows|
      invariant forall g :: g in groups <==> g in order
      invariant forall g | g in groups :: groups[g] != {}
      invariant forall g, id | g in groups && id in groups[g] :: id in byId && byId[id].groupKey == g
      invariant forall j | 0 <= j < i :: rows[j].groupKey in groups && rows[j].revisionId in groups[rows[j].groupKey]
    {
      var g, id := rows[i].groupKey, rows[i].revisionId;
      assert byId[id] == rows[i];
      if g in groups {
        groups := groups[g := groups[g] + {id}];
      } else {
        order := order + [g];
        groups := groups[g := {id}];
      }
    }
    forall id | id in byId ensures byId[id].groupKey in groups && id in groups[byId[id].groupKey] {
      var j :| 0 <= j < |rows| && rows[j] == byId[id];
    }
  }

  /** The three listings the group check compares, in terms of the group's rows. */
  lemma GroupSets(byId: Index, g: Option<GroupKey>)
    ensures
      var ids := GroupOf(byId, g).Keys;
      var superseded := set id | id in ids && byId[id].supersedes.Some? :: byId[id].supersedes.value;
      && (set id | id in ids && byId[id].supersedes.None?) == Roots(LinksOf(GroupOf(byId, g)))
      && superseded == Targets(LinksOf(GroupOf(byId, g)))
      && (set id | id in ids && id !in superseded) == Heads(LinksOf(GroupOf(byId, g)))
  {
    var sup := LinksOf(GroupOf(byId, g));
    assert forall id | id in sup :: id in byId && sup[id] == byId[id].supersedes;
    assert sup.Keys == GroupOf(byId, g).Keys;
  }

  method CheckGroup(byId: Index, g: Option<GroupKey>, ids: set<string>) returns (error: Option<StoreError>)
    requires ids == GroupOf(byId, g).Keys
    ensures error.None? <==> OneRootOneHead(byId, g)
    ensures match error
            case None => true
            case Some(e) => || (e == RootNotUnique(g) && |Roots(LinksOf(GroupOf(byId, g)))| != 1)
                            || (e == HeadNotUnique(g) && |Heads(LinksOf(GroupOf(byId, g)))| != 1)
  {
    GroupSets(byId, g);
    var roots := set id | id in ids && byId[id].supersedes.None?;
    var superseded := set id | id in ids && byId[id].supersedes.Some? :: byId[id].supersedes.value;
    var heads := set id | id in ids && id !in superseded;
    if |roots| != 1 { return Some(RootNotUnique(g)); }
    if |heads| != 1 { return Some(HeadNotUnique(g)); }
    error := None;
  }

  method CheckGroups(rows: seq<Row>, byId: Index) returns (error: Option<StoreError>)
    requires byId == ById(rows) && UniqueIds(rows)
    ensures error.None? <==> forall id | id in byId :: OneRootOneHead(byId, byId[id].groupKey)
    ensures error.Some? ==> Refutes(rows, error.value)
  {
    hide RowProblem, LinkProblem, Roots, Heads, GroupOf, LinksOf, OneRootOneHead, ById;
    var groups, order := GatherGroups(rows, byId);
    for i := 0 to |order|
      invariant forall j | 0 <= j < i :: OneRootOneHead(byId, order[j])
    {
      var g := order[i];
      assert g in groups;
      error := CheckGroup(byId, g, groups[g]);
      if error.Some? {
        ghost var some :| some in groups[g];
        assert some in byId && byId[some].groupKey == g;
        return;
      }
    }
    error := None;
  }

  lemma LinksClosed(byId: Index)
    requires LinksOk(byId)
    ensures Closed(LinksOf(byId))
  {
    forall id | id in byId && byId[id].supersedes.Some? ensures byId[id].supersedes.value in byId {
      assert LinkProblem(byId, byId[id]).None?;
    }
  }

  /** Full semantic validation of a recovered store. */
  method Validate(rows: seq<Row>) returns (error: Option<StoreError>)
    ensures error.None? <==> ValidStore(rows)
    ensures error.Some? ==> Refutes(rows, error.value)
  {
    var indexed := IndexRows(rows);
    if indexed.Raised? { return Some(indexed.error); }
    var byId := indexed.value;
    error := CheckRows(rows);
    if error.Some? { return; }
    error := CheckLinks(rows, byId);
    if error.Some? { return; }
    error := CheckCycles(rows, byId);
    if error.Some? { return; }
    error := CheckGroups(rows, byId);
  }

  // ---------------------------------------------------------------- accepted stores are chains

  ghost predicate GroupChain(byId: Index, g: Option<GroupKey>, chain: seq<string>)
  {
    IsChain(LinksOf(GroupOf(byId, g)), chain)
  }

  lemma {:induction false} EndsWithinGroup(byId: Index, g: Option<GroupKey>, id: string, k: nat)
    requires LinksOk(byId) && id in byId && byId[id].groupKey == g
    ensures Ends(LinksOf(byId), Some(id), k) <==> Ends(LinksOf(GroupOf(byId, g)), Some(id), k)
    decreases k
  {
    assert LinkProblem(byId, byId[id]).None?;
    if k > 0 && byId[id].supersedes.Some? { EndsWithinGroup(byId, g, byId[id].supersedes.value, k - 1); }
  }

  lemma GroupClosed(byId: Index, g: Option<GroupKey>)
    requires LinksOk(byId)
    ensures Closed(LinksOf(GroupOf(byId, g)))
  {
    forall id | id in GroupOf(byId, g) && byId[id].supersedes.Some?
      ensures byId[id].supersedes.value in GroupOf(byId, g)
    {
      assert LinkProblem(byId, byId[id]).None?;
    }
  }

  lemma GroupAccepted(byId: Index, g: Option<GroupKey>)
    requires ValidGraph(byId) && GroupOf(byId, g) != map[]
    ensures Accepted(LinksOf(GroupOf(byId, g)))
  {
    hide RowProblem, LinkProblem;
    GroupClosed(byId, g);
    var some :| some in GroupOf(byId, g);
    assert OneRootOneHead(byId, byId[some].groupKey);
    forall id | id in GroupOf(byId, g) ensures WalkEnds(LinksOf(GroupOf(byId, g)), id) {
      assert WalkEnds(LinksOf(byId), id);
      var k: nat :| Ends(LinksOf(byId), Some(id), k);
      EndsWithinGroup(byId, g, id, k);
    }
  }

  lemma GroupIsChain(byId: Index, g: Option<GroupKey>) returns (chain: seq<string>)
    requires ValidGraph(byId) && GroupOf(byId, g) != map[]
    ensures GroupChain(byId, g, chain) && chain != [] && Heads(LinksOf(GroupOf(byId, g))) == {chain[|chain| - 1]}
  {
    GroupAccepted(byId, g);
    chain := AcceptedIsChain(LinksOf(GroupOf(byId, g)));
  }

  lemma ChainInGroup(byId: Index, g: Option<GroupKey>, chain: seq<string>, i: nat)
    requires GroupChain(byId, g, chain) && i < |chain|
    ensures chain[i] in byId && byId[chain[i]].groupKey == g && chain[i] in GroupOf(byId, g)
  {
    hide RowProblem, LinkProblem;
    assert LinkAt(LinksOf(GroupOf(byId, g)), chain, i);
  }

  /**
   The validator accepts the revision graph of a store exactly when, in every group, the revisions form
   one line from a single root to a single head.
   */
  lemma ValidIffChains(byId: Index)
    ensures ValidGraph(byId) <==>
      RowsOk(byId) && LinksOk(byId) && forall id | id in byId :: exists chain ::
        GroupChain(byId, byId[id].groupKey, chain)
  {
    if ValidGraph(byId) {
      forall id | id in byId ensures exists chain :: GroupChain(byId, byId[id].groupKey, chain) {
        assert id in GroupOf(byId, byId[id].groupKey);
        var chain := GroupIsChain(byId, byId[id].groupKey);
      }
    }
    if RowsOk(byId) && LinksOk(byId) && forall id | id in byId :: exists chain ::
      GroupChain(byId, byId[id].groupKey, chain) {
      forall id | id in byId ensures WalkEnds(LinksOf(byId), id) && OneRootOneHead(byId, byId[id].groupKey) {
        var g := byId[id].groupKey;
        var chain :| GroupChain(byId, g, chain);
        ChainAccepted(LinksOf(GroupOf(byId, g)), chain);
        assert WalkEnds(LinksOf(GroupOf(byId, g)), id);
        var k: nat :| Ends(LinksOf(GroupOf(byId, g)), Some(id), k);
        EndsWithinGroup(byId, g, id, k);
      }
    }
  }
}
