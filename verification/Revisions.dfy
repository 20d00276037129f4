/**
 Appending and reading revisions. An append is accepted only against the durable head of its group, so
 every store grown from the empty one is accepted by the validator and every group stays one line.
 */
module Revisions {
  import opened Common
  import opened SourceIdentity
  import opened Chains
  import opened Annotations

  datatype Request = Request(
    ref: Option<SourceRef>, field: FieldId, seat: Option<int>, content: Label, expected: Option<string>,
    actor: string, amountRole: Option<AmountRole>, fullActions: bool, modelOutputSeenKnown: bool)

  datatype AppendError =
    | FieldRefused(field: FieldError) | SourceRefused(cause: IdentityError) | CoreIdentityRequired
    | SeatRefused(seat: SeatError) | LabelRefused(problem: LabelError) | BadModelOutputSeen | ActorRequired
    | StoreBroken
    | MultipleHeads | ExpectedRevisionRequired | ExpectedRevisionNotFound | RevisionConflict

  /** Everything an append checks before it takes the store lock. */
  function Prepare(req: Request): (r: Result<Identity, AppendError>)
    ensures r.Ok? ==> r.value.sourceKey.Some? && Canonicalise(req.ref, true) == Ok(r.value)
  {
    if FieldProblem(req.field).Some? then Raised(FieldRefused(FieldProblem(req.field).value))
    else match Canonicalise(req.ref, true)
      case Raised(e) => Raised(SourceRefused(e))
      case Ok(identity) =>
        var seatProblem := SeatProblem(req.seat, identity.slotCount, identity.slotMapping);
        var labelProblem := LabelProblem(req.field, req.content, req.amountRole, req.fullActions);
        if identity.sourceKey.None? then Raised(CoreIdentityRequired)
        else if seatProblem.Some? then Raised(SeatRefused(seatProblem.value))
        else if labelProblem.Some? then Raised(LabelRefused(labelProblem.value))
        else if !req.modelOutputSeenKnown then Raised(BadModelOutputSeen)
        else if !NonBlank(req.actor) then Raised(ActorRequired)
        else Ok(identity)
  }

  function GroupFor(req: Request): Option<GroupKey>
    requires Prepare(req).Ok?
  {
    Some(GroupKey(Prepare(req).value.sourceKey.value, req.field, req.seat))
  }

  function NewRow(req: Request, head: Option<string>, id: string): Row
    requires Prepare(req).Ok?
  {
    var identity := Prepare(req).value;
    Row(id, GroupFor(req), identity.sourceKey, identity.rootKey, Some(identity.normalised), req.field, req.seat,
        req.content, head, req.expected, req.amountRole, req.fullActions, req.actor)
  }

  // ---------------------------------------------------------------- the fold to heads

  function Members(rows: seq<Row>, g: Option<GroupKey>): seq<Row>
  {
    if rows == [] then []
    else
      var last := rows[|rows| - 1];
      Members(rows[..|rows| - 1], g) + if last.groupKey == g then [last] else []
  }

  function SupersededBy(rows: seq<Row>): set<string>
  {
    set r | r in rows && r.supersedes.Some? :: r.supersedes.value
  }

  function Without(rows: seq<Row>, dead: set<string>): seq<Row>
  {
    if rows == [] then []
    else
      var last := rows[|rows| - 1];
      Without(rows[..|rows| - 1], dead) + if last.revisionId in dead then [] else [last]
  }

  /** The rows of a group that no row of the group supersedes, in append order. */
  function Live(rows: seq<Row>, g: Option<GroupKey>): seq<Row>
  {
    Without(Members(rows, g), SupersededBy(Members(rows, g)))
  }

  lemma {:induction false} InMembers(rows: seq<Row>, g: Option<GroupKey>)
    ensures forall r :: r in Members(rows, g) <==> r in rows && r.groupKey == g
    ensures UniqueIds(rows) ==> UniqueIds(Members(rows, g))
  {
    if rows != [] {
      var front, last := rows[..|rows| - 1], rows[|rows| - 1];
      InMembers(front, g);
      assert rows == front + [last];
      if UniqueIds(rows) {
        forall i | 0 <= i < |Members(front, g)| ensures Members(front, g)[i].revisionId != last.revisionId {
          assert Members(front, g)[i] in front;
        }
      }
    }
  }

  lemma {:induction false} InWithout(rows: seq<Row>, dead: set<string>)
    ensures forall r :: r in Without(rows, dead) <==> r in rows && r.revisionId !in dead
    ensures UniqueIds(rows) ==> UniqueIds(Without(rows, dead))
  {
    if rows != [] {
      var front, last := rows[..|rows| - 1], rows[|rows| - 1];
      InWithout(front, dead);
      assert rows == front + [last];
      if UniqueIds(rows) {
        forall i | 0 <= i < |Without(front, dead)| ensures Without(front, dead)[i].revisionId != last.revisionId {
          assert Without(front, dead)[i] in front;
        }
      }
    }
  }

  lemma InGroup(rows: seq<Row>, g: Option<GroupKey>)
    requires UniqueIds(rows)
    ensures forall r :: r in rows && r.groupKey == g <==>
      r.revisionId in GroupOf(ById(rows), g) && GroupOf(ById(rows), g)[r.revisionId] == r
    ensures forall id | id in GroupOf(ById(rows), g) :: GroupOf(ById(rows), g)[id].revisionId == id
  {
    ByIdMembers(rows);
    forall r | r in rows ensures r.revisionId in ById(rows) && ById(rows)[r.revisionId] == r {
      var i :| 0 <= i < |rows| && rows[i] == r;
    }
  }

  lemma LiveAreHeads(rows: seq<Row>, g: Option<GroupKey>)
    requires UniqueIds(rows)
    ensures UniqueIds(Live(rows, g))
    ensures forall r :: r in Live(rows, g) <==>
      r in rows && r.groupKey == g && r.revisionId in Heads(LinksOf(GroupOf(ById(rows), g)))
  {
    var members, sup := Members(rows, g), LinksOf(GroupOf(ById(rows), g));
    InMembers(rows, g);
    InWithout(members, SupersededBy(members));
    InGroup(rows, g);
    forall id ensures id in SupersededBy(members) <==> id in Targets(sup) {
      if id in SupersededBy(members) {
        var r :| r in members && r.supersedes == Some(id);
        assert sup[r.revisionId] == Some(id);
      }
      if id in Targets(sup) {
        var x :| x in sup && sup[x] == Some(id);
        assert GroupOf(ById(rows), g)[x] in members;
      }
    }
  }

  lemma SameIdOnce(rows: seq<Row>, id: string)
    requires UniqueIds(rows) && rows != [] && forall r | r in rows :: r.revisionId == id
    ensures |rows| == 1
  {
    var last := |rows| - 1;
    assert rows[0] in rows && rows[last] in rows;
  }

  /** In an accepted store every group that has rows has exactly one live row, the head of its line. */
  lemma OneLiveRow(rows: seq<Row>, g: Option<GroupKey>) returns (chain: seq<string>)
    requires ValidStore(rows)
    ensures Lists(ById(rows), g, chain)
    ensures Live(rows, g) == [] <==> chain == []
    ensures chain != [] ==> |Live(rows, g)| == 1 && Live(rows, g)[0].revisionId == chain[|chain| - 1]
    ensures chain != [] ==> Live(rows, g)[0] in rows && Live(rows, g)[0].groupKey == g
  {
    hide RowProblem, LinkProblem, ValidGraph, Live, ById, LinksOf, Heads, GroupChain;
    var live, group := Live(rows, g), GroupOf(ById(rows), g);
    LiveAreHeads(rows, g);
    InGroup(rows, g);
    if live != [] { assert live[0] in live && live[0].revisionId in group; }
    if group == map[] {
      chain := [];
    } else {
      chain := GroupIsChain(ById(rows), g);
      var head := chain[|chain| - 1];
      ChainInGroup(ById(rows), g, chain, |chain| - 1);
      assert group[head] in live;
      SameIdOnce(live, head);
      assert live[0] in live;
    }
  }

  /** `chain` lists the group oldest first; an empty group has the empty listing. */
  ghost predicate Lists(byId: Index, g: Option<GroupKey>, chain: seq<string>)
  {
    if chain == [] then GroupOf(byId, g) == map[] else GroupChain(byId, g, chain)
  }

  // ---------------------------------------------------------------- append

  ghost function AppendOutcome(rows: seq<Row>, req: Request, id: string): Result<Row, AppendError>
  {
    match Prepare(req)
    case Raised(e) => Raised(e)
    case Ok(_) =>
      if !ValidStore(rows) then Raised(StoreBroken)
      else
        var live := Live(rows, GroupFor(req));
        if |live| > 1 then Raised(MultipleHeads)
        else
          var head := if live == [] then None else Some(live[0].revisionId);
          if req.expected.None? && head.Some? then Raised(ExpectedRevisionRequired)
          else if req.expected.Some? && head.None? then Raised(ExpectedRevisionNotFound)
          else if req.expected != head then Raised(RevisionConflict)
          else Ok(NewRow(req, head, id))
  }

  /** What was checked of a request is found again by the validator in the stored row. */
  lemma NewRowOk(req: Request, head: Option<string>, id: string)
    requires Prepare(req).Ok?
    ensures RowProblem(NewRow(req, head, id)).None?
  {
    StoredReferenceKeepsIdentity(req.ref, false, false);
  }

  lemma {:induction false} ByIdSnoc(rows: seq<Row>, row: Row)
    ensures ById(rows + [row]) == ById(rows)[row.revisionId := row]
  {
    assert (rows + [row])[..|rows|] == rows;
  }

  /** The group of a new row grows by it; every other group stays as it was. */
  lemma GroupsAfter(byId: Index, row: Row, g: Option<GroupKey>)
    requires row.revisionId !in byId
    ensures GroupOf(byId[row.revisionId := row], g) ==
            if row.groupKey == g then GroupOf(byId, g)[row.revisionId := row] else GroupOf(byId, g)
  {
  }

  lemma ChainSnoc(byId: Index, row: Row, chain: seq<string>)
    requires row.revisionId !in byId && Lists(byId, row.groupKey, chain)
    requires row.supersedes == if chain == [] then None else Some(chain[|chain| - 1])
    ensures GroupChain(byId[row.revisionId := row], row.groupKey, chain + [row.revisionId])
  {
    hide RowProblem, LinkProblem;
    GroupsAfter(byId, row, row.groupKey);
    var after, longer := LinksOf(GroupOf(byId[row.revisionId := row], row.groupKey)), chain + [row.revisionId];
    forall i | 0 <= i < |longer| ensures LinkAt(after, longer, i) {
      if i < |chain| { assert LinkAt(LinksOf(GroupOf(byId, row.groupKey)), chain, i); }
    }
    if chain != [] {
      forall i | 0 <= i < |chain| ensures chain[i] != row.revisionId {
        assert LinkAt(LinksOf(GroupOf(byId, row.groupKey)), chain, i);
      }
    }
  }

  lemma LinksSnoc(byId: Index, row: Row, chain: seq<string>)
    requires LinksOk(byId) && row.revisionId !in byId && Lists(byId, row.groupKey, chain)
    requires row.expected == row.supersedes
    requires row.supersedes == if chain == [] then None else Some(chain[|chain| - 1])
    requires forall id | id in byId :: NonBlank(id)
    ensures LinksOk(byId[row.revisionId := row])
  {
    hide RowProblem, GroupChain;
    var after := byId[row.revisionId := row];
    forall id | id in after ensures LinkProblem(after, after[id]).None? {
      if id == row.revisionId {
        if chain != [] { ChainInGroup(byId, row.groupKey, chain, |chain| - 1); }
      } else {
        assert LinkProblem(byId, byId[id]).None?;
      }
    }
  }

  lemma GraphSnoc(byId: Index, row: Row, chain: seq<string>)
    requires ValidGraph(byId) && row.revisionId !in byId && Lists(byId, row.groupKey, chain)
    requires RowProblem(row).None? && row.expected == row.supersedes
    requires row.supersedes == if chain == [] then None else Some(chain[|chain| - 1])
    requires forall id | id in byId :: NonBlank(id)
    ensures ValidGraph(byId[row.revisionId := row])
  {
    hide RowProblem, LinkProblem, ValidGraph, GroupOf, Lists, LinksOk, GroupChain;
    var after := byId[row.revisionId := row];
    ValidIffChains(byId);
    LinksSnoc(byId, row, chain);
    ChainSnoc(byId, row, chain);
    forall id | id in after
      ensures exists line :: GroupChain(after, after[id].groupKey, line)
    {
      if after[id].groupKey == row.groupKey {
        assert GroupChain(after, after[id].groupKey, chain + [row.revisionId]);
      } else {
        var line :| GroupChain(byId, byId[id].groupKey, line);
        OtherChainKept(byId, row, byId[id].groupKey, line);
      }
    }
    ValidIffChains(after);
  }

  lemma OtherChainKept(byId: Index, row: Row, g: Option<GroupKey>, line: seq<string>)
    requires row.revisionId !in byId && row.groupKey != g && GroupChain(byId, g, line)
    ensures GroupChain(byId[row.revisionId := row], g, line)
  {
    hide RowProblem, LinkProblem;
    GroupsAfter(byId, row, g);
  }

  predicate FreshFor(rows: seq<Row>, id: string)
  {
    NonBlank(id) && forall i | 0 <= i < |rows| :: rows[i].revisionId != id
  }

  /**
   An accepted append supersedes exactly the head its group has at that moment, lengthens the group's line
   by the new revision, and leaves a store the validator accepts.
   */
  lemma AppendExtendsLine(rows: seq<Row>, req: Request, id: string) returns (chain: seq<string>)
    requires AppendOutcome(rows, req, id).Ok? && FreshFor(rows, id)
    ensures ValidStore(rows) && Lists(ById(rows), GroupFor(req), chain)
    ensures AppendOutcome(rows, req, id).value.supersedes == if chain == [] then None else Some(chain[|chain| - 1])
    ensures ValidStore(rows + [AppendOutcome(rows, req, id).value])
    ensures Lists(ById(rows + [AppendOutcome(rows, req, id).value]), GroupFor(req), chain + [id])
  {
    hide RowProblem, ValidStore, Live, ById, Lists, FreshFor, GroupFor, Canonicalise;
    assert Prepare(req).Ok? && ValidStore(rows);
    chain := OneLiveRow(rows, GroupFor(req));
    hide Prepare;
    var row := AppendOutcome(rows, req, id).value;
    NewRowOk(req, row.supersedes, id);
    assert row.groupKey == GroupFor(req) && row.revisionId == id && row.expected == row.supersedes;
    hide AppendOutcome;
    StoreSnoc(rows, row, chain);
  }

  /** A checked row that supersedes the end of its group's line keeps the store valid and lengthens the line. */
  lemma StoreSnoc(rows: seq<Row>, row: Row, chain: seq<string>)
    requires ValidStore(rows) && FreshFor(rows, row.revisionId) && Lists(ById(rows), row.groupKey, chain)
    requires RowProblem(row).None? && row.expected == row.supersedes
    requires row.supersedes == if chain == [] then None else Some(chain[|chain| - 1])
    ensures ValidStore(rows + [row]) && Lists(ById(rows + [row]), row.groupKey, chain + [row.revisionId])
  {
    hide RowProblem, LinkProblem, ValidGraph, ById, GroupChain, Lists, NonBlank;
    ByIdMembers(rows);
    ByIdSnoc(rows, row);
    forall x | x in ById(rows) ensures NonBlank(x) && x != row.revisionId {
      var i :| 0 <= i < |rows| && rows[i] == ById(rows)[x];
    }
    GraphSnoc(ById(rows), row, chain);
    ChainSnoc(ById(rows), row, chain);
    ListsLonger(ById(rows + [row]), row.groupKey, chain, row.revisionId);
  }

  lemma ListsLonger(byId: Index, g: Option<GroupKey>, chain: seq<string>, id: string)
    requires GroupChain(byId, g, chain + [id])
    ensures Lists(byId, g, chain + [id])
  {
    hide GroupChain;
  }

  /**
   A prepared append is accepted exactly when it expects the head of its group's line, or nothing where there is no
   line.
   */
  lemma AcceptedExactlyAtHead(rows: seq<Row>, req: Request, id: string) returns (chain: seq<string>)
    requires ValidStore(rows) && Prepare(req).Ok?
    ensures Lists(ById(rows), GroupFor(req), chain)
    ensures AppendOutcome(rows, req, id).Ok? <==> req.expected == if chain == [] then None else Some(chain[|chain| - 1])
    ensures AppendOutcome(rows, req, id).Raised? ==>
      AppendOutcome(rows, req, id).error == (if req.expected.None? then ExpectedRevisionRequired
                                             else if chain == [] then ExpectedRevisionNotFound else RevisionConflict)
  {
    hide RowProblem, LinkProblem, ValidStore, Live, Prepare, ById, GroupChain;
    chain := OneLiveRow(rows, GroupFor(req));
  }

  // ---------------------------------------------------------------- all runs

  /** One client's call, with the revision id its append would draw. Interleavings are just sequences of calls. */
  datatype Call = Call(req: Request, id: string)

  ghost function RunAppends(rows: seq<Row>, calls: seq<Call>): seq<Row>
    decreases |calls|
  {
    if calls == [] then rows
    else match AppendOutcome(rows, calls[0].req, calls[0].id)
      case Raised(_) => RunAppends(rows, calls[1..])
      case Ok(row) => RunAppends(rows + [row], calls[1..])
  }

  predicate FreshCalls(rows: seq<Row>, calls: seq<Call>)
  {
    && (forall i | 0 <= i < |calls| :: FreshFor(rows, calls[i].id))
    && (forall i, j | 0 <= i < j < |calls| :: calls[i].id != calls[j].id)
  }

  lemma FreshAfter(rows: seq<Row>, calls: seq<Call>)
    requires calls != [] && FreshCalls(rows, calls)
    ensures FreshCalls(rows, calls[1..])
    ensures AppendOutcome(rows, calls[0].req, calls[0].id).Ok? ==>
              FreshCalls(rows + [AppendOutcome(rows, calls[0].req, calls[0].id).value], calls[1..])
  {
    hide RowProblem, LinkProblem, ValidGraph, Live, Prepare;
    var outcome := AppendOutcome(rows, calls[0].req, calls[0].id);
    if outcome.Ok? {
      assert outcome.value.revisionId == calls[0].id;
      forall i | 0 <= i < |calls[1..]| ensures FreshFor(rows + [outcome.value], calls[1..][i].id) {
        assert calls[1..][i] == calls[i + 1];
      }
    }
  }

  lemma {:induction false} RunStaysValid(rows: seq<Row>, calls: seq<Call>)
    requires ValidStore(rows) && FreshCalls(rows, calls)
    ensures ValidStore(RunAppends(rows, calls))
    ensures rows <= RunAppends(rows, calls)
    decreases |calls|
  {
    hide ValidStore, AppendOutcome, FreshCalls;
    if calls != [] {
      FreshAfter(rows, calls);
      var outcome := AppendOutcome(rows, calls[0].req, calls[0].id);
      if outcome.Ok? {
        assert FreshFor(rows, calls[0].id) by { FreshHead(rows, calls); }
        var _ := AppendExtendsLine(rows, calls[0].req, calls[0].id);
        RunStaysValid(rows + [outcome.value], calls[1..]);
      } else {
        RunStaysValid(rows, calls[1..]);
      }
    }
  }

  lemma FreshHead(rows: seq<Row>, calls: seq<Call>)
    requires calls != [] && FreshCalls(rows, calls)
    ensures FreshFor(rows, calls[0].id)
  {
  }

  lemma EmptyStoreValid()
    ensures ValidStore([])
  {
  }

  /** Whatever the clients send, in whatever order, the validator accepts the whole store. */
  lemma ReachableStoresValid(calls: seq<Call>)
    requires FreshCalls([], calls)
    ensures ValidStore(RunAppends([], calls))
  {
    EmptyStoreValid();
    RunStaysValid([], calls);
  }

  // ---------------------------------------------------------------- one winner per expected head

  /** `e` names no head of the group, now or ever again: it is "no revision yet", or already superseded. */
  ghost predicate Stale(rows: seq<Row>, g: Option<GroupKey>, e: Option<string>)
  {
    var group := GroupOf(ById(rows), g);
    if e.None? then group != map[] else e.value in Targets(LinksOf(group))
  }

  lemma StaleRefused(rows: seq<Row>, req: Request, id: string)
    requires ValidStore(rows) && Prepare(req).Ok? && Stale(rows, GroupFor(req), req.expected)
    ensures AppendOutcome(rows, req, id) ==
      Raised(if req.expected.None? then ExpectedRevisionRequired else RevisionConflict)
  {
    hide RowProblem, LinkProblem, ValidGraph, Live, Prepare, ById, GroupChain;
    var chain := OneLiveRow(rows, GroupFor(req));
    LiveAreHeads(rows, GroupFor(req));
    if chain != [] { assert Live(rows, GroupFor(req))[0] in Live(rows, GroupFor(req)); }
  }

  lemma StaleKept(rows: seq<Row>, row: Row, g: Option<GroupKey>, e: Option<string>)
    requires FreshFor(rows, row.revisionId) && Stale(rows, g, e)
    ensures Stale(rows + [row], g, e)
  {
    hide ById;
    ByIdSnoc(rows, row);
    ByIdKeys(rows, row.revisionId);
    GroupsAfter(ById(rows), row, g);
    if e.Some? {
      var sup := LinksOf(GroupOf(ById(rows), g));
      var x :| x in sup && sup[x] == e;
      assert LinksOf(GroupOf(ById(rows + [row]), g))[x] == e;
    }
  }

  lemma {:induction false} StaleForever(rows: seq<Row>, calls: seq<Call>, g: Option<GroupKey>, e: Option<string>)
    requires FreshCalls(rows, calls) && Stale(rows, g, e)
    ensures Stale(RunAppends(rows, calls), g, e)
    decreases |calls|
  {
    hide ValidStore, AppendOutcome, FreshCalls, Stale;
    if calls != [] {
      FreshAfter(rows, calls);
      FreshHead(rows, calls);
      var outcome := AppendOutcome(rows, calls[0].req, calls[0].id);
      if outcome.Ok? {
        AcceptedRow(rows, calls[0].req, calls[0].id);
        StaleKept(rows, outcome.value, g, e);
        StaleForever(rows + [outcome.value], calls[1..], g, e);
      } else {
        StaleForever(rows, calls[1..], g, e);
      }
    }
  }

  lemma AcceptedRow(rows: seq<Row>, req: Request, id: string)
    requires AppendOutcome(rows, req, id).Ok?
    ensures Prepare(req).Ok? && AppendOutcome(rows, req, id).value.revisionId == id
    ensures AppendOutcome(rows, req, id).value.groupKey == GroupFor(req)
    ensures AppendOutcome(rows, req, id).value.supersedes == req.expected
    ensures ValidStore(rows)
  {
    hide ValidStore, Live, Prepare;
  }

  lemma AcceptedMakesStale(rows: seq<Row>, req: Request, id: string)
    requires AppendOutcome(rows, req, id).Ok? && FreshFor(rows, id)
    ensures Stale(rows + [AppendOutcome(rows, req, id).value], GroupFor(req), req.expected)
  {
    hide ValidStore, AppendOutcome, ById, Prepare;
    AcceptedRow(rows, req, id);
    var row := AppendOutcome(rows, req, id).value;
    ByIdSnoc(rows, row);
    ByIdKeys(rows, id);
    GroupsAfter(ById(rows), row, GroupFor(req));
    var after := GroupOf(ById(rows + [row]), GroupFor(req));
    assert id in after && LinksOf(after)[id] == req.expected;
  }

  /**
   Of two appends to one group that expect the same revision, at most one is accepted, however many other
   appends come between them.
   */
  lemma OnlyOneWins(rows: seq<Row>, first: Request, id: string, between: seq<Call>, second: Request, id': string)
    requires AppendOutcome(rows, first, id).Ok? && FreshFor(rows, id)
    requires FreshCalls(rows + [AppendOutcome(rows, first, id).value], between)
    requires Prepare(first).Ok? && Prepare(second).Ok?
    requires GroupFor(second) == GroupFor(first) && second.expected == first.expected
    ensures AppendOutcome(RunAppends(rows + [AppendOutcome(rows, first, id).value], between), second, id') ==
            Raised(if second.expected.None? then ExpectedRevisionRequired else RevisionConflict)
  {
    hide ValidStore, AppendOutcome, FreshCalls, Stale, Prepare;
    var start := rows + [AppendOutcome(rows, first, id).value];
    AcceptedMakesStale(rows, first, id);
    var _ := AppendExtendsLine(rows, first, id);
    StaleForever(start, between, GroupFor(first), first.expected);
    RunStaysValid(start, between);
    StaleRefused(RunAppends(start, between), second, id');
  }

  // ---------------------------------------------------------------- reading

  datatype Filter = Filter(source: Option<Key>, field: Option<FieldId>, seat: Option<int>)

  predicate Passes(r: Row, f: Filter)
  {
    && (f.source.Some? ==> r.sourceKey == f.source)
    && (f.field.Some? ==> Some(r.field) == f.field)
    && (f.seat.Some? ==> r.seat == f.seat)
  }

  function Selected(rows: seq<Row>, f: Filter): seq<Row>
  {
    if rows == [] then []
    else
      var last := rows[|rows| - 1];
      Selected(rows[..|rows| - 1], f) + if Passes(last, f) then [last] else []
  }

  lemma {:induction false} InSelected(rows: seq<Row>, f: Filter)
    ensures forall r :: r in Selected(rows, f) <==> r in rows && Passes(r, f)
  {
    if rows != [] {
      InSelected(rows[..|rows| - 1], f);
      assert rows == rows[..|rows| - 1] + [rows[|rows| - 1]];
    }
  }

  lemma RowKeys(row: Row)
    requires RowProblem(row).None?
    ensures row.sourceKey.Some? && row.groupKey == Some(GroupKey(row.sourceKey.value, row.field, row.seat))
  {
    hide Canonicalise, FieldProblem, LabelProblem, SeatProblem;
  }

  lemma SameGroupSamePass(a: Row, b: Row, f: Filter)
    requires RowProblem(a).None? && RowProblem(b).None? && a.groupKey == b.groupKey
    ensures Passes(a, f) == Passes(b, f)
  {
    hide RowProblem;
    RowKeys(a);
    RowKeys(b);
  }

  lemma MembersSnoc(rows: seq<Row>, row: Row, g: Option<GroupKey>)
    ensures Members(rows + [row], g) == Members(rows, g) + if row.groupKey == g then [row] else []
  {
    assert (rows + [row])[..|rows|] == rows;
  }

  /** A filter keeps or drops whole groups. */
  lemma {:induction false} MembersSelected(rows: seq<Row>, f: Filter, some: Row)
    requires RowProblem(some).None? && Passes(some, f) && forall r | r in rows :: RowProblem(r).None?
    ensures Members(Selected(rows, f), some.groupKey) == Members(rows, some.groupKey)
  {
    hide RowProblem, Passes;
    if rows != [] {
      var front, last := rows[..|rows| - 1], rows[|rows| - 1];
      MembersSelected(front, f, some);
      if last.groupKey == some.groupKey { SameGroupSamePass(last, some, f); }
      if Passes(last, f) { MembersSnoc(Selected(front, f), last, some.groupKey); }
      else { assert Selected(rows, f) == Selected(front, f); }
    }
  }

  /** Under every filter an accepted store shows one current value per group: the head of its line. */
  lemma NoConflictUnderAnyFilter(rows: seq<Row>, f: Filter, some: Row)
    requires ValidStore(rows) && some in Selected(rows, f)
    ensures Live(Selected(rows, f), some.groupKey) == Live(rows, some.groupKey)
    ensures |Live(rows, some.groupKey)| == 1
  {
    hide RowProblem, LinkProblem, ById, GroupChain;
    InSelected(rows, f);
    forall r | r in rows ensures RowProblem(r).None? {
      ByIdMembers(rows);
      var i :| 0 <= i < |rows| && rows[i] == r;
      assert ById(rows)[r.revisionId] == r;
    }
    MembersSelected(rows, f, some);
    InGroup(rows, some.groupKey);
    assert some.revisionId in GroupOf(ById(rows), some.groupKey);
    var chain := OneLiveRow(rows, some.groupKey);
  }

  method GroupRecords(records: seq<Row>)
    returns (groups: map<Option<GroupKey>, seq<Row>>, order: seq<Option<GroupKey>>)
    ensures forall g :: g in groups <==> g in order
    ensures forall g :: g in groups <==> exists r :: r in records && r.groupKey == g
    ensures forall g | g in groups :: groups[g] == Members(records, g)
  {
    groups, order := map[], [];
    for i := 0 to |records|
      invariant forall g :: g in groups <==> g in order
      invariant forall g :: g in groups <==> Members(records[..i], g) != []
      invariant forall g | g in groups :: groups[g] == Members(records[..i], g)
    {
      var row := records[i];
      assert records[..i + 1] == records[..i] + [row];
      forall g { MembersSnoc(records[..i], row, g); }
      if row.groupKey in groups {
        groups := groups[row.groupKey := groups[row.groupKey] + [row]];
      } else {
        order := order + [row.groupKey];
        groups := groups[row.groupKey := [row]];
      }
    }
    assert records[..|records|] == records;
    forall g ensures g in groups <==> exists r :: r in records && r.groupKey == g {
      InMembers(records, g);
      if g in groups { assert groups[g][0] in Members(records, g); }
    }
  }

  method LiveRows(rows: seq<Row>) returns (live: seq<Row>)
    ensures live == Without(rows, SupersededBy(rows))
  {
    var superseded := set r | r in rows && r.supersedes.Some? :: r.supersedes.value;
    live := [];
    for j := 0 to |rows|
      invariant live == Without(rows[..j], superseded)
    {
      assert rows[..j + 1][..j] == rows[..j];
      if rows[j].revisionId !in superseded { live := live + [rows[j]]; }
    }
    assert rows[..|rows|] == rows;
  }

  /** The rows of each group in append order, and the live ones among them. */
  method FoldAnnotations(records: seq<Row>)
    returns (groups: map<Option<GroupKey>, seq<Row>>, heads: map<Option<GroupKey>, seq<Row>>)
    ensures groups.Keys == heads.Keys
    ensures forall g :: g in groups <==> exists r :: r in records && r.groupKey == g
    ensures forall g | g in groups :: groups[g] == Members(records, g) && heads[g] == Live(records, g)
  {
    var order;
    groups, order := GroupRecords(records);
    heads := map[];
    for i := 0 to |order|
      invariant forall g :: g in heads <==> g in order[..i]
      invariant forall g | g in heads :: g in groups && heads[g] == Live(records, g)
    {
      var g := order[i];
      var live := LiveRows(groups[g]);
      assert order[..i + 1] == order[..i] + [g];
      heads := heads[g := live];
    }
    assert order[..|order|] == order;
  }
}
