/**
 What an append stores and what a read gives back: the stored row carries the request field by field, and until the next
 append to its group it is the group's one current value.
 */
module StoredRequests {
  import opened Common
  import opened SourceIdentity
  import opened Chains
  import opened Annotations
  import opened Revisions

  const LOWER_HEX := "0123456789abcdef"
  const UPPER_HEX := "0123456789ABCDEF"

  /** The two characters are one hexadecimal digit, the second in lower case. */
  predicate HexPair(given: char, stored: char)
  {
    exists k | 0 <= k < 16 :: stored == LOWER_HEX[k] && (given == LOWER_HEX[k] || given == UPPER_HEX[k])
  }

  /** The digest is the submitted one, in lower case when it is a 64-digit hexadecimal text. */
  predicate StoredDigest(given: Json, stored: Json)
  {
    if given.Text? && |given.s| == 64 && forall i | 0 <= i < 64 :: given.s[i] in LOWER_HEX || given.s[i] in UPPER_HEX
    then stored.Text? && |stored.s| == 64 && forall i | 0 <= i < 64 :: HexPair(given.s[i], stored.s[i])
    else stored == given
  }

  predicate StoredCore(given: Core, stored: Core)
  {
    && stored.auditRef == given.auditRef && stored.mediaId == given.mediaId && stored.frameIndex == given.frameIndex
    && StoredDigest(given.auditSha, stored.auditSha) && StoredDigest(given.mediaSha, stored.mediaSha)
    && StoredDigest(given.frameSha, stored.frameSha)
  }

  predicate StoredParent(given: Parent, stored: Parent)
  {
    if given.ParentRef?
    then stored.ParentRef? && stored.nested == given.nested && stored.unknownKeys == given.unknownKeys
         && StoredCore(given.core, stored.core)
    else stored == given
  }

  /** Every part of the reference is kept; digests are kept in canonical spelling. */
  predicate StoredRef(given: SourceRef, stored: SourceRef)
  {
    && StoredCore(given.core, stored.core) && StoredParent(given.parent, stored.parent)
    && stored.layoutId == given.layoutId && stored.slotCount == given.slotCount
    && stored.slotMapping == given.slotMapping && stored.snapshotDigest == given.snapshotDigest
    && stored.implementationRevision == given.implementationRevision
    && stored.locationKeys == {} && stored.unknownKeys == {}
  }

  lemma DigestStored(given: Json)
    ensures StoredDigest(given, CanonicalDigest(given))
  {
    forall c: char ensures IsHex(LowerChar(c)) <==> c in LOWER_HEX || c in UPPER_HEX { HexDigits(c); }
    if CanonicalSha(given).Some? {
      forall i | 0 <= i < 64 ensures HexPair(given.s[i], Lower(given.s)[i]) { HexDigits(given.s[i]); }
    }
  }

  lemma HexDigits(c: char)
    ensures IsHex(LowerChar(c)) <==> c in LOWER_HEX || c in UPPER_HEX
    ensures IsHex(LowerChar(c)) ==> HexPair(c, LowerChar(c))
  {
    if '0' <= c <= '9' {
      var k := (c - '0') as int;
      assert c == LOWER_HEX[k];
    } else if 'a' <= c <= 'f' {
      var k := (c - 'a') as int + 10;
      assert c == LOWER_HEX[k];
    } else if 'A' <= c <= 'F' {
      var k := (c - 'A') as int + 10;
      assert c == UPPER_HEX[k] && LowerChar(c) == LOWER_HEX[k];
    }
  }

  lemma CoreStored(given: Core)
    ensures StoredCore(given, CanonicalCore(given))
  {
    hide CanonicalDigest, StoredDigest;
    DigestStored(given.auditSha);
    DigestStored(given.mediaSha);
    DigestStored(given.frameSha);
  }

  lemma RefStored(ref: SourceRef, identity: Identity)
    requires Canonicalise(Some(ref), true) == Ok(identity)
    ensures StoredRef(ref, identity.normalised)
    ensures identity.sourceKey.Some? ==> identity.sourceKey == Some(SourceDigest(identity.normalised.core))
  {
    hide CanonicalCore, StoredCore, Gaps, ParentGaps, CoreKnown, RootKey;
    CoreStored(ref.core);
    if ref.parent.ParentRef? { CoreStored(ref.parent.core); }
  }

  /** What the row of an accepted append holds is what was submitted. */
  lemma AppendStoresRequest(rows: seq<Row>, req: Request, id: string)
    requires AppendOutcome(rows, req, id).Ok?
    ensures var row := AppendOutcome(rows, req, id).value;
      && row.revisionId == id && row.field == req.field && row.seat == req.seat && row.content == req.content
      && row.actor == req.actor && row.amountRole == req.amountRole && row.fullActionsDeclared == req.fullActions
      && row.expected == req.expected && row.supersedes == req.expected
      && req.ref.Some? && row.sourceRef.Some? && StoredRef(req.ref.value, row.sourceRef.value)
      && row.sourceKey == Some(SourceDigest(row.sourceRef.value.core))
      && row.groupKey == Some(GroupKey(SourceDigest(row.sourceRef.value.core), req.field, req.seat))
  {
    hide ValidStore, Live, StoredRef, Canonicalise, LabelProblem, SeatProblem, FieldProblem, NonBlank;
    var identity := Prepare(req).value;
    assert req.ref.Some? by { RefusedNone(req); }
    RefStored(req.ref.value, identity);
  }

  lemma RefusedNone(req: Request)
    requires Prepare(req).Ok?
    ensures req.ref.Some?
  {}

  // ---------------------------------------------------------------- reading back

  /** No row of an accepted store points at an id it does not hold. */
  lemma NothingPointsAt(rows: seq<Row>, id: string, r: Row)
    requires ValidStore(rows) && FreshFor(rows, id) && r in rows
    ensures r.supersedes != Some(id)
  {
    hide RowProblem, ById, NonBlank, OneRootOneHead;
    ByIdMembers(rows);
    var i :| 0 <= i < |rows| && rows[i] == r;
    assert LinkProblem(ById(rows), ById(rows)[r.revisionId]).None?;
    ByIdKeys(rows, id);
  }

  /** The members of a list that no member supersedes. */
  lemma InLive(rows: seq<Row>, g: Option<GroupKey>, row: Row)
    requires row in rows && row.groupKey == g && forall r | r in rows && r.groupKey == g ::
      r.supersedes != Some(row.revisionId)
    ensures row in Live(rows, g)
  {
    InMembers(rows, g);
    InWithout(Members(rows, g), SupersededBy(Members(rows, g)));
  }

  lemma LineEndIsOld(rows: seq<Row>, g: Option<GroupKey>, chain: seq<string>, id: string)
    requires FreshFor(rows, id) && chain != [] && Lists(ById(rows), g, chain)
    ensures chain[|chain| - 1] != id
  {
    hide ById, GroupChain, NonBlank;
    ChainInGroup(ById(rows), g, chain, |chain| - 1);
    ByIdKeys(rows, chain[|chain| - 1]);
  }

  /** A new row that supersedes the end of its group's line is the only live one there. */
  lemma NewestIsLive(rows: seq<Row>, row: Row, chain: seq<string>)
    requires ValidStore(rows) && ValidStore(rows + [row]) && FreshFor(rows, row.revisionId)
    requires Lists(ById(rows), row.groupKey, chain)
    requires row.supersedes == if chain == [] then None else Some(chain[|chain| - 1])
    ensures Live(rows + [row], row.groupKey) == [row]
  {
    hide *;
    var after := rows + [row];
    forall r | r in after && r.groupKey == row.groupKey ensures r.supersedes != Some(row.revisionId) {
      if r in rows {
        NothingPointsAt(rows, row.revisionId, r);
      } else {
        assert r == row;
        if chain != [] { LineEndIsOld(rows, row.groupKey, chain, row.revisionId); }
      }
    }
    assert row in after;
    InLive(after, row.groupKey, row);
    var line := OneLiveRow(after, row.groupKey);
  }

  lemma AcceptedKey(rows: seq<Row>, req: Request, id: string)
    requires AppendOutcome(rows, req, id).Ok?
    ensures Prepare(req).Ok? && AppendOutcome(rows, req, id).value.groupKey == GroupFor(req)
  {
    AcceptedRow(rows, req, id);
  }

  /** After an accepted append the group's one current value is the submitted one, whatever was there before. */
  lemma AppendReadsBack(rows: seq<Row>, req: Request, id: string)
    requires AppendOutcome(rows, req, id).Ok? && FreshFor(rows, id)
    ensures var row := AppendOutcome(rows, req, id).value;
      && Live(rows + [row], row.groupKey) == [row] && row.content == req.content && row.revisionId == id
      && row.field == req.field && row.seat == req.seat
  {
    hide *;
    var row := AppendOutcome(rows, req, id).value;
    AppendStoresRequest(rows, req, id);
    AcceptedKey(rows, req, id);
    var chain := AppendExtendsLine(rows, req, id);
    NewestIsLive(rows, row, chain);
  }

  /** Appends leave the current values of all other groups alone. */
  lemma OthersUnchanged(rows: seq<Row>, row: Row, g: Option<GroupKey>)
    requires row.groupKey != g
    ensures Live(rows + [row], g) == Live(rows, g)
  {
    MembersSnoc(rows, row, g);
    assert Members(rows, g) + [] == Members(rows, g);
  }

  lemma {:induction false} StillLive(rows: seq<Row>, calls: seq<Call>, g: Option<GroupKey>)
    requires forall i | 0 <= i < |calls| :: Prepare(calls[i].req).Ok? ==> GroupFor(calls[i].req) != g
    ensures Live(RunAppends(rows, calls), g) == Live(rows, g)
    decreases |calls|
  {
    hide ValidStore, Prepare, Live;
    if calls != [] {
      hide AppendOutcome, GroupFor;
      forall i | 0 <= i < |calls[1..]| ensures Prepare(calls[1..][i].req).Ok? ==> GroupFor(calls[1..][i].req) != g {
        assert calls[1..][i] == calls[i + 1];
      }
      var outcome := AppendOutcome(rows, calls[0].req, calls[0].id);
      if outcome.Ok? {
        AcceptedRow(rows, calls[0].req, calls[0].id);
        OthersUnchanged(rows, outcome.value, g);
        StillLive(rows + [outcome.value], calls[1..], g);
      } else {
        StillLive(rows, calls[1..], g);
      }
    }
  }

  /** The submitted value stays the current one through any appends to other groups. */
  lemma ValueStaysReadable(rows: seq<Row>, req: Request, id: string, calls: seq<Call>)
    requires AppendOutcome(rows, req, id).Ok? && FreshFor(rows, id)
    requires var g := AppendOutcome(rows, req, id).value.groupKey;
      forall i | 0 <= i < |calls| :: Prepare(calls[i].req).Ok? ==> GroupFor(calls[i].req) != g
    ensures var row := AppendOutcome(rows, req, id).value;
      Live(RunAppends(rows + [row], calls), row.groupKey) == [row] && row.content == req.content
  {
    hide AppendOutcome, Live, RunAppends, Prepare, GroupFor, FreshFor;
    AppendReadsBack(rows, req, id);
    StillLive(rows + [AppendOutcome(rows, req, id).value], calls, AppendOutcome(rows, req, id).value.groupKey);
  }

  // ---------------------------------------------------------------- what is accepted

  predicate Named(j: Json)
  {
    j.Text? && NonBlank(j.s)
  }

  /** The five texts and the frame number that bind a piece of evidence. */
  predicate Bound(c: Core)
  {
    Named(c.auditRef) && Named(c.auditSha) && Named(c.mediaId) && Named(c.mediaSha) && Named(c.frameSha)
    && c.frameIndex.Int? && c.frameIndex.i >= 0
  }

  predicate Binding(ref: SourceRef)
  {
    ref.locationKeys == {} && ref.unknownKeys == {} && Bound(ref.core)
  }

  predicate Usable(ref: Option<SourceRef>)
  {
    ref.Some? && Binding(ref.value)
  }

  predicate SeatFits(seat: Option<int>, ref: SourceRef)
  {
    seat.Some? ==>
      && seat.value >= 0 && ref.slotCount == Int(8) && ref.slotMapping.Object?
      && exists k | k in ref.slotMapping.fields :: Printed(ref.slotMapping.fields[k]) == Numeral(seat.value)
  }

  /** The label contract of the two supported fields. */
  predicate LabelFits(f: FieldId, l: Label, role: Option<AmountRole>, fullActions: bool)
  {
    match f
    case PotDisplay =>
      && (role.Some? ==> role == Some(PotDisplayTotal))
      && (if l.status == Known then l.value.Int? && l.value.i >= 0 && l.unit == Some("chips") else Unlabelled(l))
    case VisibleActionGlyph =>
      && !fullActions
      && (if l.status == Known
          then l.unit == None && l.value.Text?
               && l.value.s in {"fold", "check", "call", "bet", "raise", "all_in", "muck", "none"}
          else Unlabelled(l))
    case _ => false
  }

  predicate Unlabelled(l: Label)
  {
    (l.status == Unknown || l.status == NotApplicable) && l.value == Null && l.reason.Some? && NonBlank(l.reason.value)
  }

  lemma LabelExactly(f: FieldId, l: Label, role: Option<AmountRole>, fullActions: bool)
    ensures FieldProblem(f).None? && LabelProblem(f, l, role, fullActions).None? <==> LabelFits(f, l, role, fullActions)
  {
    hide NonBlank;
  }

  lemma SpellingKeepsNames(j: Json)
    ensures Named(CanonicalDigest(j)) <==> Named(j)
  {
    if CanonicalSha(j).Some? {
      assert |j.s| == 64 && Lower(j.s)[0] == LowerChar(j.s[0]) && IsHex(LowerChar(j.s[0]));
      assert !IsSpace(j.s[0]) && !IsSpace(Lower(j.s)[0]);
    }
  }

  lemma KnownExactly(c: Core)
    ensures CoreKnown(CanonicalCore(c)) <==> Bound(c)
  {
    hide CanonicalDigest, NonBlank;
    SpellingKeepsNames(c.auditSha);
    SpellingKeepsNames(c.mediaSha);
    SpellingKeepsNames(c.frameSha);
    BlankExactly(CanonicalCore(c));
  }

  lemma BlankExactly(c: Core)
    ensures Blank(c) == {} <==>
      Named(c.auditRef) && Named(c.auditSha) && Named(c.mediaId) && Named(c.mediaSha) && Named(c.frameSha)
  {
    hide NonBlank;
    assert FieldOf(c, AuditRef) == c.auditRef && FieldOf(c, AuditSha) == c.auditSha && FieldOf(c, MediaId) == c.mediaId
      && FieldOf(c, MediaSha) == c.mediaSha && FieldOf(c, FrameSha) == c.frameSha;
    if Blank(c) == {} {
      forall f | f in CORE_FIELDS ensures IsNonEmptyStr(FieldOf(c, f)) { KnownCore(c, f); }
      assert AuditRef in CORE_FIELDS && AuditSha in CORE_FIELDS && MediaId in CORE_FIELDS && MediaSha in CORE_FIELDS
        && FrameSha in CORE_FIELDS;
    }
  }

  /** The reference gives an evidence key exactly when it is usable, and then seats are judged by its own layout. */
  lemma UsableExactly(ref: Option<SourceRef>)
    ensures var r := Canonicalise(ref, true);
      && (r.Ok? && r.value.sourceKey.Some? <==> Usable(ref))
      && (Usable(ref) ==> forall seat :: SeatProblem(seat, r.value.slotCount, r.value.slotMapping).None? <==>
        SeatFits(seat, ref.value))
  {
    hide CanonicalCore, CanonicalParent, CoreKnown, Bound, Gaps, ParentGaps, RootKey, Printed, Numeral;
    if ref.Some? { KnownExactly(ref.value.core); }
  }

  /** Everything an append checks before it looks at the store. */
  lemma PreparedExactly(req: Request)
    ensures Prepare(req).Ok? <==>
      && Usable(req.ref) && SeatFits(req.seat, req.ref.value)
      && LabelFits(req.field, req.content, req.amountRole, req.fullActions)
      && req.modelOutputSeenKnown && NonBlank(req.actor)
  {
    hide Canonicalise, FieldProblem, LabelProblem, SeatProblem, Binding, SeatFits, LabelFits, NonBlank;
    UsableExactly(req.ref);
    LabelExactly(req.field, req.content, req.amountRole, req.fullActions);
  }

  /** A stored row passes its own checks exactly when its keys are those of its reference and its label fits. */
  lemma RowExactly(row: Row)
    ensures RowProblem(row).None? <==>
      && Usable(row.sourceRef) && SeatFits(row.seat, row.sourceRef.value)
      && LabelFits(row.field, row.content, row.amountRole, row.fullActionsDeclared)
      && (exists core :: StoredCore(row.sourceRef.value.core, core) && row.sourceKey == Some(SourceDigest(core))
            && row.groupKey == Some(GroupKey(SourceDigest(core), row.field, row.seat)))
  {
    hide FieldProblem, LabelProblem, SeatProblem, Binding, SeatFits, LabelFits, NonBlank, Gaps, ParentGaps, CoreKnown,
      RootKey;
    hide CanonicalCore, CanonicalParent, StoredCore;
    UsableExactly(row.sourceRef);
    LabelExactly(row.field, row.content, row.amountRole, row.fullActionsDeclared);
    if Usable(row.sourceRef) {
      var core := row.sourceRef.value.core;
      CoreStored(core);
      forall c | StoredCore(core, c) ensures c == CanonicalCore(core) { OneSpelling(core, c, CanonicalCore(core)); }
    }
  }

  lemma OneSpelling(given: Core, a: Core, b: Core)
    requires StoredCore(given, a) && StoredCore(given, b)
    ensures a == b
  {
    hide StoredDigest;
    OneDigest(given.auditSha, a.auditSha, b.auditSha);
    OneDigest(given.mediaSha, a.mediaSha, b.mediaSha);
    OneDigest(given.frameSha, a.frameSha, b.frameSha);
  }

  lemma OneDigest(given: Json, a: Json, b: Json)
    requires StoredDigest(given, a) && StoredDigest(given, b)
    ensures a == b
  {
    hide HexPair;
    if a != given || b != given {
      forall i | 0 <= i < 64 ensures a.s[i] == b.s[i] {
        PairIsLower(given.s[i], a.s[i]);
        PairIsLower(given.s[i], b.s[i]);
      }
      assert a.s == b.s;
    }
  }

  lemma PairIsLower(given: char, stored: char)
    requires HexPair(given, stored)
    ensures stored == LowerChar(given)
  {
    var k :| 0 <= k < 16 && stored == LOWER_HEX[k] && (given == LOWER_HEX[k] || given == UPPER_HEX[k]);
    DigitAt(k);
  }

  lemma DigitAt(k: nat)
    requires k < 16
    ensures LOWER_HEX[k] == (if k < 10 then '0' + k as char else 'a' + (k - 10) as char)
    ensures UPPER_HEX[k] == (if k < 10 then '0' + k as char else 'A' + (k - 10) as char)
  {}
}
