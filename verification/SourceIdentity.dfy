/**
 Source references and the identities derived from them. A digest is modelled as the value it was
 computed from, so two fingerprints agree exactly when the fingerprinted content agrees.
 */
module SourceIdentity {
  import opened Common

  datatype Json =
    | Null
    | Bool(b: bool)
    | Int(i: int)
    | Text(s: string)
    | List(items: seq<Json>)
    | Object(fields: map<string, Json>)

  const SUPPORTED_SLOT_COUNT := 8

  /** Content fingerprints, and keys that were merely read back from a stored line. */
  datatype Key =
    | SourceDigest(core: Core)
    | RootDigest(mediaSha: Json, frameIndex: Json, frameSha: Json)
    | Stored(text: string)

  /** The identity fields that bind evidence to one audit of one frame. */
  datatype Core = Core(auditRef: Json, auditSha: Json, mediaId: Json, mediaSha: Json, frameSha: Json, frameIndex: Json)

  /** A parent frame reference. A missing key reads as `Null`, as it does in the source. */
  datatype Parent =
    | NoParent
    | NotAMapping(raw: Json)
    | EmptyMapping
    | ParentRef(core: Core, nested: bool, unknownKeys: set<string>)

  datatype SourceRef = SourceRef(
    core: Core, layoutId: Json, slotCount: Json, slotMapping: Json, snapshotDigest: Json,
    implementationRevision: Json, parent: Parent, locationKeys: set<string>, unknownKeys: set<string>)

  datatype CoreField = AuditRef | AuditSha | MediaId | MediaSha | FrameSha

  datatype Gap =
    | Missing(field: CoreField) | BadSha(field: CoreField) | BadFrameIndex
    | MissingLayout | MissingSnapshotDigest
    | MissingSlotCount | BadSlotCount | SlotCountNotSupported(count: int)
    | MissingSlotMapping | BadSlotMapping | SlotMappingIncomplete | SlotMappingNotBijective
    | ParentEmptyOrNotMapping | ParentUnknownKeys | NestedParent
    | ParentMissing(field: CoreField) | ParentBadSha(field: CoreField) | ParentBadFrameIndex

  datatype IdentityClass = Complete | Incomplete | Unbound

  datatype IdentityError =
    | RefMustBeMapping
    | MutableLocationIsNoIdentity(keys: set<string>)
    | UnknownKeys(keys: set<string>)
    | NotComplete(gaps: set<Gap>)

  datatype Identity = Identity(
    sourceKey: Option<Key>, rootKey: Option<Key>, parentSourceKey: Option<Key>, parentRootKey: Option<Key>,
    identityClass: IdentityClass, gaps: set<Gap>, slotCount: Json, slotMapping: map<string, Json>,
      normalised: SourceRef)

  // ---------------------------------------------------------------- text and digests

  predicate IsSpace(c: char)
  {
    c == ' ' || '\t' <= c <= '\r'
  }

  predicate NonBlank(s: string)
  {
    exists i :: 0 <= i < |s| && !IsSpace(s[i])
  }

  predicate IsNonEmptyStr(j: Json)
  {
    j.Text? && NonBlank(j.s)
  }

  function LowerChar(c: char): char
  {
    if 'A' <= c <= 'Z' then c - 'A' + 'a' else c
  }

  function Lower(s: string): (r: string)
    ensures |r| == |s| && forall i | 0 <= i < |s| :: r[i] == LowerChar(s[i])
  {
    seq(|s|, i requires 0 <= i < |s| => LowerChar(s[i]))
  }

  predicate IsHex(c: char)
  {
    '0' <= c <= '9' || 'a' <= c <= 'f'
  }

  /** The lower-case spelling of a 64-digit digest. */
  function CanonicalSha(j: Json): Option<string>
  {
    if j.Text? && |j.s| == 64 && forall i | 0 <= i < 64 :: IsHex(LowerChar(j.s[i])) then Some(Lower(j.s)) else None
  }

  function CanonicalDigest(j: Json): Json
  {
    match CanonicalSha(j) case None => j case Some(s) => Text(s)
  }

  function CanonicalCore(c: Core): Core
  {
    c.(auditSha := CanonicalDigest(c.auditSha), mediaSha := CanonicalDigest(c.mediaSha),
      frameSha := CanonicalDigest(c.frameSha))
  }

  function CanonicalParent(p: Parent): Parent
  {
    if p.ParentRef? then p.(core := CanonicalCore(p.core)) else p
  }

  // ---------------------------------------------------------------- gaps

  predicate FrameOk(j: Json)
  {
    j.Int? && j.i >= 0
  }

  const CORE_FIELDS: set<CoreField> := {AuditRef, AuditSha, MediaId, MediaSha, FrameSha}
  const SHA_FIELDS: set<CoreField> := {AuditSha, MediaSha, FrameSha}

  function FieldOf(c: Core, f: CoreField): Json
  {
    match f
    case AuditRef => c.auditRef
    case AuditSha => c.auditSha
    case MediaId => c.mediaId
    case MediaSha => c.mediaSha
    case FrameSha => c.frameSha
  }

  function Blank(c: Core): set<CoreField>
  {
    set f | f in CORE_FIELDS && !IsNonEmptyStr(FieldOf(c, f))
  }

  function Undigestible(c: Core): set<CoreField>
  {
    set f | f in SHA_FIELDS && FieldOf(c, f) != Null && CanonicalSha(FieldOf(c, f)).None?
  }

  function ParentGaps(p: Parent): set<Gap>
  {
    match p
    case NoParent => {}
    case NotAMapping(_) => {ParentEmptyOrNotMapping}
    case EmptyMapping => {ParentEmptyOrNotMapping}
    case ParentRef(core, nested, unknownKeys) =>
      (if unknownKeys != {} then {ParentUnknownKeys} else {}) +
      (if nested then {NestedParent} else {}) +
      (set f | f in Blank(core) :: ParentMissing(f)) +
      (set f | f in Undigestible(core) :: ParentBadSha(f)) +
      (if FrameOk(core.frameIndex) then {} else {ParentBadFrameIndex})
  }

  function Numeral(n: int): string
    decreases if n < 0 then 1 - n else n
  {
    if n < 0 then "-" + Numeral(-n)
    else if n < 10 then ['0' + n as char]
    else Numeral(n / 10) + ['0' + (n % 10) as char]
  }

  /** How a stored value prints; a list or an object never prints as a numeral. */
  function Printed(j: Json): string
  {
    match j
    case Null => "None"
    case Bool(b) => if b then "True" else "False"
    case Int(i) => Numeral(i)
    case Text(s) => s
    case List(_) => "["
    case Object(_) => "{"
  }

  const SLOT_NAMES: set<string> := {"0", "1", "2", "3", "4", "5", "6", "7"}

  function SlotGaps(count: Json, mapping: Json): set<Gap>
  {
    (match count
     case Null => {MissingSlotCount}
     case Int(n) => if n == SUPPORTED_SLOT_COUNT then {} else {SlotCountNotSupported(n)}
     case _ => {BadSlotCount}) +
    (match mapping
     case Null => {MissingSlotMapping}
     case Object(m) =>
       if count != Int(SUPPORTED_SLOT_COUNT) then {}
       else if m.Keys != SLOT_NAMES then {SlotMappingIncomplete}
       else if (set k | k in m :: Printed(m[k])) != SLOT_NAMES then {SlotMappingNotBijective}
       else {}
     case _ => {BadSlotMapping})
  }

  function Gaps(ref: SourceRef): set<Gap>
  {
    (set f | f in Blank(ref.core) :: Missing(f)) +
    (set f | f in Undigestible(ref.core) :: BadSha(f)) +
    (if FrameOk(ref.core.frameIndex) then {} else {BadFrameIndex}) +
    (if IsNonEmptyStr(ref.layoutId) then {} else {MissingLayout}) +
    (if IsNonEmptyStr(ref.snapshotDigest) then {} else {MissingSnapshotDigest}) +
    SlotGaps(ref.slotCount, ref.slotMapping) +
    ParentGaps(ref.parent)
  }

  // ---------------------------------------------------------------- identities

  function RootKey(c: Core): Option<Key>
  {
    if c.mediaSha == Null || c.frameSha == Null || !FrameOk(c.frameIndex) then None
    else Some(RootDigest(c.mediaSha, c.frameIndex, c.frameSha))
  }

  predicate CoreKnown(c: Core)
  {
    Blank(c) == {} && FrameOk(c.frameIndex)
  }

  /** The reference an identity is computed from, with its digests in canonical spelling. */
  function Cleaned(ref: SourceRef): SourceRef
  {
    ref.(core := CanonicalCore(ref.core), parent := CanonicalParent(ref.parent))
  }

  function Canonicalise(ref: Option<SourceRef>, allowIncomplete: bool): Result<Identity, IdentityError>
  {
    if ref.None? then Raised(RefMustBeMapping)
    else if ref.value.locationKeys != {} then Raised(MutableLocationIsNoIdentity(ref.value.locationKeys))
    else if ref.value.unknownKeys != {} then Raised(UnknownKeys(ref.value.unknownKeys))
    else
      var clean := Cleaned(ref.value);
      var gaps := Gaps(clean);
      var bound := CoreKnown(clean.core);
      var parentKnown := clean.parent.ParentRef? && ParentGaps(clean.parent) == {};
      var identityClass := if !bound then Unbound else if gaps != {} then Incomplete else Complete;
      if !allowIncomplete && identityClass != Complete then Raised(NotComplete(gaps))
      else Ok(Identity(
        if bound then Some(SourceDigest(clean.core)) else None,
        if bound then RootKey(clean.core) else None,
        if parentKnown then Some(SourceDigest(clean.parent.core)) else None,
        if parentKnown then RootKey(clean.parent.core) else None,
        identityClass, gaps, clean.slotCount,
        if clean.slotMapping.Object? then clean.slotMapping.fields else map[],
        clean))
  }

  lemma LowerIdempotent(s: string)
    ensures Lower(Lower(s)) == Lower(s)
  {
    assert forall i | 0 <= i < |s| :: Lower(Lower(s))[i] == Lower(s)[i];
  }

  lemma DigestIdempotent(j: Json)
    ensures CanonicalDigest(CanonicalDigest(j)) == CanonicalDigest(j)
  {
    if CanonicalSha(j).Some? {
      LowerIdempotent(j.s);
      assert forall i | 0 <= i < 64 :: LowerChar(Lower(j.s)[i]) == LowerChar(j.s[i]);
    }
  }

  lemma CoreIdempotent(c: Core)
    ensures CanonicalCore(CanonicalCore(c)) == CanonicalCore(c)
  {
    DigestIdempotent(c.auditSha);
    DigestIdempotent(c.mediaSha);
    DigestIdempotent(c.frameSha);
  }

  lemma CleanedIdempotent(ref: SourceRef)
    ensures Cleaned(Cleaned(ref)) == Cleaned(ref)
  {
    hide CanonicalCore;
    CoreIdempotent(ref.core);
    if ref.parent.ParentRef? { CoreIdempotent(ref.parent.core); }
  }

  /** An identity depends on the cleaned reference only. */
  lemma SameCleaned(a: SourceRef, b: SourceRef, allowIncomplete: bool)
    requires Cleaned(a) == Cleaned(b)
    ensures Canonicalise(Some(a), allowIncomplete) == Canonicalise(Some(b), allowIncomplete)
  {
    hide CanonicalCore, CanonicalParent, Gaps, ParentGaps, CoreKnown, RootKey;
    assert Cleaned(a).locationKeys == Cleaned(b).locationKeys && Cleaned(a).unknownKeys == Cleaned(b).unknownKeys;
  }

  lemma StrictnessOnlyRefuses(ref: Option<SourceRef>, strict: bool, strict': bool)
    requires Canonicalise(ref, !strict).Ok?
    requires strict' ==> Canonicalise(ref, !strict).value.identityClass == Complete
    ensures Canonicalise(ref, !strict') == Canonicalise(ref, !strict)
    ensures ref.Some? && Canonicalise(ref, !strict).value.normalised == Cleaned(ref.value)
  {
    hide CanonicalCore, CanonicalParent, Gaps, ParentGaps, CoreKnown, RootKey;
  }

  /** Re-deriving an identity from the stored normalised reference gives the same identity, keys included. */
  lemma StoredReferenceKeepsIdentity(ref: Option<SourceRef>, strict: bool, strict': bool)
    requires Canonicalise(ref, !strict).Ok?
    requires strict' ==> Canonicalise(ref, !strict).value.identityClass == Complete
    ensures Canonicalise(Some(Canonicalise(ref, !strict).value.normalised), !strict') == Canonicalise(ref, !strict)
  {
    hide Canonicalise, Cleaned;
    StrictnessOnlyRefuses(ref, strict, strict');
    CleanedIdempotent(ref.value);
    SameCleaned(Cleaned(ref.value), ref.value, !strict');
  }

  /** Two values that are the same, or a hexadecimal digest and a text that differ in the case of their letters only. */
  predicate SameDigest(a: Json, b: Json)
  {
    || a == b
    || (CanonicalSha(a).Some? && b.Text? && |b.s| == |a.s| && forall i | 0 <= i < |a.s| ::
      LowerChar(a.s[i]) == LowerChar(b.s[i]))
  }

  predicate SameCore(a: Core, b: Core)
  {
    && a.auditRef == b.auditRef && a.mediaId == b.mediaId && a.frameIndex == b.frameIndex
    && SameDigest(a.auditSha, b.auditSha) && SameDigest(a.mediaSha, b.mediaSha) && SameDigest(a.frameSha, b.frameSha)
  }

  predicate SameParentRef(a: Parent, b: Parent)
  {
    if a.ParentRef? && b.ParentRef? then a.nested == b.nested && a.unknownKeys == b.unknownKeys
      && SameCore(a.core, b.core)
    else a == b
  }

  /** Once one of two spellings is a hexadecimal digest, so is the other, and they have one canonical form. */
  lemma SameDigestCanonical(a: Json, b: Json)
    requires SameDigest(a, b)
    ensures CanonicalDigest(a) == CanonicalDigest(b)
  {
    if a != b { assert Lower(a.s) == Lower(b.s); }
  }

  lemma SameCoreCanonical(a: Core, b: Core)
    requires SameCore(a, b)
    ensures CanonicalCore(a) == CanonicalCore(b)
  {
    hide CanonicalDigest, SameDigest;
    SameDigestCanonical(a.auditSha, b.auditSha);
    SameDigestCanonical(a.mediaSha, b.mediaSha);
    SameDigestCanonical(a.frameSha, b.frameSha);
  }

  /** Spelling the digests of a frame or of its parent in another case never yields a second identity. */
  lemma CaseInsensitiveIdentity(a: SourceRef, b: SourceRef, allowIncomplete: bool)
    requires b == a.(core := b.core, parent := b.parent)
    requires SameCore(a.core, b.core) && SameParentRef(a.parent, b.parent)
    ensures Canonicalise(Some(a), allowIncomplete) == Canonicalise(Some(b), allowIncomplete)
  {
    hide Canonicalise, CanonicalCore, SameCore;
    SameCoreCanonical(a.core, b.core);
    if a.parent.ParentRef? && b.parent.ParentRef? { SameCoreCanonical(a.parent.core, b.parent.core); }
    SameCleaned(a, b, allowIncomplete);
  }

  lemma KnownCore(c: Core, f: CoreField)
    requires Blank(c) == {}
    ensures IsNonEmptyStr(FieldOf(c, f))
  {
    assert f in CORE_FIELDS;
    assert f !in Blank(c);
  }

  lemma KnownNotNull(j: Json)
    requires IsNonEmptyStr(j)
    ensures j != Null
  {}

  lemma RootOf(ref: SourceRef)
    requires Canonicalise(Some(ref), true).Ok? && Canonicalise(Some(ref), true).value.sourceKey.Some?
    ensures Canonicalise(Some(ref), true).value.rootKey ==
            Some(RootDigest(CanonicalDigest(ref.core.mediaSha), ref.core.frameIndex,
              CanonicalDigest(ref.core.frameSha)))
  {
    hide Gaps, ParentGaps, CanonicalDigest, IsNonEmptyStr;
    var c := CanonicalCore(ref.core);
    KnownCore(c, MediaSha);
    KnownCore(c, FrameSha);
    hide Blank;
    KnownNotNull(c.mediaSha);
    KnownNotNull(c.frameSha);
  }

  /** The long-term root ignores provenance: it depends on the bytes and the frame alone. */
  lemma RootIgnoresProvenance(a: SourceRef, b: SourceRef)
    requires Canonicalise(Some(a), true).Ok? && Canonicalise(Some(b), true).Ok?
    requires Canonicalise(Some(a), true).value.sourceKey.Some? && Canonicalise(Some(b), true).value.sourceKey.Some?
    ensures Canonicalise(Some(a), true).value.rootKey == Canonicalise(Some(b), true).value.rootKey <==>
            && CanonicalDigest(a.core.mediaSha) == CanonicalDigest(b.core.mediaSha)
            && CanonicalDigest(a.core.frameSha) == CanonicalDigest(b.core.frameSha)
            && a.core.frameIndex == b.core.frameIndex
  {
    RootOf(a);
    RootOf(b);
  }
}
