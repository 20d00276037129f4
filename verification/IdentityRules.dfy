/**
 What a source reference lacks, gap by gap, and what follows for the identity derived from it.
 */
module IdentityRules {
  import opened Common
  import opened SourceIdentity

  // ---------------------------------------------------------------- texts

  /** A text with something in it besides blanks. */
  predicate Written(j: Json)
  {
    j.Text? && exists i | 0 <= i < |j.s| :: j.s[i] != ' ' && !('\t' <= j.s[i] <= '\r')
  }

  /** Sixty-four hexadecimal digits, in either case. */
  predicate Digest(j: Json)
  {
    j.Text? && |j.s| == 64
    && forall i | 0 <= i < 64 :: '0' <= j.s[i] <= '9' || 'a' <= j.s[i] <= 'f' || 'A' <= j.s[i] <= 'F'
  }

  lemma DigestExactly(j: Json)
    ensures CanonicalSha(j).Some? <==> Digest(j)
    ensures Digest(CanonicalDigest(j)) <==> Digest(j)
    ensures CanonicalDigest(j) == Null <==> j == Null
    ensures Written(CanonicalDigest(j)) <==> Written(j)
  {
    if j.Text? && |j.s| == 64 {
      forall i | 0 <= i < 64 ensures IsHex(LowerChar(j.s[i])) <==>
        ('0' <= j.s[i] <= '9' || 'a' <= j.s[i] <= 'f' || 'A' <= j.s[i] <= 'F') {}
      if Digest(j) {
        assert CanonicalDigest(j) == Text(Lower(j.s));
        forall i | 0 <= i < 64 ensures
          var c := Lower(j.s)[i]; '0' <= c <= '9' || 'a' <= c <= 'f' || 'A' <= c <= 'F' {}
        assert j.s[0] != ' ' && !('\t' <= j.s[0] <= '\r');
        assert Lower(j.s)[0] != ' ' && !('\t' <= Lower(j.s)[0] <= '\r');
      }
    }
  }

  // ---------------------------------------------------------------- gaps of a frame reference

  function TextOf(c: Core, f: CoreField): Json
  {
    match f
    case AuditRef => c.auditRef
    case AuditSha => c.auditSha
    case MediaId => c.mediaId
    case MediaSha => c.mediaSha
    case FrameSha => c.frameSha
  }

  predicate IsSha(f: CoreField)
  {
    f == AuditSha || f == MediaSha || f == FrameSha
  }

  /** A field that is blank, a digest that is none, a frame that is not a natural number. */
  predicate Lacks(c: Core, f: CoreField)
  {
    !Written(TextOf(c, f))
  }

  predicate Misspells(c: Core, f: CoreField)
  {
    IsSha(f) && TextOf(c, f) != Null && !Digest(TextOf(c, f))
  }

  predicate Numbered(c: Core)
  {
    c.frameIndex.Int? && c.frameIndex.i >= 0
  }

  lemma BlankExactly(c: Core, f: CoreField)
    ensures f in Blank(CanonicalCore(c)) <==> Lacks(c, f)
    ensures f in Undigestible(CanonicalCore(c)) <==> Misspells(c, f)
    ensures FrameOk(CanonicalCore(c).frameIndex) <==> Numbered(c)
  {
    DigestExactly(FieldOf(c, f));
    DigestExactly(CanonicalDigest(FieldOf(c, f)));
    assert f in CORE_FIELDS;
    assert f in SHA_FIELDS <==> IsSha(f);
    hide CanonicalDigest, CanonicalSha, Digest;
    assert forall j :: IsNonEmptyStr(j) <==> Written(j);
    hide Written;
  }

  // ---------------------------------------------------------------- gaps of the slots

  /** The value stands for the seat `d`: as a number or as the digit. */
  predicate Seat(j: Json, d: int)
  {
    0 <= d <= 7 && (j == Int(d) || j == Text(Digit(d)))
  }

  function Digit(d: int): string
    requires 0 <= d <= 7
  {
    match d
    case 0 => "0"
    case 1 => "1"
    case 2 => "2"
    case 3 => "3"
    case 4 => "4"
    case 5 => "5"
    case 6 => "6"
    case _ => "7"
  }

  lemma NumeralExactly(n: int, d: int)
    requires 0 <= d <= 7
    ensures Numeral(n) == Digit(d) <==> n == d
  {
    if 0 <= n < 10 {
      assert Numeral(n)[0] == '0' + n as char;
      assert Digit(d)[0] == '0' + d as char;
    } else if n < 0 {
      assert Numeral(n)[0] == '-';
      assert Digit(d)[0] != '-';
    } else {
      Nonempty(n / 10);
      assert |Numeral(n)| >= 2 && |Digit(d)| == 1;
    }
  }

  lemma {:induction false} Nonempty(n: int)
    ensures |Numeral(n)| >= 1
    decreases if n < 0 then 1 - n else n
  {
    if n < 0 { Nonempty(-n); } else if n >= 10 { Nonempty(n / 10); }
  }

  /** The number a row of decimal digits stands for. */
  function Worth(s: string): int
  {
    if s == [] then 0 else 10 * Worth(s[..|s| - 1]) + (s[|s| - 1] as int - '0' as int)
  }

  /** A natural number prints as the decimal digits that stand for it, without a leading zero. */
  lemma {:induction false} PrintsDecimal(n: nat)
    ensures Worth(Numeral(n)) == n && Numeral(n) != [] && forall i | 0 <= i < |Numeral(n)| :: '0' <= Numeral(n)[i] <= '9'
    ensures n > 0 ==> Numeral(n)[0] != '0'
  {
    if n >= 10 {
      PrintsDecimal(n / 10);
      var front := Numeral(n / 10);
      assert Numeral(n)[..|front|] == front;
    } else {
      assert Numeral(n)[..0] == [];
    }
  }

  lemma SeatExactly(j: Json, d: int)
    requires 0 <= d <= 7
    ensures Printed(j) == Digit(d) <==> Seat(j, d)
  {
    assert |Digit(d)| == 1 && Digit(d) != "[" && Digit(d) != "{";
    if j.Int? { NumeralExactly(j.i, d); }
    hide Numeral;
  }

  lemma NamesAre(name: string)
    ensures name in SLOT_NAMES <==> exists d :: 0 <= d <= 7 && name == Digit(d)
  {
    assert Digit(0) == "0" && Digit(1) == "1" && Digit(2) == "2" && Digit(3) == "3" && Digit(4) == "4"
      && Digit(5) == "5" && Digit(6) == "6" && Digit(7) == "7";
  }

  predicate NamesSlots(m: map<string, Json>)
  {
    && (forall d | 0 <= d <= 7 :: Digit(d) in m) && forall k | k in m :: NameOfSeat(k)
  }

  predicate NameOfSeat(k: string)
  {
    exists d :: 0 <= d <= 7 && k == Digit(d)
  }

  /** Every value is a seat, and every seat has a value. */
  predicate Onto(m: map<string, Json>)
  {
    (forall k | k in m :: IsSeat(m[k])) && forall d | 0 <= d <= 7 :: HasSeat(m, d)
  }

  predicate IsSeat(j: Json)
  {
    exists d :: 0 <= d <= 7 && Seat(j, d)
  }

  predicate HasSeat(m: map<string, Json>, d: int)
  {
    exists k :: k in m && Seat(m[k], d)
  }

  lemma NamesExactly(m: map<string, Json>)
    ensures m.Keys == SLOT_NAMES <==> NamesSlots(m)
  {
    forall k ensures k in SLOT_NAMES <==> NameOfSeat(k) { NamesAre(k); }
    hide NameOfSeat;
    forall d | 0 <= d <= 7 ensures Digit(d) in SLOT_NAMES { NamesAre(Digit(d)); }
    if NamesSlots(m) {
      forall k | k in SLOT_NAMES ensures k in m { SlotName(k); }
    }
  }

  lemma SlotName(k: string)
    requires k in SLOT_NAMES
    ensures exists d :: 0 <= d <= 7 && k == Digit(d)
  {
    NamesAre(k);
  }

  lemma OntoExactly(m: map<string, Json>)
    ensures (set k | k in m :: Printed(m[k])) == SLOT_NAMES <==> Onto(m)
  {
    var printed := set k | k in m :: Printed(m[k]);
    forall j, d | 0 <= d <= 7 ensures Printed(j) == Digit(d) <==> Seat(j, d) { SeatExactly(j, d); }
    forall name ensures name in SLOT_NAMES <==> exists d :: 0 <= d <= 7 && name == Digit(d) { NamesAre(name); }
    hide Printed, Seat, Digit;
    if printed == SLOT_NAMES {
      forall k | k in m ensures IsSeat(m[k]) {
        assert Printed(m[k]) in printed;
        var d :| 0 <= d <= 7 && Printed(m[k]) == Digit(d);
        assert Seat(m[k], d);
      }
      forall d | 0 <= d <= 7 ensures HasSeat(m, d) {
        assert Digit(d) in printed;
        var k :| k in m && Printed(m[k]) == Digit(d);
        assert Seat(m[k], d);
      }
    }
    if Onto(m) {
      forall name ensures name in printed <==> name in SLOT_NAMES {
        if name in printed {
          var k :| k in m && Printed(m[k]) == name;
          assert IsSeat(m[k]);
          var d :| 0 <= d <= 7 && Seat(m[k], d);
        }
        if name in SLOT_NAMES {
          var d :| 0 <= d <= 7 && name == Digit(d);
          assert HasSeat(m, d);
          var k :| k in m && Seat(m[k], d);
        }
      }
    }
  }

  // ---------------------------------------------------------------- all gaps

  /** What the gaps of the frame say of a reference. */
  predicate FrameGapped(ref: SourceRef, g: Gap)
  {
    || (g.Missing? && Lacks(ref.core, g.field)) || (g.BadSha? && Misspells(ref.core, g.field))
    || (g == BadFrameIndex && !Numbered(ref.core)) || (g == MissingLayout && !Written(ref.layoutId))
    || (g == MissingSnapshotDigest && !Written(ref.snapshotDigest))
  }

  /** What the gaps of the slots say of it. */
  predicate SlotGapped(count: Json, mapping: Json, g: Gap)
  {
    match g
    case MissingSlotCount => count == Null
    case BadSlotCount => count != Null && !count.Int?
    case SlotCountNotSupported(n) => count == Int(n) && n != 8
    case MissingSlotMapping => mapping == Null
    case BadSlotMapping => mapping != Null && !mapping.Object?
    case SlotMappingIncomplete => count == Int(8) && mapping.Object? && !NamesSlots(mapping.fields)
    case SlotMappingNotBijective =>
      count == Int(8) && mapping.Object? && NamesSlots(mapping.fields) && !Onto(mapping.fields)
    case _ => false
  }

  /** A gap of the frame, of the slots, or of the parent. */
  predicate Gapped(ref: SourceRef, g: Gap)
  {
    FrameGapped(ref, g) || SlotGapped(ref.slotCount, ref.slotMapping, g) || ParentGapped(ref.parent, g)
  }

  predicate ParentGapped(p: Parent, g: Gap)
  {
    match g
    case ParentEmptyOrNotMapping => p.NotAMapping? || p == EmptyMapping
    case ParentUnknownKeys => p.ParentRef? && p.unknownKeys != {}
    case NestedParent => p.ParentRef? && p.nested
    case ParentMissing(f) => p.ParentRef? && Lacks(p.core, f)
    case ParentBadSha(f) => p.ParentRef? && Misspells(p.core, f)
    case ParentBadFrameIndex => p.ParentRef? && !Numbered(p.core)
    case _ => false
  }

  lemma ParentExactly(p: Parent, g: Gap)
    ensures g in ParentGaps(CanonicalParent(p)) <==> ParentGapped(p, g)
  {
    if p.ParentRef? {
      forall f { BlankExactly(p.core, f); }
      assert CanonicalParent(p).core == CanonicalCore(p.core);
      hide Blank, Undigestible, Lacks, Misspells, Numbered, CanonicalCore, FrameOk;
    }
  }

  lemma SlotsExactly(count: Json, mapping: Json, g: Gap)
    ensures g in SlotGaps(count, mapping) <==> SlotGapped(count, mapping, g)
  {
    if mapping.Object? {
      NamesExactly(mapping.fields);
      OntoExactly(mapping.fields);
    }
    hide Printed, NamesSlots, Onto;
  }

  function FrameGaps(ref: SourceRef): set<Gap>
  {
    (set f | f in Blank(ref.core) :: Missing(f)) + (set f | f in Undigestible(ref.core) :: BadSha(f))
    + (if FrameOk(ref.core.frameIndex) then {} else {BadFrameIndex})
    + (if IsNonEmptyStr(ref.layoutId) then {} else {MissingLayout})
    + (if IsNonEmptyStr(ref.snapshotDigest) then {} else {MissingSnapshotDigest})
  }

  lemma FrameExactly(ref: SourceRef, g: Gap)
    ensures g in FrameGaps(Cleaned(ref)) <==> FrameGapped(ref, g)
  {
    forall f { BlankExactly(ref.core, f); }
    assert IsNonEmptyStr(ref.layoutId) <==> Written(ref.layoutId);
    assert IsNonEmptyStr(ref.snapshotDigest) <==> Written(ref.snapshotDigest);
    hide Blank, Undigestible, Lacks, Misspells, Numbered, CanonicalCore, FrameOk, CanonicalParent, Written,
      IsNonEmptyStr;
  }

  /** The gaps found are exactly the gaps there are; the spelling of digests plays no part. */
  lemma GapsExactly(ref: SourceRef, g: Gap)
    ensures g in Gaps(Cleaned(ref)) <==> Gapped(ref, g)
  {
    FrameExactly(ref, g);
    ParentExactly(ref.parent, g);
    SlotsExactly(ref.slotCount, ref.slotMapping, g);
    assert Gaps(Cleaned(ref)) ==
      FrameGaps(Cleaned(ref)) + SlotGaps(ref.slotCount, ref.slotMapping) + ParentGaps(CanonicalParent(ref.parent));
    hide FrameGaps, SlotGaps, ParentGaps, Gaps, Cleaned, CanonicalParent, FrameGapped, SlotGapped, ParentGapped;
  }

  // ---------------------------------------------------------------- the identity

  /** Every text is written and the frame is numbered. */
  predicate CoreKnownAs(c: Core)
  {
    (forall f :: !Lacks(c, f)) && Numbered(c)
  }

  ghost predicate ParentKnownAs(p: Parent)
  {
    p.ParentRef? && forall g :: !ParentGapped(p, g)
  }

  /** Unbound without a known core, complete without any gap, and incomplete otherwise. */
  ghost predicate Classed(ref: SourceRef, c: IdentityClass)
  {
    if !CoreKnownAs(ref.core) then c == Unbound
    else if forall g :: !Gapped(ref, g) then c == Complete else c == Incomplete
  }

  lemma CoreExactly(c: Core)
    ensures CoreKnown(CanonicalCore(c)) <==> CoreKnownAs(c)
  {
    forall f ensures f in Blank(CanonicalCore(c)) <==> Lacks(c, f) { BlankExactly(c, f); }
    BlankExactly(c, AuditRef);
    hide Lacks, Numbered, FrameOk, CanonicalCore, Blank;
    if CoreKnownAs(c) {
      assert Blank(CanonicalCore(c)) == {} by { forall f ensures f !in Blank(CanonicalCore(c)) {} }
    }
  }

  lemma NoGaps(ref: SourceRef)
    ensures Gaps(Cleaned(ref)) == {} <==> forall g :: !Gapped(ref, g)
    ensures ParentGaps(CanonicalParent(ref.parent)) == {} <==> forall g :: !ParentGapped(ref.parent, g)
  {
    forall g ensures g in Gaps(Cleaned(ref)) <==> Gapped(ref, g) { GapsExactly(ref, g); }
    forall g ensures g in ParentGaps(CanonicalParent(ref.parent)) <==> ParentGapped(ref.parent, g) {
      ParentExactly(ref.parent, g);
    }
    hide Gaps, Gapped, ParentGaps, ParentGapped, Cleaned, CanonicalParent;
  }

  /** A refused reference, with the first thing wrong with it. */
  lemma RefusedExactly(ref: Option<SourceRef>, allowIncomplete: bool)
    ensures var r := Canonicalise(ref, allowIncomplete);
      && (r == Raised(RefMustBeMapping) <==> ref == None)
      && (forall keys :: r == Raised(MutableLocationIsNoIdentity(keys)) <==>
            ref.Some? && keys == ref.value.locationKeys && keys != {})
      && (forall keys :: r == Raised(UnknownKeys(keys)) <==>
            ref.Some? && ref.value.locationKeys == {} && keys == ref.value.unknownKeys && keys != {})
      && (r.Raised? && r.error.NotComplete? <==>
            ref.Some? && ref.value.locationKeys == {} && ref.value.unknownKeys == {} && !allowIncomplete
            && !Classed(ref.value, Complete))
      && (r.Raised? && r.error.NotComplete? && ref.Some? ==>
            forall g :: g in r.error.gaps <==> Gapped(ref.value, g))
  {
    if ref.Some? {
      CoreExactly(ref.value.core);
      NoGaps(ref.value);
      forall g ensures g in Gaps(Cleaned(ref.value)) <==> Gapped(ref.value, g) { GapsExactly(ref.value, g); }
      hide Gaps, Gapped, ParentGaps, CanonicalParent, CanonicalCore, CoreKnown, CoreKnownAs, RootKey;
    }
  }

  /** The identity of a reference that is not refused. */
  lemma IdentityExactly(ref: SourceRef, allowIncomplete: bool)
    requires Canonicalise(Some(ref), allowIncomplete).Ok?
    ensures var id, clean := Canonicalise(Some(ref), allowIncomplete).value, Cleaned(ref);
      && Classed(ref, id.identityClass) && (forall g :: g in id.gaps <==> Gapped(ref, g))
      && (if CoreKnownAs(ref.core) then id.sourceKey == Some(SourceDigest(clean.core)) else id.sourceKey == None)
      && (if CoreKnownAs(ref.core)
          then id.rootKey == Some(RootDigest(clean.core.mediaSha, ref.core.frameIndex, clean.core.frameSha))
          else id.rootKey == None)
      && (if ParentKnownAs(ref.parent)
          then id.parentSourceKey == Some(SourceDigest(clean.parent.core))
               && id.parentRootKey == Some(RootDigest(clean.parent.core.mediaSha, ref.parent.core.frameIndex,
                                                      clean.parent.core.frameSha))
          else id.parentSourceKey == None && id.parentRootKey == None)
      && id.slotCount == ref.slotCount && id.normalised == clean
      && id.slotMapping == if ref.slotMapping.Object? then ref.slotMapping.fields else map[]
  {
    CoreExactly(ref.core);
    NoGaps(ref);
    forall g ensures g in Gaps(Cleaned(ref)) <==> Gapped(ref, g) { GapsExactly(ref, g); }
    if CoreKnownAs(ref.core) { RootExactly(ref.core); }
    if ParentKnownAs(ref.parent) {
      ParentCoreKnown(ref.parent);
      RootExactly(ref.parent.core);
    }
    hide Gaps, Gapped, ParentGaps, ParentGapped, CanonicalCore, CoreKnown, CoreKnownAs, RootKey, CanonicalDigest;
  }

  lemma ParentCoreKnown(p: Parent)
    requires ParentKnownAs(p)
    ensures CoreKnownAs(p.core)
  {
    forall f ensures !Lacks(p.core, f) { assert !ParentGapped(p, ParentMissing(f)); }
    assert !ParentGapped(p, ParentBadFrameIndex);
  }

  lemma RootExactly(c: Core)
    requires CoreKnownAs(c)
    ensures var d := CanonicalCore(c); RootKey(d) == Some(RootDigest(d.mediaSha, c.frameIndex, d.frameSha))
  {
    assert !Lacks(c, MediaSha) && !Lacks(c, FrameSha);
    DigestExactly(c.mediaSha);
    DigestExactly(c.frameSha);
    hide CanonicalDigest;
  }

  /** Two known frames have one evidence key exactly when they agree up to the letter case of their digests. */
  lemma SourceKeysAgree(a: Core, b: Core)
    ensures SourceDigest(CanonicalCore(a)) == SourceDigest(CanonicalCore(b)) <==> Alike(a, b)
  {
    DigestsAgree(a.auditSha, b.auditSha);
    DigestsAgree(a.mediaSha, b.mediaSha);
    DigestsAgree(a.frameSha, b.frameSha);
    hide CanonicalDigest, AlikeDigest;
  }

  predicate Alike(a: Core, b: Core)
  {
    && a.auditRef == b.auditRef && a.mediaId == b.mediaId && a.frameIndex == b.frameIndex
    && AlikeDigest(a.auditSha, b.auditSha) && AlikeDigest(a.mediaSha, b.mediaSha) && AlikeDigest(a.frameSha, b.frameSha)
  }

  predicate SameLetter(c: char, d: char)
  {
    c == d || ('a' <= c <= 'f' && d == c - 'a' + 'A') || ('a' <= d <= 'f' && c == d - 'a' + 'A')
  }

  predicate AlikeDigest(a: Json, b: Json)
  {
    || a == b
    || (Digest(a) && Digest(b) && forall i | 0 <= i < 64 :: SameLetter(a.s[i], b.s[i]))
  }

  lemma DigestsAgree(a: Json, b: Json)
    ensures CanonicalDigest(a) == CanonicalDigest(b) <==> AlikeDigest(a, b)
  {
    DigestExactly(a);
    DigestExactly(b);
    if Digest(a) && Digest(b) {
      var x, y := Lower(a.s), Lower(b.s);
      assert CanonicalDigest(a) == Text(x) && CanonicalDigest(b) == Text(y);
      forall i | 0 <= i < 64 ensures x[i] == y[i] <==> SameLetter(a.s[i], b.s[i]) {
        LettersAgree(a.s[i], b.s[i]);
      }
      hide SameLetter, Digest, CanonicalDigest;
      if AlikeDigest(a, b) { assert x == y; }
    }
  }

  lemma LettersAgree(c: char, d: char)
    requires '0' <= c <= '9' || 'a' <= c <= 'f' || 'A' <= c <= 'F'
    requires '0' <= d <= '9' || 'a' <= d <= 'f' || 'A' <= d <= 'F'
    ensures LowerChar(c) == LowerChar(d) <==> SameLetter(c, d)
  {}
}
