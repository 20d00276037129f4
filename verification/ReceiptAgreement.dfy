/**
 Producer and validator of capture receipts: what the producer guarantees about the segments, and exactly for which
 recordings the validator accepts what the producer built.
 */
module ReceiptAgreement {
  import opened Common
  import opened CaptureReceipt

  // ---------------------------------------------------------------- segments

  /** Everything the validator asks of a segment except that its file is nonempty and dated after the epoch. */
  predicate Placed(segments: seq<Segment>, i: nat)
    requires i < |segments|
  {
    var s := segments[i];
    && s.index == i && s.name == Numbered(i) && 0.0 <= s.start < s.end
    && (if i == 0 then s.start == 0.0 && s.gap.None?
        else s.gap.Some? && 0.0 <= s.gap.value <= 0.002 && s.start - segments[i - 1].end == s.gap.value)
  }

  lemma {:induction false} SegmentsPlaced(dir: Directory, rows: seq<CsvRow>, n: nat)
    requires n <= |rows| && SegmentsOf(dir, rows, n).Ok?
    ensures forall i: nat | i < n :: Placed(SegmentsOf(dir, rows, n).value, i)
  {
    if n > 0 {
      SegmentsPlaced(dir, rows, n - 1);
      var before, all := SegmentsOf(dir, rows, n - 1).value, SegmentsOf(dir, rows, n).value;
      forall i: nat | i < n ensures Placed(all, i) {
        if i < n - 1 { assert Placed(before, i); }
      }
    }
  }

  function Lengths(segments: seq<Segment>): real
  {
    if segments == [] then 0.0
    else
      var s := segments[|segments| - 1];
      Lengths(segments[..|segments| - 1]) + (s.end - s.start)
  }

  function Gaps(segments: seq<Segment>): real
  {
    if segments == [] then 0.0
    else Gaps(segments[..|segments| - 1]) + if segments[|segments| - 1].gap.Some?
      then segments[|segments| - 1].gap.value else 0.0
  }

  lemma {:induction false} TimelineAdds(segments: seq<Segment>)
    requires segments != [] && forall i: nat | i < |segments| :: Placed(segments, i)
    ensures FinalPts(segments) == Lengths(segments) + Gaps(segments)
    ensures 0.0 <= Gaps(segments) <= 0.002 * (|segments| - 1) as real
  {
    var n := |segments| - 1;
    var init := segments[..n];
    assert Placed(segments, n);
    if n > 0 {
      forall i: nat | i < n ensures Placed(init, i) { assert Placed(segments, i); }
      TimelineAdds(init);
    } else {
      assert init == [];
    }
  }

  /** The last timestamp of a finalized recording is the segments' lengths and gaps, and the gaps are tiny. */
  lemma FinalizedTimeline(rec: Recording, p: Plan)
    requires Finalized(rec, p).Ok?
    ensures var s := Finalized(rec, p).value.segments;
      && s != [] && |s| == |rec.rows|
      && FinalPts(s) == Lengths(s) + Gaps(s) && 0.0 <= Gaps(s) <= 0.002 * (|s| - 1) as real
      && rec.dir.Keys == NamesUpTo(|s|)
  {
    hide Failures, ProgressOf, PlanBlockers;
    SegmentsPlaced(rec.dir, rec.rows, |rec.rows|);
    TimelineAdds(Finalized(rec, p).value.segments);
  }

  // ---------------------------------------------------------------- the failure list

  function FieldRank(f: StatusField): (n: nat)
    ensures n < 14 && STATUS_FIELDS[n] == f
  {
    match f
    case State => 0 case ExitCode => 1 case Device => 2 case Platform => 3 case DurationLimit => 4 case SizeLimit => 5
    case MinimumFree => 6 case Audio => 7 case Recognition => 8 case Strategy => 9 case FfmpegPath => 10
    case FfmpegSha => 11
    case DshowName => 12 case Command => 13
  }

  /** The place of a failure in the order the producer looks for them. */
  function Rank(f: Failure): (n: nat)
    ensures n < 33
  {
    match f
    case StatusMismatch(field) => FieldRank(field)
    case BinaryChanged => 14 case BinaryUnavailable => 15 case StopReasonInvalid => 16 case ForcedOrMissing => 17
    case SegmentCountDiffers => 18 case BytesDiffer => 19 case SizeExceeded => 20 case PtsExceeded => 21
    case OutTimeDiffers => 22 case DensityDiffers => 23 case OutTimeInvalid => 24
    case EndMustFollow => 25 case OutsideWindow => 26 case WallTimeExceeded => 27 case TimeInvalid => 28
    case NoFrames => 29 case Dropped => 30 case Duplicated => 31 case NoEnd => 32
  }

  /** Failures in strictly increasing order, within a range of places. */
  predicate Ranged(fs: seq<Failure>, lo: nat, hi: nat)
  {
    && (forall i | 0 <= i < |fs| :: lo <= Rank(fs[i]) < hi)
    && (forall i, j | 0 <= i < j < |fs| :: Rank(fs[i]) < Rank(fs[j]))
  }

  lemma Join(a: seq<Failure>, b: seq<Failure>, lo: nat, mid: nat, hi: nat)
    requires Ranged(a, lo, mid) && Ranged(b, mid, hi) && lo <= mid <= hi
    ensures Ranged(a + b, lo, hi)
    ensures forall f :: f in a + b <==> if Rank(f) < mid then f in a else f in b
  {}

  lemma One(c: bool, f: Failure)
    ensures Ranged(When(c, f), Rank(f), Rank(f) + 1)
  {}

  lemma Four(c0: bool, f0: Failure, c1: bool, f1: Failure, c2: bool, f2: Failure, c3: bool, f3: Failure)
    requires Rank(f1) == Rank(f0) + 1 && Rank(f2) == Rank(f0) + 2 && Rank(f3) == Rank(f0) + 3
    ensures Ranged(When(c0, f0) + When(c1, f1) + When(c2, f2) + When(c3, f3), Rank(f0), Rank(f0) + 4)
  {
    hide Ranged, Rank, When;
    var r := Rank(f0);
    One(c0, f0);
    One(c1, f1);
    One(c2, f2);
    One(c3, f3);
    Join(When(c0, f0), When(c1, f1), r, r + 1, r + 2);
    Join(When(c0, f0) + When(c1, f1), When(c2, f2), r, r + 2, r + 3);
    Join(When(c0, f0) + When(c1, f1) + When(c2, f2), When(c3, f3), r, r + 3, r + 4);
  }

  lemma WhenIn(c: bool, g: Failure, f: Failure)
    ensures f in When(c, g) <==> c && f == g
  {}

  lemma FourIn(f: Failure, c0: bool, f0: Failure, c1: bool, f1: Failure, c2: bool, f2: Failure, c3: bool, f3: Failure)
    ensures f in When(c0, f0) + When(c1, f1) + When(c2, f2) + When(c3, f3) <==>
      (c0 && f == f0) || (c1 && f == f1) || (c2 && f == f2) || (c3 && f == f3)
  {
    WhenIn(c0, f0, f);
    WhenIn(c1, f1, f);
    WhenIn(c2, f2, f);
    WhenIn(c3, f3, f);
    hide When;
  }

  lemma {:induction false} StatusRanged(s: Status, n: nat)
    requires n <= |STATUS_FIELDS|
    ensures Ranged(StatusFailures(s, n), 0, n)
    ensures StatusMismatch(ExitCode) in StatusFailures(s, n) <==> n >= 2 && s.exitCode != Some(0)
  {
    if n > 0 {
      StatusRanged(s, n - 1);
      var field := STATUS_FIELDS[n - 1];
      var f := StatusMismatch(field);
      FieldAt(n - 1);
      One(Mismatched(s, field), f);
      hide Ranged;
      Join(StatusFailures(s, n - 1), When(Mismatched(s, field), f), 0, n - 1, n);
      assert field == ExitCode <==> n - 1 == 1;
    }
  }

  lemma FieldAt(k: nat)
    requires k < 14
    ensures FieldRank(STATUS_FIELDS[k]) == k && (STATUS_FIELDS[k] == ExitCode <==> k == 1)
  {}

  lemma TimelineRanged(progress: Progress, pts: real)
    ensures Ranged(TimelineFailures(progress, pts), 22, 25)
  {
    hide OutTime, Sparse;
  }

  lemma TimeRanged(p: Plan, s: Status)
    ensures Ranged(TimeFailures(p, s), 25, 29)
  {
    if s.started.Some? && s.ended.Some? {
      var c0, c1, c2 := s.ended.value <= s.started.value, s.started.value < p.authorized || s.ended.value > p.expires,
        s.ended.value - s.started.value > (p.duration + p.grace + 1) * MICROS;
      Four(c0, EndMustFollow, c1, OutsideWindow, c2, WallTimeExceeded, false, TimeInvalid);
      assert TimeFailures(p, s) == When(c0, EndMustFollow) + When(c1, OutsideWindow) + When(c2, WallTimeExceeded)
        + When(false, TimeInvalid);
    }
  }

  /** The phase that looks for the failures of a place. */
  function PhaseAt(rec: Recording, p: Plan, segments: seq<Segment>, progress: Progress, place: nat): seq<Failure>
    requires segments != []
  {
    if place < 14 then StatusFailures(rec.status, 14)
    else if place < 18 then StopFailures(rec.binary, rec.status.stopReason)
    else if place < 22 then SizeFailures(p, rec.status, segments)
    else if place < 25 then TimelineFailures(progress, FinalPts(segments))
    else if place < 29 then TimeFailures(p, rec.status)
    else ProgressFailures(progress)
  }

  /** The list holds no failure twice, and each failure comes from the one phase that looks for it. */
  lemma FailuresRanged(rec: Recording, p: Plan, segments: seq<Segment>, progress: Progress)
    requires segments != []
    ensures var all := Failures(rec, p, segments, progress);
      && Ranged(all, 0, 33)
      && forall f :: f in all <==> f in PhaseAt(rec, p, segments, progress, Rank(f))
  {
    StatusRanged(rec.status, 14);
    StopRanged(rec.binary, rec.status.stopReason);
    SizeRanged(p, rec.status, segments);
    TimelineRanged(progress, FinalPts(segments));
    TimeRanged(p, rec.status);
    ProgressRanged(progress);
    hide StatusFailures, StopFailures, SizeFailures, TimelineFailures, TimeFailures, ProgressFailures, Rank, Ranged;
    var g0, g1, g2, g3, g4, g5 := StatusFailures(rec.status, 14), StopFailures(rec.binary, rec.status.stopReason),
      SizeFailures(p, rec.status, segments), TimelineFailures(progress, FinalPts(segments)),
        TimeFailures(p, rec.status),
      ProgressFailures(progress);
    Join(g0, g1, 0, 14, 18);
    Join(g0 + g1, g2, 0, 18, 22);
    Join(g0 + g1 + g2, g3, 0, 22, 25);
    Join(g0 + g1 + g2 + g3, g4, 0, 25, 29);
    Join(g0 + g1 + g2 + g3 + g4, g5, 0, 29, 33);
    assert Failures(rec, p, segments, progress) == g0 + g1 + g2 + g3 + g4 + g5;
  }

  lemma StopRanged(b: Binary, r: StopReason)
    ensures Ranged(StopFailures(b, r), 14, 18)
  {
    hide Ranged, Forced;
    Four(b.Hashed? && !b.same, BinaryChanged, b.Unavailable?, BinaryUnavailable, !r.Allowed?, StopReasonInvalid,
      Forced(r), ForcedOrMissing);
  }

  lemma SizeRanged(p: Plan, s: Status, segments: seq<Segment>)
    requires segments != []
    ensures Ranged(SizeFailures(p, s, segments), 18, 22)
  {
    hide Ranged, TotalBytes;
    Four(s.segmentFiles != Some(|segments|), SegmentCountDiffers,
         s.recordedBytes != Some(TotalBytes(segments)), BytesDiffer,
         TotalBytes(segments) > p.sizeLimit, SizeExceeded,
         FinalPts(segments) > p.duration as real + 0.100, PtsExceeded);
  }

  lemma ProgressRanged(p: Progress)
    ensures Ranged(ProgressFailures(p), 29, 33)
  {
    hide Ranged;
    Four(p.frame.None? || p.frame.value <= 0, NoFrames, p.drop != Some(0), Dropped, p.dup != Some(0), Duplicated,
      !Ended(p), NoEnd);
  }

  // ---------------------------------------------------------------- the blockers of a built receipt

  /** The recording data a receipt is built from, as both producer loops leave them. */
  predicate Readings(segments: seq<Segment>, progress: Progress)
  {
    && segments != [] && (forall i: nat | i < |segments| :: Placed(segments, i))
    && (progress.frame.Some? ==> progress.frame.value >= 0) && (progress.drop.Some? ==> progress.drop.value >= 0)
    && (progress.dup.Some? ==> progress.dup.value >= 0)
  }

  lemma FailedIn(failures: seq<Failure>, p: Plan, f: Failure)
    ensures Failed(f) in Wrapped(failures) + PlanBlockers(p) <==> f in failures
  {
    if f in failures {
      var i :| 0 <= i < |failures| && failures[i] == f;
      assert Wrapped(failures)[i] == Failed(f);
    }
  }

  lemma HasIff(rec: Recording, p: Plan, segments: seq<Segment>, progress: Progress, f: Failure)
    requires segments != []
    ensures Has(ReceiptOf(rec, p, segments, progress), f) <==> f in PhaseAt(rec, p, segments, progress, Rank(f))
  {
    FailuresRanged(rec, p, segments, progress);
    FailedIn(Failures(rec, p, segments, progress), p, f);
    hide Failures, PhaseAt, Rank, Ranged, Wrapped, PlanBlockers, MetadataOf;
  }

  /**
   The density failure alone is judged by different rules: the producer needs a readable clock, the validator a frame
   count.
   */
  lemma BlockersShow(rec: Recording, p: Plan, segments: seq<Segment>, progress: Progress)
    requires segments != []
    ensures var r := ReceiptOf(rec, p, segments, progress);
      && (Has(r, TimeInvalid) <==> TimeUnreadable(r)) && (Has(r, EndMustFollow) <==> TimeReversed(r))
      && (Has(r, OutTimeInvalid) <==> OutTime(progress.outTime).None?) && (Has(r, OutTimeDiffers) <==> OutTimeOff(r))
      && (Has(r, DensityDiffers) <==>
        OutTime(progress.outTime).Some?
        && Sparse(FrameOrZero(progress), FinalPts(segments)))
      && (Has(r, NoFrames) <==> progress.frame.None? || progress.frame.value <= 0)
      && (Has(r, Dropped) <==> progress.drop != Some(0)) && (Has(r, Duplicated) <==> progress.dup != Some(0))
      && (Has(r, NoEnd) <==> !Ended(progress)) && (Has(r, ForcedOrMissing) <==> r.forced)
      && (Has(r, StopReasonInvalid) <==> !r.stopReason.Allowed?)
        && (Has(r, StatusMismatch(ExitCode)) <==> r.exitCode != Some(0))
  {
    TimeShow(rec, p, segments, progress);
    TimelineShow(rec, p, segments, progress);
    ProgressShow(rec, p, segments, progress);
    StopShow(rec, p, segments, progress);
    hide Has, Failures, Sparse, OutTime;
  }

  lemma TimeShow(rec: Recording, p: Plan, segments: seq<Segment>, progress: Progress)
    requires segments != []
    ensures var r := ReceiptOf(rec, p, segments, progress);
      (Has(r, TimeInvalid) <==> TimeUnreadable(r)) && (Has(r, EndMustFollow) <==> TimeReversed(r))
  {
    hide Has, ReceiptOf, TimeFailures;
    HasTime(rec, p, segments, progress, TimeInvalid);
    HasTime(rec, p, segments, progress, EndMustFollow);
    TimesEcho(rec, p, segments, progress);
    TimeIn(p, rec.status, TimeInvalid);
    TimeIn(p, rec.status, EndMustFollow);
  }

  lemma HasTime(rec: Recording, p: Plan, segments: seq<Segment>, progress: Progress, f: Failure)
    requires segments != [] && 25 <= Rank(f) < 29
    ensures Has(ReceiptOf(rec, p, segments, progress), f) <==> f in TimeFailures(p, rec.status)
  {
    hide Has, Rank, ReceiptOf, TimeFailures;
    HasIff(rec, p, segments, progress, f);
  }

  lemma TimesEcho(rec: Recording, p: Plan, segments: seq<Segment>, progress: Progress)
    requires segments != []
    ensures var r := ReceiptOf(rec, p, segments, progress);
      r.started == rec.status.started && r.ended == rec.status.ended
  {
    hide Failures, MetadataOf, Wrapped, PlanBlockers;
  }

  lemma TimeIn(p: Plan, s: Status, f: Failure)
    requires f == TimeInvalid || f == EndMustFollow
    ensures f in TimeFailures(p, s) <==>
      if f == TimeInvalid then s.started.None? || s.ended.None?
      else s.started.Some? && s.ended.Some? && s.ended.value <= s.started.value
  {}

  lemma TimelineIn(progress: Progress, pts: real, f: Failure)
    ensures var out := OutTime(progress.outTime);
      f in TimelineFailures(progress, pts) <==>
      || (out.None? && f == OutTimeInvalid) || (out.Some? && Apart(out.value, pts) > 0.100 && f == OutTimeDiffers)
      || (out.Some? && Sparse(FrameOrZero(progress), pts) && f == DensityDiffers)
  {
    hide OutTime, Sparse, Apart, FrameOrZero, When;
    var out := OutTime(progress.outTime);
    if out.Some? {
      WhenIn(Apart(out.value, pts) > 0.100, OutTimeDiffers, f);
      WhenIn(Sparse(FrameOrZero(progress), pts), DensityDiffers, f);
    }
  }

  lemma HasTimeline(rec: Recording, p: Plan, segments: seq<Segment>, progress: Progress, f: Failure)
    requires segments != [] && 22 <= Rank(f) < 25
    ensures Has(ReceiptOf(rec, p, segments, progress), f) <==> f in TimelineFailures(progress, FinalPts(segments))
  {
    HasIff(rec, p, segments, progress, f);
    hide Has, Rank, ReceiptOf, TimelineFailures, FinalPts;
  }

  lemma TimelineShow(rec: Recording, p: Plan, segments: seq<Segment>, progress: Progress)
    requires segments != []
    ensures var r := ReceiptOf(rec, p, segments, progress);
      && r.segments == segments && r.progress == progress
      && (Has(r, OutTimeInvalid) <==> OutTime(progress.outTime).None?) && (Has(r, OutTimeDiffers) <==> OutTimeOff(r))
      && (Has(r, DensityDiffers) <==>
        OutTime(progress.outTime).Some?
        && Sparse(FrameOrZero(progress), FinalPts(segments)))
  {
    HasTimeline(rec, p, segments, progress, OutTimeInvalid);
    HasTimeline(rec, p, segments, progress, OutTimeDiffers);
    HasTimeline(rec, p, segments, progress, DensityDiffers);
    ReceiptEcho(rec, p, segments, progress);
    hide Has, ReceiptOf, TimelineFailures, Sparse, OutTime, Apart, FrameOrZero;
    TimelineIn(progress, FinalPts(segments), OutTimeInvalid);
    TimelineIn(progress, FinalPts(segments), OutTimeDiffers);
    TimelineIn(progress, FinalPts(segments), DensityDiffers);
  }

  lemma ProgressIn(p: Progress, f: Failure)
    ensures f in ProgressFailures(p) <==>
      || ((p.frame.None? || p.frame.value <= 0) && f == NoFrames) || (p.drop != Some(0) && f == Dropped)
      || (p.dup != Some(0) && f == Duplicated) || (!Ended(p) && f == NoEnd)
  {
    FourIn(f, p.frame.None? || p.frame.value <= 0, NoFrames, p.drop != Some(0), Dropped, p.dup != Some(0), Duplicated,
      !Ended(p), NoEnd);
    hide When, Ended;
  }

  lemma StopIn(b: Binary, r: StopReason, f: Failure)
    ensures f in StopFailures(b, r) <==>
      || (b.Hashed? && !b.same && f == BinaryChanged) || (b.Unavailable? && f == BinaryUnavailable)
      || (!r.Allowed? && f == StopReasonInvalid) || (Forced(r) && f == ForcedOrMissing)
  {
    FourIn(f, b.Hashed? && !b.same, BinaryChanged, b.Unavailable?, BinaryUnavailable, !r.Allowed?, StopReasonInvalid,
      Forced(r), ForcedOrMissing);
    hide When, Forced;
  }

  lemma HasLate(rec: Recording, p: Plan, segments: seq<Segment>, progress: Progress, f: Failure)
    requires segments != [] && Rank(f) >= 29
    ensures Has(ReceiptOf(rec, p, segments, progress), f) <==>
      || ((progress.frame.None? || progress.frame.value <= 0) && f == NoFrames)
      || (progress.drop != Some(0) && f == Dropped)
      || (progress.dup != Some(0) && f == Duplicated) || (!Ended(progress) && f == NoEnd)
  {
    HasIff(rec, p, segments, progress, f);
    hide Has, Rank, ReceiptOf, ProgressFailures, Ended;
    ProgressIn(progress, f);
  }

  lemma HasStop(rec: Recording, p: Plan, segments: seq<Segment>, progress: Progress, f: Failure)
    requires segments != [] && 14 <= Rank(f) < 18
    ensures Has(ReceiptOf(rec, p, segments, progress), f) <==> f in StopFailures(rec.binary, rec.status.stopReason)
  {
    HasIff(rec, p, segments, progress, f);
    hide Has, Rank, ReceiptOf, StopFailures;
  }

  lemma ProgressShow(rec: Recording, p: Plan, segments: seq<Segment>, progress: Progress)
    requires segments != []
    ensures var r := ReceiptOf(rec, p, segments, progress);
      && (Has(r, NoFrames) <==> progress.frame.None? || progress.frame.value <= 0)
      && (Has(r, Dropped) <==> progress.drop != Some(0)) && (Has(r, Duplicated) <==> progress.dup != Some(0))
      && (Has(r, NoEnd) <==> !Ended(progress))
  {
    hide Has, ReceiptOf, Ended;
    HasLate(rec, p, segments, progress, NoFrames);
    HasLate(rec, p, segments, progress, Dropped);
    HasLate(rec, p, segments, progress, Duplicated);
    HasLate(rec, p, segments, progress, NoEnd);
  }

  lemma ReceiptEcho(rec: Recording, p: Plan, segments: seq<Segment>, progress: Progress)
    requires segments != []
    ensures var r := ReceiptOf(rec, p, segments, progress);
      r.segments == segments && r.progress == progress &&
      r.forced == Forced(rec.status.stopReason) && r.stopReason == rec.status.stopReason
        && r.exitCode == rec.status.exitCode
  {
    hide Failures, MetadataOf, Wrapped, PlanBlockers;
  }

  lemma StopShow(rec: Recording, p: Plan, segments: seq<Segment>, progress: Progress)
    requires segments != []
    ensures var r := ReceiptOf(rec, p, segments, progress);
      && (Has(r, ForcedOrMissing) <==> r.forced) && (Has(r, StopReasonInvalid) <==> !r.stopReason.Allowed?)
      && (Has(r, StatusMismatch(ExitCode)) <==> r.exitCode != Some(0))
  {
    HasStop(rec, p, segments, progress, ForcedOrMissing);
    HasStop(rec, p, segments, progress, StopReasonInvalid);
    HasIff(rec, p, segments, progress, StatusMismatch(ExitCode));
    hide Has, ReceiptOf, StopFailures, Forced, StatusFailures, Ranged;
    ReceiptEcho(rec, p, segments, progress);
    StopIn(rec.binary, rec.status.stopReason, ForcedOrMissing);
    StopIn(rec.binary, rec.status.stopReason, StopReasonInvalid);
    StatusRanged(rec.status, 14);
  }

  // ---------------------------------------------------------------- check by check

  lemma BlockersDistinct(failures: seq<Failure>, p: Plan)
    requires Ranged(failures, 0, 33)
    ensures Distinct(Wrapped(failures) + PlanBlockers(p))
  {
    var w: seq<Blocker>, q: seq<Blocker> := Wrapped(failures), PlanBlockers(p);
    forall i, j | 0 <= i < j < |w + q| ensures (w + q)[i] != (w + q)[j] {
      if j < |w| {
        assert Rank(failures[i]) < Rank(failures[j]);
      } else if i < |w| {
        assert w[i].Failed? && !q[j - |w|].Failed?;
      } else {
        assert (w + q)[i] == q[i - |w|] && (w + q)[j] == q[j - |w|];
      }
    }
  }

  lemma BlockersComplete(failures: seq<Failure>, p: Plan)
    ensures var all := Wrapped(failures) + PlanBlockers(p);
      && all != [] && (forall i | 0 <= i < CALIBRATION_ITEMS :: Calibration(i) in all)
      && (forall i | 0 <= i < |all| :: Known(all[i]))
      && (FingerprintPending in all <==> p.fingerprint.None?)
  {
    var w: seq<Blocker>, q: seq<Blocker> := Wrapped(failures), PlanBlockers(p);
    forall i | 0 <= i < CALIBRATION_ITEMS ensures Calibration(i) in w + q {
      assert q[|q| - CALIBRATION_ITEMS + i] == Calibration(i);
    }
    forall i | 0 <= i < |w + q| ensures Known((w + q)[i]) {
      if i >= |w| { assert (w + q)[i] == q[i - |w|]; }
    }
    if p.fingerprint.None? { assert q[0] == FingerprintPending; }
  }

  lemma ListsAccepted(rec: Recording, p: Plan, segments: seq<Segment>, progress: Progress)
    requires segments != []
    ensures ListProblem(ReceiptOf(rec, p, segments, progress)).None?
  {
    var r, failures := ReceiptOf(rec, p, segments, progress), Failures(rec, p, segments, progress);
    FailuresRanged(rec, p, segments, progress);
    BlockersDistinct(failures, p);
    BlockersComplete(failures, p);
    TimeShow(rec, p, segments, progress);
    CleanHasNone(rec, p, segments, progress);
    hide Failures, Ranged, Rank, PhaseAt, Distinct, MetadataOf, Has, TimeUnreadable, TimeReversed, Wrapped,
      PlanBlockers, Known, AnyFailure;
    assert r.blockers == Wrapped(failures) + PlanBlockers(p);
    assert ListsOk(r);
  }

  predicate Substantial(segments: seq<Segment>)
  {
    forall i | 0 <= i < |segments| :: segments[i].size > 0 && segments[i].mtime >= 0
  }

  lemma FilesAccepted(rec: Recording, p: Plan, segments: seq<Segment>, progress: Progress)
    requires Readings(segments, progress)
    ensures FileProblem(ReceiptOf(rec, p, segments, progress)).None? <==> Substantial(segments)
  {
    hide Failures, Wrapped, PlanBlockers;
    var r := ReceiptOf(rec, p, segments, progress);
    assert r.segments == segments && r.manifest == segments && r.metadata == MetadataOf(rec.sizes);
    MetadataAccepted(rec.sizes);
    hide MetadataOf, MetaOk, HasRole, ReceiptOf;
    if Substantial(segments) {
      forall i | 0 <= i < |segments| ensures SegmentOk(segments, i) { assert Placed(segments, i); }
    } else {
      var i :| 0 <= i < |segments| && !(segments[i].size > 0 && segments[i].mtime >= 0);
      assert !SegmentOk(segments, i);
    }
  }

  lemma MetadataAccepted(sizes: Sizes)
    ensures var m := MetadataOf(sizes);
      (forall i | 0 <= i < |m| :: MetaOk(m, i)) && forall role | role in ROLES :: HasRole(m, role)
  {
    var m := MetadataOf(sizes);
    assert m[0].role == StatusFile && m[1].role == SegmentsCsv && m[2].role == ProgressLog && m[3].role == CaptureLog;
  }

  lemma ProgressAccepted(rec: Recording, p: Plan, segments: seq<Segment>, progress: Progress)
    requires Readings(segments, progress)
    ensures ProgressProblem(ReceiptOf(rec, p, segments, progress)).None? <==>
      !(OutTime(progress.outTime).None? && progress.frame.Some? && Sparse(progress.frame.value, FinalPts(segments)))
  {
    BlockersShow(rec, p, segments, progress);
    CleanHasNone(rec, p, segments, progress);
    hide Failures, Has, Sparse, OutTime, Placed, Wrapped, PlanBlockers, MetadataOf;
  }

  lemma CleanHasNone(rec: Recording, p: Plan, segments: seq<Segment>, progress: Progress)
    requires segments != []
    ensures var r := ReceiptOf(rec, p, segments, progress);
      (r.clean ==> forall f :: !Has(r, f)) && (AnyFailure(r) <==> !r.clean)
  {
    hide Failures, MetadataOf, Wrapped, PlanBlockers;
    var r, failures := ReceiptOf(rec, p, segments, progress), Failures(rec, p, segments, progress);
    forall f ensures r.clean ==> !Has(r, f) { FailedIn(failures, p, f); }
    SomeFailed(failures, p);
  }

  lemma SomeFailed(failures: seq<Failure>, p: Plan)
    ensures var all := Wrapped(failures) + PlanBlockers(p);
      (exists i :: 0 <= i < |all| && all[i].Failed?) <==> failures != []
  {
    var q := PlanBlockers(p);
    var all := Wrapped(failures) + q;
    if failures != [] {
      assert all[0] == Failed(failures[0]);
    } else {
      forall i | 0 <= i < |all| ensures !all[i].Failed? { assert all[i] == q[i]; }
    }
  }

  lemma {:induction false} NoMismatch(r: Receipt, visible: seq<(Failure, bool)>)
    ensures FirstMismatch(r, visible).None? <==> forall i | 0 <= i < |visible| :: visible[i].1 == Has(r, visible[i].0)
  {
    if visible != [] {
      var init := visible[..|visible| - 1];
      NoMismatch(r, init);
      assert forall i | 0 <= i < |init| :: init[i] == visible[i];
    }
  }

  lemma NoMismatchConcat(r: Receipt, a: seq<(Failure, bool)>, b: seq<(Failure, bool)>)
    ensures FirstMismatch(r, a + b).None? <==> FirstMismatch(r, a).None? && FirstMismatch(r, b).None?
  {
    NoMismatch(r, a);
    NoMismatch(r, b);
    NoMismatch(r, a + b);
    hide FirstMismatch, Has;
    var all := a + b;
    assert forall i | 0 <= i < |a| :: all[i] == a[i];
    assert forall i | 0 <= i < |b| :: all[|a| + i] == b[i];
  }

  lemma FourAgree(r: Receipt, v: seq<(Failure, bool)>)
    requires |v| == 4
    ensures FirstMismatch(r, v).None? <==>
      v[0].1 == Has(r, v[0].0) && v[1].1 == Has(r, v[1].0) && v[2].1 == Has(r, v[2].0) && v[3].1 == Has(r, v[3].0)
  {
    NoMismatch(r, v);
    hide FirstMismatch, Has;
  }

  lemma VisibleAgrees(r: Receipt)
    requires r.segments != []
    ensures FirstMismatch(r, Visible(r)).None? <==>
      && (Has(r, TimeInvalid) <==> TimeUnreadable(r)) && (Has(r, EndMustFollow) <==> TimeReversed(r))
      && (Has(r, OutTimeInvalid) <==> OutTime(r.progress.outTime).None?) && (Has(r, OutTimeDiffers) <==> OutTimeOff(r))
      && (Has(r, DensityDiffers) <==> DensityOff(r))
        && (Has(r, NoFrames) <==> r.progress.frame.None? || r.progress.frame.value <= 0)
      && (Has(r, Dropped) <==> r.progress.drop != Some(0)) && (Has(r, Duplicated) <==> r.progress.dup != Some(0))
      && (Has(r, NoEnd) <==> !Ended(r.progress)) && (Has(r, ForcedOrMissing) <==> r.forced)
      && (Has(r, StopReasonInvalid) <==> !r.stopReason.Allowed?)
        && (Has(r, StatusMismatch(ExitCode)) <==> r.exitCode != Some(0))
  {
    hide Has, TimeUnreadable, TimeReversed, OutTime, OutTimeOff, DensityOff, Ended, FirstMismatch;
    FourAgree(r, VisibleClock(r));
    FourAgree(r, VisibleFrames(r));
    FourAgree(r, VisibleEnd(r));
    NoMismatchConcat(r, VisibleClock(r), VisibleFrames(r));
    NoMismatchConcat(r, VisibleClock(r) + VisibleFrames(r), VisibleEnd(r));
  }

  lemma VerdictAccepted(rec: Recording, p: Plan, segments: seq<Segment>, progress: Progress)
    requires segments != []
    requires !(OutTime(progress.outTime).None? && progress.frame.Some?
      && Sparse(progress.frame.value, FinalPts(segments)))
    ensures VerdictProblem(ReceiptOf(rec, p, segments, progress)).None? <==>
      !(OutTime(progress.outTime).Some? && progress.frame.None? && Sparse(0, FinalPts(segments)))
  {
    BlockersShow(rec, p, segments, progress);
    CleanHasNone(rec, p, segments, progress);
    var r := ReceiptOf(rec, p, segments, progress);
    VisibleAgrees(r);
    hide Failures, Has, Sparse, OutTime, Wrapped, PlanBlockers, MetadataOf, FirstMismatch, Visible, AnyFailure;
  }

  // ---------------------------------------------------------------- agreement

  /**
   What a caller can see in the recording: no empty or undated segment, and clock and frame count present together where
   the density matters.
   */
  predicate Agreeable(segments: seq<Segment>, progress: Progress)
    requires segments != []
  {
    && Substantial(segments)
    && (if OutTime(progress.outTime).Some? then progress.frame.Some? || FinalPts(segments) <= 0.1
        else progress.frame.None? || !Sparse(progress.frame.value, FinalPts(segments)))
  }

  /**
   The validator accepts a finalized receipt, clean or failed, exactly for the agreeable recordings. In particular
   it accepts every recording of nonempty dated segments that has both a frame count and a readable clock.
   */
  lemma ProducerAndValidatorAgree(rec: Recording, p: Plan)
    requires Finalized(rec, p).Ok?
    ensures var r := Finalized(rec, p).value;
      && r.segments != []
      && (FirstProblem(r).None? <==> Agreeable(r.segments, r.progress))
      && (Substantial(r.segments) && r.progress.frame.Some? && OutTime(r.progress.outTime).Some? ==>
        FirstProblem(r).None?)
  {
    hide ReceiptOf, FirstProblem, Agreeable, OutTime, Substantial, Placed;
    var segments, progress := Safe(rec.dir, rec.rows).value, ProgressOf(rec.lines).value;
    SegmentsPlaced(rec.dir, rec.rows, |rec.rows|);
    assert Readings(segments, progress);
    ReceiptEcho(rec, p, segments, progress);
    BuiltReceiptAgrees(rec, p, segments, progress);
  }

  lemma BuiltReceiptAgrees(rec: Recording, p: Plan, segments: seq<Segment>, progress: Progress)
    requires Readings(segments, progress)
    ensures var r := ReceiptOf(rec, p, segments, progress);
      && (FirstProblem(r).None? <==> Agreeable(segments, progress))
      && (Substantial(segments) && progress.frame.Some? && OutTime(progress.outTime).Some? ==> FirstProblem(r).None?)
  {
    assert Placed(segments, |segments| - 1);
    assert FinalPts(segments) > 0.0;
    assert Sparse(0, FinalPts(segments)) <==> FinalPts(segments) > 0.1;
    hide ReceiptOf, ListProblem, FileProblem, ProgressProblem, VerdictProblem, OutTime, Sparse, Substantial, Placed;
    ListsAccepted(rec, p, segments, progress);
    FilesAccepted(rec, p, segments, progress);
    ProgressAccepted(rec, p, segments, progress);
    if !(OutTime(progress.outTime).None? && progress.frame.Some? && Sparse(progress.frame.value, FinalPts(segments))) {
      VerdictAccepted(rec, p, segments, progress);
    }
    ReceiptEcho(rec, p, segments, progress);
  }

  // ---------------------------------------------------------------- concrete recordings

  const NOUGHT := Text(Some(0), [], false)

  /** One minute in one file, stopped as planned, with an untouched binary and the given file and progress log. */
  function Minute(size: nat, mtime: int, frames: Option<Text>, clock: Option<Text>): Recording
  {
    Recording(
      map[Numbered(0) := Some(File(0, size, mtime))], [CsvRow(3, Numbered(0), At(0.0), At(60.0))],
      (if frames.Some? then [Assign(FrameField, frames.value)] else [])
      + (if clock.Some? then [Assign(OutTimeField, clock.value)] else [])
      + [Assign(DropField, NOUGHT), Assign(DupField, NOUGHT), Assign(ProgressField, Text(None, [], true))],
      Status({}, Some(0), Allowed(0), Some(1), Some(size), Some(0), Some(60 * MICROS)), Hashed(true), [1, 1, 1, 1])
  }

  function MinutePlan(): Plan
  {
    Plan(1000, 60, 5, 0, 60 * MICROS, Some(0))
  }

  function OneFile(size: nat, mtime: int): seq<Segment>
  {
    [Segment(0, Numbered(0), 0.0, 60.0, None, 0, size, mtime)]
  }

  lemma MinuteProgress(size: nat, mtime: int, frames: Option<Text>, clock: Option<Text>)
    requires frames.Some? ==> frames.value.number.Some? && frames.value.number.value >= 0
    ensures ProgressOf(Minute(size, mtime, frames, clock).lines) ==
      Ok(Progress(if frames.Some? then frames.value.number else None, Some(0), Some(0), clock,
        Some(Text(None, [], true))))
  {
    var a: seq<Line> := if frames.Some? then [Assign(FrameField, frames.value)] else [];
    var b: seq<Line> := a + if clock.Some? then [Assign(OutTimeField, clock.value)] else [];
    var c, d := Assign(DropField, NOUGHT), Assign(DupField, NOUGHT);
    var e := Assign(ProgressField, Text(None, [], true));
    var lines := Minute(size, mtime, frames, clock).lines;
    assert lines == b + [c] + [d] + [e];
    forall f
      ensures LastOf(lines, f) ==
        if f == ProgressField then Some(e.text) else if f == DupField || f == DropField then Some(NOUGHT)
        else if f == OutTimeField then clock else if f == FrameField then frames else None
    {
      LastSnoc(b + [c] + [d], e, f);
      LastSnoc(b + [c], d, f);
      LastSnoc(b, c, f);
      if clock.Some? { LastSnoc(a, Assign(OutTimeField, clock.value), f); } else { assert b == a; }
      if frames.Some? { LastSnoc([], a[0], f); assert [] + [a[0]] == a; }
    }
    hide LastOf;
  }

  lemma LastSnoc(lines: seq<Line>, l: Line, f: Field)
    ensures LastOf(lines + [l], f) == if l.Assign? && l.field == f then Some(l.text) else LastOf(lines, f)
  {
    assert (lines + [l])[..|lines|] == lines;
  }

  lemma MinuteFinalizes(size: nat, mtime: int, frames: Option<Text>, clock: Option<Text>)
    requires frames.Some? ==> frames.value.number.Some? && frames.value.number.value >= 0
    ensures var rec := Minute(size, mtime, frames, clock);
      && ProgressOf(rec.lines).Ok?
      && Finalized(rec, MinutePlan()) ==
        Ok(ReceiptOf(rec, MinutePlan(), OneFile(size, mtime), ProgressOf(rec.lines).value))
  {
    hide ReceiptOf, ProgressOf;
    MinuteProgress(size, mtime, frames, clock);
    var rec := Minute(size, mtime, frames, clock);
    assert SegmentsOf(rec.dir, rec.rows, 0) == Ok([]);
    assert SegmentAt(rec.dir, rec.rows, None, 0) == Ok(OneFile(size, mtime)[0]);
    assert [] + [OneFile(size, mtime)[0]] == OneFile(size, mtime);
    assert NamesUpTo(1) == {Numbered(0)};
    assert rec.dir.Keys == NamesUpTo(1);
  }

  lemma {:induction false} NoStatusFailure(s: Status, n: nat)
    requires s.wrong == {} && s.exitCode == Some(0) && n <= |STATUS_FIELDS|
    ensures StatusFailures(s, n) == []
  {
    if n > 0 { NoStatusFailure(s, n - 1); }
  }

  function Clock(): Text
  {
    Text(None, [Whole(0), Whole(1), Whole(0)], false)
  }

  function Frames(n: int): Text
  {
    Text(Some(n), [], false)
  }

  /** With its 1800 frames and its clock, the minute is clean whatever its file looks like. */
  lemma FullMinuteIsClean(size: nat, mtime: int, progress: Progress)
    requires size <= 1000
    requires progress == Progress(Some(1800), Some(0), Some(0), Some(Clock()), Some(Text(None, [], true)))
    ensures ReceiptOf(Minute(size, mtime, Some(Frames(1800)), Some(Clock())), MinutePlan(), OneFile(size, mtime),
      progress).clean
  {
    var rec := Minute(size, mtime, Some(Frames(1800)), Some(Clock()));
    NoStatusFailure(rec.status, |STATUS_FIELDS|);
    hide StatusFailures, Wrapped, PlanBlockers, MetadataOf;
    assert OutTime(Some(Clock())) == Some(60.0);
    assert OneFile(size, mtime)[..0] == [];
    assert TotalBytes(OneFile(size, mtime)) == size;
    assert !Sparse(1800, 60.0);
    hide OutTime, TotalBytes, Sparse;
    assert Apart(60.0, 60.0) == 0.0;
    assert SizeFailures(MinutePlan(), rec.status, OneFile(size, mtime)) == [];
    assert TimelineFailures(progress, 60.0) == [];
    assert TimeFailures(MinutePlan(), rec.status) == [] && ProgressFailures(progress) == [];
    assert StopFailures(rec.binary, rec.status.stopReason) == [];
  }

  ghost predicate RefusedAs(rec: Recording, p: Plan, clean: bool)
  {
    var r := Finalized(rec, p);
    r.Ok? && r.value.clean == clean && FirstProblem(r.value).Some?
  }

  /**
   Four recordings of one planned minute whose finalization succeeds and whose receipt the validator refuses. The
   producer quarantines the first two: a readable clock without a frame count, and a frame count without a readable
   clock. It calls the other two clean: an empty segment file, and a file dated before the epoch.
   */
  lemma RefusedReceipts()
    ensures RefusedAs(Minute(1, 0, None, Some(Clock())), MinutePlan(), false)
    ensures RefusedAs(Minute(1, 0, Some(Frames(1)), None), MinutePlan(), false)
    ensures RefusedAs(Minute(0, 0, Some(Frames(1800)), Some(Clock())), MinutePlan(), true)
    ensures RefusedAs(Minute(1, -1, Some(Frames(1800)), Some(Clock())), MinutePlan(), true)
  {
    RefusedMinute(1, 0, None, Some(Clock()));
    RefusedMinute(1, 0, Some(Frames(1)), None);
    RefusedMinute(0, 0, Some(Frames(1800)), Some(Clock()));
    RefusedMinute(1, -1, Some(Frames(1800)), Some(Clock()));
    hide Minute, Finalized, FirstProblem, ProgressOf, ReceiptOf;
    MinuteProgress(0, 0, Some(Frames(1800)), Some(Clock()));
    MinuteProgress(1, -1, Some(Frames(1800)), Some(Clock()));
    FullMinuteIsClean(0, 0, ProgressOf(Minute(0, 0, Some(Frames(1800)), Some(Clock())).lines).value);
    FullMinuteIsClean(1, -1, ProgressOf(Minute(1, -1, Some(Frames(1800)), Some(Clock())).lines).value);
  }

  lemma RefusedMinute(size: nat, mtime: int, frames: Option<Text>, clock: Option<Text>)
    requires clock == None || clock == Some(Clock())
    requires frames == None || frames == Some(Frames(1)) || frames == Some(Frames(1800))
    requires (frames == None && clock != None) || (frames == Some(Frames(1)) && clock == None) || size == 0 || mtime < 0
    ensures var rec := Minute(size, mtime, frames, clock);
      && ProgressOf(rec.lines).Ok?
      && Finalized(rec, MinutePlan()) ==
        Ok(ReceiptOf(rec, MinutePlan(), OneFile(size, mtime), ProgressOf(rec.lines).value))
      && FirstProblem(Finalized(rec, MinutePlan()).value).Some?
      && ((frames.None? || clock.None?) ==> !Finalized(rec, MinutePlan()).value.clean)
  {
    hide Minute, ProgressOf, Finalized, ReceiptOf, FirstProblem, Agreeable, OneFile;
    var rec, p, segments := Minute(size, mtime, frames, clock), MinutePlan(), OneFile(size, mtime);
    MinuteFinalizes(size, mtime, frames, clock);
    MinuteProgress(size, mtime, frames, clock);
    var progress := ProgressOf(rec.lines).value;
    Disagreeable(size, mtime, progress, frames, clock);
    BuiltReceiptAgrees(rec, p, segments, progress);
    if frames.None? || clock.None? { Quarantined(rec, p, segments, progress); }
  }

  lemma Disagreeable(size: nat, mtime: int, progress: Progress, frames: Option<Text>, clock: Option<Text>)
    requires progress.outTime == clock && progress.frame == if frames.Some? then frames.value.number else None
    requires progress.drop == Some(0) && progress.dup == Some(0)
    requires clock == None || clock == Some(Clock())
    requires frames == None || frames == Some(Frames(1)) || frames == Some(Frames(1800))
    requires (frames == None && clock != None) || (frames == Some(Frames(1)) && clock == None) || size == 0 || mtime < 0
    ensures Readings(OneFile(size, mtime), progress) && !Agreeable(OneFile(size, mtime), progress)
    ensures OutTime(progress.outTime).None? <==> clock.None?
  {
    var segments := OneFile(size, mtime);
    assert Placed(segments, 0);
    assert OutTime(Some(Clock())) == Some(60.0);
    assert Sparse(1, 60.0);
    hide OutTime, Sparse;
    if size == 0 || mtime < 0 { assert !Substantial(segments); }
  }

  lemma Quarantined(rec: Recording, p: Plan, segments: seq<Segment>, progress: Progress)
    requires segments != [] && (progress.frame.None? || OutTime(progress.outTime).None?)
    ensures !ReceiptOf(rec, p, segments, progress).clean
  {
    hide Has, ReceiptOf, OutTime;
    BlockersShow(rec, p, segments, progress);
    CleanHasNone(rec, p, segments, progress);
  }
}
