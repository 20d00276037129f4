/**
 What a capture receipt says and when it is accepted, in terms of the files, the manifest rows, the progress lines, the
 status and the plan.
 */
module ReceiptRules {
  import opened Common
  import opened CaptureReceipt

  // ---------------------------------------------------------------- segments

  /** Row `i` names the `i`-th file, which was hashed, and its times are finite, forward, and join the row before. */
  predicate RowFits(dir: Directory, rows: seq<CsvRow>, i: nat)
    requires i < |rows|
  {
    && rows[i].columns == 3 && rows[i].name == Numbered(i)
    && rows[i].start.At? && rows[i].end.At? && 0.0 <= rows[i].start.seconds < rows[i].end.seconds
    && (i == 0 ==> rows[0].start.seconds == 0.0)
    && (i > 0 ==> rows[i - 1].end.At? && 0.0 <= rows[i].start.seconds - rows[i - 1].end.seconds <= 0.002)
    && Numbered(i) in dir && dir[Numbered(i)].Some?
  }

  /** The segment of a row: its times, the gap before it, and what was measured of its file. */
  predicate Copies(dir: Directory, rows: seq<CsvRow>, i: nat, s: Segment)
    requires i < |rows|
  {
    && s.index == i && s.name == Numbered(i) && rows[i].start == At(s.start) && rows[i].end == At(s.end)
    && s.size >= 0 && Numbered(i) in dir && dir[Numbered(i)] == Some(File(s.sha, s.size, s.mtime))
    && (if i == 0 then s.gap == None
        else rows[i - 1].end.At? && s.gap == Some(s.start - rows[i - 1].end.seconds))
  }

  lemma {:induction false} RowsExactly(dir: Directory, rows: seq<CsvRow>, n: nat)
    requires n <= |rows|
    ensures SegmentsOf(dir, rows, n).Ok? <==> forall i | 0 <= i < n :: RowFits(dir, rows, i)
    ensures SegmentsOf(dir, rows, n).Ok? ==>
      forall i | 0 <= i < n :: Copies(dir, rows, i, SegmentsOf(dir, rows, n).value[i])
  {
    if n > 0 {
      RowsExactly(dir, rows, n - 1);
      var before := SegmentsOf(dir, rows, n - 1);
      if before.Ok? {
        hide SegmentsOf;
        var s := SegmentAt(dir, rows, if n == 1 then None else Some(before.value[n - 2].end), n - 1);
        if n > 1 { assert Copies(dir, rows, n - 2, before.value[n - 2]); }
        assert s.Ok? <==> RowFits(dir, rows, n - 1);
      }
    }
  }

  /** The segments are accepted exactly when every row fits and the files found are exactly the rows' files. */
  lemma SafeExactly(dir: Directory, rows: seq<CsvRow>)
    ensures Safe(dir, rows).Ok? <==>
      && rows != [] && (forall i | 0 <= i < |rows| :: RowFits(dir, rows, i))
      && forall x | x in dir :: x.Numbered? && 0 <= x.index < |rows|
    ensures Safe(dir, rows).Ok? ==>
      var segments := Safe(dir, rows).value;
      |segments| == |rows| && forall i | 0 <= i < |rows| :: Copies(dir, rows, i, segments[i])
  {
    RowsExactly(dir, rows, |rows|);
    hide SegmentsOf, Copies;
    if forall i | 0 <= i < |rows| :: RowFits(dir, rows, i) {
      forall i | 0 <= i < |rows| ensures Numbered(i) in dir { assert RowFits(dir, rows, i); }
      hide RowFits;
      assert dir.Keys == NamesUpTo(|rows|) <==> forall x | x in dir :: x.Numbered? && 0 <= x.index < |rows|;
    }
  }

  // ---------------------------------------------------------------- progress

  /** Line `i` is the last one to assign the field. */
  predicate AssignsLast(lines: seq<Line>, f: Field, i: int)
  {
    && 0 <= i < |lines| && lines[i].Assign? && lines[i].field == f
    && forall j | i < j < |lines| :: !(lines[j].Assign? && lines[j].field == f)
  }

  lemma {:induction false} LastExactly(lines: seq<Line>, f: Field)
    ensures LastOf(lines, f).None? <==> forall i | 0 <= i < |lines| :: !(lines[i].Assign? && lines[i].field == f)
    ensures forall i | AssignsLast(lines, f, i) :: LastOf(lines, f) == Some(lines[i].text)
  {
    if lines != [] {
      var n := |lines| - 1;
      LastExactly(lines[..n], f);
      forall i | AssignsLast(lines, f, i) ensures LastOf(lines, f) == Some(lines[i].text) {
        if i < n {
          assert lines[n] == lines[|lines| - 1];
          assert AssignsLast(lines[..n], f, i);
        }
      }
    }
  }

  predicate Natural(t: Option<Text>)
  {
    t.None? || (t.value.number.Some? && t.value.number.value >= 0)
  }

  function Number(t: Option<Text>): Option<int>
  {
    if t.None? then None else t.value.number
  }

  /** The three counters, if last assigned at all, hold natural numbers; the first that does not is the error. */
  lemma CountersExactly(lines: seq<Line>)
    ensures var frame, drop, dup := LastOf(lines, FrameField), LastOf(lines, DropField), LastOf(lines, DupField);
      && (ProgressOf(lines).Ok? <==> Natural(frame) && Natural(drop) && Natural(dup))
      && (ProgressOf(lines).Ok? ==>
            ProgressOf(lines).value == Progress(Number(frame), Number(drop), Number(dup), LastOf(lines, OutTimeField),
                                                LastOf(lines, ProgressField)))
      && (ProgressOf(lines).Raised? ==>
            ProgressOf(lines).error == InvalidProgress(if !Natural(frame) then FrameField
                                                       else if !Natural(drop) then DropField else DupField))
  {
    hide LastOf;
  }

  /** A clock text with three parts that stands for `x` seconds. */
  predicate Clock(t: Option<Text>, x: real)
  {
    t.Some? && |t.value.clock| == 3 &&
    var h, m, s := t.value.clock[0], t.value.clock[1], t.value.clock[2];
    && h.Whole? && h.n >= 0 && m.Whole? && 0 <= m.n <= 59
    && (|| (s.Whole? && 0 <= s.n <= 59 && x == (3600 * h.n + 60 * m.n + s.n) as real)
        || (s.Fraction? && 0.0 <= s.x < 60.0 && x == (3600 * h.n + 60 * m.n) as real + s.x))
  }

  lemma ClockExactly(t: Option<Text>, x: real)
    ensures OutTime(t) == Some(x) <==> Clock(t, x)
  {}

  /** Off the expected count of 30 frames a second by more than three frames and by more than a tenth. */
  predicate OffDensity(frame: int, seconds: real)
  {
    var off := frame as real - 30.0 * seconds;
    (off > 3.0 || off < -3.0) && (off > 3.0 * seconds || off < -3.0 * seconds)
  }

  lemma DensityExactly(frame: int, seconds: real)
    requires seconds >= 0.0
    ensures Sparse(frame, seconds) <==> OffDensity(frame, seconds)
  {}

  // ---------------------------------------------------------------- the producer's failures

  function Bytes(segments: seq<Segment>): int
  {
    if segments == [] then 0 else segments[0].size + Bytes(segments[1..])
  }

  lemma {:induction false} BytesSnoc(segments: seq<Segment>, s: Segment)
    ensures Bytes(segments + [s]) == Bytes(segments) + s.size
  {
    if segments != [] {
      assert (segments + [s])[1..] == segments[1..] + [s];
      BytesSnoc(segments[1..], s);
    }
  }

  lemma {:induction false} BytesExactly(segments: seq<Segment>)
    ensures TotalBytes(segments) == Bytes(segments)
  {
    if segments != [] {
      var n := |segments| - 1;
      BytesExactly(segments[..n]);
      BytesSnoc(segments[..n], segments[n]);
      assert segments == segments[..n] + [segments[n]];
    }
  }

  predicate Within(a: real, b: real, d: real)
  {
    -d <= a - b <= d
  }

  /** What each failure means. */
  ghost predicate Fails(rec: Recording, p: Plan, segments: seq<Segment>, progress: Progress, f: Failure)
    requires segments != []
  {
    var s, pts := rec.status, segments[|segments| - 1].end;
    match f
    case StatusMismatch(field) => if field == ExitCode then s.exitCode != Some(0) else field in s.wrong
    case BinaryChanged => rec.binary == Hashed(false)
    case BinaryUnavailable => rec.binary == Unavailable
    case StopReasonInvalid => s.stopReason == NotText || s.stopReason.OtherText?
    case ForcedOrMissing => s.stopReason == NotText || s.stopReason == OtherText(true)
    case SegmentCountDiffers => s.segmentFiles != Some(|segments|)
    case BytesDiffer => s.recordedBytes != Some(Bytes(segments))
    case SizeExceeded => Bytes(segments) > p.sizeLimit
    case PtsExceeded => pts - p.duration as real > 0.1
    case OutTimeInvalid => forall x :: !Clock(progress.outTime, x)
    case OutTimeDiffers => exists x :: Clock(progress.outTime, x) && !Within(x, pts, 0.1)
    case DensityDiffers => (exists x :: Clock(progress.outTime, x))
                           && OffDensity(if progress.frame.Some? then progress.frame.value else 0, pts)
    case TimeInvalid => s.started == None || s.ended == None
    case EndMustFollow => s.started.Some? && s.ended.Some? && s.ended.value <= s.started.value
    case OutsideWindow => s.started.Some? && s.ended.Some?
                          && (s.started.value < p.authorized || p.expires < s.ended.value)
    case WallTimeExceeded => s.started.Some? && s.ended.Some?
                             && s.ended.value > s.started.value + 1000000 * (p.duration + p.grace + 1)
    case NoFrames => progress.frame == None || progress.frame.value <= 0
    case Dropped => progress.drop != Some(0)
    case Duplicated => progress.dup != Some(0)
    case NoEnd => progress.progress == None || !progress.progress.value.isEnd
  }

  lemma AllStatusFields(f: StatusField)
    ensures f in STATUS_FIELDS
  {
    match f
    case State => assert STATUS_FIELDS[0] == f;
    case ExitCode => assert STATUS_FIELDS[1] == f;
    case Device => assert STATUS_FIELDS[2] == f;
    case Platform => assert STATUS_FIELDS[3] == f;
    case DurationLimit => assert STATUS_FIELDS[4] == f;
    case SizeLimit => assert STATUS_FIELDS[5] == f;
    case MinimumFree => assert STATUS_FIELDS[6] == f;
    case Audio => assert STATUS_FIELDS[7] == f;
    case Recognition => assert STATUS_FIELDS[8] == f;
    case Strategy => assert STATUS_FIELDS[9] == f;
    case FfmpegPath => assert STATUS_FIELDS[10] == f;
    case FfmpegSha => assert STATUS_FIELDS[11] == f;
    case DshowName => assert STATUS_FIELDS[12] == f;
    case Command => assert STATUS_FIELDS[13] == f;
  }

  lemma {:induction false} StatusExactly(s: Status, n: nat, f: Failure)
    requires n <= |STATUS_FIELDS|
    ensures f in StatusFailures(s, n) <==>
      f.StatusMismatch? && f.field in STATUS_FIELDS[..n]
      && (if f.field == ExitCode then s.exitCode != Some(0) else f.field in s.wrong)
  {
    if n > 0 {
      StatusExactly(s, n - 1, f);
      assert STATUS_FIELDS[..n] == STATUS_FIELDS[..n - 1] + [STATUS_FIELDS[n - 1]];
    }
  }

  lemma TimelineExactly(rec: Recording, p: Plan, segments: seq<Segment>, progress: Progress, f: Failure)
    requires segments != [] && segments[|segments| - 1].end >= 0.0
    ensures f in TimelineFailures(progress, FinalPts(segments)) <==>
      (f == OutTimeInvalid || f == OutTimeDiffers || f == DensityDiffers) && Fails(rec, p, segments, progress, f)
  {
    var out, pts := OutTime(progress.outTime), FinalPts(segments);
    forall x ensures OutTime(progress.outTime) == Some(x) <==> Clock(progress.outTime, x) {
      ClockExactly(progress.outTime, x);
    }
    DensityExactly(FrameOrZero(progress), pts);
    hide OutTime, Clock, Sparse, OffDensity, StatusFailures;
    if out.Some? {
      assert Clock(progress.outTime, out.value);
      assert forall x | Clock(progress.outTime, x) :: x == out.value;
    }
  }

  lemma StopExactly(rec: Recording, p: Plan, segments: seq<Segment>, progress: Progress, f: Failure)
    requires segments != []
    ensures f in StopFailures(rec.binary, rec.status.stopReason) <==>
      (f == BinaryChanged || f == BinaryUnavailable || f == StopReasonInvalid || f == ForcedOrMissing)
      && Fails(rec, p, segments, progress, f)
  {}

  lemma SizeExactly(rec: Recording, p: Plan, segments: seq<Segment>, progress: Progress, f: Failure)
    requires segments != []
    ensures f in SizeFailures(p, rec.status, segments) <==>
      (f == SegmentCountDiffers || f == BytesDiffer || f == SizeExceeded || f == PtsExceeded)
      && Fails(rec, p, segments, progress, f)
  {
    BytesExactly(segments);
    hide Bytes, TotalBytes;
  }

  lemma TimeExactly(rec: Recording, p: Plan, segments: seq<Segment>, progress: Progress, f: Failure)
    requires segments != []
    ensures f in TimeFailures(p, rec.status) <==>
      (f == TimeInvalid || f == EndMustFollow || f == OutsideWindow || f == WallTimeExceeded)
      && Fails(rec, p, segments, progress, f)
  {}

  lemma EndExactly(rec: Recording, p: Plan, segments: seq<Segment>, progress: Progress, f: Failure)
    requires segments != []
    ensures f in ProgressFailures(progress) <==>
      (f == NoFrames || f == Dropped || f == Duplicated || f == NoEnd) && Fails(rec, p, segments, progress, f)
  {}

  lemma StatusPhaseExactly(rec: Recording, p: Plan, segments: seq<Segment>, progress: Progress, f: Failure)
    requires segments != []
    ensures f in StatusFailures(rec.status, |STATUS_FIELDS|) <==>
      f.StatusMismatch? && Fails(rec, p, segments, progress, f)
  {
    StatusExactly(rec.status, |STATUS_FIELDS|, f);
    if f.StatusMismatch? { AllStatusFields(f.field); }
    assert STATUS_FIELDS[..|STATUS_FIELDS|] == STATUS_FIELDS;
  }

  /** The producer reports exactly the failures that occurred. */
  lemma FailuresExactly(rec: Recording, p: Plan, segments: seq<Segment>, progress: Progress, f: Failure)
    requires segments != [] && segments[|segments| - 1].end >= 0.0
    ensures f in Failures(rec, p, segments, progress) <==> Fails(rec, p, segments, progress, f)
  {
    TimelineExactly(rec, p, segments, progress, f);
    StopExactly(rec, p, segments, progress, f);
    SizeExactly(rec, p, segments, progress, f);
    TimeExactly(rec, p, segments, progress, f);
    EndExactly(rec, p, segments, progress, f);
    StatusPhaseExactly(rec, p, segments, progress, f);
    hide Fails, StatusFailures, StopFailures, SizeFailures, TimelineFailures, TimeFailures, ProgressFailures;
    var failures := Failures(rec, p, segments, progress);
    assert failures == ((((StatusFailures(rec.status, |STATUS_FIELDS|)
      + StopFailures(rec.binary, rec.status.stopReason)) + SizeFailures(p, rec.status, segments))
      + TimelineFailures(progress, FinalPts(segments))) + TimeFailures(p, rec.status)) + ProgressFailures(progress);
  }

  /**
   A recording is finalized exactly when its rows and counters are accepted; the receipt is clean exactly when nothing
   failed, and it otherwise carries the failures as blockers, before those every receipt has.
   */
  lemma FinalizedExactly(rec: Recording, p: Plan)
    ensures Finalized(rec, p).Ok? <==> Safe(rec.dir, rec.rows).Ok? && ProgressOf(rec.lines).Ok?
    ensures Finalized(rec, p).Ok? ==>
      var r, segments, progress := Finalized(rec, p).value, Safe(rec.dir, rec.rows).value, ProgressOf(rec.lines).value;
      && segments != []
      && (r.clean <==> forall f :: !Fails(rec, p, segments, progress, f))
      && (forall f :: Failed(f) in r.blockers <==> Fails(rec, p, segments, progress, f))
      && (FingerprintPending in r.blockers <==> p.fingerprint == None)
      && (forall i: nat :: Calibration(i) in r.blockers <==> i < 12)
      && (forall b | b in r.blockers :: !b.UnknownBlocker?)
      && r.integrity == (if r.clean then HashedNotDecoded else FailedOrPartial)
      && r.segments == segments && r.manifest == segments && r.progress == progress && r.fingerprint == p.fingerprint
      && r.started == rec.status.started && r.ended == rec.status.ended && r.exitCode == rec.status.exitCode
      && r.stopReason == rec.status.stopReason
      && (r.forced <==> r.stopReason == NotText || r.stopReason == OtherText(true))
      && r.metadata ==
        [MetaFile(StatusFile, StatusFile, rec.sizes[0]), MetaFile(SegmentsCsv, SegmentsCsv, rec.sizes[1]),
                        MetaFile(ProgressLog, ProgressLog, rec.sizes[2]),
                          MetaFile(CaptureLog, CaptureLog, rec.sizes[3])]
  {
    SafeExactly(rec.dir, rec.rows);
    hide RowFits, ProgressOf, Fails, Failures;
    if Finalized(rec, p).Ok? {
      var segments, progress := Safe(rec.dir, rec.rows).value, ProgressOf(rec.lines).value;
      assert segments != [] && segments[|segments| - 1].end >= 0.0 by { LastEnds(rec.dir, rec.rows); }
      hide Safe;
      forall f ensures f in Failures(rec, p, segments, progress) <==> Fails(rec, p, segments, progress, f) {
        FailuresExactly(rec, p, segments, progress, f);
      }
      var failures := Failures(rec, p, segments, progress);
      if failures != [] { assert failures[0] in failures; }
      BlockersExactly(failures, p);
      hide PlanBlockers, Wrapped;
    }
  }

  lemma LastEnds(dir: Directory, rows: seq<CsvRow>)
    requires Safe(dir, rows).Ok?
    ensures var segments := Safe(dir, rows).value; segments != [] && segments[|segments| - 1].end >= 0.0
  {
    SafeExactly(dir, rows);
    hide Safe;
    var n := |rows| - 1;
    assert RowFits(dir, rows, n) && Copies(dir, rows, n, Safe(dir, rows).value[n]);
  }

  lemma BlockersExactly(failures: seq<Failure>, p: Plan)
    ensures var all := Wrapped(failures) + PlanBlockers(p);
      && (forall f :: Failed(f) in all <==> f in failures)
      && (FingerprintPending in all <==> p.fingerprint == None)
      && (forall i: nat :: Calibration(i) in all <==> i < 12)
      && (forall b | b in all :: !b.UnknownBlocker?)
  {
    var wrapped, plan := Wrapped(failures), PlanBlockers(p);
    forall f ensures Failed(f) in wrapped <==> f in failures {
      if f in failures {
        var i :| 0 <= i < |failures| && failures[i] == f;
        assert wrapped[i] == Failed(f);
      }
    }
    var items := seq(CALIBRATION_ITEMS, i requires 0 <= i => Calibration(i));
    forall i: nat ensures Calibration(i) in plan <==> i < 12 {
      if i < 12 { assert items[i] == Calibration(i); }
    }
  }

  // ---------------------------------------------------------------- the validator

  /** No blocker twice, the twelve standing ones, known ones only, and the pending fingerprint when there is none. */
  predicate BlockersFit(r: Receipt)
  {
    && (forall i, j | 0 <= i < j < |r.blockers| :: r.blockers[i] != r.blockers[j])
    && (forall i | 0 <= i < 12 :: Calibration(i) in r.blockers)
    && (forall b | b in r.blockers :: b == FingerprintPending || b.Failed? || (b.Calibration? && b.item < 12))
    && (FingerprintPending in r.blockers <==> r.fingerprint == None)
  }

  predicate Standard(role: Role)
  {
    role == StatusFile || role == SegmentsCsv || role == ProgressLog || role == CaptureLog
  }

  /** Each of the four metadata files once, under its own path. */
  predicate MetadataFits(files: seq<MetaFile>)
  {
    && (forall i | 0 <= i < |files| :: Standard(files[i].role) && files[i].path == files[i].role && files[i].size >= 0)
    && (forall i, j | 0 <= i < j < |files| :: files[i].role != files[j].role)
    && HasFile(files, StatusFile) && HasFile(files, SegmentsCsv) && HasFile(files, ProgressLog)
    && HasFile(files, CaptureLog)
  }

  predicate HasFile(files: seq<MetaFile>, role: Role)
  {
    exists i :: 0 <= i < |files| && files[i].role == role
  }

  /** Numbered segments of positive size whose times run forward and join with the recorded gaps. */
  predicate SegmentsFit(segments: seq<Segment>)
  {
    && segments != [] && segments[0].start == 0.0 && segments[0].gap == None
    && (forall i | 0 <= i < |segments| :: var s := segments[i];
          s.index == i && s.name == Numbered(i) && s.size > 0 && s.mtime >= 0 && 0.0 <= s.start < s.end)
    && (forall i | 0 < i < |segments| ::
          && segments[i].gap.Some? && 0.0 <= segments[i].gap.value <= 0.002
          && segments[i].start == segments[i - 1].end + segments[i].gap.value)
  }

  /** What a receipt shows of a failure, as far as it shows anything of it. */
  ghost predicate Shows(r: Receipt, f: Failure)
  {
    match f
    case TimeInvalid => r.started == None || r.ended == None
    case EndMustFollow => r.started.Some? && r.ended.Some? && r.ended.value <= r.started.value
    case OutTimeInvalid => forall x :: !Clock(r.progress.outTime, x)
    case OutTimeDiffers => r.segments != []
      && exists x :: Clock(r.progress.outTime, x) && !Within(x, r.segments[|r.segments| - 1].end, 0.1)
    case DensityDiffers => r.segments != [] && r.progress.frame.Some?
      && OffDensity(r.progress.frame.value, r.segments[|r.segments| - 1].end)
    case NoFrames => r.progress.frame == None || r.progress.frame.value <= 0
    case Dropped => r.progress.drop != Some(0)
    case Duplicated => r.progress.dup != Some(0)
    case NoEnd => r.progress.progress == None || !r.progress.progress.value.isEnd
    case ForcedOrMissing => r.forced
    case StopReasonInvalid => r.stopReason == NotText || r.stopReason.OtherText?
    case StatusMismatch(field) => field == ExitCode && r.exitCode != Some(0)
    case _ => false
  }

  /** The failures that show in a receipt. */
  predicate Showable(f: Failure)
  {
    f == TimeInvalid || f == EndMustFollow || f == OutTimeInvalid || f == OutTimeDiffers || f == DensityDiffers
    || f == NoFrames || f == Dropped || f == Duplicated || f == NoEnd || f == ForcedOrMissing || f == StopReasonInvalid
    || f == StatusMismatch(ExitCode)
  }

  predicate CountsFit(p: Progress)
  {
    && (p.frame.Some? ==> p.frame.value >= 0) && (p.drop.Some? ==> p.drop.value >= 0)
    && (p.dup.Some? ==> p.dup.value >= 0)
  }

  /** A clean receipt shows and names no failure; a failed one names one, and of the showable ones those it shows. */
  ghost predicate VerdictFits(r: Receipt)
  {
    if r.clean then
      && r.integrity == HashedNotDecoded && (forall b | b in r.blockers :: !b.Failed?)
      && forall f | Showable(f) :: !Shows(r, f)
    else
      && r.integrity == FailedOrPartial && (exists b :: b in r.blockers && b.Failed?)
      && forall f | Showable(f) :: Failed(f) in r.blockers <==> Shows(r, f)
  }

  lemma ListsExactly(r: Receipt)
    ensures ListsOk(r) && (forall i | 0 <= i < |r.blockers| :: Known(r.blockers[i]))
            && (r.fingerprint.None? <==> FingerprintPending in r.blockers) <==>
            BlockersFit(r) && r.segments != []
  {
    if BlockersFit(r) {
      assert Calibration(0) in r.blockers;
      forall i | 0 <= i < |r.blockers| ensures Known(r.blockers[i]) { assert r.blockers[i] in r.blockers; }
    }
  }

  lemma StandardRoles(role: Role)
    ensures role in ROLES <==> Standard(role)
  {
    assert ROLES[0] == StatusFile && ROLES[1] == SegmentsCsv && ROLES[2] == ProgressLog && ROLES[3] == CaptureLog;
  }

  lemma MetadataExactly(files: seq<MetaFile>)
    ensures (forall i | 0 <= i < |files| :: MetaOk(files, i)) && (forall role | role in ROLES :: HasRole(files, role))
            <==> MetadataFits(files)
  {
    forall role ensures role in ROLES <==> Standard(role) { StandardRoles(role); }
    forall role ensures HasRole(files, role) <==> HasFile(files, role) {}
    hide HasRole, HasFile;
    if forall i | 0 <= i < |files| :: MetaOk(files, i) {
      forall i | 0 <= i < |files|
        ensures Standard(files[i].role) && files[i].path == files[i].role && files[i].size >= 0
      {
        assert MetaOk(files, i);
      }
      forall i, j | 0 <= i < j < |files| ensures files[i].role != files[j].role { assert MetaOk(files, j); }
    }
    assert StatusFile in ROLES && SegmentsCsv in ROLES && ProgressLog in ROLES && CaptureLog in ROLES;
  }

  lemma SegmentsExactly(segments: seq<Segment>)
    requires segments != []
    ensures (forall i | 0 <= i < |segments| :: SegmentOk(segments, i)) <==> SegmentsFit(segments)
  {
    if forall i | 0 <= i < |segments| :: SegmentOk(segments, i) {
      assert SegmentOk(segments, 0);
      forall i | 0 <= i < |segments| ensures var s := segments[i];
        s.index == i && s.name == Numbered(i) && s.size > 0 && s.mtime >= 0 && 0.0 <= s.start < s.end
      {
        assert SegmentOk(segments, i);
      }
      forall i | 0 < i < |segments| ensures segments[i].gap.Some? && 0.0 <= segments[i].gap.value <= 0.002
        && segments[i].start == segments[i - 1].end + segments[i].gap.value
      {
        assert SegmentOk(segments, i);
      }
    }
  }

  lemma FilesExactly(r: Receipt)
    requires r.segments != []
    ensures FileProblem(r).None? <==> MetadataFits(r.metadata) && SegmentsFit(r.segments) && r.manifest == r.segments
  {
    MetadataExactly(r.metadata);
    SegmentsExactly(r.segments);
    hide MetadataFits, SegmentsFit, MetaOk, HasRole, SegmentOk;
  }

  lemma TimelineShows(r: Receipt)
    requires r.segments != [] && r.segments[|r.segments| - 1].end >= 0.0
    ensures OutTime(r.progress.outTime).None? <==> Shows(r, OutTimeInvalid)
    ensures OutTimeOff(r) <==> Shows(r, OutTimeDiffers)
    ensures DensityOff(r) <==> Shows(r, DensityDiffers)
  {
    var out := OutTime(r.progress.outTime);
    forall x ensures OutTime(r.progress.outTime) == Some(x) <==> Clock(r.progress.outTime, x) {
      ClockExactly(r.progress.outTime, x);
    }
    if r.progress.frame.Some? { DensityExactly(r.progress.frame.value, FinalPts(r.segments)); }
    hide OutTime, Clock, Sparse, OffDensity;
    if out.Some? {
      assert Clock(r.progress.outTime, out.value);
      assert forall x | Clock(r.progress.outTime, x) :: x == out.value;
    }
  }

  lemma {:induction false} MismatchExactly(r: Receipt, visible: seq<(Failure, bool)>)
    ensures FirstMismatch(r, visible).None? <==>
      forall i | 0 <= i < |visible| :: visible[i].1 <==> Failed(visible[i].0) in r.blockers
  {
    if visible != [] { MismatchExactly(r, visible[..|visible| - 1]); }
  }

  ghost predicate AllShow(r: Receipt, visible: seq<(Failure, bool)>)
  {
    forall i | 0 <= i < |visible| :: Showable(visible[i].0) && (visible[i].1 <==> Shows(r, visible[i].0))
  }

  lemma ClockShows(r: Receipt)
    requires r.segments != [] && r.segments[|r.segments| - 1].end >= 0.0
    ensures AllShow(r, VisibleClock(r))
  {
    TimelineShows(r);
    ComputedShows(r);
    hide OutTimeOff, DensityOff, OutTime, Shows, TimeUnreadable, TimeReversed;
  }

  lemma FramesShow(r: Receipt)
    requires r.segments != [] && r.segments[|r.segments| - 1].end >= 0.0
    ensures AllShow(r, VisibleFrames(r))
  {
    TimelineShows(r);
    ComputedShows(r);
    hide OutTimeOff, DensityOff, OutTime, Shows;
  }

  lemma EndShows(r: Receipt)
    requires r.segments != [] && r.segments[|r.segments| - 1].end >= 0.0
    ensures AllShow(r, VisibleEnd(r))
  {
    ComputedShows(r);
    hide Ended, Shows;
  }

  lemma VisibleShows(r: Receipt)
    requires r.segments != [] && r.segments[|r.segments| - 1].end >= 0.0
    ensures AllShow(r, Visible(r))
  {
    ClockShows(r);
    FramesShow(r);
    EndShows(r);
    hide VisibleClock, VisibleFrames, VisibleEnd, Shows, Showable;
  }

  lemma EveryVisible(r: Receipt, f: Failure)
    requires r.segments != [] && Showable(f)
    ensures exists i :: 0 <= i < |Visible(r)| && Visible(r)[i].0 == f
  {
    hide OutTimeOff, DensityOff, OutTime, Ended;
    var v := Visible(r);
    assert v[0].0 == TimeInvalid && v[1].0 == EndMustFollow && v[2].0 == OutTimeInvalid && v[3].0 == OutTimeDiffers;
    assert v[4].0 == DensityDiffers && v[5].0 == NoFrames && v[6].0 == Dropped && v[7].0 == Duplicated;
    assert v[8].0 == NoEnd && v[9].0 == ForcedOrMissing && v[10].0 == StopReasonInvalid
      && v[11].0 == StatusMismatch(ExitCode);
  }

  lemma NoMismatch(r: Receipt)
    requires r.segments != [] && r.segments[|r.segments| - 1].end >= 0.0
    ensures FirstMismatch(r, Visible(r)).None? <==> forall f | Showable(f) :: Failed(f) in r.blockers <==> Shows(r, f)
  {
    MismatchExactly(r, Visible(r));
    VisibleShows(r);
    forall f | Showable(f) ensures exists i :: 0 <= i < |Visible(r)| && Visible(r)[i].0 == f { EveryVisible(r, f); }
    hide Visible, Shows, Showable, FirstMismatch;
    var v := Visible(r);
    if FirstMismatch(r, v).None? {
      forall f | Showable(f) ensures Failed(f) in r.blockers <==> Shows(r, f) {
        var i :| 0 <= i < |v| && v[i].0 == f;
        assert v[i].1 <==> Failed(v[i].0) in r.blockers;
      }
    }
  }

  /** The checks of the times, the progress and the verdict together. */
  predicate VerdictHolds(r: Receipt)
    requires r.segments != []
  {
    && ProgressProblem(r).None? && VerdictProblem(r).None?
    && !(TimeUnreadable(r) && (r.clean || !Has(r, TimeInvalid)))
    && !(TimeReversed(r) && (r.clean || !Has(r, EndMustFollow)))
  }

  lemma NamedFailure(r: Receipt)
    ensures AnyFailure(r) <==> exists b :: b in r.blockers && b.Failed?
  {
    if b :| b in r.blockers && b.Failed? {
      var i :| 0 <= i < |r.blockers| && r.blockers[i] == b;
      assert r.blockers[i].Failed?;
    }
  }

  /** The conditions the validator computes are what the receipt shows. */
  lemma ComputedShows(r: Receipt)
    requires r.segments != [] && r.segments[|r.segments| - 1].end >= 0.0
    ensures TimeUnreadable(r) <==> Shows(r, TimeInvalid)
    ensures TimeReversed(r) <==> Shows(r, EndMustFollow)
    ensures r.progress.frame.None? || r.progress.frame.value <= 0 <==> Shows(r, NoFrames)
    ensures r.progress.drop != Some(0) <==> Shows(r, Dropped)
    ensures r.progress.dup != Some(0) <==> Shows(r, Duplicated)
    ensures Ended(r.progress) <==> !Shows(r, NoEnd)
    ensures r.forced <==> Shows(r, ForcedOrMissing)
    ensures r.stopReason.Allowed? <==> !Shows(r, StopReasonInvalid)
    ensures r.exitCode != Some(0) <==> Shows(r, StatusMismatch(ExitCode))
  {}

  lemma NothingShows(r: Receipt)
    ensures (forall f | Showable(f) :: !Shows(r, f)) <==>
      && !Shows(r, TimeInvalid) && !Shows(r, EndMustFollow) && !Shows(r, OutTimeInvalid) && !Shows(r, OutTimeDiffers)
      && !Shows(r, DensityDiffers) && !Shows(r, NoFrames) && !Shows(r, Dropped) && !Shows(r, Duplicated)
      && !Shows(r, NoEnd) && !Shows(r, ForcedOrMissing) && !Shows(r, StopReasonInvalid)
      && !Shows(r, StatusMismatch(ExitCode))
  {
    hide Shows;
  }

  lemma CleanExactly(r: Receipt)
    requires r.clean && r.segments != [] && r.segments[|r.segments| - 1].end >= 0.0
    ensures VerdictHolds(r) <==> CountsFit(r.progress) && VerdictFits(r)
  {
    NamedFailure(r);
    TimelineShows(r);
    ComputedShows(r);
    NothingShows(r);
    hide OutTime, OutTimeOff, DensityOff, AnyFailure, FirstMismatch, Visible, Shows, Showable, TimeUnreadable,
      TimeReversed, Ended, Has;
  }

  lemma FailedVerdict(r: Receipt)
    requires !r.clean && r.segments != [] && r.segments[|r.segments| - 1].end >= 0.0
    ensures VerdictProblem(r).None? <==> VerdictFits(r)
  {
    NamedFailure(r);
    NoMismatch(r);
    hide AnyFailure, FirstMismatch, Visible, Shows, Showable, Quality;
  }

  /** Then the checks before it ask for nothing more than counters that are not negative. */
  lemma FailedProgress(r: Receipt)
    requires !r.clean && r.segments != [] && r.segments[|r.segments| - 1].end >= 0.0 && VerdictFits(r)
    ensures ProgressProblem(r).None? <==> CountsFit(r.progress)
  {
    TimelineShows(r);
    ComputedShows(r);
    Named(r, OutTimeInvalid);
    Named(r, OutTimeDiffers);
    Named(r, DensityDiffers);
    Named(r, NoFrames);
    Named(r, Dropped);
    Named(r, Duplicated);
    hide OutTime, OutTimeOff, DensityOff, Shows, Showable, TimeUnreadable, TimeReversed, VerdictFits, Has;
  }

  lemma FailedTimes(r: Receipt)
    requires !r.clean && r.segments != [] && r.segments[|r.segments| - 1].end >= 0.0 && VerdictFits(r)
    ensures TimeUnreadable(r) ==> Has(r, TimeInvalid)
    ensures TimeReversed(r) ==> Has(r, EndMustFollow)
  {
    ComputedShows(r);
    Named(r, TimeInvalid);
    Named(r, EndMustFollow);
    hide Shows, Showable, TimeUnreadable, TimeReversed, VerdictFits, Has;
  }

  lemma Named(r: Receipt, f: Failure)
    requires !r.clean && VerdictFits(r) && Showable(f)
    ensures Has(r, f) <==> Shows(r, f)
  {
    hide Shows, Showable;
  }

  lemma FailedExactly(r: Receipt)
    requires !r.clean && r.segments != [] && r.segments[|r.segments| - 1].end >= 0.0
    ensures VerdictHolds(r) <==> CountsFit(r.progress) && VerdictFits(r)
  {
    FailedVerdict(r);
    if VerdictFits(r) {
      FailedTimes(r);
      FailedProgress(r);
    }
    hide VerdictFits, CountsFit, VerdictProblem, ProgressProblem, TimeUnreadable, TimeReversed, Has;
  }

  /** The validator accepts exactly the receipts whose blockers, files, counters and verdict fit. */
  lemma AcceptedExactly(r: Receipt)
    ensures FirstProblem(r).None? <==>
      BlockersFit(r) && MetadataFits(r.metadata) && SegmentsFit(r.segments) && r.manifest == r.segments
      && CountsFit(r.progress) && VerdictFits(r)
  {
    ListsExactly(r);
    if r.segments != [] {
      FilesExactly(r);
      assert SegmentsFit(r.segments) ==> r.segments[|r.segments| - 1].end >= 0.0;
      if SegmentsFit(r.segments) {
        if r.clean { CleanExactly(r); } else { FailedExactly(r); }
      }
    }
    hide ListsOk, Known, BlockersFit, MetadataFits, SegmentsFit, FileProblem, ProgressProblem, VerdictProblem,
      CountsFit, VerdictFits, Has, TimeUnreadable, TimeReversed;
  }
}
