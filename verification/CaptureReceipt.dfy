/**
 Finalizing a passive capture and validating the receipt independently: the producer turns a recording into a clean
 or quarantined receipt, the validator re-derives every condition it can see from the receipt alone.
 */
module CaptureReceipt {
  import opened Common

  // ---------------------------------------------------------------- segments

  datatype Name = Numbered(index: int) | OtherName(code: int)

  datatype File = File(sha: int, size: nat, mtime: int)

  /** A timestamp column: not a decimal, an infinity or not-a-number, or a number. */
  datatype Stamp = NotDecimal | NotFinite | At(seconds: real)

  datatype CsvRow = CsvRow(columns: nat, name: Name, start: Stamp, end: Stamp)

  datatype Segment = Segment(index: int, name: Name, start: real, end: real, gap: Option<real>, sha: int, size: int,
    mtime: int)

  datatype Stop =
    | NonemptyManifestRequired | OrderedNamesRequired | FiniteStampsRequired | ContiguousStampsRequired | GapOrOverlap
    | FileUnreadable | FileSetDiffers | InvalidProgress(field: Field)

  /** The segment files found; a file that could not be hashed has no entry value. */
  type Directory = map<Name, Option<File>>

  function SegmentAt(dir: Directory, rows: seq<CsvRow>, before: Option<real>, i: nat): Result<Segment, Stop>
    requires i < |rows|
  {
    var row, name := rows[i], Numbered(i);
    if row.columns != 3 || row.name != name then Raised(OrderedNamesRequired)
    else if row.start.NotDecimal? || row.end.NotDecimal? then Raised(FiniteStampsRequired)
    else if row.start.NotFinite? || row.end.NotFinite? || row.start.seconds < 0.0
      || row.end.seconds <= row.start.seconds
            || (i == 0 && row.start.seconds != 0.0)
    then Raised(ContiguousStampsRequired)
    else
      var gap := if before.None? then None else Some(row.start.seconds - before.value);
      if gap.Some? && (gap.value < 0.0 || gap.value > 0.002) then Raised(GapOrOverlap)
      else if name !in dir || dir[name].None? then Raised(FileUnreadable)
      else var f := dir[name].value;
        Ok(Segment(i, name, row.start.seconds, row.end.seconds, gap, f.sha, f.size, f.mtime))
  }

  /** The first rows in order; the first bad one decides. */
  function SegmentsOf(dir: Directory, rows: seq<CsvRow>, n: nat): (r: Result<seq<Segment>, Stop>)
    requires n <= |rows|
    ensures r.Ok? ==> |r.value| == n
  {
    if n == 0 then Ok([])
    else
      match SegmentsOf(dir, rows, n - 1)
      case Raised(e) => Raised(e)
      case Ok(before) =>
        match SegmentAt(dir, rows, if n == 1 then None else Some(before[n - 2].end), n - 1)
        case Raised(e) => Raised(e)
        case Ok(s) => Ok(before + [s])
  }

  function Safe(dir: Directory, rows: seq<CsvRow>): Result<seq<Segment>, Stop>
  {
    if rows == [] then Raised(NonemptyManifestRequired)
    else
      match SegmentsOf(dir, rows, |rows|)
      case Raised(e) => Raised(e)
      case Ok(segments) => if dir.Keys != NamesUpTo(|rows|) then Raised(FileSetDiffers) else Ok(segments)
  }

  function NamesUpTo(n: nat): set<Name>
  {
    set i | 0 <= i < n :: Numbered(i)
  }

  method SafeSegments(dir: Directory, rows: seq<CsvRow>) returns (r: Result<seq<Segment>, Stop>)
    ensures r == Safe(dir, rows)
  {
    if rows == [] { return Raised(NonemptyManifestRequired); }
    var expected: set<Name>, result: seq<Segment>, previousEnd: Option<real> := {}, [], None;
    for i := 0 to |rows|
      invariant SegmentsOf(dir, rows, i) == Ok(result)
      invariant expected == NamesUpTo(i)
      invariant previousEnd == if i == 0 then None else Some(result[i - 1].end)
    {
      var s := SegmentAt(dir, rows, previousEnd, i);
      if s.Raised? {
        FirstBadDecides(dir, rows, i + 1, |rows|);
        return Raised(s.error);
      }
      expected := expected + {s.value.name};
      result := result + [s.value];
      previousEnd := Some(s.value.end);
    }
    if dir.Keys != expected { return Raised(FileSetDiffers); }
    r := Ok(result);
  }

  lemma {:induction false} FirstBadDecides(dir: Directory, rows: seq<CsvRow>, n: nat, m: nat)
    requires n <= m <= |rows| && SegmentsOf(dir, rows, n).Raised?
    ensures SegmentsOf(dir, rows, m) == SegmentsOf(dir, rows, n)
  {
    if n < m { FirstBadDecides(dir, rows, n, m - 1); }
  }

  // ---------------------------------------------------------------- progress

  datatype Field = FrameField | DropField | DupField | OutTimeField | ProgressField | OtherField(code: int)

  /** One part of a colon-separated clock text. */
  datatype Part = Unreadable | Infinite | Whole(n: int) | Fraction(x: real)

  /** What can be made of a text: an integer, a clock, the word "end". */
  datatype Text = Text(number: Option<int>, clock: seq<Part>, isEnd: bool)

  datatype Line = NoAssignment | Assign(field: Field, text: Text)

  datatype Progress = Progress(frame: Option<int>, drop: Option<int>, dup: Option<int>, outTime: Option<Text>,
    progress: Option<Text>)

  /** The last text assigned to a field. */
  function LastOf(lines: seq<Line>, f: Field): Option<Text>
  {
    if lines == [] then None
    else
      var l := lines[|lines| - 1];
      if l.Assign? && l.field == f then Some(l.text) else LastOf(lines[..|lines| - 1], f)
  }

  function Counted(value: Option<Text>, f: Field): Result<Option<int>, Stop>
  {
    if value.None? then Ok(None)
    else if value.value.number.None? || value.value.number.value < 0 then Raised(InvalidProgress(f))
    else Ok(value.value.number)
  }

  function ProgressOf(lines: seq<Line>): Result<Progress, Stop>
  {
    var frame, drop, dup := Counted(LastOf(lines, FrameField), FrameField),
      Counted(LastOf(lines, DropField), DropField),
      Counted(LastOf(lines, DupField), DupField);
    if frame.Raised? then Raised(frame.error) else if drop.Raised? then Raised(drop.error)
    else if dup.Raised? then Raised(dup.error)
    else Ok(Progress(frame.value, drop.value, dup.value, LastOf(lines, OutTimeField), LastOf(lines, ProgressField)))
  }

  function Get(values: map<Field, Text>, f: Field): Option<Text>
  {
    if f in values then Some(values[f]) else None
  }

  method ReadProgress(lines: seq<Line>) returns (r: Result<Progress, Stop>)
    ensures r == ProgressOf(lines)
  {
    var values: map<Field, Text> := map[];
    for i := 0 to |lines|
      invariant forall f :: Get(values, f) == LastOf(lines[..i], f)
    {
      assert lines[..i + 1][..i] == lines[..i];
      if lines[i].Assign? { values := values[lines[i].field := lines[i].text]; }
    }
    assert lines[..|lines|] == lines;
    var frame := Counted(Get(values, FrameField), FrameField);
    if frame.Raised? { return Raised(frame.error); }
    var drop := Counted(Get(values, DropField), DropField);
    if drop.Raised? { return Raised(drop.error); }
    var dup := Counted(Get(values, DupField), DupField);
    if dup.Raised? { return Raised(dup.error); }
    r := Ok(Progress(frame.value, drop.value, dup.value, Get(values, OutTimeField), Get(values, ProgressField)));
  }

  function Seconds(p: Part): Option<real>
  {
    match p
    case Whole(n) => Some(n as real)
    case Fraction(x) => Some(x)
    case _ => None
  }

  /** Hours, minutes and seconds as one number of seconds. */
  function OutTime(value: Option<Text>): (r: Option<real>)
    ensures r.Some? ==> r.value >= 0.0
  {
    if value.None? || |value.value.clock| != 3 then None
    else
      var h, m, s := value.value.clock[0], value.value.clock[1], Seconds(value.value.clock[2]);
      if !h.Whole? || !m.Whole? || s.None? || h.n < 0 || !(0 <= m.n < 60) || !(0.0 <= s.value < 60.0) then None
      else Some((h.n * 3600 + m.n * 60) as real + s.value)
  }

  function Apart(a: real, b: real): real
  {
    if a < b then b - a else a - b
  }

  /** The frame count is more than three frames and more than a tenth off 30 frames a second. */
  predicate Sparse(frame: int, pts: real)
  {
    var expected := pts * 30.0;
    Apart(frame as real, expected) > (if expected * 0.10 > 3.0 then expected * 0.10 else 3.0)
  }

  predicate Ended(p: Progress)
  {
    p.progress.Some? && p.progress.value.isEnd
  }

  // ---------------------------------------------------------------- failures

  datatype StatusField =
    | State | ExitCode | Device | Platform | DurationLimit | SizeLimit | MinimumFree | Audio | Recognition | Strategy
    | FfmpegPath | FfmpegSha | DshowName | Command

  const STATUS_FIELDS: seq<StatusField> :=
    [State, ExitCode, Device, Platform, DurationLimit, SizeLimit, MinimumFree, Audio,
    Recognition, Strategy, FfmpegPath, FfmpegSha, DshowName, Command]

  datatype Failure =
    | StatusMismatch(field: StatusField) | BinaryChanged | BinaryUnavailable | StopReasonInvalid | ForcedOrMissing
    | SegmentCountDiffers | BytesDiffer | SizeExceeded | PtsExceeded | OutTimeDiffers | DensityDiffers | OutTimeInvalid
    | EndMustFollow | OutsideWindow | WallTimeExceeded | TimeInvalid | NoFrames | Dropped | Duplicated | NoEnd

  datatype Blocker = Calibration(item: nat) | FingerprintPending | Failed(failure: Failure) | UnknownBlocker(code: int)

  const CALIBRATION_ITEMS := 12

  datatype StopReason = NotText | Allowed(choice: int) | OtherText(forced: bool)

  datatype Binary = TestOnly | Unavailable | Hashed(same: bool)

  datatype Status = Status(
    wrong: set<StatusField>, exitCode: Option<int>, stopReason: StopReason, segmentFiles: Option<int>,
      recordedBytes: Option<int>,
    started: Option<int>, ended: Option<int>)

  datatype Plan = Plan(sizeLimit: int, duration: int, grace: int, authorized: int, expires: int,
    fingerprint: Option<int>)

  datatype Role = StatusFile | SegmentsCsv | ProgressLog | CaptureLog | OtherRole(code: int)

  const ROLES: seq<Role> := [StatusFile, SegmentsCsv, ProgressLog, CaptureLog]

  datatype MetaFile = MetaFile(role: Role, path: Role, size: int)

  /** The byte counts of the four metadata files, in the order of their roles. */
  type Sizes = s: seq<nat> | |s| == 4 witness [0, 0, 0, 0]

  datatype Recording = Recording(
    dir: Directory, rows: seq<CsvRow>, lines: seq<Line>, status: Status, binary: Binary, sizes: Sizes)

  datatype Integrity = HashedNotDecoded | FailedOrPartial

  /** The receipt; its manifest digest is injective and stands for the segments it was taken from. */
  datatype Receipt = Receipt(
    clean: bool, fingerprint: Option<int>, started: Option<int>, ended: Option<int>, stopReason: StopReason,
      exitCode: Option<int>,
    forced: bool, metadata: seq<MetaFile>, segments: seq<Segment>, manifest: seq<Segment>, progress: Progress,
    integrity: Integrity, blockers: seq<Blocker>)

  function When(c: bool, f: Failure): seq<Failure>
  {
    if c then [f] else []
  }

  predicate Mismatched(s: Status, f: StatusField)
  {
    if f == ExitCode then s.exitCode != Some(0) else f in s.wrong
  }

  function StatusFailures(s: Status, n: nat): seq<Failure>
    requires n <= |STATUS_FIELDS|
  {
    if n == 0 then []
    else StatusFailures(s, n - 1) + When(Mismatched(s, STATUS_FIELDS[n - 1]), StatusMismatch(STATUS_FIELDS[n - 1]))
  }

  predicate Forced(r: StopReason)
  {
    r.NotText? || (r.OtherText? && r.forced)
  }

  function StopFailures(b: Binary, r: StopReason): seq<Failure>
  {
    When(b.Hashed? && !b.same, BinaryChanged) + When(b.Unavailable?, BinaryUnavailable)
    + When(!r.Allowed?, StopReasonInvalid) + When(Forced(r), ForcedOrMissing)
  }

  function TotalBytes(segments: seq<Segment>): int
  {
    if segments == [] then 0 else TotalBytes(segments[..|segments| - 1]) + segments[|segments| - 1].size
  }

  function FinalPts(segments: seq<Segment>): real
    requires segments != []
  {
    segments[|segments| - 1].end
  }

  function SizeFailures(p: Plan, s: Status, segments: seq<Segment>): seq<Failure>
    requires segments != []
  {
    When(s.segmentFiles != Some(|segments|), SegmentCountDiffers)
    + When(s.recordedBytes != Some(TotalBytes(segments)), BytesDiffer)
    + When(TotalBytes(segments) > p.sizeLimit, SizeExceeded)
    + When(FinalPts(segments) > p.duration as real + 0.100, PtsExceeded)
  }

  /** A missing frame count is measured as zero here. */
  function FrameOrZero(p: Progress): int
  {
    if p.frame.Some? then p.frame.value else 0
  }

  function TimelineFailures(progress: Progress, pts: real): seq<Failure>
  {
    var out := OutTime(progress.outTime);
    if out.None? then [OutTimeInvalid]
    else When(Apart(out.value, pts) > 0.100, OutTimeDiffers) + When(Sparse(FrameOrZero(progress), pts), DensityDiffers)
  }

  const MICROS := 1000000

  function TimeFailures(p: Plan, s: Status): seq<Failure>
  {
    if s.started.None? || s.ended.None? then [TimeInvalid]
    else
      When(s.ended.value <= s.started.value, EndMustFollow)
      + When(s.started.value < p.authorized || s.ended.value > p.expires, OutsideWindow)
      + When(s.ended.value - s.started.value > (p.duration + p.grace + 1) * MICROS, WallTimeExceeded)
  }

  function ProgressFailures(p: Progress): seq<Failure>
  {
    When(p.frame.None? || p.frame.value <= 0, NoFrames) + When(p.drop != Some(0), Dropped)
    + When(p.dup != Some(0), Duplicated) + When(!Ended(p), NoEnd)
  }

  function Failures(rec: Recording, p: Plan, segments: seq<Segment>, progress: Progress): seq<Failure>
    requires segments != []
  {
    StatusFailures(rec.status, |STATUS_FIELDS|) + StopFailures(rec.binary, rec.status.stopReason)
    + SizeFailures(p, rec.status, segments) + TimelineFailures(progress, FinalPts(segments))
    + TimeFailures(p, rec.status) + ProgressFailures(progress)
  }

  function Wrapped(failures: seq<Failure>): seq<Blocker>
  {
    seq(|failures|, i requires 0 <= i < |failures| => Failed(failures[i]))
  }

  function PlanBlockers(p: Plan): seq<Blocker>
  {
    (if p.fingerprint.None? then [FingerprintPending] else [])
      + seq(CALIBRATION_ITEMS, i requires 0 <= i => Calibration(i))
  }

  function MetadataOf(sizes: Sizes): seq<MetaFile>
  {
    seq(4, i requires 0 <= i < 4 => MetaFile(ROLES[i], ROLES[i], sizes[i]))
  }

  function ReceiptOf(rec: Recording, p: Plan, segments: seq<Segment>, progress: Progress): Receipt
    requires segments != []
  {
    var failures := Failures(rec, p, segments, progress);
    var clean := failures == [];
    Receipt(clean, p.fingerprint, rec.status.started, rec.status.ended, rec.status.stopReason, rec.status.exitCode,
            Forced(rec.status.stopReason), MetadataOf(rec.sizes), segments, segments, progress,
            if clean then HashedNotDecoded else FailedOrPartial, Wrapped(failures) + PlanBlockers(p))
  }

  function Finalized(rec: Recording, p: Plan): Result<Receipt, Stop>
  {
    match Safe(rec.dir, rec.rows)
    case Raised(e) => Raised(e)
    case Ok(segments) =>
      match ProgressOf(rec.lines)
      case Raised(e) => Raised(e)
      case Ok(progress) => if segments == [] then Raised(NonemptyManifestRequired)
        else Ok(ReceiptOf(rec, p, segments, progress))
  }

  // ---------------------------------------------------------------- the producer

  method StatusPhase(s: Status) returns (failures: seq<Failure>)
    ensures failures == StatusFailures(s, |STATUS_FIELDS|)
  {
    failures := [];
    for i := 0 to |STATUS_FIELDS|
      invariant failures == StatusFailures(s, i)
    {
      if Mismatched(s, STATUS_FIELDS[i]) { failures := failures + [StatusMismatch(STATUS_FIELDS[i])]; }
    }
  }

  method StopPhase(failures: seq<Failure>, b: Binary, reason: StopReason) returns (r: seq<Failure>, forced: bool)
    ensures r == failures + StopFailures(b, reason) && forced == Forced(reason)
  {
    r := failures;
    if b.Hashed? && !b.same { r := r + [BinaryChanged]; }
    if b.Unavailable? { r := r + [BinaryUnavailable]; }
    forced := reason.NotText? || (reason.OtherText? && reason.forced);
    if !reason.Allowed? { r := r + [StopReasonInvalid]; }
    if forced { r := r + [ForcedOrMissing]; }
  }

  method SumBytes(segments: seq<Segment>) returns (total: int)
    ensures total == TotalBytes(segments)
  {
    total := 0;
    for i := 0 to |segments|
      invariant total == TotalBytes(segments[..i])
    {
      assert segments[..i + 1][..i] == segments[..i];
      total := total + segments[i].size;
    }
    assert segments[..|segments|] == segments;
  }

  method SizePhase(failures: seq<Failure>, p: Plan, s: Status, segments: seq<Segment>) returns (r: seq<Failure>)
    requires segments != []
    ensures r == failures + SizeFailures(p, s, segments)
  {
    r := failures;
    if s.segmentFiles != Some(|segments|) { r := r + [SegmentCountDiffers]; }
    var total := SumBytes(segments);
    if s.recordedBytes != Some(total) { r := r + [BytesDiffer]; }
    if total > p.sizeLimit { r := r + [SizeExceeded]; }
    if FinalPts(segments) > p.duration as real + 0.100 { r := r + [PtsExceeded]; }
  }

  method TimelinePhase(failures: seq<Failure>, progress: Progress, pts: real) returns (r: seq<Failure>)
    ensures r == failures + TimelineFailures(progress, pts)
  {
    r := failures;
    var out := OutTime(progress.outTime);
    if out.None? {
      r := r + [OutTimeInvalid];
    } else {
      if Apart(out.value, pts) > 0.100 { r := r + [OutTimeDiffers]; }
      if Sparse(if progress.frame.Some? then progress.frame.value else 0, pts) { r := r + [DensityDiffers]; }
    }
  }

  method TimePhase(failures: seq<Failure>, p: Plan, s: Status) returns (r: seq<Failure>)
    ensures r == failures + TimeFailures(p, s)
  {
    r := failures;
    if s.started.None? || s.ended.None? { return r + [TimeInvalid]; }
    var started, ended := s.started.value, s.ended.value;
    if ended <= started { r := r + [EndMustFollow]; }
    if started < p.authorized || ended > p.expires { r := r + [OutsideWindow]; }
    if ended - started > (p.duration + p.grace + 1) * MICROS { r := r + [WallTimeExceeded]; }
  }

  method ProgressPhase(failures: seq<Failure>, p: Progress) returns (r: seq<Failure>)
    ensures r == failures + ProgressFailures(p)
  {
    r := failures;
    if p.frame.None? || p.frame.value <= 0 { r := r + [NoFrames]; }
    if p.drop != Some(0) { r := r + [Dropped]; }
    if p.dup != Some(0) { r := r + [Duplicated]; }
    if !Ended(p) { r := r + [NoEnd]; }
  }

  method FinalizeRecording(rec: Recording, p: Plan) returns (r: Result<Receipt, Stop>)
    ensures r == Finalized(rec, p)
  {
    hide StatusFailures, StopFailures, SizeFailures, TimelineFailures, TimeFailures, ProgressFailures, ProgressOf,
      PlanBlockers;
    var segments := SafeSegments(rec.dir, rec.rows);
    if segments.Raised? { return Raised(segments.error); }
    var progress := ReadProgress(rec.lines);
    if progress.Raised? { return Raised(progress.error); }
    var failures := StatusPhase(rec.status);
    var forced;
    failures, forced := StopPhase(failures, rec.binary, rec.status.stopReason);
    failures := SizePhase(failures, p, rec.status, segments.value);
    failures := TimelinePhase(failures, progress.value, FinalPts(segments.value));
    failures := TimePhase(failures, p, rec.status);
    failures := ProgressPhase(failures, progress.value);
    var clean, blockers := failures == [], PlanBlockers(p);
    if !clean { blockers := Wrapped(failures) + blockers; }
    assert clean ==> Wrapped(failures) + PlanBlockers(p) == PlanBlockers(p);
    r := Ok(Receipt(clean, p.fingerprint, rec.status.started, rec.status.ended, rec.status.stopReason,
      rec.status.exitCode,
                    forced, MetadataOf(rec.sizes), segments.value, segments.value, progress.value,
                    if clean then HashedNotDecoded else FailedOrPartial, blockers));
  }

  // ---------------------------------------------------------------- the validator

  datatype Problem =
    | ListsInvalid | UnknownFailure | FingerprintDisagrees | TimesInvalid | TimeOrderInvalid | MetadataInvalid
    | RolesIncomplete
    | SegmentInvalid | ManifestMismatch | CountsInvalid | OutTimeUnusable | TimelineDisagrees | DensityDisagrees
    | FailedQuality | MustStayQuarantined | VisibleMismatch(failure: Failure) | FailureRequired | FailureForbidden

  predicate Has(r: Receipt, f: Failure)
  {
    Failed(f) in r.blockers
  }

  predicate Distinct(s: seq<Blocker>)
  {
    forall i, j | 0 <= i < j < |s| :: s[i] != s[j]
  }

  predicate ListsOk(r: Receipt)
  {
    r.segments != [] && r.blockers != [] && Distinct(r.blockers) && forall i | 0 <= i < CALIBRATION_ITEMS ::
      Calibration(i) in r.blockers
  }

  predicate Known(b: Blocker)
  {
    b.FingerprintPending? || b.Failed? || (b.Calibration? && b.item < CALIBRATION_ITEMS)
  }

  predicate TimeUnreadable(r: Receipt)
  {
    r.started.None? || r.ended.None?
  }

  predicate TimeReversed(r: Receipt)
  {
    !TimeUnreadable(r) && r.ended.value <= r.started.value
  }

  predicate MetaOk(rows: seq<MetaFile>, i: nat)
    requires i < |rows|
  {
    rows[i].role in ROLES && rows[i].path == rows[i].role && rows[i].size >= 0
    && forall j | 0 <= j < i :: rows[j].role != rows[i].role
  }

  predicate HasRole(rows: seq<MetaFile>, role: Role)
  {
    exists i :: 0 <= i < |rows| && rows[i].role == role
  }

  predicate SegmentOk(segments: seq<Segment>, i: nat)
    requires i < |segments|
  {
    var s := segments[i];
    && s.index == i && s.name == Numbered(i) && s.size > 0 && s.mtime >= 0 && 0.0 <= s.start < s.end
    && (if i == 0 then s.start == 0.0 && s.gap.None?
        else s.gap.Some? && 0.0 <= s.gap.value <= 0.002 && s.start - segments[i - 1].end == s.gap.value)
  }

  predicate CountOk(r: Receipt, count: Option<int>, f: Failure)
  {
    if count.None? then !r.clean && Has(r, f) else count.value >= 0
  }

  predicate OutTimeOff(r: Receipt)
    requires r.segments != []
  {
    OutTime(r.progress.outTime).Some? && Apart(OutTime(r.progress.outTime).value, FinalPts(r.segments)) > 0.100
  }

  predicate DensityOff(r: Receipt)
    requires r.segments != []
  {
    r.progress.frame.Some? && Sparse(r.progress.frame.value, FinalPts(r.segments))
  }

  predicate Quality(r: Receipt)
  {
    && r.integrity == HashedNotDecoded && !r.forced && r.exitCode == Some(0) && r.progress.frame.Some?
    && r.progress.frame.value > 0
    && r.progress.drop == Some(0) && r.progress.dup == Some(0) && Ended(r.progress) && r.stopReason.Allowed?
  }

  function VisibleClock(r: Receipt): seq<(Failure, bool)>
    requires r.segments != []
  {
    [(TimeInvalid, TimeUnreadable(r)), (EndMustFollow, TimeReversed(r)),
      (OutTimeInvalid, OutTime(r.progress.outTime).None?),
     (OutTimeDiffers, OutTimeOff(r))]
  }

  function VisibleFrames(r: Receipt): seq<(Failure, bool)>
    requires r.segments != []
  {
    [(DensityDiffers, DensityOff(r)), (NoFrames, r.progress.frame.None? || r.progress.frame.value <= 0),
     (Dropped, r.progress.drop != Some(0)), (Duplicated, r.progress.dup != Some(0))]
  }

  function VisibleEnd(r: Receipt): seq<(Failure, bool)>
  {
    [(NoEnd, !Ended(r.progress)), (ForcedOrMissing, r.forced), (StopReasonInvalid, !r.stopReason.Allowed?),
     (StatusMismatch(ExitCode), r.exitCode != Some(0))]
  }

  /** The failure conditions a failed receipt shows, each of which has to match its blocker. */
  function Visible(r: Receipt): seq<(Failure, bool)>
    requires r.segments != []
  {
    VisibleClock(r) + VisibleFrames(r) + VisibleEnd(r)
  }

  predicate AnyFailure(r: Receipt)
  {
    exists i :: 0 <= i < |r.blockers| && r.blockers[i].Failed?
  }

  /** The checks in the order the validator makes them. */
  function ListProblem(r: Receipt): Option<Problem>
  {
    if !ListsOk(r) then Some(ListsInvalid)
    else if exists i :: 0 <= i < |r.blockers| && !Known(r.blockers[i]) then Some(UnknownFailure)
    else if r.fingerprint.None? != (FingerprintPending in r.blockers) then Some(FingerprintDisagrees)
    else if TimeUnreadable(r) && (r.clean || !Has(r, TimeInvalid)) then Some(TimesInvalid)
    else if TimeReversed(r) && (r.clean || !Has(r, EndMustFollow)) then Some(TimeOrderInvalid)
    else None
  }

  function FileProblem(r: Receipt): Option<Problem>
  {
    if exists i :: 0 <= i < |r.metadata| && !MetaOk(r.metadata, i) then Some(MetadataInvalid)
    else if exists role | role in ROLES :: !HasRole(r.metadata, role) then Some(RolesIncomplete)
    else if exists i :: 0 <= i < |r.segments| && !SegmentOk(r.segments, i) then Some(SegmentInvalid)
    else if r.manifest != r.segments then Some(ManifestMismatch)
    else None
  }

  function ProgressProblem(r: Receipt): Option<Problem>
    requires r.segments != []
  {
    if !CountOk(r, r.progress.frame, NoFrames) || !CountOk(r, r.progress.drop, Dropped)
      || !CountOk(r, r.progress.dup, Duplicated)
    then Some(CountsInvalid)
    else if OutTime(r.progress.outTime).None? && (r.clean || !Has(r, OutTimeInvalid)) then Some(OutTimeUnusable)
    else if OutTimeOff(r) && (r.clean || !Has(r, OutTimeDiffers)) then Some(TimelineDisagrees)
    else if DensityOff(r) && (r.clean || !Has(r, DensityDiffers)) then Some(DensityDisagrees)
    else None
  }

  /** The first of the visible conditions that disagrees with its blocker. */
  function FirstMismatch(r: Receipt, visible: seq<(Failure, bool)>): Option<Failure>
  {
    if visible == [] then None
    else
      var before, v := FirstMismatch(r, visible[..|visible| - 1]), visible[|visible| - 1];
      if before.Some? then before else if v.1 != Has(r, v.0) then Some(v.0) else None
  }

  function VerdictProblem(r: Receipt): Option<Problem>
    requires r.segments != []
  {
    if r.clean then
      if !Quality(r) then Some(FailedQuality) else if AnyFailure(r) then Some(FailureForbidden) else None
    else if r.integrity != FailedOrPartial then Some(MustStayQuarantined)
    else
      match FirstMismatch(r, Visible(r))
      case Some(f) => Some(VisibleMismatch(f))
      case None => if !AnyFailure(r) then Some(FailureRequired) else None
  }

  function FirstProblem(r: Receipt): Option<Problem>
  {
    if ListProblem(r).Some? then ListProblem(r)
    else if FileProblem(r).Some? then FileProblem(r)
    else if ProgressProblem(r).Some? then ProgressProblem(r)
    else VerdictProblem(r)
  }

  method CheckFiles(r: Receipt) returns (p: Option<Problem>)
    ensures p == FileProblem(r)
  {
    var roles: set<Role> := {};
    for i := 0 to |r.metadata|
      invariant forall j | 0 <= j < i :: MetaOk(r.metadata, j)
      invariant forall role :: role in roles <==> exists j :: 0 <= j < i && r.metadata[j].role == role
    {
      var row := r.metadata[i];
      if row.role in roles || row.role !in ROLES || row.path != row.role || row.size < 0 {
        assert !MetaOk(r.metadata, i);
        return Some(MetadataInvalid);
      }
      roles := roles + {row.role};
    }
    assert forall role :: role in roles <==> HasRole(r.metadata, role);
    if exists role | role in ROLES :: role !in roles { return Some(RolesIncomplete); }
    for i := 0 to |r.segments|
      invariant forall j | 0 <= j < i :: SegmentOk(r.segments, j)
    {
      if !SegmentOk(r.segments, i) {
        p := Some(SegmentInvalid);
        return;
      }
    }
    p := if r.manifest != r.segments then Some(ManifestMismatch) else None;
  }

  method CheckVisible(r: Receipt) returns (p: Option<Failure>)
    requires r.segments != []
    ensures p == FirstMismatch(r, Visible(r))
  {
    var visible := Visible(r);
    hide Visible, Has;
    p := None;
    for i := 0 to |visible|
      invariant p == FirstMismatch(r, visible[..i])
    {
      assert visible[..i + 1][..i] == visible[..i];
      if p.None? && visible[i].1 != Has(r, visible[i].0) { p := Some(visible[i].0); }
    }
    assert visible[..|visible|] == visible;
  }

  method ValidateReceipt(r: Receipt) returns (p: Option<Problem>)
    ensures p == FirstProblem(r)
  {
    hide FileProblem, ListsOk, Known, Has, OutTime, Sparse, Quality, Visible, AnyFailure, FirstMismatch, Distinct;
    var problem := ListProblem(r);
    if problem.Some? { return problem; }
    problem := CheckFiles(r);
    if problem.Some? { return problem; }
    assert r.segments != [] by { ListedSegments(r); }
    problem := ProgressProblem(r);
    if problem.Some? { return problem; }
    if r.clean {
      return if !Quality(r) then Some(FailedQuality) else if AnyFailure(r) then Some(FailureForbidden) else None;
    }
    if r.integrity != FailedOrPartial { return Some(MustStayQuarantined); }
    var mismatch := CheckVisible(r);
    if mismatch.Some? { return Some(VisibleMismatch(mismatch.value)); }
    p := if !AnyFailure(r) then Some(FailureRequired) else None;
  }

  lemma ListedSegments(r: Receipt)
    requires ListProblem(r).None?
    ensures r.segments != []
  {}
}
