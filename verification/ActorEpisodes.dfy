/**
 The actor episode audit: the gameplay rows of each complete hand are cut into actor episodes and unknown spans by
 two separate passes, and a closing check demands that together they partition the hand.
 */
module ActorEpisodes {
  import opened Common

  datatype Hint = Hint(actor: Option<int>, heroTurn: bool)

  datatype Row = Row(frame: int, actor: Option<int>, supported: bool, evidence: Option<Hint>, board: Option<int>)

  /** A complete hand and its gameplay frames. */
  datatype Hand = Hand(id: int, start: int, last: int)

  datatype Label = Acting(slot: int) | Quiet | Unsupported

  datatype Segment = Segment(hand: int, tag: Label, first: int, last: int)

  datatype Error = WindowNotContiguous | EvidenceRejected | ActorInUnsupportedScene | ActorAndEvidenceDisagree
      | FrameMissing | NoPartition

  predicate RowAccepted(r: Row)
  {
    && (r.actor.Some? ==> 0 <= r.actor.value < 8)
    && (r.evidence.None? ==> r.actor.None? && !r.supported)
    && (r.evidence.Some? && r.actor.None? ==> r.evidence.value.actor.None? && !r.evidence.value.heroTurn)
  }

  predicate Supports(e: Option<Hint>, slot: int)
  {
    e.Some? && (e.value.actor == Some(slot) || (slot == 4 && e.value.heroTurn))
  }

  function LabelOf(r: Row): Label
  {
    if r.actor.Some? then Acting(r.actor.value) else if r.supported then Quiet else Unsupported
  }

  /** The first row of an actor that its scene or evidence contradicts decides the error. */
  function ActorError(rows: seq<Row>): Option<Error>
  {
    if rows == [] then None
    else
      var before, r := ActorError(rows[..|rows| - 1]), rows[|rows| - 1];
      if before.Some? then before
      else if r.actor.None? then None
      else if !r.supported then Some(ActorInUnsupportedScene)
      else if !Supports(r.evidence, r.actor.value) then Some(ActorAndEvidenceDisagree) else None
  }

  // ---------------------------------------------------------------- runs

  function Grow(before: seq<Segment>, hand: int, at: int, previous: Option<Label>, now: Option<Label>): seq<Segment>
  {
    if now.None? then before
    else if previous == now && before != [] then before[..|before| - 1] + [before[|before| - 1].(last := at)]
    else before + [Segment(hand, now.value, at, at)]
  }

  /** The longest runs of one label; rows without a label separate them. */
  function Runs(hand: int, start: int, labels: seq<Option<Label>>): seq<Segment>
  {
    if labels == [] then []
    else
      var n := |labels| - 1;
      Grow(Runs(hand, start, labels[..n]), hand, start + n, if n > 0 then labels[n - 1] else None, labels[n])
  }

  /** The two passes over a hand, and the single labelling behind them. */
  datatype Pass = EpisodePass | UnknownPass | BothPasses

  function LabelFor(p: Pass, r: Row): Option<Label>
  {
    if (p == EpisodePass && r.actor.None?) || (p == UnknownPass && r.actor.Some?) then None else Some(LabelOf(r))
  }

  function Labels(p: Pass, rows: seq<Row>): (l: seq<Option<Label>>)
    ensures |l| == |rows|
  {
    seq(|rows|, i requires 0 <= i < |rows| => LabelFor(p, rows[i]))
  }

  function Episodes(h: Hand, rows: seq<Row>): seq<Segment>
  {
    Runs(h.id, h.start, Labels(EpisodePass, rows))
  }

  function UnknownSpans(h: Hand, rows: seq<Row>): seq<Segment>
  {
    Runs(h.id, h.start, Labels(UnknownPass, rows))
  }

  /** Both passes at once: every row has a label. */
  function AllRuns(h: Hand, rows: seq<Row>): seq<Segment>
  {
    Runs(h.id, h.start, Labels(BothPasses, rows))
  }

  predicate Buffered(
      hand: int, start: int, labels: seq<Option<Label>>, closed: seq<Segment>, current: Option<Label>, count: nat)
  {
    var i := |labels|;
    && (current == if i == 0 then None else labels[i - 1])
    && (count > 0 <==> current.Some?) && count <= i
    && Runs(hand, start, labels) == closed + if count > 0
      then [Segment(hand, current.value, start + i - count, start + i - 1)] else []
  }

  lemma BufferNext(
      hand: int, start: int, labels: seq<Option<Label>>, closed: seq<Segment>, current: Option<Label>, count: nat,
      next: Option<Label>)
    requires Buffered(hand, start, labels, closed, current, count)
    ensures var ended := next != current;
      var closed' := if ended && count > 0 then closed
        + [Segment(hand, current.value, start + |labels| - count, start + |labels| - 1)] else closed;
      var count' := (if ended then 0 else count) + if next.Some? then 1 else 0;
      Buffered(hand, start, labels + [next], closed', next, count')
  {
    assert (labels + [next])[..|labels|] == labels;
  }

  lemma LabelsSnoc(p: Pass, rows: seq<Row>, i: nat)
    requires i < |rows|
    ensures Labels(p, rows[..i + 1]) == Labels(p, rows[..i]) + [LabelFor(p, rows[i])]
  {}

  /** One pass with a buffer that is flushed whenever the label changes. */
  method CollectUnknown(h: Hand, rows: seq<Row>) returns (spans: seq<Segment>)
    ensures spans == UnknownSpans(h, rows)
  {
    spans := [];
    var kind: Option<Label>, count: nat := None, 0;
    for i := 0 to |rows|
      invariant Buffered(h.id, h.start, Labels(UnknownPass, rows[..i]), spans, kind, count)
    {
      hide Buffered;
      LabelsSnoc(UnknownPass, rows, i);
      var value := LabelFor(UnknownPass, rows[i]);
      BufferNext(h.id, h.start, Labels(UnknownPass, rows[..i]), spans, kind, count, value);
      if value != kind {
        if count > 0 {
          assert kind.Some? by { BufferedKind(h.id, h.start, Labels(UnknownPass, rows[..i]), spans, kind, count); }
          spans := spans + [Segment(h.id, kind.value, h.start + i - count, h.start + i - 1)];
          count := 0;
        }
        kind := value;
      }
      if value.Some? { count := count + 1; }
    }
    assert rows[..|rows|] == rows;
    if count > 0 { spans := spans + [Segment(h.id, kind.value, h.start + |rows| - count, h.start + |rows| - 1)]; }
  }

  lemma BufferedKind(
      hand: int, start: int, labels: seq<Option<Label>>, closed: seq<Segment>, current: Option<Label>, count: nat)
    requires Buffered(hand, start, labels, closed, current, count)
    ensures count > 0 <==> current.Some?
  {}

  /** The episode pass checks every actor against its scene and its evidence on the way. */
  method CollectEpisodes(h: Hand, rows: seq<Row>) returns (r: Result<seq<Segment>, Error>, actorFrames: nat)
    ensures r == if ActorError(rows).Some? then Raised(ActorError(rows).value) else Ok(Episodes(h, rows))
    ensures r.Ok? ==> actorFrames == ActorFrames(rows)
  {
    var episodes: seq<Segment>, actor: Option<Label>, count: nat := [], None, 0;
    actorFrames := 0;
    for i := 0 to |rows|
      invariant ActorError(rows[..i]).None? && actorFrames == ActorFrames(rows[..i])
      invariant Buffered(h.id, h.start, Labels(EpisodePass, rows[..i]), episodes, actor, count)
    {
      ActorStep(rows, i);
      hide Buffered, ActorError, ActorFrames, Labels;
      LabelsSnoc(EpisodePass, rows, i);
      var row, value := rows[i], LabelFor(EpisodePass, rows[i]);
      if row.actor.Some? && (!row.supported || !Supports(row.evidence, row.actor.value)) {
        r := Raised(if !row.supported then ActorInUnsupportedScene else ActorAndEvidenceDisagree);
        FirstErrorDecides(rows, i + 1);
        return;
      }
      BufferNext(h.id, h.start, Labels(EpisodePass, rows[..i]), episodes, actor, count, value);
      if value != actor {
        if count > 0 {
          assert actor.Some? by { BufferedKind(h.id, h.start, Labels(EpisodePass, rows[..i]), episodes, actor, count); }
          episodes := episodes + [Segment(h.id, actor.value, h.start + i - count, h.start + i - 1)];
          count := 0;
        }
        actor := value;
      }
      if value.Some? {
        count := count + 1;
        actorFrames := actorFrames + 1;
      }
    }
    assert rows[..|rows|] == rows;
    if count > 0 {
      episodes := episodes + [Segment(h.id, actor.value, h.start + |rows| - count, h.start + |rows| - 1)];
    }
    assert ActorError(rows).None?;
    assert episodes == Episodes(h, rows);
    r := Ok(episodes);
  }

  lemma ActorStep(rows: seq<Row>, i: nat)
    requires i < |rows| && ActorError(rows[..i]).None?
    ensures var r := rows[i];
      ActorError(rows[..i + 1]) ==
      (if r.actor.None? then None else if !r.supported then Some(ActorInUnsupportedScene)
       else if !Supports(r.evidence, r.actor.value) then Some(ActorAndEvidenceDisagree) else None)
    ensures ActorFrames(rows[..i + 1]) == ActorFrames(rows[..i]) + if rows[i].actor.Some? then 1 else 0
  {
    assert rows[..i + 1][..i] == rows[..i];
  }

  function ActorFrames(rows: seq<Row>): nat
  {
    if rows == [] then 0 else ActorFrames(rows[..|rows| - 1]) + if rows[|rows| - 1].actor.Some? then 1 else 0
  }

  lemma {:induction false} FirstErrorDecides(rows: seq<Row>, n: nat)
    requires n <= |rows| && ActorError(rows[..n]).Some?
    ensures ActorError(rows) == ActorError(rows[..n])
    decreases |rows|
  {
    if n == |rows| {
      assert rows[..n] == rows;
    } else {
      assert rows[..|rows| - 1][..n] == rows[..n];
      FirstErrorDecides(rows[..|rows| - 1], n);
    }
  }

  // ---------------------------------------------------------------- what the runs are

  predicate Covers(s: Segment, frame: int)
  {
    s.first <= frame <= s.last
  }

  /** A run: all its rows have its label, and it cannot be extended at either end. */
  predicate Maximal(s: Segment, hand: int, start: int, labels: seq<Option<Label>>)
  {
    && s.hand == hand && start <= s.first <= s.last < start + |labels|
    && (forall k | s.first - start <= k <= s.last - start :: labels[k] == Some(s.tag))
    && (s.first > start ==> labels[s.first - start - 1] != Some(s.tag))
    && (s.last < start + |labels| - 1 ==> labels[s.last - start + 1] != Some(s.tag))
  }

  predicate AllMaximal(runs: seq<Segment>, hand: int, start: int, labels: seq<Option<Label>>)
  {
    forall i | 0 <= i < |runs| :: Maximal(runs[i], hand, start, labels)
  }

  predicate Apart(runs: seq<Segment>)
  {
    forall i, j | 0 <= i < j < |runs| :: runs[i].last < runs[j].first
  }

  predicate AllCovered(runs: seq<Segment>, start: int, labels: seq<Option<Label>>)
  {
    forall k | 0 <= k < |labels| && labels[k].Some? :: exists i :: 0 <= i < |runs| && Covers(runs[i], start + k)
  }

  /** The reference definition: maximal runs, in order, that miss no labelled row. */
  predicate AreRuns(runs: seq<Segment>, hand: int, start: int, labels: seq<Option<Label>>)
  {
    && AllMaximal(runs, hand, start, labels) && Apart(runs) && AllCovered(runs, start, labels)
    && (|labels| > 0 && labels[|labels| - 1].Some? ==> runs != [] && runs[|runs| - 1].last == start + |labels| - 1)
  }
}
