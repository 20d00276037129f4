/**
 Why the closing partition check of the actor episode audit never fails: the two passes produce, between them, the
 maximal runs of a single labelling of the hand's frames.
 */
module EpisodePartition {
  import opened Common
  import opened ActorEpisodes

  lemma {:induction false} RunsAreMaximal(hand: int, start: int, labels: seq<Option<Label>>)
    ensures AreRuns(Runs(hand, start, labels), hand, start, labels)
  {
    if labels != [] {
      var n := |labels| - 1;
      var before := Runs(hand, start, labels[..n]);
      RunsAreMaximal(hand, start, labels[..n]);
      hide Runs, AreRuns;
      GrowKeepsRuns(before, hand, start, labels);
    }
  }

  lemma GrowKeepsRuns(before: seq<Segment>, hand: int, start: int, labels: seq<Option<Label>>)
    requires labels != [] && AreRuns(before, hand, start, labels[..|labels| - 1])
    ensures var n := |labels| - 1;
      AreRuns(Grow(before, hand, start + n, if n > 0 then labels[n - 1] else None, labels[n]), hand, start, labels)
  {
    var n := |labels| - 1;
    var init := labels[..n];
    assert forall k | 0 <= k < n :: init[k] == labels[k];
    if labels[n].None? {
      KeepRuns(before, hand, start, labels);
    } else if n > 0 && labels[n - 1] == labels[n] {
      assert init[n - 1].Some?;
      ExtendRuns(before, hand, start, labels);
    } else {
      AddRun(before, hand, start, labels);
    }
  }

  lemma KeepRuns(before: seq<Segment>, hand: int, start: int, labels: seq<Option<Label>>)
    requires labels != [] && AreRuns(before, hand, start, labels[..|labels| - 1]) && labels[|labels| - 1].None?
    ensures AreRuns(before, hand, start, labels)
  {
    StayMaximal(before, hand, start, labels);
    var init := labels[..|labels| - 1];
    hide AllMaximal, Covers;
    forall k | 0 <= k < |labels| && labels[k].Some?
      ensures exists i :: 0 <= i < |before| && Covers(before[i], start + k)
    {
      assert init[k].Some?;
    }
  }

  /** A new label that does not continue the last row's leaves every run maximal. */
  lemma StayMaximal(before: seq<Segment>, hand: int, start: int, labels: seq<Option<Label>>)
    requires labels != [] && AllMaximal(before, hand, start, labels[..|labels| - 1])
    requires labels[|labels| - 1].Some? && |labels| > 1 ==> labels[|labels| - 2] != labels[|labels| - 1]
    ensures AllMaximal(before, hand, start, labels)
  {
    var n := |labels| - 1;
    var init := labels[..n];
    forall i | 0 <= i < |before| ensures Maximal(before[i], hand, start, labels) {
      assert Maximal(before[i], hand, start, init);
      assert before[i].last == start + n - 1 ==> init[n - 1] == Some(before[i].tag) && init[n - 1] == labels[n - 1];
      MaximalStays(before[i], hand, start, labels);
    }
  }

  /** A run that ends before the last labelled row, or differs from the new label, stays maximal. */
  lemma MaximalStays(s: Segment, hand: int, start: int, labels: seq<Option<Label>>)
    requires labels != [] && Maximal(s, hand, start, labels[..|labels| - 1])
    requires s.last < start + |labels| - 2 || labels[|labels| - 1] != Some(s.tag)
    ensures Maximal(s, hand, start, labels)
  {
    var init := labels[..|labels| - 1];
    forall k | s.first - start <= k <= s.last - start ensures labels[k] == Some(s.tag) { assert init[k] == labels[k]; }
  }

  lemma MaximalExtends(s: Segment, hand: int, start: int, labels: seq<Option<Label>>)
    requires labels != [] && Maximal(s, hand, start, labels[..|labels| - 1])
    requires s.last == start + |labels| - 2 && labels[|labels| - 1] == Some(s.tag)
    ensures Maximal(s.(last := start + |labels| - 1), hand, start, labels)
  {
    var n := |labels| - 1;
    var init := labels[..n];
    forall k | s.first - start <= k <= n ensures labels[k] == Some(s.tag) { if k < n { assert init[k] == labels[k]; } }
  }

  lemma ExtendRuns(before: seq<Segment>, hand: int, start: int, labels: seq<Option<Label>>)
    requires |labels| > 1 && AreRuns(before, hand, start, labels[..|labels| - 1])
    requires labels[|labels| - 1].Some? && labels[|labels| - 2] == labels[|labels| - 1] && before != []
    ensures AreRuns(before[..|before| - 1] + [before[|before| - 1].(last := start + |labels| - 1)], hand, start, labels)
  {
    assert labels[..|labels| - 1][|labels| - 2] == labels[|labels| - 2];
    assert before[|before| - 1].last == start + |labels| - 2;
    assert Maximal(before[|before| - 1], hand, start, labels[..|labels| - 1]);
    ExtendMaximal(before, hand, start, labels);
    ExtendCovered(before, start, labels);
    assert Apart(before[..|before| - 1] + [before[|before| - 1].(last := start + |labels| - 1)]);
    hide AllMaximal, AllCovered, Apart;
  }

  lemma ExtendMaximal(before: seq<Segment>, hand: int, start: int, labels: seq<Option<Label>>)
    requires |labels| > 1 && before != [] && AllMaximal(before, hand, start, labels[..|labels| - 1]) && Apart(before)
    requires labels[|labels| - 1].Some? && labels[|labels| - 2] == labels[|labels| - 1]
      && before[|before| - 1].last == start + |labels| - 2
    ensures AllMaximal(before[..|before| - 1] + [before[|before| - 1].(last := start + |labels| - 1)], hand, start,
      labels)
  {
    var n, m := |labels| - 1, |before| - 1;
    var init := labels[..n];
    assert init[n - 1] == labels[n - 1];
    assert Maximal(before[m], hand, start, init);
    assert init[n - 1] == Some(before[m].tag);
    MaximalExtends(before[m], hand, start, labels);
    forall i | 0 <= i < m ensures Maximal(before[i], hand, start, labels) {
      assert before[i].last < before[m].first <= before[m].last;
      assert Maximal(before[i], hand, start, init);
      MaximalStays(before[i], hand, start, labels);
    }
    hide Maximal;
  }

  lemma ExtendCovered(before: seq<Segment>, start: int, labels: seq<Option<Label>>)
    requires |labels| > 1 && before != [] && AllCovered(before, start, labels[..|labels| - 1])
    requires before[|before| - 1].first <= before[|before| - 1].last == start + |labels| - 2
    ensures AllCovered(before[..|before| - 1] + [before[|before| - 1].(last := start + |labels| - 1)], start, labels)
  {
    var n, m := |labels| - 1, |before| - 1;
    var init, runs := labels[..n], before[..m] + [before[m].(last := start + n)];
    forall k | 0 <= k < |labels| && labels[k].Some? ensures exists i :: 0 <= i < |runs| && Covers(runs[i], start + k) {
      if k < n {
        assert init[k].Some?;
        var i :| 0 <= i < |before| && Covers(before[i], start + k);
        assert Covers(runs[i], start + k);
      } else {
        assert Covers(runs[m], start + k);
      }
    }
  }

  lemma AddRun(before: seq<Segment>, hand: int, start: int, labels: seq<Option<Label>>)
    requires labels != [] && AreRuns(before, hand, start, labels[..|labels| - 1])
    requires labels[|labels| - 1].Some? && (|labels| > 1 ==> labels[|labels| - 2] != labels[|labels| - 1])
    ensures AreRuns(before + [Segment(hand, labels[|labels| - 1].value, start + |labels| - 1, start + |labels| - 1)],
      hand, start, labels)
  {
    var n := |labels| - 1;
    var init, s := labels[..n], Segment(hand, labels[n].value, start + n, start + n);
    StayMaximal(before, hand, start, labels);
    assert Maximal(s, hand, start, labels);
    forall i | 0 <= i < |before| ensures before[i].last < s.first { assert Maximal(before[i], hand, start, init); }
    AddCovered(before, start, labels, s);
    hide Maximal, AllCovered;
  }

  lemma AddCovered(before: seq<Segment>, start: int, labels: seq<Option<Label>>, s: Segment)
    requires labels != [] && AllCovered(before, start, labels[..|labels| - 1]) && Covers(s, start + |labels| - 1)
    ensures AllCovered(before + [s], start, labels)
  {
    var n, runs := |labels| - 1, before + [s];
    var init := labels[..n];
    forall k | 0 <= k < |labels| && labels[k].Some? ensures exists i :: 0 <= i < |runs| && Covers(runs[i], start + k) {
      if k < n {
        assert init[k].Some?;
        var i :| 0 <= i < |before| && Covers(before[i], start + k);
        assert Covers(runs[i], start + k);
      } else {
        assert Covers(runs[|before|], start + k);
      }
    }
  }

  // ---------------------------------------------------------------- chains

  /** Segments that follow each other without gap or overlap from one frame up to, but not including, another. */
  predicate Chain(segments: seq<Segment>, from: int, to: int)
  {
    if segments == [] then from == to
    else segments[0].first == from && Chain(segments[1..], segments[0].last + 1, to)
  }

  lemma {:induction false} ChainSnoc(segments: seq<Segment>, s: Segment, from: int)
    requires Chain(segments, from, s.first)
    ensures Chain(segments + [s], from, s.last + 1)
  {
    if segments == [] {
      assert ([s])[1..] == [];
    } else {
      assert (segments + [s])[1..] == segments[1..] + [s];
      ChainSnoc(segments[1..], s, segments[0].last + 1);
    }
  }

  lemma {:induction false} ChainUnsnoc(segments: seq<Segment>, from: int, to: int)
    requires segments != [] && Chain(segments, from, to)
    ensures var s := segments[|segments| - 1]; Chain(segments[..|segments| - 1], from, s.first) && to == s.last + 1
  {
    if |segments| == 1 {
      assert segments[1..] == [];
    } else {
      ChainUnsnoc(segments[1..], segments[0].last + 1, to);
      assert segments[..|segments| - 1][1..] == segments[1..][..|segments| - 2];
    }
  }

  predicate Full(labels: seq<Option<Label>>)
  {
    forall k | 0 <= k < |labels| :: labels[k].Some?
  }

  lemma {:induction false} FullRunsChain(hand: int, start: int, labels: seq<Option<Label>>)
    requires Full(labels)
    ensures Chain(Runs(hand, start, labels), start, start + |labels|)
  {
    if labels != [] {
      var n := |labels| - 1;
      var before := Runs(hand, start, labels[..n]);
      FullRunsChain(hand, start, labels[..n]);
      assert labels[n].Some?;
      hide Runs;
      if n > 0 && labels[n - 1] == labels[n] && before != [] {
        var s := before[|before| - 1];
        ChainUnsnoc(before, start, start + n);
        ChainSnoc(before[..|before| - 1], s.(last := start + n), start);
      } else {
        ChainSnoc(before, Segment(hand, labels[n].value, start + n, start + n), start);
      }
    }
  }

  // ---------------------------------------------------------------- two passes, one labelling

  function Mask(l: Option<Label>, acting: bool): Option<Label>
  {
    if l.Some? && l.value.Acting? == acting then l else None
  }

  /** The labels of one pass: those of actors, or those of the rest. */
  function Masked(labels: seq<Option<Label>>, acting: bool): (l: seq<Option<Label>>)
    ensures |l| == |labels|
  {
    seq(|labels|, i requires 0 <= i < |labels| => Mask(labels[i], acting))
  }

  function Keep(segments: seq<Segment>, acting: bool): seq<Segment>
  {
    if segments == [] then []
    else
      var s := segments[|segments| - 1];
      Keep(segments[..|segments| - 1], acting) + if s.tag.Acting? == acting then [s] else []
  }

  lemma KeepSnoc(segments: seq<Segment>, s: Segment, acting: bool)
    ensures Keep(segments + [s], acting) == Keep(segments, acting) + if s.tag.Acting? == acting then [s] else []
  {
    assert (segments + [s])[..|segments|] == segments;
  }

  lemma {:induction false} LastRun(hand: int, start: int, labels: seq<Option<Label>>)
    requires labels != [] && labels[|labels| - 1].Some?
    ensures var r := Runs(hand, start, labels); r != [] && r[|r| - 1].tag == labels[|labels| - 1].value
  {
    var n := |labels| - 1;
    var before := Runs(hand, start, labels[..n]);
    if n > 0 && labels[n - 1] == labels[n] { LastRun(hand, start, labels[..n]); }
    hide Runs;
  }

  /** Growing all runs and keeping one kind is growing the runs of that kind. */
  lemma KeepGrow(before: seq<Segment>, hand: int, at: int, previous: Option<Label>, now: Label, acting: bool)
    requires previous.Some? ==> before != [] && before[|before| - 1].tag == previous.value
    ensures Keep(Grow(before, hand, at, previous, Some(now)), acting)
         == Grow(Keep(before, acting), hand, at, Mask(previous, acting), Mask(Some(now), acting))
  {
    if previous == Some(now) {
      var init, s := before[..|before| - 1], before[|before| - 1];
      assert before == init + [s];
      KeepSnoc(init, s, acting);
      KeepSnoc(init, s.(last := at), acting);
    } else {
      KeepSnoc(before, Segment(hand, now, at, at), acting);
    }
  }

  lemma RunsGrow(hand: int, start: int, labels: seq<Option<Label>>)
    requires labels != []
    ensures var n := |labels| - 1;
      Runs(hand, start, labels) ==
        Grow(Runs(hand, start, labels[..n]), hand, start + n, if n > 0 then labels[n - 1] else None, labels[n])
  {
    hide Grow;
  }

  lemma MaskedSnoc(labels: seq<Option<Label>>, acting: bool)
    requires labels != []
    ensures var n, masked := |labels| - 1, Masked(labels, acting);
      && masked[..n] == Masked(labels[..n], acting) && masked[n] == Mask(labels[n], acting)
      && (n > 0 ==> masked[n - 1] == Mask(labels[n - 1], acting))
  {
    hide Mask;
  }

  lemma {:induction false} PassesSplitRuns(hand: int, start: int, labels: seq<Option<Label>>, acting: bool)
    requires Full(labels)
    ensures Runs(hand, start, Masked(labels, acting)) == Keep(Runs(hand, start, labels), acting)
  {
    if labels != [] {
      hide Runs, Grow, Keep, Masked, Mask;
      var n := |labels| - 1;
      var init := labels[..n];
      assert Full(init) && labels[n].Some?;
      PassesSplitRuns(hand, start, init, acting);
      if n > 0 {
        assert init[n - 1] == labels[n - 1] && labels[n - 1].Some?;
        LastRun(hand, start, init);
      }
      hide Full;
      MaskedSnoc(labels, acting);
      RunsGrow(hand, start, labels);
      RunsGrow(hand, start, Masked(labels, acting));
      KeepGrow(Runs(hand, start, init), hand, start + n, if n > 0 then labels[n - 1] else None, labels[n].value,
        acting);
    }
  }

  lemma {:induction false} KeepBoth(segments: seq<Segment>)
    ensures multiset(Keep(segments, true) + Keep(segments, false)) == multiset(segments)
  {
    if segments != [] {
      var init, s := segments[..|segments| - 1], segments[|segments| - 1];
      KeepBoth(init);
      assert segments == init + [s];
    }
  }

  lemma LabelsMasked(rows: seq<Row>)
    ensures Full(Labels(BothPasses, rows)) && |Labels(BothPasses, rows)| == |rows|
    ensures Labels(EpisodePass, rows) == Masked(Labels(BothPasses, rows), true)
    ensures Labels(UnknownPass, rows) == Masked(Labels(BothPasses, rows), false)
  {
    var all := Labels(BothPasses, rows);
    forall i | 0 <= i < |rows|
      ensures all[i] == Some(LabelOf(rows[i]))
      ensures Labels(EpisodePass, rows)[i] == Mask(all[i], true) && Labels(UnknownPass, rows)[i] == Mask(all[i], false)
    {}
  }

  /** Episodes and unknown spans of a hand are, together, the maximal runs of its labelling. */
  lemma PassesTogether(h: Hand, rows: seq<Row>)
    ensures Episodes(h, rows) == Keep(AllRuns(h, rows), true) && UnknownSpans(h, rows) == Keep(AllRuns(h, rows), false)
    ensures multiset(Episodes(h, rows) + UnknownSpans(h, rows)) == multiset(AllRuns(h, rows))
    ensures Chain(AllRuns(h, rows), h.start, h.start + |rows|)
  {
    hide Runs, Keep, Chain, Labels, Full;
    LabelsMasked(rows);
    var labels := Labels(BothPasses, rows);
    PassesSplitRuns(h.id, h.start, labels, true);
    PassesSplitRuns(h.id, h.start, labels, false);
    FullRunsChain(h.id, h.start, labels);
    KeepBoth(Runs(h.id, h.start, labels));
  }

  // ---------------------------------------------------------------- frame counts

  function FrameCount(segments: seq<Segment>): int
  {
    if segments == [] then 0
    else FrameCount(segments[..|segments| - 1]) + (segments[|segments| - 1].last - segments[|segments| - 1].first + 1)
  }

  function Labelled(labels: seq<Option<Label>>): nat
  {
    if labels == [] then 0 else Labelled(labels[..|labels| - 1]) + if labels[|labels| - 1].Some? then 1 else 0
  }

  lemma FrameCountSnoc(segments: seq<Segment>, s: Segment)
    ensures FrameCount(segments + [s]) == FrameCount(segments) + (s.last - s.first + 1)
  {
    assert (segments + [s])[..|segments|] == segments;
  }

  lemma GrowCounts(before: seq<Segment>, hand: int, at: int, previous: Option<Label>, now: Option<Label>)
    requires previous.Some? ==> before != [] && before[|before| - 1].last == at - 1
    ensures FrameCount(Grow(before, hand, at, previous, now)) == FrameCount(before) + if now.Some? then 1 else 0
  {
    hide FrameCount;
    if now.Some? {
      if previous == now {
        var init, s := before[..|before| - 1], before[|before| - 1];
        assert before == init + [s];
        FrameCountSnoc(init, s);
        FrameCountSnoc(init, s.(last := at));
      } else {
        FrameCountSnoc(before, Segment(hand, now.value, at, at));
      }
    }
  }

  lemma {:induction false} RunsCountFrames(hand: int, start: int, labels: seq<Option<Label>>)
    ensures FrameCount(Runs(hand, start, labels)) == Labelled(labels)
  {
    if labels != [] {
      var n := |labels| - 1;
      RunsCountFrames(hand, start, labels[..n]);
      RunsAreMaximal(hand, start, labels[..n]);
      var before := Runs(hand, start, labels[..n]);
      var previous := if n > 0 then labels[n - 1] else None;
      RunsGrow(hand, start, labels);
      hide Runs, Grow, FrameCount, Maximal;
      if n > 0 { assert labels[..n][n - 1] == labels[n - 1]; }
      GrowCounts(before, hand, start + n, previous, labels[n]);
    }
  }

  lemma {:induction false} LabelledCounts(rows: seq<Row>)
    ensures Labelled(Labels(EpisodePass, rows)) == ActorFrames(rows)
    ensures Labelled(Labels(UnknownPass, rows)) == |rows| - ActorFrames(rows)
  {
    if rows != [] {
      var init := rows[..|rows| - 1];
      LabelledCounts(init);
      assert Labels(EpisodePass, rows)[..|rows| - 1] == Labels(EpisodePass, init);
      assert Labels(UnknownPass, rows)[..|rows| - 1] == Labels(UnknownPass, init);
    }
  }

  /** The reported frame counts add up: episodes cover the actor frames, unknown spans all others. */
  lemma CountsAddUp(h: Hand, rows: seq<Row>)
    ensures FrameCount(Episodes(h, rows)) == ActorFrames(rows)
    ensures FrameCount(UnknownSpans(h, rows)) == |rows| - ActorFrames(rows)
  {
    RunsCountFrames(h.id, h.start, Labels(EpisodePass, rows));
    RunsCountFrames(h.id, h.start, Labels(UnknownPass, rows));
    LabelledCounts(rows);
  }
}
