/**
 The audit over all complete hands: both passes, the sorted segment list, and the closing partition check, which is
 proved to fail only for a hand whose frame range is more than empty.
 */
module ActorAudit {
  import opened Common
  import opened ActorEpisodes
  import opened EpisodePartition

  /** The observation window of the registry, and the rows bound to it. */
  datatype Window = Window(first: int, last: int, rows: seq<Row>)

  /** One row per frame of the window, in order. */
  predicate Contiguous(w: Window)
  {
    && |w.rows| == (if w.first <= w.last then w.last + 1 - w.first else 0)
    && forall i | 0 <= i < |w.rows| :: w.rows[i].frame == w.first + i
  }

  /** The rows by their frame; a later row replaces an earlier one. */
  function ByFrame(rows: seq<Row>): map<int, Row>
  {
    if rows == [] then map[] else ByFrame(rows[..|rows| - 1])[rows[|rows| - 1].frame := rows[|rows| - 1]]
  }

  /** The rows of a hand, looked up frame by frame. */
  function HandRows(w: Window, h: Hand): Result<seq<Row>, Error>
  {
    var byFrame := ByFrame(w.rows);
    if h.start > h.last then Ok([])
    else if exists f | h.start <= f <= h.last :: f !in byFrame then Raised(FrameMissing)
    else Ok(seq(h.last + 1 - h.start, i requires 0 <= i <= h.last - h.start => byFrame[h.start + i]))
  }

  lemma {:induction false} ByFrameMembers(rows: seq<Row>)
    ensures forall f | f in ByFrame(rows) :: ByFrame(rows)[f] in rows && ByFrame(rows)[f].frame == f
    ensures forall r | r in rows :: r.frame in ByFrame(rows)
  {
    if rows != [] {
      ByFrameMembers(rows[..|rows| - 1]);
      assert rows == rows[..|rows| - 1] + [rows[|rows| - 1]];
    }
  }

  /**
   In a contiguous window the rows of a hand are those of its frames, in order, and a frame is missing exactly when the
   hand reaches out of the window.
   */
  lemma HandRowsAreFrames(w: Window, h: Hand)
    ensures HandRows(w, h).Ok? ==>
      forall k | 0 <= k < |HandRows(w, h).value| ::
        HandRows(w, h).value[k] in w.rows && HandRows(w, h).value[k].frame == h.start + k
    ensures Contiguous(w) ==>
      (HandRows(w, h).Raised? <==> h.start <= h.last && !(w.first <= h.start && h.last <= w.last))
  {
    ByFrameMembers(w.rows);
    if Contiguous(w) {
      forall f ensures f in ByFrame(w.rows) <==> w.first <= f <= w.last {
        if w.first <= f <= w.last { assert w.rows[f - w.first] in w.rows; }
        if f in ByFrame(w.rows) {
          var i :| 0 <= i < |w.rows| && w.rows[i] == ByFrame(w.rows)[f];
        }
      }
      hide ByFrame;
      if h.start < w.first { assert h.start !in ByFrame(w.rows); }
      else { assert h.last > w.last ==> h.last !in ByFrame(w.rows); }
    }
  }

  function HandError(w: Window, h: Hand): Option<Error>
  {
    match HandRows(w, h)
    case Raised(e) => Some(e)
    case Ok(rows) => ActorError(rows)
  }

  function FirstError(w: Window, hands: seq<Hand>): Option<Error>
  {
    if hands == [] then None
    else
      var before := FirstError(w, hands[..|hands| - 1]);
      if before.Some? then before else HandError(w, hands[|hands| - 1])
  }

  function RowsOf(w: Window, h: Hand): seq<Row>
  {
    match HandRows(w, h) case Ok(rows) => rows case Raised(_) => []
  }

  function HandSegments(p: Pass, w: Window, h: Hand): seq<Segment>
  {
    Runs(h.id, h.start, Labels(p, RowsOf(w, h)))
  }

  /** What one pass collects over all hands. */
  function Collected(p: Pass, w: Window, hands: seq<Hand>): seq<Segment>
  {
    if hands == [] then []
    else Collected(p, w, hands[..|hands| - 1]) + HandSegments(p, w, hands[|hands| - 1])
  }

  function AllSegments(w: Window, hands: seq<Hand>): seq<Segment>
  {
    Collected(EpisodePass, w, hands) + Collected(UnknownPass, w, hands)
  }

  lemma {:induction false} ErrorDecides(w: Window, hands: seq<Hand>, n: nat)
    requires n <= |hands| && FirstError(w, hands[..n]).Some?
    ensures FirstError(w, hands) == FirstError(w, hands[..n])
    decreases |hands|
  {
    if n == |hands| {
      assert hands[..n] == hands;
    } else {
      assert hands[..|hands| - 1][..n] == hands[..n];
      ErrorDecides(w, hands[..|hands| - 1], n);
    }
  }

  lemma HandStep(w: Window, hands: seq<Hand>, k: nat)
    requires k < |hands| && FirstError(w, hands[..k]).None?
    ensures FirstError(w, hands[..k + 1]) == HandError(w, hands[k])
    ensures forall p :: Collected(p, w, hands[..k + 1]) == Collected(p, w, hands[..k]) + HandSegments(p, w, hands[k])
  {
    hide HandError, HandSegments;
    assert hands[..k + 1][..k] == hands[..k];
  }

  method CollectHands(w: Window, hands: seq<Hand>)
    returns (failed: Option<Error>, episodes: seq<Segment>, unknown: seq<Segment>)
    ensures failed == FirstError(w, hands)
    ensures failed.None? ==> episodes == Collected(EpisodePass, w, hands) && unknown == Collected(UnknownPass, w, hands)
  {
    failed, episodes, unknown := None, [], [];
    for k := 0 to |hands|
      invariant FirstError(w, hands[..k]).None?
      invariant episodes == Collected(EpisodePass, w, hands[..k]) && unknown == Collected(UnknownPass, w, hands[..k])
    {
      HandStep(w, hands, k);
      hide ActorError, Collected, Runs, Labels, FirstError;
      var h := hands[k];
      var rows := HandRows(w, h);
      if rows.Raised? {
        ErrorDecides(w, hands, k + 1);
        failed := Some(rows.error);
        return;
      }
      var spans := CollectUnknown(h, rows.value);
      var found, _ := CollectEpisodes(h, rows.value);
      if found.Raised? {
        ErrorDecides(w, hands, k + 1);
        failed := Some(found.error);
        return;
      }
      unknown, episodes := unknown + spans, episodes + found.value;
    }
    assert hands[..|hands|] == hands;
  }

  // ---------------------------------------------------------------- sorting

  function Position(hands: seq<Hand>, id: int): nat
  {
    if hands == [] then 0
    else if hands[|hands| - 1].id == id then |hands| - 1 else Position(hands[..|hands| - 1], id)
  }

  predicate Less(hands: seq<Hand>, a: Segment, b: Segment)
  {
    var p, q := Position(hands, a.hand), Position(hands, b.hand);
    p < q || (p == q && a.first <= b.first)
  }

  /** Stable insertion into a sorted list. */
  function Insert(hands: seq<Hand>, sorted: seq<Segment>, s: Segment): seq<Segment>
  {
    if sorted == [] then [s]
    else
      var n := |sorted| - 1;
      if Less(hands, sorted[n], s) then sorted + [s] else Insert(hands, sorted[..n], s) + [sorted[n]]
  }

  function Sorted(hands: seq<Hand>, segments: seq<Segment>): seq<Segment>
  {
    if segments == [] then [] else Insert(hands, Sorted(hands, segments[..|segments| - 1]), segments[|segments| - 1])
  }

  predicate Ordered(hands: seq<Hand>, s: seq<Segment>)
  {
    forall i, j | 0 <= i < j < |s| :: Less(hands, s[i], s[j])
  }

  lemma {:induction false} InsertOrdered(hands: seq<Hand>, sorted: seq<Segment>, s: Segment)
    requires Ordered(hands, sorted)
    ensures Ordered(hands, Insert(hands, sorted, s))
      && multiset(Insert(hands, sorted, s)) == multiset(sorted) + multiset{s}
  {
    if sorted == [] {
    } else {
      hide Position;
      var n := |sorted| - 1;
      var init, t := sorted[..n], sorted[n];
      assert sorted == init + [t];
      if Less(hands, t, s) {
        forall i, j | 0 <= i < j < |sorted + [s]| ensures Less(hands, (sorted + [s])[i], (sorted + [s])[j]) {}
      } else {
        InsertOrdered(hands, init, s);
        var inner := Insert(hands, init, s);
        forall i | 0 <= i < |inner| ensures Less(hands, inner[i], t) {
          assert inner[i] in multiset(inner);
          assert inner[i] == s || inner[i] in init;
        }
        assert Insert(hands, sorted, s) == inner + [t];
      }
    }
  }

  lemma CountSnoc<T>(s: seq<T>)
    requires s != []
    ensures multiset(s) == multiset(s[..|s| - 1]) + multiset{s[|s| - 1]}
  {
    assert s == s[..|s| - 1] + [s[|s| - 1]];
  }

  lemma {:induction false} SortedOrders(hands: seq<Hand>, segments: seq<Segment>)
    ensures Ordered(hands, Sorted(hands, segments)) && multiset(Sorted(hands, segments)) == multiset(segments)
  {
    if segments != [] {
      var init, s := segments[..|segments| - 1], segments[|segments| - 1];
      SortedOrders(hands, init);
      assert Sorted(hands, segments) == Insert(hands, Sorted(hands, init), s);
      hide Insert, Ordered, Sorted;
      InsertOrdered(hands, Sorted(hands, init), s);
      CountSnoc(segments);
    }
  }

  // ---------------------------------------------------------------- the closing check

  function Selected(segments: seq<Segment>, id: int): seq<Segment>
  {
    if segments == [] then []
    else
      var s := segments[|segments| - 1];
      Selected(segments[..|segments| - 1], id) + if s.hand == id then [s] else []
  }

  predicate Partitions(segments: seq<Segment>, h: Hand)
  {
    Chain(Selected(segments, h.id), h.start, h.last + 1)
  }

  method CheckPartition(segments: seq<Segment>, hands: seq<Hand>) returns (ok: bool)
    ensures ok <==> forall k | 0 <= k < |hands| :: Partitions(segments, hands[k])
  {
    for k := 0 to |hands|
      invariant forall j | 0 <= j < k :: Partitions(segments, hands[j])
    {
      var h := hands[k];
      var selected, cursor, i := Selected(segments, h.id), h.start, 0;
      assert selected[0..] == selected;
      while i < |selected|
        invariant 0 <= i <= |selected|
        invariant Partitions(segments, h) <==> Chain(selected[i..], cursor, h.last + 1)
      {
        assert selected[i..][1..] == selected[i + 1..];
        if selected[i].first != cursor { return false; }
        cursor := selected[i].last + 1;
        i := i + 1;
      }
      if cursor != h.last + 1 { return false; }
    }
    ok := true;
  }

  method BuildSegments(w: Window, hands: seq<Hand>) returns (r: Result<seq<Segment>, Error>)
    ensures r == Built(w, hands)
  {
    if !Contiguous(w) { return Raised(WindowNotContiguous); }
    if exists i :: 0 <= i < |w.rows| && !RowAccepted(w.rows[i]) { return Raised(EvidenceRejected); }
    var failed, episodes, unknown := CollectHands(w, hands);
    if failed.Some? { return Raised(failed.value); }
    var segments := Sorted(hands, episodes + unknown);
    var ok := CheckPartition(segments, hands);
    r := if ok then Ok(segments) else Raised(NoPartition);
  }

  function Built(w: Window, hands: seq<Hand>): Result<seq<Segment>, Error>
  {
    if !Contiguous(w) then Raised(WindowNotContiguous)
    else if exists i :: 0 <= i < |w.rows| && !RowAccepted(w.rows[i]) then Raised(EvidenceRejected)
    else if FirstError(w, hands).Some? then Raised(FirstError(w, hands).value)
    else
      var segments := Sorted(hands, AllSegments(w, hands));
      if forall k | 0 <= k < |hands| :: Partitions(segments, hands[k]) then Ok(segments) else Raised(NoPartition)
  }

  // ---------------------------------------------------------------- it never fails

  predicate UniqueIds(hands: seq<Hand>)
  {
    forall i, j | 0 <= i < j < |hands| :: hands[i].id != hands[j].id
  }

  lemma SelectedSnoc(segments: seq<Segment>, s: Segment, id: int)
    ensures Selected(segments + [s], id) == Selected(segments, id) + if s.hand == id then [s] else []
  {
    assert (segments + [s])[..|segments|] == segments;
  }

  lemma {:induction false} SelectedConcat(a: seq<Segment>, b: seq<Segment>, id: int)
    ensures Selected(a + b, id) == Selected(a, id) + Selected(b, id)
  {
    if b == [] {
      assert a + b == a;
    } else {
      var init, s := b[..|b| - 1], b[|b| - 1];
      SelectedConcat(a, init, id);
      assert a + b == (a + init) + [s];
      SelectedSnoc(a + init, s, id);
    }
  }

  predicate AllOf(segments: seq<Segment>, id: int)
  {
    forall i | 0 <= i < |segments| :: segments[i].hand == id
  }

  lemma {:induction false} SelectedAll(segments: seq<Segment>, own: int, id: int)
    requires AllOf(segments, own)
    ensures Selected(segments, id) == if own == id then segments else []
  {
    if segments != [] {
      SelectedAll(segments[..|segments| - 1], own, id);
      assert segments[..|segments| - 1] + [segments[|segments| - 1]] == segments;
    }
  }

  lemma RunsAreOwn(hand: int, start: int, labels: seq<Option<Label>>)
    ensures AllOf(Runs(hand, start, labels), hand)
  {
    RunsAreMaximal(hand, start, labels);
    var runs := Runs(hand, start, labels);
    hide Runs;
    forall i | 0 <= i < |runs| ensures runs[i].hand == hand { assert Maximal(runs[i], hand, start, labels); }
  }

  lemma OwnSegments(p: Pass, w: Window, h: Hand, id: int)
    ensures Selected(HandSegments(p, w, h), id) == if h.id == id then HandSegments(p, w, h) else []
  {
    hide Runs, Labels, AllOf, Selected, RowsOf;
    RunsAreOwn(h.id, h.start, Labels(p, RowsOf(w, h)));
    SelectedAll(HandSegments(p, w, h), h.id, id);
  }

  lemma SelectedStep(p: Pass, w: Window, hands: seq<Hand>, id: int)
    requires hands != []
    ensures var init, h := hands[..|hands| - 1], hands[|hands| - 1];
      Selected(Collected(p, w, hands), id) == Selected(Collected(p, w, init), id) +
        if h.id == id then HandSegments(p, w, h) else []
  {
    var init, h := hands[..|hands| - 1], hands[|hands| - 1];
    hide HandSegments, Selected;
    SelectedConcat(Collected(p, w, init), HandSegments(p, w, h), id);
    OwnSegments(p, w, h, id);
  }

  lemma {:induction false} SelectedNone(p: Pass, w: Window, hands: seq<Hand>, id: int)
    requires forall i | 0 <= i < |hands| :: hands[i].id != id
    ensures Selected(Collected(p, w, hands), id) == []
  {
    if hands != [] {
      SelectedNone(p, w, hands[..|hands| - 1], id);
      SelectedStep(p, w, hands, id);
    }
  }

  /** Out of all hands' segments, selecting by one hand's id gives that hand's own segments. */
  lemma {:induction false} SelectedOwn(p: Pass, w: Window, hands: seq<Hand>, k: nat)
    requires UniqueIds(hands) && k < |hands|
    ensures Selected(Collected(p, w, hands), hands[k].id) == HandSegments(p, w, hands[k])
    decreases |hands|
  {
    hide HandSegments, Selected, Collected;
    var n, id := |hands| - 1, hands[k].id;
    SelectedStep(p, w, hands, id);
    if k < n {
      SelectedOwn(p, w, hands[..n], k);
      assert HandSegments(p, w, hands[k]) + [] == HandSegments(p, w, hands[k]);
    } else {
      SelectedNone(p, w, hands[..n], id);
      assert [] + HandSegments(p, w, hands[k]) == HandSegments(p, w, hands[k]);
    }
  }

  lemma {:induction false} SelectedCounts(segments: seq<Segment>, id: int)
    ensures forall s :: multiset(Selected(segments, id))[s] == if s.hand == id then multiset(segments)[s] else 0
  {
    if segments != [] {
      var init, t := segments[..|segments| - 1], segments[|segments| - 1];
      SelectedCounts(init, id);
      assert segments == init + [t];
    }
  }

  lemma SelectedSame(a: seq<Segment>, b: seq<Segment>, id: int)
    requires multiset(a) == multiset(b)
    ensures multiset(Selected(a, id)) == multiset(Selected(b, id))
  {
    SelectedCounts(a, id);
    SelectedCounts(b, id);
    hide Selected;
    assert forall s :: multiset(Selected(a, id))[s] == multiset(Selected(b, id))[s];
  }

  predicate ByFirst(s: seq<Segment>)
  {
    forall i, j | 0 <= i < j < |s| :: s[i].first <= s[j].first
  }

  lemma {:induction false} SelectedByFirst(hands: seq<Hand>, segments: seq<Segment>, id: int)
    requires Ordered(hands, segments)
    ensures ByFirst(Selected(segments, id))
    ensures forall i | 0 <= i < |Selected(segments, id)| ::
      Selected(segments, id)[i] in segments && Selected(segments, id)[i].hand == id
  {
    if segments != [] {
      var init, t := segments[..|segments| - 1], segments[|segments| - 1];
      SelectedByFirst(hands, init, id);
      var sel := Selected(init, id);
      hide Position;
      if t.hand == id {
        forall i | 0 <= i < |sel| ensures sel[i].first <= t.first {
          var j :| 0 <= j < |init| && init[j] == sel[i];
          assert Less(hands, segments[j], segments[|segments| - 1]);
        }
      }
    }
  }

  predicate Strict(s: seq<Segment>)
  {
    forall i, j | 0 <= i < j < |s| :: s[i].first < s[j].first
  }

  lemma LastSame(a: seq<Segment>, b: seq<Segment>)
    requires ByFirst(a) && Strict(b) && multiset(a) == multiset(b) && b != []
    ensures a != [] && a[|a| - 1] == b[|b| - 1]
  {
    assert b[0] in multiset(a);
    var x, y := a[|a| - 1], b[|b| - 1];
    assert x in multiset(b) && y in multiset(a);
    var i :| 0 <= i < |b| && b[i] == x;
    var j :| 0 <= j < |a| && a[j] == y;
    assert y.first <= x.first;
  }

  lemma CancelOne<T>(a: multiset<T>, b: multiset<T>, x: T)
    requires a + multiset{x} == b + multiset{x}
    ensures a == b
  {
    assert a == (a + multiset{x}) - multiset{x} && b == (b + multiset{x}) - multiset{x};
  }

  lemma DropLast<T>(a: seq<T>, b: seq<T>)
    requires a != [] && b != [] && a[|a| - 1] == b[|b| - 1] && multiset(a) == multiset(b)
    ensures multiset(a[..|a| - 1]) == multiset(b[..|b| - 1])
  {
    CountSnoc(a);
    CountSnoc(b);
    CancelOne(multiset(a[..|a| - 1]), multiset(b[..|b| - 1]), a[|a| - 1]);
  }

  lemma Prefixes(a: seq<Segment>, b: seq<Segment>)
    requires ByFirst(a) && Strict(b) && a != [] && b != []
    ensures ByFirst(a[..|a| - 1]) && Strict(b[..|b| - 1])
  {}

  /** A list sorted by first frame, with the elements of a strictly increasing one, is that one. */
  lemma {:induction false} SortedIsUnique(a: seq<Segment>, b: seq<Segment>)
    requires ByFirst(a) && Strict(b) && multiset(a) == multiset(b)
    ensures a == b
    decreases |b|
  {
    hide ByFirst, Strict;
    if b == [] {
      assert |multiset(a)| == 0;
    } else {
      LastSame(a, b);
      Prefixes(a, b);
      DropLast(a, b);
      SortedIsUnique(a[..|a| - 1], b[..|b| - 1]);
      assert a == a[..|a| - 1] + [a[|a| - 1]] && b == b[..|b| - 1] + [b[|b| - 1]];
    }
  }

  lemma RunsStrict(h: Hand, rows: seq<Row>)
    ensures Strict(AllRuns(h, rows))
  {
    var labels, runs := Labels(BothPasses, rows), AllRuns(h, rows);
    RunsAreMaximal(h.id, h.start, labels);
    hide Runs;
    forall i, j | 0 <= i < j < |runs| ensures runs[i].first < runs[j].first {
      assert Maximal(runs[i], h.id, h.start, labels);
    }
  }

  /** In the sorted list of all segments, each hand's segments are the maximal runs of its labelling, in order. */
  lemma SelectedAreRuns(w: Window, hands: seq<Hand>, k: nat)
    requires UniqueIds(hands) && k < |hands|
    ensures Selected(Sorted(hands, AllSegments(w, hands)), hands[k].id) == AllRuns(hands[k], RowsOf(w, hands[k]))
  {
    var h, all := hands[k], AllSegments(w, hands);
    var rows := RowsOf(w, h);
    assert HandSegments(EpisodePass, w, h) == Episodes(h, rows)
      && HandSegments(UnknownPass, w, h) == UnknownSpans(h, rows);
    hide RowsOf, Episodes, UnknownSpans, AllRuns, HandSegments, Collected, Sorted, Selected, Ordered, Chain, Keep,
      UniqueIds, ByFirst, Strict;
    SortedOrders(hands, all);
    var sorted := Sorted(hands, all);
    SelectedByFirst(hands, sorted, h.id);
    SelectedSame(sorted, all, h.id);
    SelectedConcat(Collected(EpisodePass, w, hands), Collected(UnknownPass, w, hands), h.id);
    SelectedOwn(EpisodePass, w, hands, k);
    SelectedOwn(UnknownPass, w, hands, k);
    PassesTogether(h, rows);
    RunsStrict(h, rows);
    SortedIsUnique(Selected(sorted, h.id), AllRuns(h, rows));
  }

  lemma RowsLength(w: Window, h: Hand)
    requires HandRows(w, h).Ok?
    ensures |RowsOf(w, h)| == if h.start <= h.last then h.last + 1 - h.start else 0
  {
    hide ByFrame;
  }

  lemma {:induction false} NoErrorAt(w: Window, hands: seq<Hand>, k: nat)
    requires FirstError(w, hands).None? && k < |hands|
    ensures HandError(w, hands[k]).None?
    decreases |hands|
  {
    if k < |hands| - 1 { NoErrorAt(w, hands[..|hands| - 1], k); }
  }

  lemma {:induction false} ChainEndUnique(segments: seq<Segment>, from: int, to: int, to': int)
    requires Chain(segments, from, to)
    ensures Chain(segments, from, to') <==> to == to'
  {
    if segments != [] { ChainEndUnique(segments[1..], segments[0].last + 1, to, to'); }
  }

  lemma PartitionedIff(w: Window, hands: seq<Hand>, k: nat)
    requires UniqueIds(hands) && FirstError(w, hands).None? && k < |hands|
    ensures Partitions(Sorted(hands, AllSegments(w, hands)), hands[k]) <==> hands[k].start <= hands[k].last + 1
  {
    hide Sorted, AllSegments, AllRuns, Chain, RowsOf, FirstError, Selected, ActorError, UniqueIds, Episodes,
      UnknownSpans, Keep;
    var h := hands[k];
    NoErrorAt(w, hands, k);
    RowsLength(w, h);
    hide HandRows, HandError;
    SelectedAreRuns(w, hands, k);
    PassesTogether(h, RowsOf(w, h));
    ChainEndUnique(AllRuns(h, RowsOf(w, h)), h.start, h.start + |RowsOf(w, h)|, h.last + 1);
  }

  /**
   With unique hand ids and rows that pass the evidence checks, the partition check accepts a hand exactly when its
   range is not more than empty; so for nonempty ranges the audit never ends in a partition error.
   */
  lemma PartitionCheckNeverFails(w: Window, hands: seq<Hand>)
    requires UniqueIds(hands) && FirstError(w, hands).None?
    ensures var segments := Sorted(hands, AllSegments(w, hands));
      forall k | 0 <= k < |hands| :: Partitions(segments, hands[k]) <==> hands[k].start <= hands[k].last + 1
    ensures (forall k | 0 <= k < |hands| :: hands[k].start <= hands[k].last) ==> Built(w, hands) != Raised(NoPartition)
  {
    hide Sorted, AllSegments, FirstError, UniqueIds, Partitions, RowAccepted, Contiguous;
    var segments := Sorted(hands, AllSegments(w, hands));
    forall k | 0 <= k < |hands| ensures Partitions(segments, hands[k]) <==> hands[k].start <= hands[k].last + 1 {
      PartitionedIff(w, hands, k);
    }
  }
}
