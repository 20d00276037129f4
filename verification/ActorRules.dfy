/**
 The actor episode audit in terms of its rows and hands: what it accepts, which error comes first, and what the segments
 and the bindings of an accepted audit are.
 */
module ActorRules {
  import opened Common
  import opened ActorEpisodes
  import opened EpisodePartition
  import opened ActorAudit
  import B = ActorBinding
  import S = StateAdapter

  // ---------------------------------------------------------------- rows

  /** An actor is a seat; a row without evidence shows no actor and no scene; unknown actors come without any hint. */
  predicate Believable(r: Row)
  {
    match r.actor
    case Some(a) => 0 <= a <= 7 && r.evidence.Some?
    case None =>
      if r.evidence.None? then !r.supported else r.evidence.value.actor == None && !r.evidence.value.heroTurn
  }

  /** An actor acts in a supported scene, and its evidence names it, or shows the hero's turn for seat four. */
  predicate Founded(r: Row)
  {
    r.actor.Some? ==> r.supported && Named(r)
  }

  predicate Named(r: Row)
  {
    r.actor.Some? && r.evidence.Some?
    && (r.evidence.value.actor == r.actor || (r.actor == Some(4) && r.evidence.value.heroTurn))
  }

  lemma AcceptedExactly(r: Row)
    ensures RowAccepted(r) <==> Believable(r)
  {}

  lemma {:induction false} FoundedExactly(rows: seq<Row>)
    ensures ActorError(rows).None? <==> forall i | 0 <= i < |rows| :: Founded(rows[i])
    ensures ActorError(rows).Some? ==>
      exists i :: FirstUnfounded(rows, i) && ActorError(rows) ==
        Some(if !rows[i].supported then ActorInUnsupportedScene else ActorAndEvidenceDisagree)
  {
    if rows != [] {
      var n := |rows| - 1;
      FoundedExactly(rows[..n]);
      if ActorError(rows[..n]).Some? {
        var i :| FirstUnfounded(rows[..n], i) && ActorError(rows[..n]) ==
          Some(if !rows[i].supported then ActorInUnsupportedScene else ActorAndEvidenceDisagree);
        assert FirstUnfounded(rows, i);
      } else if ActorError(rows).Some? {
        assert FirstUnfounded(rows, n);
      }
    }
  }

  predicate FirstUnfounded(rows: seq<Row>, i: int)
  {
    0 <= i < |rows| && !Founded(rows[i]) && forall j | 0 <= j < i :: Founded(rows[j])
  }

  // ---------------------------------------------------------------- windows and hands

  /** As many rows as the window has frames, each with its own frame number. */
  predicate Complete(w: Window)
  {
    && (w.first <= w.last ==> |w.rows| == w.last - w.first + 1) && (w.first > w.last ==> w.rows == [])
    && forall i | 0 <= i < |w.rows| :: w.rows[i].frame == w.first + i
  }

  /** A hand without frames, or with all of them in the window. */
  predicate Inside(w: Window, h: Hand)
  {
    h.start > h.last || (w.first <= h.start && h.last <= w.last)
  }

  /** The row of a frame, in a complete window. */
  function RowAt(w: Window, f: int): Row
    requires 0 <= f - w.first < |w.rows|
  {
    w.rows[f - w.first]
  }

  predicate HandFounded(w: Window, h: Hand)
  {
    forall f | h.start <= f <= h.last && 0 <= f - w.first < |w.rows| :: Founded(RowAt(w, f))
  }

  lemma RowsAreThere(w: Window, h: Hand)
    requires Complete(w) && Inside(w, h)
    ensures HandRows(w, h).Ok? && |RowsOf(w, h)| == (if h.start <= h.last then h.last + 1 - h.start else 0)
    ensures forall k | 0 <= k < |RowsOf(w, h)| ::
      0 <= h.start + k - w.first < |w.rows| && RowsOf(w, h)[k] == RowAt(w, h.start + k)
  {
    HandRowsAreFrames(w, h);
    RowsLength(w, h);
    var rows := RowsOf(w, h);
    hide HandRows;
    forall k | 0 <= k < |rows| ensures rows[k] == RowAt(w, h.start + k) {
      var i :| 0 <= i < |w.rows| && w.rows[i] == rows[k];
      assert i == h.start + k - w.first;
    }
  }

  /** The first frame of the hand whose row is unfounded. */
  predicate FailsAt(w: Window, h: Hand, f: int)
  {
    && h.start <= f <= h.last && 0 <= f - w.first < |w.rows| && !Founded(RowAt(w, f))
    && forall g | h.start <= g < f && 0 <= g - w.first < |w.rows| :: Founded(RowAt(w, g))
  }

  lemma RowOf(w: Window, h: Hand, k: int)
    requires Complete(w) && Inside(w, h) && 0 <= k < |RowsOf(w, h)|
    ensures 0 <= h.start + k - w.first < |w.rows| && RowsOf(w, h)[k] == RowAt(w, h.start + k)
  {
    RowsAreThere(w, h);
    hide RowsOf, HandRows, Inside, Complete;
  }

  /** One hand fails for want of a frame, or with its first unfounded row. */
  lemma HandExactly(w: Window, h: Hand)
    requires Complete(w)
    ensures HandError(w, h) == Some(FrameMissing) <==> !Inside(w, h)
    ensures HandError(w, h).None? <==> Inside(w, h) && HandFounded(w, h)
    ensures Inside(w, h) && HandError(w, h).Some? ==>
      exists f :: FailsAt(w, h, f) && HandError(w, h) ==
        Some(if !RowAt(w, f).supported then ActorInUnsupportedScene else ActorAndEvidenceDisagree)
  {
    HandRowsAreFrames(w, h);
    if Inside(w, h) {
      RowsAreThere(w, h);
      var rows := RowsOf(w, h);
      FoundedExactly(rows);
      hide HandRows, ActorError, Founded;
      assert HandError(w, h) == ActorError(rows);
      forall f | h.start <= f <= h.last && 0 <= f - w.first < |w.rows| ensures RowAt(w, f) == rows[f - h.start] {
        assert rows[f - h.start] == RowAt(w, h.start + (f - h.start));
      }
      if ActorError(rows).Some? {
        var i :| FirstUnfounded(rows, i) && ActorError(rows) ==
          Some(if !rows[i].supported then ActorInUnsupportedScene else ActorAndEvidenceDisagree);
        var f := h.start + i;
        forall g | h.start <= g < f && 0 <= g - w.first < |w.rows| ensures Founded(RowAt(w, g)) {
          assert RowAt(w, g) == rows[g - h.start];
        }
        assert RowAt(w, f) == rows[i];
        assert FailsAt(w, h, f);
      } else {
        assert HandFounded(w, h);
      }
    }
  }

  lemma {:induction false} FirstHandDecides(w: Window, hands: seq<Hand>)
    ensures FirstError(w, hands).None? <==> forall k | 0 <= k < |hands| :: HandError(w, hands[k]).None?
    ensures FirstError(w, hands).Some? ==>
      exists k :: 0 <= k < |hands| && FirstError(w, hands) == HandError(w, hands[k])
                  && forall j | 0 <= j < k :: HandError(w, hands[j]).None?
  {
    hide HandError;
    if hands != [] {
      var n := |hands| - 1;
      FirstHandDecides(w, hands[..n]);
      if FirstError(w, hands[..n]).Some? {
        var k :| 0 <= k < n && FirstError(w, hands[..n]) == HandError(w, hands[k])
          && forall j | 0 <= j < k :: HandError(w, hands[j]).None?;
      }
    }
  }

  /** What the audit accepts, given that hand ids are not repeated, and its first two errors. */
  lemma AuditExactly(w: Window, hands: seq<Hand>)
    requires UniqueIds(hands)
    ensures Built(w, hands) == Raised(WindowNotContiguous) <==> !Complete(w)
    ensures Built(w, hands) == Raised(EvidenceRejected) <==>
      Complete(w) && exists i :: 0 <= i < |w.rows| && !Believable(w.rows[i])
    ensures Built(w, hands).Ok? <==>
      && Complete(w) && (forall i | 0 <= i < |w.rows| :: Believable(w.rows[i]))
      && forall k | 0 <= k < |hands| ::
           Inside(w, hands[k]) && HandFounded(w, hands[k]) && hands[k].start <= hands[k].last + 1
  {
    assert Contiguous(w) <==> Complete(w);
    forall r ensures RowAccepted(r) <==> Believable(r) { AcceptedExactly(r); }
    if Complete(w) && FirstError(w, hands).None? { PartitionCheckNeverFails(w, hands); }
    FirstHandDecides(w, hands);
    if Complete(w) {
      forall k | 0 <= k < |hands|
        ensures HandError(w, hands[k]).None? <==> Inside(w, hands[k]) && HandFounded(w, hands[k])
      {
        HandExactly(w, hands[k]);
      }
    }
    NoEarlyError(w, hands);
    hide UniqueIds, Contiguous, Complete, RowAccepted, Believable, HandError, HandFounded, FirstError, Partitions,
      Sorted, AllSegments, Inside;
  }

  lemma NoEarlyError(w: Window, hands: seq<Hand>)
    ensures FirstError(w, hands) != Some(WindowNotContiguous) && FirstError(w, hands) != Some(EvidenceRejected)
      && FirstError(w, hands) != Some(NoPartition)
  {
    FirstHandDecides(w, hands);
    hide FirstError;
    if FirstError(w, hands).Some? {
      var k :| 0 <= k < |hands| && FirstError(w, hands) == HandError(w, hands[k]);
      FoundedExactly(RowsOf(w, hands[k]));
      hide ActorError;
    }
  }

  // ---------------------------------------------------------------- segments

  /** What a row is counted as. */
  function Tag(r: Row): Label
  {
    match r.actor
    case Some(a) => Acting(a)
    case None => if r.supported then Quiet else Unsupported
  }

  /** A segment of a hand: rows of one tag that cannot be extended within the hand. */
  predicate IsRun(w: Window, h: Hand, s: Segment)
  {
    && h.start <= s.first <= s.last <= h.last && 0 <= h.start - w.first && h.last - w.first < |w.rows|
    && (forall f | s.first <= f <= s.last :: Tag(RowAt(w, f)) == s.tag)
    && (s.first > h.start ==> Tag(RowAt(w, s.first - 1)) != s.tag)
    && (s.last < h.last ==> Tag(RowAt(w, s.last + 1)) != s.tag)
  }

  /** Some segment of the hand holds the frame. */
  predicate Held(segments: seq<Segment>, id: int, f: int)
  {
    exists s :: s in segments && s.hand == id && s.first <= f <= s.last
  }

  lemma LabelsTag(rows: seq<Row>)
    ensures |Labels(BothPasses, rows)| == |rows|
    ensures forall k | 0 <= k < |rows| :: Labels(BothPasses, rows)[k] == Some(Tag(rows[k]))
  {}

  lemma RunExactly(w: Window, h: Hand, s: Segment)
    requires Complete(w) && Inside(w, h) && Maximal(s, h.id, h.start, Labels(BothPasses, RowsOf(w, h)))
    ensures s.hand == h.id && IsRun(w, h, s)
  {
    RowsAreThere(w, h);
    var rows := RowsOf(w, h);
    var labels := Labels(BothPasses, rows);
    LabelsTag(rows);
    hide Labels, Tag, HandRows, RowsOf;
    forall f | s.first <= f <= s.last ensures Tag(RowAt(w, f)) == s.tag {
      assert labels[f - h.start] == Some(s.tag) && rows[f - h.start] == RowAt(w, h.start + (f - h.start));
    }
    if s.first > h.start { assert rows[s.first - 1 - h.start] == RowAt(w, h.start + (s.first - 1 - h.start)); }
    if s.last < h.last { assert rows[s.last + 1 - h.start] == RowAt(w, h.start + (s.last + 1 - h.start)); }
  }

  lemma RunIn(w: Window, h: Hand, s: Segment)
    requires Complete(w) && Inside(w, h) && s in AllRuns(h, RowsOf(w, h))
    ensures s.hand == h.id && IsRun(w, h, s)
  {
    var labels, runs := Labels(BothPasses, RowsOf(w, h)), AllRuns(h, RowsOf(w, h));
    RunsAreMaximal(h.id, h.start, labels);
    hide Runs, Labels, RowsOf, IsRun, Maximal, Complete, Inside, Apart, AllCovered;
    var i :| 0 <= i < |runs| && runs[i] == s;
    assert Maximal(runs[i], h.id, h.start, labels);
    RunExactly(w, h, s);
  }

  lemma FrameHeld(w: Window, h: Hand, f: int)
    requires Complete(w) && Inside(w, h) && h.start <= f <= h.last
    ensures Held(AllRuns(h, RowsOf(w, h)), h.id, f)
  {
    RowsAreThere(w, h);
    var labels, runs := Labels(BothPasses, RowsOf(w, h)), AllRuns(h, RowsOf(w, h));
    RunsAreMaximal(h.id, h.start, labels);
    LabelsTag(RowsOf(w, h));
    hide Runs, Labels, Tag, HandRows, RowsOf, Maximal, Complete, Inside, Apart, IsRun;
    assert labels[f - h.start].Some?;
    var i :| 0 <= i < |runs| && Covers(runs[i], h.start + (f - h.start));
    assert runs[i] in runs && Maximal(runs[i], h.id, h.start, labels);
    RunIn(w, h, runs[i]);
  }

  lemma {:induction false} SelectedHolds(segments: seq<Segment>, id: int)
    ensures forall s :: s in Selected(segments, id) <==> s in segments && s.hand == id
  {
    if segments != [] {
      SelectedHolds(segments[..|segments| - 1], id);
      assert segments == segments[..|segments| - 1] + [segments[|segments| - 1]];
    }
  }

  lemma HandAccepted(w: Window, hands: seq<Hand>, k: nat)
    requires UniqueIds(hands) && k < |hands| && Built(w, hands).Ok?
    ensures Complete(w) && Inside(w, hands[k]) && Built(w, hands).value == Sorted(hands, AllSegments(w, hands))
  {
    AuditExactly(w, hands);
    hide UniqueIds, Sorted, AllSegments, Complete, Inside, HandFounded, Believable;
  }

  /**
   The segments of an accepted audit: for each hand, exactly the runs of its rows, which together hold every frame of
   the hand.
   */
  lemma SegmentsExactly(w: Window, hands: seq<Hand>, k: nat)
    requires UniqueIds(hands) && k < |hands| && Built(w, hands).Ok?
    ensures var segments, h := Built(w, hands).value, hands[k];
      && (forall s | s in segments && s.hand == h.id :: IsRun(w, h, s))
      && (forall f | h.start <= f <= h.last :: Held(segments, h.id, f))
  {
    var segments, h := Built(w, hands).value, hands[k];
    HandAccepted(w, hands, k);
    SelectedAreRuns(w, hands, k);
    hide Built, Sorted, AllSegments, UniqueIds, AllRuns, RowsOf, Complete, Inside, IsRun, Selected;
    SelectedHolds(segments, h.id);
    var runs := AllRuns(h, RowsOf(w, h));
    forall s | s in segments && s.hand == h.id ensures IsRun(w, h, s) { RunIn(w, h, s); }
    forall f | h.start <= f <= h.last ensures Held(segments, h.id, f) { FrameHeld(w, h, f); }
  }

  lemma SelectedSnoc2(segments: seq<Segment>, id: int)
    requires segments != []
    ensures var n := |segments| - 1;
      Selected(segments, id) ==
        if segments[n].hand == id then Selected(segments[..n], id) + [segments[n]] else Selected(segments[..n], id)
  {
    assert Selected(segments[..|segments| - 1], id) + [] == Selected(segments[..|segments| - 1], id);
  }

  lemma {:induction false} SelectedAt(segments: seq<Segment>, id: int, i: int) returns (p: int)
    requires 0 <= i < |segments| && segments[i].hand == id
    ensures 0 <= p < |Selected(segments, id)| && Selected(segments, id)[p] == segments[i]
    decreases |segments|
  {
    var n := |segments| - 1;
    SelectedSnoc2(segments, id);
    if i == n { p := |Selected(segments[..n], id)|; } else { p := SelectedAt(segments[..n], id, i); }
  }

  /** Selecting keeps the order. */
  lemma {:induction false} SelectedPair(segments: seq<Segment>, id: int, i: int, j: int) returns (p: int, q: int)
    requires 0 <= i < j < |segments| && segments[i].hand == id && segments[j].hand == id
    ensures 0 <= p < q < |Selected(segments, id)|
    ensures Selected(segments, id)[p] == segments[i] && Selected(segments, id)[q] == segments[j]
    decreases |segments|
  {
    var n := |segments| - 1;
    SelectedSnoc2(segments, id);
    if j == n {
      p := SelectedAt(segments[..n], id, i);
      q := |Selected(segments[..n], id)|;
    } else {
      p, q := SelectedPair(segments[..n], id, i, j);
    }
  }

  lemma {:induction false} PositionIs(hands: seq<Hand>, k: int)
    requires UniqueIds(hands) && 0 <= k < |hands|
    ensures Position(hands, hands[k].id) == k
  {
    if k < |hands| - 1 { PositionIs(hands[..|hands| - 1], k); }
  }

  /** They are listed hand by hand, in the order of the hands, and within a hand by frame without overlap. */
  lemma SegmentsInOrder(w: Window, hands: seq<Hand>, i: int, j: int, k: int, l: int)
    requires UniqueIds(hands) && Built(w, hands).Ok? && 0 <= i < j < |Built(w, hands).value|
    requires 0 <= k < |hands| && Built(w, hands).value[i].hand == hands[k].id
    requires 0 <= l < |hands| && Built(w, hands).value[j].hand == hands[l].id
    ensures var segments := Built(w, hands).value;
      k <= l && (k == l ==> segments[i].last < segments[j].first)
  {
    var segments := Built(w, hands).value;
    HandAccepted(w, hands, k);
    SortedOrders(hands, AllSegments(w, hands));
    PositionIs(hands, k);
    PositionIs(hands, l);
    hide Built, Sorted, AllSegments, UniqueIds, Position, AllRuns, RowsOf, Complete, Inside, Selected;
    assert Less(hands, segments[i], segments[j]);
    if k == l {
      SelectedAreRuns(w, hands, k);
      var p, q := SelectedPair(segments, hands[k].id, i, j);
      RunsApart(hands[k], RowsOf(w, hands[k]));
    }
  }

  lemma RunsApart(h: Hand, rows: seq<Row>)
    ensures Apart(AllRuns(h, rows))
  {
    RunsAreMaximal(h.id, h.start, Labels(BothPasses, rows));
    hide Runs, Labels;
  }

  // ---------------------------------------------------------------- streets of episodes

  function Cards(t: S.Street): int
  {
    match t
    case Preflop => 0
    case Flop => 3
    case Turn => 4
    case River => 5
  }

  /** An episode has a street exactly when every one of its rows shows that street's number of board cards. */
  lemma StreetExactly(rows: seq<Row>, t: S.Street)
    ensures B.EpisodeStreet(rows) == Some(t) <==>
      rows != [] && forall i | 0 <= i < |rows| :: rows[i].board == Some(Cards(t))
  {}

  /** Some frame of the episode does not show the board of the street. */
  predicate Unlike(w: Window, e: B.Episode, t: S.Street)
    requires 0 <= e.first - w.first <= e.last - w.first < |w.rows|
  {
    exists f :: e.first <= f <= e.last && RowAt(w, f).board != Some(Cards(t))
  }

  predicate StreetIs(w: Window, e: B.Episode)
  {
    && 0 <= e.first - w.first <= e.last - w.first < |w.rows|
    && (forall f | e.first <= f <= e.last :: RowAt(w, f).actor == Some(e.slot))
    && (e.street.Some? ==> forall f | e.first <= f <= e.last :: RowAt(w, f).board == Some(Cards(e.street.value)))
    && (e.street.None? ==> forall t: S.Street :: Unlike(w, e, t))
  }

  /** The rows of the segment an episode was made from. */
  function OwnRows(w: Window, h: Hand, s: Segment): seq<Row>
    requires h.start <= s.first <= s.last < h.start + |RowsOf(w, h)|
  {
    RowsOf(w, h)[s.first - h.start..s.last + 1 - h.start]
  }

  lemma EpisodeIsCut(w: Window, h: Hand, j: nat)
    requires j < |B.HandEpisodes(w, h)|
    ensures j < |Episodes(h, RowsOf(w, h))|
    ensures var s, e, rows := Episodes(h, RowsOf(w, h))[j], B.HandEpisodes(w, h)[j], RowsOf(w, h);
      && h.start <= s.first <= s.last < h.start + |rows| && s.tag.Acting? && s.hand == h.id
      && e == B.Episode(s.hand, s.tag.slot, s.first, s.last, B.EpisodeStreet(OwnRows(w, h, s)))
      && forall k | s.first - h.start <= k <= s.last - h.start :: rows[k].actor == Some(s.tag.slot)
  {
    B.EpisodeIsOneActor(h, RowsOf(w, h), j);
    hide Episodes, RowsOf, B.EpisodeStreet;
  }

  lemma HandStreets(w: Window, h: Hand, j: nat)
    requires Complete(w) && Inside(w, h) && j < |B.HandEpisodes(w, h)|
    ensures B.HandEpisodes(w, h)[j].hand == h.id && StreetIs(w, B.HandEpisodes(w, h)[j])
  {
    EpisodeIsCut(w, h, j);
    var s, e := Episodes(h, RowsOf(w, h))[j], B.HandEpisodes(w, h)[j];
    var own := OwnRows(w, h, s);
    hide Episodes, B.HandEpisodes, HandRows, RowsOf, B.EpisodeStreet, StreetIs, Complete, Inside, Unlike;
    forall f | s.first <= f <= s.last
      ensures 0 <= f - w.first < |w.rows| && RowAt(w, f) == own[f - s.first]
        && RowAt(w, f).actor == Some(s.tag.slot)
    {
      RowOf(w, h, f - h.start);
    }
    StreetRows(w, s.first, own, e);
  }

  lemma StreetRows(w: Window, first: int, own: seq<Row>, e: B.Episode)
    requires own != [] && e.first == first && e.last == first + |own| - 1 && e.street == B.EpisodeStreet(own)
    requires 0 <= first - w.first && e.last - w.first < |w.rows|
    requires forall f | e.first <= f <= e.last :: RowAt(w, f) == own[f - first] && RowAt(w, f).actor == Some(e.slot)
    ensures StreetIs(w, e)
  {
    if e.street.Some? {
      StreetExactly(own, e.street.value);
    } else {
      forall t: S.Street ensures Unlike(w, e, t) {
        StreetExactly(own, t);
        var i :| 0 <= i < |own| && own[i].board != Some(Cards(t));
        assert RowAt(w, first + i) == own[first + i - first];
      }
    }
  }

  /** Every episode handed to the binding shows its actor throughout, and has a street exactly when its rows agree. */
  lemma {:induction false} EpisodeStreets(w: Window, hands: seq<Hand>, i: nat)
    requires Complete(w) && (forall k | 0 <= k < |hands| :: Inside(w, hands[k])) && i < |B.BuiltEpisodes(w, hands)|
    ensures StreetIs(w, B.BuiltEpisodes(w, hands)[i])
  {
    hide StreetIs, B.HandEpisodes;
    var n := |hands| - 1;
    var before := B.BuiltEpisodes(w, hands[..n]);
    if i < |before| { EpisodeStreets(w, hands[..n], i); } else { HandStreets(w, hands[n], i - |before|); }
  }

  // ---------------------------------------------------------------- bindings

  /** An episode of the reviewed hand and seat that ended at most the lag before the review. */
  predicate Eligible(e: B.Episode, r: B.Review, maximum: int)
  {
    e.hand == r.hand && e.slot == r.slot && 0 <= r.frame - e.last <= maximum
  }

  /** The free eligible episode that ended last; the first of them, when several did. */
  predicate Best(episodes: seq<B.Episode>, used: set<nat>, r: B.Review, maximum: int, i: nat)
  {
    && i < |episodes| && i !in used && Eligible(episodes[i], r, maximum)
    && forall j | 0 <= j < |episodes| && j != i && j !in used && Eligible(episodes[j], r, maximum) ::
         episodes[j].last < episodes[i].last || (episodes[j].last == episodes[i].last && i < j)
  }

  lemma {:induction false} LatestIsFirst(episodes: seq<B.Episode>, used: set<nat>, r: B.Review, maximum: int, n: nat)
    requires n <= |episodes|
    ensures var best := B.Latest(episodes, used, r, maximum, n);
      best.Some? ==> forall j | 0 <= j < n && j != best.value && B.Candidate(episodes, used, r, maximum, j) ::
        episodes[j].last < episodes[best.value].last
        || (episodes[j].last == episodes[best.value].last && best.value < j)
  {
    if n > 0 { LatestIsFirst(episodes, used, r, maximum, n - 1); }
  }

  /** Every outcome of one review, exactly. */
  lemma BoundExactly(episodes: seq<B.Episode>, used: set<nat>, r: B.Review, maximum: int)
    ensures var o := B.BindOne(episodes, used, r, maximum);
      && (o == B.NoEpisode <==> forall i | 0 <= i < |episodes| && i !in used :: !Eligible(episodes[i], r, maximum))
      && (forall i: nat, lag :: o == B.Bound(i, lag) <==>
            Best(episodes, used, r, maximum, i) && lag == r.frame - episodes[i].last
            && (episodes[i].street == None || episodes[i].street == Some(r.street)))
      && (o == B.StreetMismatch <==>
            exists i: nat :: Best(episodes, used, r, maximum, i) && episodes[i].street.Some?
                             && episodes[i].street.value != r.street)
  {
    LatestIsFirst(episodes, used, r, maximum, |episodes|);
    var best := B.Latest(episodes, used, r, maximum, |episodes|);
    forall i: nat | i < |episodes|
      ensures B.Candidate(episodes, used, r, maximum, i) <==> i !in used && Eligible(episodes[i], r, maximum)
    {}
    hide B.Latest, B.Candidate, Eligible;
    if best.Some? { assert Best(episodes, used, r, maximum, best.value); }
    forall i: nat | Best(episodes, used, r, maximum, i) ensures best == Some(i) {}
  }
}
