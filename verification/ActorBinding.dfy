/**
 Binding reviewed actions to actor episodes: each review takes the latest free episode of its seat that ended within
 the permitted lag, unless the streets contradict each other.
 */
module ActorBinding {
  import opened Common
  import S = StateAdapter
  import A = ActorEpisodes
  import P = EpisodePartition
  import W = ActorAudit

  datatype Episode = Episode(hand: int, slot: int, first: int, last: int, street: Option<S.Street>)

  datatype Review = Review(hand: int, slot: int, frame: int, street: S.Street)

  datatype Outcome = Bound(index: nat, lag: int) | NoEpisode | StreetMismatch

  /** The street of an episode, when all its rows show one board. */
  function EpisodeStreet(rows: seq<A.Row>): Option<S.Street>
  {
    if rows == [] || exists i | 0 <= i < |rows| :: rows[i].board != rows[0].board then None
    else match rows[0].board
      case Some(0) => Some(S.Preflop)
      case Some(3) => Some(S.Flop)
      case Some(4) => Some(S.Turn)
      case Some(5) => Some(S.River)
      case _ => None
  }

  predicate Within(h: A.Hand, rows: seq<A.Row>, s: A.Segment)
  {
    s.tag.Acting? && h.start <= s.first <= s.last < h.start + |rows|
  }

  /** The episode of one actor segment. */
  function EpisodeOf(h: A.Hand, rows: seq<A.Row>, s: A.Segment): Episode
    requires Within(h, rows, s)
  {
    Episode(s.hand, s.tag.slot, s.first, s.last, EpisodeStreet(rows[s.first - h.start..s.last + 1 - h.start]))
  }

  /** Every segment of the episode pass makes an episode, all of whose rows show its actor. */
  lemma EpisodeIsOneActor(h: A.Hand, rows: seq<A.Row>, i: nat)
    requires i < |A.Episodes(h, rows)|
    ensures var s := A.Episodes(h, rows)[i];
      && Within(h, rows, s) && s.hand == h.id
      && forall k | s.first - h.start <= k <= s.last - h.start :: rows[k].actor == Some(s.tag.slot)
  {
    var labels := A.Labels(A.EpisodePass, rows);
    P.RunsAreMaximal(h.id, h.start, labels);
    var s := A.Episodes(h, rows)[i];
    assert A.Maximal(s, h.id, h.start, labels);
    assert labels[s.first - h.start] == Some(s.tag);
    assert forall k | 0 <= k < |rows| :: labels[k] == A.LabelFor(A.EpisodePass, rows[k]);
  }

  /** The episodes of one hand, in the order its pass closes them. */
  function HandEpisodes(w: W.Window, h: A.Hand): seq<Episode>
  {
    var rows := W.RowsOf(w, h);
    var segments := A.Episodes(h, rows);
    seq(|segments|, i requires 0 <= i < |segments| => (EpisodeIsOneActor(h, rows, i); EpisodeOf(h, rows, segments[i])))
  }

  /** The episodes of all hands, as the review binding receives them. */
  function BuiltEpisodes(w: W.Window, hands: seq<A.Hand>): seq<Episode>
  {
    if hands == [] then [] else BuiltEpisodes(w, hands[..|hands| - 1]) + HandEpisodes(w, hands[|hands| - 1])
  }

  predicate Describes(e: Episode, s: A.Segment)
  {
    e.hand == s.hand && s.tag == A.Acting(e.slot) && e.first == s.first && e.last == s.last
  }

  /** The episodes are the segments of the episode pass, one by one and in order. */
  lemma {:induction false} EpisodesFollowSegments(w: W.Window, hands: seq<A.Hand>)
    ensures var segments := W.Collected(A.EpisodePass, w, hands);
      |BuiltEpisodes(w, hands)| == |segments| && forall i | 0 <= i < |segments| ::
        Describes(BuiltEpisodes(w, hands)[i], segments[i])
  {
    if hands != [] {
      var h := hands[|hands| - 1];
      EpisodesFollowSegments(w, hands[..|hands| - 1]);
      var rows := W.RowsOf(w, h);
      var own: seq<Episode>, segments: seq<A.Segment> := HandEpisodes(w, h), A.Episodes(h, rows);
      hide W.RowsOf, A.Episodes;
      forall i | 0 <= i < |segments| ensures Describes(own[i], segments[i]) { EpisodeIsOneActor(h, rows, i); }
      hide HandEpisodes, Describes;
      assert segments == W.HandSegments(A.EpisodePass, w, h);
    }
  }

  /** A frame of the hand `e` belongs to shows its actor and, where the episode has a street, that street's board. */
  predicate ShowsActor(w: W.Window, e: Episode, frame: int)
  {
    exists i | 0 <= i < |w.rows| :: w.rows[i].frame == frame && w.rows[i].actor == Some(e.slot)
      && (e.street.Some? ==> w.rows[i].board == Some(S.CountOf(e.street)))
  }

  /** Every frame of an episode lies in its hand and shows its actor. */
  predicate Witnessed(w: W.Window, h: A.Hand, e: Episode)
  {
    h.id == e.hand && h.start <= e.first <= e.last <= h.last && forall f | e.first <= f <= e.last :: ShowsActor(w, e, f)
  }

  lemma StreetBoard(rows: seq<A.Row>, k: nat)
    requires k < |rows| && EpisodeStreet(rows).Some?
    ensures rows[k].board == Some(S.CountOf(EpisodeStreet(rows)))
  {}

  lemma HandWitnessed(w: W.Window, h: A.Hand, j: nat)
    requires j < |HandEpisodes(w, h)|
    ensures Witnessed(w, h, HandEpisodes(w, h)[j])
  {
    var rows := W.RowsOf(w, h);
    EpisodeIsOneActor(h, rows, j);
    var s, e := A.Episodes(h, rows)[j], HandEpisodes(w, h)[j];
    hide A.Episodes, HandEpisodes;
    assert W.HandRows(w, h).Ok?;
    W.HandRowsAreFrames(w, h);
    W.RowsLength(w, h);
    hide W.HandRows, EpisodeStreet;
    var own := rows[s.first - h.start..s.last + 1 - h.start];
    forall f | e.first <= f <= e.last ensures ShowsActor(w, e, f) {
      var row := rows[f - h.start];
      assert own[f - s.first] == row;
      if e.street.Some? { StreetBoard(own, f - s.first); }
      var i :| 0 <= i < |w.rows| && w.rows[i] == row;
    }
  }

  lemma {:induction false} EpisodeWitnessed(w: W.Window, hands: seq<A.Hand>, i: nat)
    requires i < |BuiltEpisodes(w, hands)|
    ensures exists h :: h in hands && Witnessed(w, h, BuiltEpisodes(w, hands)[i])
  {
    hide Witnessed, HandEpisodes;
    var n := |hands| - 1;
    var before := BuiltEpisodes(w, hands[..n]);
    if i < |before| {
      EpisodeWitnessed(w, hands[..n], i);
      var h :| h in hands[..n] && Witnessed(w, h, before[i]);
      assert h in hands;
    } else {
      HandWitnessed(w, hands[n], i - |before|);
      assert hands[n] in hands;
    }
  }

  predicate Candidate(episodes: seq<Episode>, used: set<nat>, r: Review, maximum: int, i: nat)
    requires i < |episodes|
  {
    var e := episodes[i];
    i !in used && e.hand == r.hand && e.slot == r.slot && e.last <= r.frame && r.frame - e.last <= maximum
  }

  /** The candidate that ended last; among equals the first. */
  function Latest(episodes: seq<Episode>, used: set<nat>, r: Review, maximum: int, n: nat): (best: Option<nat>)
    requires n <= |episodes|
    ensures best.Some? ==> best.value < n && Candidate(episodes, used, r, maximum, best.value)
    ensures best.Some? ==> forall i | 0 <= i < n && Candidate(episodes, used, r, maximum, i) ::
      episodes[i].last <= episodes[best.value].last
    ensures best.None? <==> forall i | 0 <= i < n :: !Candidate(episodes, used, r, maximum, i)
  {
    if n == 0 then None
    else
      var before := Latest(episodes, used, r, maximum, n - 1);
      if Candidate(episodes, used, r, maximum, n - 1)
        && (before.None? || episodes[n - 1].last > episodes[before.value].last)
      then Some(n - 1) else before
  }

  predicate StreetsAgree(e: Episode, r: Review)
  {
    e.street.None? || e.street == Some(r.street)
  }

  function BindOne(episodes: seq<Episode>, used: set<nat>, r: Review, maximum: int): Outcome
  {
    match Latest(episodes, used, r, maximum, |episodes|)
    case None => NoEpisode
    case Some(i) => if StreetsAgree(episodes[i], r) then Bound(i, r.frame - episodes[i].last) else StreetMismatch
  }

  datatype Binding = Binding(used: set<nat>, outcomes: seq<Outcome>)

  function Bind(episodes: seq<Episode>, reviews: seq<Review>, maximum: int): Binding
  {
    if reviews == [] then Binding({}, [])
    else
      var b := Bind(episodes, reviews[..|reviews| - 1], maximum);
      var o := BindOne(episodes, b.used, reviews[|reviews| - 1], maximum);
      Binding(if o.Bound? then b.used + {o.index} else b.used, b.outcomes + [o])
  }

  function CountWithin(outcomes: seq<Outcome>, limit: int): nat
  {
    if outcomes == [] then 0
    else
      var o := outcomes[|outcomes| - 1];
      CountWithin(outcomes[..|outcomes| - 1], limit) + if o.Bound? && o.lag <= limit then 1 else 0
  }

  function CountBeyond(outcomes: seq<Outcome>, limit: int): nat
  {
    if outcomes == [] then 0
    else
      var o := outcomes[|outcomes| - 1];
      CountBeyond(outcomes[..|outcomes| - 1], limit) + if o.Bound? && o.lag > limit then 1 else 0
  }

  function CountUnbound(outcomes: seq<Outcome>): nat
  {
    if outcomes == [] then 0
    else CountUnbound(outcomes[..|outcomes| - 1]) + if outcomes[|outcomes| - 1].Bound? then 0 else 1
  }

  method BindReview(episodes: seq<Episode>, used: set<nat>, r: Review, maximum: int) returns (outcome: Outcome)
    ensures outcome == BindOne(episodes, used, r, maximum)
  {
    var chosen: Option<nat> := None;
    for i := 0 to |episodes|
      invariant chosen == Latest(episodes, used, r, maximum, i)
    {
      if Candidate(episodes, used, r, maximum, i) && (chosen.None? || episodes[i].last > episodes[chosen.value].last) {
        chosen := Some(i);
      }
    }
    if chosen.None? { return NoEpisode; }
    if !StreetsAgree(episodes[chosen.value], r) { return StreetMismatch; }
    outcome := Bound(chosen.value, r.frame - episodes[chosen.value].last);
  }

  lemma CountsSnoc(outcomes: seq<Outcome>, o: Outcome, limit: int)
    ensures CountWithin(outcomes + [o], limit) == CountWithin(outcomes, limit) +
      if o.Bound? && o.lag <= limit then 1 else 0
    ensures CountBeyond(outcomes + [o], limit) == CountBeyond(outcomes, limit) +
      if o.Bound? && o.lag > limit then 1 else 0
    ensures CountUnbound(outcomes + [o]) == CountUnbound(outcomes) + if o.Bound? then 0 else 1
  {
    assert (outcomes + [o])[..|outcomes|] == outcomes;
  }

  method BindReviews(episodes: seq<Episode>, reviews: seq<Review>, maximum: int, limit: int)
    returns (used: set<nat>, outcomes: seq<Outcome>, standard: nat, delayed: nat, unbound: nat)
    ensures Binding(used, outcomes) == Bind(episodes, reviews, maximum)
    ensures standard == CountWithin(outcomes, limit) && delayed == CountBeyond(outcomes, limit)
      && unbound == CountUnbound(outcomes)
  {
    used, outcomes, standard, delayed, unbound := {}, [], 0, 0, 0;
    for k := 0 to |reviews|
      invariant Binding(used, outcomes) == Bind(episodes, reviews[..k], maximum)
      invariant standard == CountWithin(outcomes, limit) && delayed == CountBeyond(outcomes, limit)
        && unbound == CountUnbound(outcomes)
    {
      hide BindOne, CountWithin, CountBeyond, CountUnbound;
      assert reviews[..k + 1][..k] == reviews[..k];
      var outcome := BindReview(episodes, used, reviews[k], maximum);
      CountsSnoc(outcomes, outcome, limit);
      if outcome.Bound? {
        used := used + {outcome.index};
        if outcome.lag <= limit { standard := standard + 1; } else { delayed := delayed + 1; }
      } else {
        unbound := unbound + 1;
      }
      outcomes := outcomes + [outcome];
    }
    assert reviews[..|reviews|] == reviews;
  }

  // ---------------------------------------------------------------- properties

  /** One binding in its context: right hand, seat and street, a lag within range, and no better free episode. */
  predicate GoodOutcome(episodes: seq<Episode>, used: set<nat>, r: Review, maximum: int, o: Outcome)
  {
    match o
    case Bound(i, lag) =>
      && i < |episodes| && i !in used && episodes[i].hand == r.hand && episodes[i].slot == r.slot
      && lag == r.frame - episodes[i].last && 0 <= lag <= maximum && StreetsAgree(episodes[i], r)
      && forall j | 0 <= j < |episodes| && Candidate(episodes, used, r, maximum, j) ::
        episodes[j].last <= episodes[i].last
    case NoEpisode => forall j | 0 <= j < |episodes| :: !Candidate(episodes, used, r, maximum, j)
    case StreetMismatch =>
      exists i | 0 <= i < |episodes| :: Candidate(episodes, used, r, maximum, i) && !StreetsAgree(episodes[i], r)
  }

  lemma {:induction false} BindingIsGood(episodes: seq<Episode>, reviews: seq<Review>, maximum: int, k: nat)
    requires k < |reviews|
    ensures var b := Bind(episodes, reviews, maximum);
      |b.outcomes| == |reviews|
        && GoodOutcome(episodes, Bind(episodes, reviews[..k], maximum).used, reviews[k], maximum, b.outcomes[k])
    decreases |reviews|
  {
    var init := reviews[..|reviews| - 1];
    OutcomePerReview(episodes, init, maximum);
    if k < |init| {
      BindingIsGood(episodes, init, maximum, k);
      assert init[..k] == reviews[..k];
    }
  }

  /**
   A bound review names a hand of the registry and lies at most the maximum lag after an episode of that hand, each of
   whose frames has an observed row that shows the reviewed actor and, if the episode has a street, the reviewed
   street's board.
   */
  lemma BoundReviewHasActor(w: W.Window, hands: seq<A.Hand>, reviews: seq<Review>, maximum: int, k: nat)
    requires k < |reviews|
    ensures var b, r := Bind(BuiltEpisodes(w, hands), reviews, maximum), reviews[k];
      |b.outcomes| == |reviews| && (b.outcomes[k].Bound? ==>
        exists h, e :: h in hands && Witnessed(w, h, e) && h.id == r.hand && e.slot == r.slot
          && r.frame == e.last + b.outcomes[k].lag && 0 <= b.outcomes[k].lag <= maximum
          && (e.street.Some? ==> e.street == Some(r.street)))
  {
    hide Bind, Witnessed, BuiltEpisodes, Candidate;
    var episodes := BuiltEpisodes(w, hands);
    BindingIsGood(episodes, reviews, maximum, k);
    var o := Bind(episodes, reviews, maximum).outcomes[k];
    if o.Bound? {
      EpisodeWitnessed(w, hands, o.index);
      var h :| h in hands && Witnessed(w, h, episodes[o.index]);
      assert h.id == episodes[o.index].hand by { WitnessedHand(w, h, episodes[o.index]); }
    }
  }

  lemma WitnessedHand(w: W.Window, h: A.Hand, e: Episode)
    requires Witnessed(w, h, e)
    ensures h.id == e.hand
  {}

  lemma {:induction false} OutcomePerReview(episodes: seq<Episode>, reviews: seq<Review>, maximum: int)
    ensures |Bind(episodes, reviews, maximum).outcomes| == |reviews|
  {
    if reviews != [] { OutcomePerReview(episodes, reviews[..|reviews| - 1], maximum); }
  }

  predicate Injective(outcomes: seq<Outcome>)
  {
    forall i, j | 0 <= i < j < |outcomes| && outcomes[i].Bound? && outcomes[j].Bound? ::
      outcomes[i].index != outcomes[j].index
  }

  ghost predicate UsedAreBound(used: set<nat>, outcomes: seq<Outcome>)
  {
    forall i :: i in used <==> IsBound(outcomes, i)
  }

  ghost predicate IsBound(outcomes: seq<Outcome>, i: nat)
  {
    exists k :: 0 <= k < |outcomes| && outcomes[k].Bound? && outcomes[k].index == i
  }

  lemma BoundSnoc(outcomes: seq<Outcome>, o: Outcome, i: nat)
    ensures IsBound(outcomes + [o], i) <==> IsBound(outcomes, i) || (o.Bound? && o.index == i)
  {
    var all, n := outcomes + [o], |outcomes|;
    if IsBound(outcomes, i) {
      var k :| 0 <= k < n && outcomes[k].Bound? && outcomes[k].index == i;
      assert all[k] == outcomes[k];
    }
    if o.Bound? && o.index == i { assert all[n] == o; }
  }

  lemma InjectiveSnoc(outcomes: seq<Outcome>, o: Outcome)
    requires Injective(outcomes) && (o.Bound? ==> !IsBound(outcomes, o.index))
    ensures Injective(outcomes + [o])
  {}

  /** The books of a binding over `n` reviews. */
  ghost predicate Balanced(b: Binding, n: nat, limit: int)
  {
    && Injective(b.outcomes) && UsedAreBound(b.used, b.outcomes)
    && |b.used| + CountUnbound(b.outcomes) == n
    && CountWithin(b.outcomes, limit) + CountBeyond(b.outcomes, limit) == |b.used|
  }

  lemma BalancedNext(a: Binding, o: Outcome, n: nat, limit: int)
    requires Balanced(a, n, limit) && (o.Bound? ==> o.index !in a.used)
    ensures Balanced(Binding(if o.Bound? then a.used + {o.index} else a.used, a.outcomes + [o]), n + 1, limit)
  {
    hide Injective, IsBound, CountUnbound, CountWithin, CountBeyond;
    CountsSnoc(a.outcomes, o, limit);
    InjectiveSnoc(a.outcomes, o);
    forall i
      ensures IsBound(a.outcomes + [o], i) <==> IsBound(a.outcomes, i) || (o.Bound? && o.index == i)
    {
      BoundSnoc(a.outcomes, o, i);
    }
  }

  lemma FreshIndex(episodes: seq<Episode>, used: set<nat>, r: Review, maximum: int)
    ensures var o := BindOne(episodes, used, r, maximum); o.Bound? ==> o.index !in used
  {}

  /** No episode is bound twice, the used set is exactly the bound episodes, and the counters add up. */
  lemma {:induction false} BindingIsInjective(episodes: seq<Episode>, reviews: seq<Review>, maximum: int, limit: int)
    ensures Balanced(Bind(episodes, reviews, maximum), |reviews|, limit)
  {
    if reviews != [] {
      var init, r := reviews[..|reviews| - 1], reviews[|reviews| - 1];
      BindingIsInjective(episodes, init, maximum, limit);
      hide Balanced, BindOne;
      var a := Bind(episodes, init, maximum);
      FreshIndex(episodes, a.used, r, maximum);
      BalancedNext(a, BindOne(episodes, a.used, r, maximum), |init|, limit);
    }
  }
}
