/**
 The preflop action line: computed from index slices over the observed actions, equal to a one-pass automaton
 over the action kinds, and blind to folds and checks.
 */
module ActionLine {
  import opened Common
  import opened StateAdapter
  import opened StreetBaseline
  import opened LiveWagers

  datatype Line = Unopened | Limp | MultiLimp | IsoRaise | SingleRaise | Squeeze | ThreeBet | FourBet | Shove

  datatype Verdict = EpochUnknown | PostflopNotReleased | InvalidSequence | Observed(line: Line, frames: seq<int>)

  predicate KnownKind(k: Kind)
  {
    !k.OtherKind?
  }

  predicate Orderly(actions: seq<Action>)
  {
    && (forall i | 0 <= i < |actions| :: KnownKind(actions[i].kind) && 0 <= actions[i].slot < SEATS)
    && (forall i | 1 <= i < |actions| :: Follows(actions, i))
  }

  predicate Follows(actions: seq<Action>, i: int)
    requires 1 <= i < |actions|
  {
    actions[i - 1].frame < actions[i].frame
  }

  function KindsOf(actions: seq<Action>): seq<Kind>
  {
    seq(|actions|, i requires 0 <= i < |actions| => actions[i].kind)
  }

  function FramesOf(actions: seq<Action>): seq<int>
  {
    seq(|actions|, i requires 0 <= i < |actions| => actions[i].frame)
  }

  /** The positions of one kind, in order. */
  function Positions(kinds: seq<Kind>, k: Kind): (p: seq<nat>)
    ensures forall i | 0 <= i < |p| :: p[i] < |kinds|
    ensures forall i, j | 0 <= i < j < |p| :: p[i] < p[j]
  {
    if kinds == [] then []
    else Positions(kinds[..|kinds| - 1], k) + if kinds[|kinds| - 1] == k then [|kinds| - 1] else []
  }

  predicate CallBetween(kinds: seq<Kind>, lo: nat, hi: nat)
    requires lo <= hi <= |kinds|
  {
    Call in kinds[lo..hi]
  }

  function Classified(kinds: seq<Kind>): Line
  {
    if AllIn in kinds then Shove
    else
      var raises := Positions(kinds, Aggressive);
      if raises == [] then
        var limps := |Positions(kinds, Call)|;
        if limps == 0 then Unopened else if limps == 1 then Limp else MultiLimp
      else if |raises| == 1 then if CallBetween(kinds, 0, raises[0]) then IsoRaise else SingleRaise
      else if |raises| == 2 then if CallBetween(kinds, raises[0] + 1, raises[1]) then Squeeze else ThreeBet
      else FourBet
  }

  function CandidateLine(actions: seq<Action>, epoch: Option<int>, street: Option<Street>): Verdict
  {
    if epoch.None? then EpochUnknown
    else if street != Some(Preflop) then PostflopNotReleased
    else
      var selected := ActionsOf(actions, Key(epoch.value, Preflop));
      if !Orderly(selected) then InvalidSequence
        else Verdict.Observed(Classified(KindsOf(selected)), FramesOf(selected))
  }

  method CandidateActionLine(actions: seq<Action>, epoch: Option<int>, street: Option<Street>) returns (r: Verdict)
    ensures r == CandidateLine(actions, epoch, street)
  {
    if epoch.None? { return EpochUnknown; }
    if street != Some(Preflop) { return PostflopNotReleased; }
    var selected := ActionsOf(actions, Key(epoch.value, Preflop));
    var sequence: seq<Kind>, previous: Option<int> := [], None;
    for i := 0 to |selected|
      invariant Orderly(selected[..i]) && sequence == KindsOf(selected[..i])
      invariant previous == if i == 0 then None else Some(selected[i - 1].frame)
    {
      var a := selected[i];
      if !KnownKind(a.kind) || !(0 <= a.slot < SEATS) || (previous.Some? && a.frame <= previous.value) {
        Disorder(selected, i);
        return InvalidSequence;
      }
      OrderlySnoc(selected[..i], a);
      assert selected[..i + 1] == selected[..i] + [a];
      sequence := sequence + [a.kind];
      previous := Some(a.frame);
    }
    assert selected[..|selected|] == selected;
    r := Verdict.Observed(Classified(sequence), FramesOf(selected));
  }

  lemma OrderlySnoc(actions: seq<Action>, a: Action)
    requires Orderly(actions) && KnownKind(a.kind) && 0 <= a.slot < SEATS
    requires actions != [] ==> actions[|actions| - 1].frame < a.frame
    ensures Orderly(actions + [a]) && KindsOf(actions + [a]) == KindsOf(actions) + [a.kind]
  {
    forall i: int | 1 <= i < |actions + [a]| ensures Follows(actions + [a], i) {
      assert i < |actions| ==> Follows(actions, i);
    }
  }

  lemma Disorder(actions: seq<Action>, i: nat)
    requires i < |actions|
    requires !KnownKind(actions[i].kind) || !(0 <= actions[i].slot < SEATS)
      || (i > 0 && actions[i].frame <= actions[i - 1].frame)
    ensures !Orderly(actions)
  {
    if KnownKind(actions[i].kind) && 0 <= actions[i].slot < SEATS { assert !Follows(actions, i); }
  }

  // ---------------------------------------------------------------- the one-pass automaton

  datatype Stage = Limping(calls: nat) | Opened(iso: bool, called: bool) | Reraised(squeezed: bool) | Capped | Shoved

  function Next(s: Stage, k: Kind): Stage
  {
    if k == AllIn then Shoved
    else match s
      case Limping(n) => if k == Call then Limping(n + 1) else if k == Aggressive then Opened(n > 0, false) else s
      case Opened(iso, called) => if k == Call then Opened(iso, true)
      else if k == Aggressive then Reraised(called) else s
      case Reraised(_) => if k == Aggressive then Capped else s
      case _ => s
  }

  function RunStages(kinds: seq<Kind>): Stage
  {
    if kinds == [] then Limping(0) else Next(RunStages(kinds[..|kinds| - 1]), kinds[|kinds| - 1])
  }

  function LineOf(s: Stage): Line
  {
    match s
    case Limping(n) => if n == 0 then Unopened else if n == 1 then Limp else MultiLimp
    case Opened(iso, _) => if iso then IsoRaise else SingleRaise
    case Reraised(squeezed) => if squeezed then Squeeze else ThreeBet
    case Capped => FourBet
    case Shoved => Shove
  }

  function Raises(kinds: seq<Kind>): seq<nat>
  {
    Positions(kinds, Aggressive)
  }

  /** Somebody called before the first raise. */
  predicate CalledFirst(kinds: seq<Kind>)
  {
    |Raises(kinds)| >= 1 && CallBetween(kinds, 0, Raises(kinds)[0])
  }

  /** Somebody called the only raise so far. */
  predicate CalledSince(kinds: seq<Kind>)
  {
    |Raises(kinds)| == 1 && CallBetween(kinds, Raises(kinds)[0] + 1, |kinds|)
  }

  /** Somebody called between the first two raises. */
  predicate CalledBetween(kinds: seq<Kind>)
  {
    |Raises(kinds)| >= 2 && CallBetween(kinds, Raises(kinds)[0] + 1, Raises(kinds)[1])
  }

  predicate Reflects(kinds: seq<Kind>, s: Stage)
  {
    var raises := |Raises(kinds)|;
    if AllIn in kinds then s == Shoved
    else if raises == 0 then s == Limping(|Positions(kinds, Call)|)
    else if raises == 1 then s == Opened(CalledFirst(kinds), CalledSince(kinds))
    else if raises == 2 then s == Reraised(CalledBetween(kinds))
    else s == Capped
  }

  lemma {:induction false} PositionsHit(kinds: seq<Kind>, k: Kind)
    ensures Positions(kinds, k) == [] <==> k !in kinds
  {
    if kinds != [] {
      assert kinds == kinds[..|kinds| - 1] + [kinds[|kinds| - 1]];
      PositionsHit(kinds[..|kinds| - 1], k);
    }
  }

  lemma PositionsSnoc(kinds: seq<Kind>, k: Kind, target: Kind)
    ensures Positions(kinds + [k], target) == Positions(kinds, target) + if k == target then [|kinds|] else []
  {
    assert (kinds + [k])[..|kinds|] == kinds;
  }

  lemma InSnoc(kinds: seq<Kind>, k: Kind, target: Kind)
    ensures target in kinds + [k] <==> target in kinds || k == target
  {}

  lemma CallBetweenSnoc(kinds: seq<Kind>, k: Kind, lo: nat, hi: nat)
    requires lo <= hi <= |kinds|
    ensures CallBetween(kinds + [k], lo, hi) == CallBetween(kinds, lo, hi)
    ensures CallBetween(kinds + [k], lo, |kinds| + 1) == (CallBetween(kinds, lo, |kinds|) || k == Call)
  {
    assert (kinds + [k])[lo..hi] == kinds[lo..hi];
    assert (kinds + [k])[lo..|kinds| + 1] == kinds[lo..] + [k] && kinds[lo..|kinds|] == kinds[lo..];
  }

  lemma CallsAre(kinds: seq<Kind>)
    ensures CallBetween(kinds, 0, |kinds|) <==> Positions(kinds, Call) != []
    ensures !CallBetween(kinds, |kinds|, |kinds|)
  {
    PositionsHit(kinds, Call);
    assert kinds[0..|kinds|] == kinds;
  }

  lemma FirstNext(kinds: seq<Kind>, k: Kind)
    ensures CalledFirst(kinds + [k]) == if |Raises(kinds)| >= 1 then CalledFirst(kinds)
      else k == Aggressive && |Positions(kinds, Call)| > 0
  {
    PositionsSnoc(kinds, k, Aggressive);
    hide CallBetween, Positions;
    if |Raises(kinds)| >= 1 {
      assert Raises(kinds + [k])[0] == Raises(kinds)[0];
      CallBetweenSnoc(kinds, k, 0, Raises(kinds)[0]);
    } else {
      CallsAre(kinds);
      CallBetweenSnoc(kinds, k, 0, |kinds|);
    }
  }

  lemma SinceNext(kinds: seq<Kind>, k: Kind)
    ensures CalledSince(kinds + [k]) == (|Raises(kinds)| == 1 && k != Aggressive && (CalledSince(kinds) || k == Call))
  {
    PositionsSnoc(kinds, k, Aggressive);
    CallsAre(kinds + [k]);
    if |Raises(kinds)| == 1 { CallBetweenSnoc(kinds, k, Raises(kinds)[0] + 1, |kinds|); }
    hide CallBetween;
  }

  lemma BetweenNext(kinds: seq<Kind>, k: Kind)
    ensures CalledBetween(kinds + [k]) == if |Raises(kinds)| >= 2 then CalledBetween(kinds)
      else k == Aggressive && CalledSince(kinds)
  {
    PositionsSnoc(kinds, k, Aggressive);
    if |Raises(kinds)| == 1 { CallBetweenSnoc(kinds, k, Raises(kinds)[0] + 1, |kinds|); }
    if |Raises(kinds)| >= 2 { CallBetweenSnoc(kinds, k, Raises(kinds)[0] + 1, Raises(kinds)[1]); }
    hide CallBetween;
  }

  lemma CountsNext(kinds: seq<Kind>, k: Kind)
    ensures |Raises(kinds + [k])| == |Raises(kinds)| + if k == Aggressive then 1 else 0
    ensures |Positions(kinds + [k], Call)| == |Positions(kinds, Call)| + if k == Call then 1 else 0
  {
    PositionsSnoc(kinds, k, Aggressive);
    PositionsSnoc(kinds, k, Call);
    hide Positions;
  }

  lemma ReflectsNext(kinds: seq<Kind>, s: Stage, k: Kind)
    requires Reflects(kinds, s)
    ensures Reflects(kinds + [k], Next(s, k))
  {
    hide Positions, Raises, CalledFirst, CalledSince, CalledBetween;
    CountsNext(kinds, k);
    InSnoc(kinds, k, AllIn);
    FirstNext(kinds, k);
    SinceNext(kinds, k);
    BetweenNext(kinds, k);
  }

  lemma {:induction false} StagesReflect(kinds: seq<Kind>)
    ensures Reflects(kinds, RunStages(kinds))
  {
    if kinds != [] {
      var init := kinds[..|kinds| - 1];
      StagesReflect(init);
      ReflectsNext(init, RunStages(init), kinds[|kinds| - 1]);
      assert kinds == init + [kinds[|kinds| - 1]];
    }
  }

  /** The classification by index slices is what the automaton computes in one pass. */
  lemma SlicesMatchAutomaton(kinds: seq<Kind>)
    ensures Classified(kinds) == LineOf(RunStages(kinds))
  {
    StagesReflect(kinds);
    hide RunStages, Positions, CallBetween;
  }

  predicate Passive(k: Kind)
  {
    k == Fold || k == Check
  }

  function WithoutPassive(kinds: seq<Kind>): seq<Kind>
  {
    if kinds == [] then []
    else WithoutPassive(kinds[..|kinds| - 1]) + if Passive(kinds[|kinds| - 1]) then [] else [kinds[|kinds| - 1]]
  }

  lemma {:induction false} PassiveIsInvisible(kinds: seq<Kind>)
    ensures RunStages(WithoutPassive(kinds)) == RunStages(kinds)
  {
    if kinds != [] {
      var init, k := kinds[..|kinds| - 1], kinds[|kinds| - 1];
      PassiveIsInvisible(init);
      if Passive(k) {
        assert WithoutPassive(kinds) == WithoutPassive(init);
      } else {
        assert (WithoutPassive(init) + [k])[..|WithoutPassive(init)|] == WithoutPassive(init);
      }
    }
  }

  /** Folds and checks never change the line. */
  lemma LineIgnoresPassive(kinds: seq<Kind>)
    ensures Classified(WithoutPassive(kinds)) == Classified(kinds)
  {
    SlicesMatchAutomaton(kinds);
    SlicesMatchAutomaton(WithoutPassive(kinds));
    PassiveIsInvisible(kinds);
  }

  function Level(l: Line): nat
  {
    match l
    case Unopened => 0
    case Limp => 1
    case MultiLimp => 2
    case IsoRaise => 3
    case SingleRaise => 3
    case Squeeze => 4
    case ThreeBet => 4
    case FourBet => 5
    case Shove => 6
  }

  lemma StageOnlyRises(s: Stage, k: Kind)
    ensures Level(LineOf(s)) <= Level(LineOf(Next(s, k)))
  {}

  /** Further actions never lower the line, so a line read early is a lower bound of the final one. */
  lemma {:induction false} LineOnlyRises(kinds: seq<Kind>, more: seq<Kind>)
    ensures Level(Classified(kinds)) <= Level(Classified(kinds + more))
  {
    hide Classified, Level, LineOf, Next;
    if more == [] {
      assert kinds + more == kinds;
    } else {
      var init, k := more[..|more| - 1], more[|more| - 1];
      LineOnlyRises(kinds, init);
      var all := kinds + more;
      assert all[..|all| - 1] == kinds + init && all[|all| - 1] == k;
      SlicesMatchAutomaton(kinds + init);
      SlicesMatchAutomaton(all);
      StageOnlyRises(RunStages(kinds + init), k);
    }
  }
}
