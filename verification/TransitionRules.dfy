/**
 The new-hand rule over the raw frames: what has to be visible in them, and what is announced.
 */
module TransitionRules {
  import opened Common
  import opened StateAdapter
  import opened HandTransition

  /** A supported frame with an empty board and an empty pot whose eight stacks are readable and are those of `v`. */
  predicate Displays(l: Look, v: Balances)
  {
    && l.sceneSupported && l.boardCount == Some(0) && l.pot == Some(0.0)
    && forall s | 0 <= s < SEATS :: l.stacks[s] == Some(v[s]) && v[s] >= 0.0
  }

  lemma SnapshotExactly(l: Look, v: Balances)
    ensures Snapshot(l) == Some(v) <==> Displays(l, v)
  {
    if Displays(l, v) {
      forall s | 0 <= s < SEATS ensures Amount(l.stacks[s]) == Some(v[s]) {}
      assert Snapshot(l).value == v;
    }
  }

  /**
   The last `2 * k` frames follow each other without a gap: `k` with the old stacks, then `k` lit ones with the new.
   */
  predicate Dealt(looks: seq<Look>, k: int, minimum: int, before: Balances, after: Balances)
  {
    var n := |looks|;
    && 1 <= k && 2 * k <= n
    && (forall t | n - 2 * k <= t < n - 1 :: looks[t + 1].frame == looks[t].frame + 1)
    && (forall t | n - 2 * k <= t < n - k :: Displays(looks[t], before))
    && (forall t | n - k <= t < n :: Displays(looks[t], after) && looks[t].visible)
    && before != after && |Payers(before, after)| >= minimum
  }

  function Payers(before: Balances, after: Balances): set<int>
  {
    set s | 0 <= s < SEATS && after[s] < before[s]
  }

  lemma {:induction false} StepsAddUp(looks: seq<Look>, i: int, t: int)
    requires 0 <= i <= t < |looks| && forall u | i <= u < t :: looks[u + 1].frame == looks[u].frame + 1
    ensures looks[t].frame == looks[i].frame + (t - i)
    decreases t
  {
    if i < t { StepsAddUp(looks, i, t - 1); }
  }

  lemma ConsecutiveExactly(looks: seq<Look>, i: int, k: int)
    requires 0 <= i && 1 <= k && i + k == |looks|
    ensures Consecutive(looks, i, k) <==> forall t | i <= t < |looks| - 1 :: looks[t + 1].frame == looks[t].frame + 1
  {
    if forall t | i <= t < |looks| - 1 :: looks[t + 1].frame == looks[t].frame + 1 {
      forall t | i <= t < |looks| ensures looks[t].frame == looks[i].frame + (t - i) { StepsAddUp(looks, i, t); }
    }
  }

  lemma BlockExactly(looks: seq<Look>, i: int, k: int, v: Balances)
    requires 0 <= i && 1 <= k && i + k <= |looks|
    ensures Block(looks, i, k, v) <==> forall t | i <= t < i + k :: Displays(looks[t], v)
  {
    hide Displays, Snapshot;
    forall l ensures Snapshot(l) == Some(v) <==> Displays(l, v) { SnapshotExactly(l, v); }
  }

  lemma PaidExactly(before: Balances, after: Balances)
    ensures Paid(before, after).Keys == Payers(before, after) && |Paid(before, after)| == |Payers(before, after)|
  {
    assert Paid(before, after).Keys == Payers(before, after);
    assert |Paid(before, after)| == |Paid(before, after).Keys|;
  }

  lemma WitnessExactly(looks: seq<Look>, k: int, minimum: int, before: Balances, after: Balances)
    requires k >= 1
    ensures Witness(looks, k, minimum, k, before, after) <==> Dealt(looks, k, minimum, before, after)
  {
    var n := |looks|;
    if 2 * k <= n {
      ConsecutiveExactly(looks, n - 2 * k, 2 * k);
      BlockExactly(looks, n - 2 * k, k, before);
      BlockExactly(looks, n - k, k, after);
      PaidExactly(before, after);
      hide Consecutive, Block, Displays, Paid, Payers;
      assert Lit(looks, n - k, k) <==> forall t | n - k <= t < n :: looks[t].visible;
    }
  }

  /** What is announced: the first new frame and the one before it, the paid and gained amounts, the last frame. */
  ghost predicate Tells(event: NewHand, first: int, last: int, before: Balances, after: Balances)
  {
    && event.first == first && event.before == Some(first - 1) && event.confirmed == last
    && (forall s :: s in event.debits <==> 0 <= s < SEATS && after[s] < before[s])
    && (forall s | s in event.debits && 0 <= s < SEATS :: event.debits[s] == before[s] - after[s])
    && (forall s :: s in event.credits <==> 0 <= s < SEATS && before[s] < after[s])
    && (forall s | s in event.credits && 0 <= s < SEATS :: event.credits[s] == after[s] - before[s])
  }

  lemma AnnouncementTells(looks: seq<Look>, k: int, before: Balances, after: Balances)
    requires 1 <= k <= |looks|
    ensures var n := |looks|;
      Tells(Announcement(looks, k, before, after), looks[n - k].frame, looks[n - 1].frame, before, after)
  {}

  /**
   On every run of accepted frames, a new hand is announced for the frame `l` exactly when the frames up to it end in
   such a deal, and the announcement tells its frames and amounts.
   */
  lemma NewHandExactly(looks: seq<Look>, l: Look, k: int, minimum: int)
    requires k >= 2
    ensures var event, all := Announced(Run(looks, k, minimum), l, k), looks + [l];
      && (event.Some? <==> exists before, after :: Dealt(all, k, minimum, before, after))
      && (forall before, after | Dealt(all, k, minimum, before, after) ::
            event.Some? && Tells(event.value, all[|all| - k].frame, l.frame, before, after))
  {
    NewHandIffWitness(looks, l, k, minimum);
    hide Announced, Run, Witness, Dealt, Tells, Announcement;
    var event, all := Announced(Run(looks, k, minimum), l, k), looks + [l];
    forall before, after
      ensures Witness(all, k, minimum, k, before, after) <==> Dealt(all, k, minimum, before, after)
    {
      WitnessExactly(all, k, minimum, before, after);
    }
    forall before, after | Dealt(all, k, minimum, before, after)
      ensures event.Some? && k <= |all| && Tells(event.value, all[|all| - k].frame, l.frame, before, after)
    {
      assert Witness(all, k, minimum, k, before, after);
      AnnouncementTells(all, k, before, after);
      assert all[|all| - 1] == l;
    }
  }

  /** A frame is rejected exactly when it is negative or not later than the last accepted one, and this is that one. */
  lemma RejectedExactly(looks: seq<Look>, l: Look, k: int, minimum: int)
    ensures Rejected(Run(looks, k, minimum), l) <==>
      l.frame < 0 || (looks != [] && l.frame <= looks[|looks| - 1].frame)
  {
    hide NextPending, Snapshot;
  }
}
