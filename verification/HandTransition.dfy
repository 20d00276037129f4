/**
 New-hand candidates: a block of frames with one zero-board, zero-pot stack snapshot, followed at once by a block
 with another in which several seats paid while the deal cue stayed visible.
 */
module HandTransition {
  import opened Common
  import opened StateAdapter

  type Balances = t: seq<real> | |t| == SEATS witness [0.0, 0.0, 0.0, 0.0, 0.0, 0.0, 0.0, 0.0]

  /** One frame as the tracker sees it, with the visibility of the center deal cue. */
  datatype Look = Look(frame: int, sceneSupported: bool, boardCount: Option<int>, pot: Money, stacks: Stacks,
    visible: bool)

  datatype Proposal = Proposal(first: int, before: Option<int>, debits: map<int, real>, credits: map<int, real>,
    renewed: Balances, count: int)

  datatype NewHand = NewHand(first: int, before: Option<int>, debits: map<int, real>, credits: map<int, real>,
    confirmed: int)

  datatype Tracker = Tracker(last: Option<int>, value: Option<Balances>, count: int, pending: Option<Proposal>)

  datatype Error = TwoStableFramesRequired | ThreeDebitsRequired | IncreasingFramesRequired

  function Snapshot(l: Look): Option<Balances>
  {
    if !l.sceneSupported || l.boardCount != Some(0) || Amount(l.pot) != Some(0.0)
       || exists s | 0 <= s < SEATS :: Amount(l.stacks[s]).None?
    then None else Some(seq(SEATS, s requires 0 <= s < SEATS && Amount(l.stacks[s]).Some? => l.stacks[s].value))
  }

  function Paid(before: Balances, after: Balances): map<int, real>
  {
    map s | 0 <= s < SEATS && after[s] < before[s] :: before[s] - after[s]
  }

  function Gained(before: Balances, after: Balances): map<int, real>
  {
    map s | 0 <= s < SEATS && after[s] > before[s] :: after[s] - before[s]
  }

  // ---------------------------------------------------------------- one step

  function Unbroken(t: Tracker, frame: int): Tracker
  {
    if t.last.Some? && frame != t.last.value + 1 then Tracker(t.last, None, 0, None) else t
  }

  predicate Repeats(t: Tracker, now: Option<Balances>, l: Look)
  {
    t.pending.Some? && now == Some(t.pending.value.renewed) && l.visible
  }

  predicate Completes(t: Tracker, now: Option<Balances>, l: Look, required: int)
  {
    Repeats(t, now, l) && t.pending.value.count + 1 >= required
  }

  predicate Begins(t: Tracker, now: Option<Balances>, l: Look, required: int, minimum: int)
  {
    now.Some? && t.value.Some? && now != t.value && t.count >= required && l.visible
      && |Paid(t.value.value, now.value)| >= minimum
  }

  function NextPending(t: Tracker, now: Option<Balances>, l: Look, required: int, minimum: int): Option<Proposal>
  {
    if Begins(t, now, l, required, minimum)
    then Some(Proposal(l.frame, t.last, Paid(t.value.value, now.value), Gained(t.value.value, now.value), now.value, 1))
    else if Repeats(t, now, l) && !Completes(t, now, l, required)
      then Some(t.pending.value.(count := t.pending.value.count + 1))
    else None
  }

  function Stepped(t0: Tracker, l: Look, required: int, minimum: int): Tracker
  {
    var t, now := Unbroken(t0, l.frame), Snapshot(l);
    Tracker(Some(l.frame), now, if now.None? then 0 else if now == t.value then t.count + 1 else 1,
            NextPending(t, now, l, required, minimum))
  }

  function Announced(t0: Tracker, l: Look, required: int): Option<NewHand>
  {
    var t, now := Unbroken(t0, l.frame), Snapshot(l);
    if Completes(t, now, l, required)
    then var p := t.pending.value; Some(NewHand(p.first, p.before, p.debits, p.credits, l.frame)) else None
  }

  predicate Rejected(t: Tracker, l: Look)
  {
    l.frame < 0 || (t.last.Some? && l.frame <= t.last.value)
  }

  // ---------------------------------------------------------------- the object

  method Configure(stableFrames: int, minPostingSeats: int) returns (r: Result<HandTransitionCandidates, Error>)
    ensures stableFrames < 2 ==> r == Raised(TwoStableFramesRequired)
    ensures stableFrames >= 2 && !(3 <= minPostingSeats <= 8) ==> r == Raised(ThreeDebitsRequired)
    ensures stableFrames >= 2 && 3 <= minPostingSeats <= 8 ==>
      r.Ok? && fresh(r.value) && r.value.required == stableFrames && r.value.minimum == minPostingSeats
      && r.value.State() == Tracker(None, None, 0, None)
  {
    if stableFrames < 2 { return Raised(TwoStableFramesRequired); }
    if !(3 <= minPostingSeats <= 8) { return Raised(ThreeDebitsRequired); }
    var tracker := new HandTransitionCandidates(stableFrames, minPostingSeats);
    r := Ok(tracker);
  }

  class HandTransitionCandidates {
    const required: int
    const minimum: int
    var last: Option<int>
    var value: Option<Balances>
    var count: int
    var pending: Option<Proposal>

    constructor (required: int, minimum: int)
      ensures this.required == required && this.minimum == minimum && State() == Tracker(None, None, 0, None)
    {
      this.required, this.minimum := required, minimum;
      last, value, count, pending := None, None, 0, None;
    }

    function State(): Tracker
      reads this
    {
      Tracker(last, value, count, pending)
    }

    method Observe(l: Look) returns (r: Result<Option<NewHand>, Error>)
      modifies this
      ensures
        if Rejected(old(State()), l) then r == Raised(IncreasingFramesRequired) && State() == old(State())
        else
          && r == Ok(Announced(old(State()), l, required))
          && State() == Stepped(old(State()), l, required, minimum)
    {
      hide Snapshot, Paid, Gained;
      if l.frame < 0 || (last.Some? && l.frame <= last.value) { return Raised(IncreasingFramesRequired); }
      if last.Some? && l.frame != last.value + 1 { value, count, pending := None, 0, None; }
      var now := Snapshot(l);
      var event: Option<NewHand> := None;
      if pending.Some? {
        var p := pending.value;
        if now == Some(p.renewed) && l.visible {
          pending := Some(p.(count := p.count + 1));
          if p.count + 1 >= required {
            event := Some(NewHand(p.first, p.before, p.debits, p.credits, l.frame));
            pending := None;
          }
        } else {
          pending := None;
        }
      }
      if now.Some? && value.Some? && now != value && count >= required && l.visible {
        var debits, credits := Paid(value.value, now.value), Gained(value.value, now.value);
        if |debits| >= minimum { pending := Some(Proposal(l.frame, last, debits, credits, now.value, 1)); }
      }
      var same := now.Some? && now == value;
      count := if same then count + 1 else 1;
      value, last := now, Some(l.frame);
      if now.None? { count := 0; }
      r := Ok(event);
    }
  }

  // ---------------------------------------------------------------- the reference definition

  predicate Block(looks: seq<Look>, i: int, k: int, v: Balances)
  {
    0 <= i && 0 <= k && i + k <= |looks| && forall t | i <= t < i + k :: Snapshot(looks[t]) == Some(v)
  }

  predicate Consecutive(looks: seq<Look>, i: int, k: int)
  {
    0 <= i && 0 <= k && i + k <= |looks| && forall t | i <= t < i + k :: looks[t].frame == looks[i].frame + (t - i)
  }

  predicate Lit(looks: seq<Look>, i: int, k: int)
  {
    0 <= i && 0 <= k && i + k <= |looks| && forall t | i <= t < i + k :: looks[t].visible
  }

  /**
   The frames end in `required` with the old snapshot and then `j` with the new one, all consecutive, the cue visible
   throughout the new ones.
   */
  predicate Witness(looks: seq<Look>, required: int, minimum: int, j: int, before: Balances, after: Balances)
  {
    var n := |looks|;
    && 1 <= j && required + j <= n
    && Consecutive(looks, n - j - required, required + j)
    && Block(looks, n - j - required, required, before) && Block(looks, n - j, j, after) && Lit(looks, n - j, j)
    && before != after && |Paid(before, after)| >= minimum
  }

  /** The tracker after the accepted frames; a rejected one changes nothing. */
  function Run(looks: seq<Look>, required: int, minimum: int): Tracker
  {
    if looks == [] then Tracker(None, None, 0, None)
    else Stepped(Run(looks[..|looks| - 1], required, minimum), looks[|looks| - 1], required, minimum)
  }

  /** The count is the length of the longest consecutive block of the current snapshot. */
  predicate Counts(looks: seq<Look>, t: Tracker)
  {
    var n := |looks|;
    if n == 0 then t.last == None && t.value == None && t.count == 0
    else
      && t.last == Some(looks[n - 1].frame) && t.value == Snapshot(looks[n - 1])
      && (if t.value.None? then t.count == 0
          else 1 <= t.count <= n
               && Block(looks, n - t.count, t.count, t.value.value) && Consecutive(looks, n - t.count, t.count)
               && !(t.count < n && looks[n - t.count - 1].frame + 1 == looks[n - t.count].frame
                    && Snapshot(looks[n - t.count - 1]) == t.value))
  }

  lemma CountsStep(looks: seq<Look>, t: Tracker, l: Look, required: int, minimum: int)
    requires Counts(looks, t)
    ensures Counts(looks + [l], Stepped(t, l, required, minimum))
  {
    hide Snapshot, NextPending;
    var n, all, u := |looks|, looks + [l], Stepped(t, l, required, minimum);
    if u.value.Some? {
      if u.count > 1 {
        var i := n - t.count;
        assert u.count == t.count + 1;
        forall k | i <= k < i + u.count ensures Snapshot(all[k]) == u.value && all[k].frame == all[i].frame + (k - i) {
          if k < n { assert all[k] == looks[k]; } else { assert looks[n - 1].frame == looks[i].frame + (n - 1 - i); }
        }
      } else {
        assert all[n] == l;
        assert t.count >= 0;
      }
    }
  }

  /** A consecutive block of equal snapshots at the end is within the count. */
  lemma CountCovers(looks: seq<Look>, t: Tracker, k: int, v: Balances)
    requires Counts(looks, t) && 1 <= k <= |looks|
    requires Block(looks, |looks| - k, k, v) && Consecutive(looks, |looks| - k, k)
    ensures t.value == Some(v) && t.count >= k
  {
    hide Snapshot;
    var n := |looks|;
    assert Snapshot(looks[n - 1]) == Some(v);
  }

  lemma WitnessLater(looks: seq<Look>, l: Look, required: int, minimum: int, j: int, before: Balances, after: Balances)
    requires required >= 1 && j >= 2
    ensures Witness(looks + [l], required, minimum, j, before, after) <==>
      Witness(looks, required, minimum, j - 1, before, after)
      && Snapshot(l) == Some(after) && l.visible && l.frame == looks[|looks| - 1].frame + 1
  {
    hide Snapshot, Paid;
    var n, all := |looks|, looks + [l];
    var i := n + 1 - j - required;
    if i >= 0 {
      assert forall t | i <= t < n :: all[t] == looks[t];
      assert all[n] == l;
      if Witness(all, required, minimum, j, before, after) {
        assert all[n - 1].frame == all[i].frame + (n - 1 - i) && all[n].frame == all[i].frame + (n - i);
        assert forall t | i <= t < n :: looks[t].frame == all[t].frame;
      }
      if Witness(looks, required, minimum, j - 1, before, after) && Snapshot(l) == Some(after) && l.visible
        && l.frame == looks[n - 1].frame + 1 {
        assert looks[n - 1].frame == looks[i].frame + (n - 1 - i);
        forall t | i <= t < n + 1 ensures all[t].frame == all[i].frame + (t - i) {}
        forall t | n + 1 - j <= t < n + 1 ensures Snapshot(all[t]) == Some(after) && all[t].visible {}
      }
    }
  }

  lemma WitnessFirst(
      looks: seq<Look>, t: Tracker, l: Look, required: int, minimum: int, before: Balances, after: Balances)
    requires required >= 1 && Counts(looks, t)
    ensures Witness(looks + [l], required, minimum, 1, before, after) <==>
      looks != [] && l.frame == looks[|looks| - 1].frame + 1 && t.value == Some(before) && t.count >= required
      && Snapshot(l) == Some(after) && before != after && l.visible && |Paid(before, after)| >= minimum
  {
    hide Snapshot, Paid;
    var n, all := |looks|, looks + [l];
    var i := n - required;
    assert all[n] == l;
    if i >= 0 {
      assert forall t | 0 <= t < n :: all[t] == looks[t];
      if Witness(all, required, minimum, 1, before, after) {
        forall t | i <= t < n
          ensures Snapshot(looks[t]) == Some(before) && looks[t].frame == looks[i].frame + (t - i)
        {
          assert all[t] == looks[t];
        }
        CountCovers(looks, t, required, before);
        assert all[n].frame == all[i].frame + (n - i) && all[n - 1].frame == all[i].frame + (n - 1 - i);
      }
      if looks != [] && l.frame == looks[n - 1].frame + 1 && t.value == Some(before) && t.count >= required
         && Snapshot(l) == Some(after) && before != after && l.visible && |Paid(before, after)| >= minimum {
        var c := n - t.count;
        assert looks[i].frame == looks[c].frame + (i - c) && looks[n - 1].frame == looks[c].frame + (n - 1 - c);
        forall t | i <= t < n + 1 ensures all[t].frame == all[i].frame + (t - i) {
          if t < n { assert looks[t].frame == looks[c].frame + (t - c); }
        }
        forall t | i <= t < n ensures Snapshot(all[t]) == Some(before) {}
      }
    }
  }

  /** The pending proposal is exactly the unfinished witness. */
  ghost predicate Proposes(looks: seq<Look>, t: Tracker, required: int, minimum: int)
  {
    && (t.pending.None? ==> forall j, before, after | j < required ::
      !Witness(looks, required, minimum, j, before, after))
    && (t.pending.Some? ==>
          var p := t.pending.value;
          && 1 <= p.count < required && t.value == Some(p.renewed)
          && exists before :: Describes(looks, p, required, minimum, before))
  }

  ghost predicate Describes(looks: seq<Look>, p: Proposal, required: int, minimum: int, before: Balances)
  {
    && Witness(looks, required, minimum, p.count, before, p.renewed)
    && p.debits == Paid(before, p.renewed) && p.credits == Gained(before, p.renewed)
    && p.first == looks[|looks| - p.count].frame && p.before == Some(p.first - 1)
  }

  lemma BeginsProposes(looks: seq<Look>, t: Tracker, l: Look, required: int, minimum: int)
    requires required >= 2 && Counts(looks, t)
    ensures var u, now := Unbroken(t, l.frame), Snapshot(l);
      Begins(u, now, l, required, minimum) <==>
        exists before, after :: Witness(looks + [l], required, minimum, 1, before, after)
    ensures var u, now := Unbroken(t, l.frame), Snapshot(l);
      Begins(u, now, l, required, minimum) ==> Witness(looks + [l], required, minimum, 1, u.value.value, now.value)
  {
    hide Snapshot, Paid, Witness;
    var u, now := Unbroken(t, l.frame), Snapshot(l);
    if Begins(u, now, l, required, minimum) {
      WitnessFirst(looks, t, l, required, minimum, u.value.value, now.value);
    }
    if exists before, after :: Witness(looks + [l], required, minimum, 1, before, after) {
      var before, after :| Witness(looks + [l], required, minimum, 1, before, after);
      WitnessFirst(looks, t, l, required, minimum, before, after);
    }
  }

  /** An unfinished proposal grows by a frame exactly when the witness does. */
  lemma RepeatsWitness(
      looks: seq<Look>, t: Tracker, l: Look, required: int, minimum: int, j: int, before: Balances, after: Balances)
    requires required >= 2 && Counts(looks, t) && Proposes(looks, t, required, minimum) && 2 <= j <= required
    requires Witness(looks + [l], required, minimum, j, before, after)
    ensures var u, now := Unbroken(t, l.frame), Snapshot(l);
      Repeats(u, now, l) && u.pending.value.count == j - 1
  {
    hide Snapshot, Counts, Witness, Proposes;
    WitnessLater(looks, l, required, minimum, j, before, after);
    LastSeen(looks, t);
    PendingIs(looks, t, required, minimum, j - 1, before, after);
  }

  lemma LastSeen(looks: seq<Look>, t: Tracker)
    requires Counts(looks, t)
    ensures t.last == if looks == [] then None else Some(looks[|looks| - 1].frame)
  {
    hide Snapshot, Block, Consecutive;
  }

  /** An unfinished witness is the one that is pending. */
  lemma PendingIs(looks: seq<Look>, t: Tracker, required: int, minimum: int, j: int, before: Balances, after: Balances)
    requires required >= 2 && Proposes(looks, t, required, minimum) && j < required
    requires Witness(looks, required, minimum, j, before, after)
    ensures looks != [] && t.pending.Some? && t.pending.value.count == j && t.pending.value.renewed == after
  {
    hide Snapshot, Paid, Gained;
    WitnessPositive(looks, required, minimum, j, before, after);
    hide Witness;
    assert t.pending.Some?;
    var p := t.pending.value;
    var b :| Describes(looks, p, required, minimum, b);
    SameBlock(looks, required, minimum, j, before, after, p.count, b, p.renewed);
  }

  lemma SameBlock(
      looks: seq<Look>, required: int, minimum: int, i: int, b1: Balances, a1: Balances, j: int, b2: Balances,
      a2: Balances)
    requires required >= 1 && Witness(looks, required, minimum, i, b1, a1)
      && Witness(looks, required, minimum, j, b2, a2)
    ensures i == j && b1 == b2 && a1 == a2
  {
    hide Snapshot, Paid;
    var n := |looks|;
    assert Snapshot(looks[n - 1]) == Some(a1) && Snapshot(looks[n - 1]) == Some(a2);
    assert Snapshot(looks[n - i - 1]) == Some(b1) && Snapshot(looks[n - j - 1]) == Some(b2);
  }

  lemma GrowDescribes(looks: seq<Look>, t: Tracker, l: Look, required: int, minimum: int, before: Balances)
    requires required >= 2 && Counts(looks, t) && t.pending.Some? && t.pending.value.count >= 1
    requires Describes(looks, t.pending.value, required, minimum, before)
    requires Repeats(Unbroken(t, l.frame), Snapshot(l), l)
    ensures Describes(looks + [l], t.pending.value.(count := t.pending.value.count + 1), required, minimum, before)
  {
    hide Snapshot, Paid, Gained, Counts, Witness;
    var p := t.pending.value;
    LastSeen(looks, t);
    WitnessPositive(looks, required, minimum, p.count, before, p.renewed);
    WitnessLater(looks, l, required, minimum, p.count + 1, before, p.renewed);
    assert (looks + [l])[|looks| - p.count] == looks[|looks| - p.count];
  }

  lemma ProposesStep(looks: seq<Look>, t: Tracker, l: Look, required: int, minimum: int)
    requires required >= 2 && Counts(looks, t) && Proposes(looks, t, required, minimum)
    ensures Proposes(looks + [l], Stepped(t, l, required, minimum), required, minimum)
  {
    hide Snapshot, Paid, Gained, Witness, Counts;
    var u, now, all := Unbroken(t, l.frame), Snapshot(l), looks + [l];
    var next := Stepped(t, l, required, minimum);
    BeginsProposes(looks, t, l, required, minimum);
    if Begins(u, now, l, required, minimum) {
      BeganDescribes(looks, t, l, required, minimum);
    } else if Repeats(u, now, l) && !Completes(u, now, l, required) {
      var before :| Describes(looks, t.pending.value, required, minimum, before);
      GrowDescribes(looks, t, l, required, minimum, before);
    } else {
      forall j, before, after | j < required ensures !Witness(all, required, minimum, j, before, after) {
        if Witness(all, required, minimum, j, before, after) {
          WitnessPositive(all, required, minimum, j, before, after);
          if j >= 2 { RepeatsWitness(looks, t, l, required, minimum, j, before, after); }
        }
      }
    }
  }

  lemma WitnessPositive(looks: seq<Look>, required: int, minimum: int, j: int, before: Balances, after: Balances)
    requires Witness(looks, required, minimum, j, before, after)
    ensures j >= 1 && required + j <= |looks|
  {
    hide Snapshot, Paid, Consecutive, Block, Lit;
  }

  lemma BeganDescribes(looks: seq<Look>, t: Tracker, l: Look, required: int, minimum: int)
    requires required >= 2 && Counts(looks, t) && Begins(Unbroken(t, l.frame), Snapshot(l), l, required, minimum)
    ensures var p := Stepped(t, l, required, minimum).pending;
      p.Some? && Describes(looks + [l], p.value, required, minimum, t.value.value)
  {
    BeginsProposes(looks, t, l, required, minimum);
    hide Snapshot, Paid, Gained, Witness;
    assert (looks + [l])[|looks|] == l;
  }

  lemma {:induction false} Tracks(looks: seq<Look>, required: int, minimum: int)
    requires required >= 2
    ensures Counts(looks, Run(looks, required, minimum))
      && Proposes(looks, Run(looks, required, minimum), required, minimum)
  {
    hide Stepped, Snapshot;
    if looks == [] {
    } else {
      var init, l := looks[..|looks| - 1], looks[|looks| - 1];
      Tracks(init, required, minimum);
      CountsStep(init, Run(init, required, minimum), l, required, minimum);
      ProposesStep(init, Run(init, required, minimum), l, required, minimum);
      assert looks == init + [l];
    }
  }

  lemma AnnouncedHasWitness(looks: seq<Look>, t: Tracker, l: Look, required: int, minimum: int)
    requires required >= 2 && Counts(looks, t) && Proposes(looks, t, required, minimum)
    requires Announced(t, l, required).Some?
    ensures exists b, a :: Witness(looks + [l], required, minimum, required, b, a)
  {
    hide Snapshot, Paid, Gained, Counts, Witness;
    var p := t.pending.value;
    var b :| Describes(looks, p, required, minimum, b);
    GrowDescribes(looks, t, l, required, minimum, b);
    assert Witness(looks + [l], required, minimum, required, b, p.renewed);
  }

  lemma WitnessIsAnnounced(
      looks: seq<Look>, t: Tracker, l: Look, required: int, minimum: int, before: Balances, after: Balances)
    requires required >= 2 && Counts(looks, t) && Proposes(looks, t, required, minimum)
    requires Witness(looks + [l], required, minimum, required, before, after)
    ensures |looks| + 1 >= required && Announced(t, l, required) ==
      Some(Announcement(looks + [l], required, before, after))
  {
    hide Snapshot, Paid, Gained, Counts, Witness, Proposes;
    RepeatsWitness(looks, t, l, required, minimum, required, before, after);
    WitnessPositive(looks + [l], required, minimum, required, before, after);
    assert exists b ::
      Describes(looks, t.pending.value, required, minimum, b) by { ProposedDescribes(looks, t, required, minimum); }
    var p := t.pending.value;
    var b :| Describes(looks, p, required, minimum, b);
    GrowDescribes(looks, t, l, required, minimum, b);
    SameBlock(looks + [l], required, minimum, required, before, after, required, b, p.renewed);
  }

  lemma ProposedDescribes(looks: seq<Look>, t: Tracker, required: int, minimum: int)
    requires Proposes(looks, t, required, minimum) && t.pending.Some?
    ensures exists b :: Describes(looks, t.pending.value, required, minimum, b)
  {
    hide Describes;
  }

  /**
   What is announced for a witness: its first frame with the new snapshot, the frame before it, and who paid and gained.
   */
  function Announcement(looks: seq<Look>, required: int, before: Balances, after: Balances): NewHand
    requires 1 <= required <= |looks|
  {
    var first := looks[|looks| - required].frame;
    NewHand(first, Some(first - 1), Paid(before, after), Gained(before, after), looks[|looks| - 1].frame)
  }

  /**
   On every run, a new hand is announced for a frame exactly when the frames up to it end in `required` consecutive
   frames with one stack snapshot and then `required` with another, the deal cue visible throughout the second block
   and at least `minimum` seats having paid; the announcement then names those frames, debits and credits.
   */
  lemma NewHandIffWitness(looks: seq<Look>, l: Look, required: int, minimum: int)
    requires required >= 2
    ensures var event := Announced(Run(looks, required, minimum), l, required);
      && (event.Some? <==> exists b, a :: Witness(looks + [l], required, minimum, required, b, a))
      && (forall b, a | Witness(looks + [l], required, minimum, required, b, a) ::
            required <= |looks| + 1 && event == Some(Announcement(looks + [l], required, b, a)))
  {
    Tracks(looks, required, minimum);
    hide *;
    var t := Run(looks, required, minimum);
    if Announced(t, l, required).Some? { AnnouncedHasWitness(looks, t, l, required, minimum); }
    forall b, a | Witness(looks + [l], required, minimum, required, b, a)
      ensures required <= |looks| + 1 && Announced(t, l, required) == Some(Announcement(looks + [l], required, b, a))
    {
      WitnessIsAnnounced(looks, t, l, required, minimum, b, a);
    }
  }

  // ---------------------------------------------------------------- money

  function SeatSum(t: Balances, n: nat): real
    requires n <= SEATS
  {
    if n == 0 then 0.0 else SeatSum(t, n - 1) + t[n - 1]
  }

  function MapSum(m: map<int, real>, n: nat): real
  {
    if n == 0 then 0.0 else MapSum(m, n - 1) + if n - 1 in m then m[n - 1] else 0.0
  }

  /** What the seats paid less what they gained is what left the stacks. */
  lemma {:induction false} DebitsLessCredits(before: Balances, after: Balances, n: nat)
    requires n <= SEATS
    ensures MapSum(Paid(before, after), n) - MapSum(Gained(before, after), n) == SeatSum(before, n) - SeatSum(after, n)
  {
    if n > 0 { DebitsLessCredits(before, after, n - 1); }
  }
}
