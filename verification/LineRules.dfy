/**
 The verdict on the preflop line in terms of the adapter's whole action list, without selecting anything first.
 */
module LineRules {
  import opened Common
  import opened StateAdapter
  import opened StreetBaseline
  import opened LiveWagers
  import opened ActionLine

  predicate Preflops(a: Action, epoch: int)
  {
    a.epoch == Some(epoch) && a.street == Some(Preflop)
  }

  predicate Sound(a: Action)
  {
    (a.kind == Fold || a.kind == Check || a.kind == Call || a.kind == Aggressive || a.kind == AllIn) && 0 <= a.slot < 8
  }

  /** The preflop actions of the epoch are known, at the table, and in strictly increasing frames. */
  predicate InOrder(actions: seq<Action>, epoch: int)
  {
    && (forall i | 0 <= i < |actions| && Preflops(actions[i], epoch) :: Sound(actions[i]))
    && (forall i, j | 0 <= i < j < |actions| && Preflops(actions[i], epoch) && Preflops(actions[j], epoch) ::
          actions[i].frame < actions[j].frame)
  }

  /** The automaton over the whole list, passing over every other action. */
  function PassOver(actions: seq<Action>, epoch: int): Stage
  {
    if actions == [] then Limping(0)
    else
      var a, s := actions[|actions| - 1], PassOver(actions[..|actions| - 1], epoch);
      if Preflops(a, epoch) then Next(s, a.kind) else s
  }

  lemma {:induction false} Increasing(selected: seq<Action>, i: int, j: int)
    requires Orderly(selected) && 0 <= i < j < |selected|
    ensures selected[i].frame < selected[j].frame
  {
    assert Follows(selected, j);
    if i < j - 1 { Increasing(selected, i, j - 1); }
  }

  lemma {:induction false} SelectedAre(actions: seq<Action>, epoch: int)
    ensures forall a :: a in ActionsOf(actions, Key(epoch, Preflop)) <==> a in actions && Preflops(a, epoch)
  {
    if actions != [] {
      var init := actions[..|actions| - 1];
      SelectedAre(init, epoch);
      assert actions == init + [actions[|actions| - 1]];
    }
  }

  lemma OrderlyNext(selected: seq<Action>, a: Action)
    ensures Orderly(selected + [a]) <==>
      Orderly(selected) && Sound(a) && forall x | x in selected :: x.frame < a.frame
  {
    var all, n := selected + [a], |selected|;
    if Orderly(all) {
      forall i | 0 <= i < n ensures KnownKind(selected[i].kind) && 0 <= selected[i].slot < SEATS {
        assert all[i] == selected[i];
      }
      forall i: int | 1 <= i < n ensures Follows(selected, i) { assert Follows(all, i); }
      forall x | x in selected ensures x.frame < a.frame {
        var i :| 0 <= i < n && selected[i] == x;
        Increasing(all, i, n);
      }
      assert all[n] == a;
    }
    if Orderly(selected) && Sound(a) && forall x | x in selected :: x.frame < a.frame {
      if n > 0 { assert selected[n - 1] in selected; }
      OrderlySnoc(selected, a);
    }
  }

  lemma {:induction false} OrderExactly(actions: seq<Action>, epoch: int)
    ensures Orderly(ActionsOf(actions, Key(epoch, Preflop))) <==> InOrder(actions, epoch)
    ensures RunStages(KindsOf(ActionsOf(actions, Key(epoch, Preflop)))) == PassOver(actions, epoch)
  {
    if actions == [] {
      assert KindsOf(ActionsOf([], Key(epoch, Preflop))) == [];
    } else {
      var n, k := |actions| - 1, Key(epoch, Preflop);
      var init, a := actions[..n], actions[n];
      var selected := ActionsOf(init, k);
      OrderExactly(init, epoch);
      SelectedAre(init, epoch);
      OrderlyNext(selected, a);
      hide Orderly, Sound, ActionsOf, KindsOf, RunStages, Next, InOrder;
      assert ActionsOf(actions, k) == if Preflops(a, epoch) then selected + [a] else selected by {
        hide *;
        ActionsNext(actions, epoch);
      }
      InOrderNext(init, a, epoch);
      assert actions == init + [a];
      if Preflops(a, epoch) { KindsNext(selected, a); }
    }
  }

  lemma ActionsNext(actions: seq<Action>, epoch: int)
    requires actions != []
    ensures var n, k := |actions| - 1, Key(epoch, Preflop);
      ActionsOf(actions, k) ==
        if Preflops(actions[n], epoch) then ActionsOf(actions[..n], k) + [actions[n]] else ActionsOf(actions[..n], k)
  {
    var n, k := |actions| - 1, Key(epoch, Preflop);
    assert ActionsOf(actions[..n], k) + [] == ActionsOf(actions[..n], k);
  }

  lemma KindsNext(selected: seq<Action>, a: Action)
    ensures RunStages(KindsOf(selected + [a])) == Next(RunStages(KindsOf(selected)), a.kind)
  {
    assert KindsOf(selected + [a]) == KindsOf(selected) + [a.kind];
    var all := KindsOf(selected) + [a.kind];
    assert all[..|all| - 1] == KindsOf(selected);
  }

  lemma InOrderNext(init: seq<Action>, a: Action, epoch: int)
    ensures InOrder(init + [a], epoch) <==>
      InOrder(init, epoch)
      && (Preflops(a, epoch) ==> Sound(a) && forall x | x in init && Preflops(x, epoch) :: x.frame < a.frame)
  {
    hide Sound, Preflops;
    var all, n := init + [a], |init|;
    assert all[n] == a && forall i | 0 <= i < n :: all[i] == init[i];
    if InOrder(all, epoch) {
      forall i | 0 <= i < n && Preflops(init[i], epoch) ensures Sound(init[i]) { assert all[i] == init[i]; }
      forall i, j | 0 <= i < j < n && Preflops(init[i], epoch) && Preflops(init[j], epoch)
        ensures init[i].frame < init[j].frame
      {
        assert all[i] == init[i] && all[j] == init[j];
      }
      if Preflops(a, epoch) {
        forall x | x in init && Preflops(x, epoch) ensures x.frame < a.frame {
          var i :| 0 <= i < n && init[i] == x;
          assert all[i] == x && all[n] == a;
        }
      }
    }
  }

  /** Every outcome, exactly. */
  lemma VerdictExactly(actions: seq<Action>, epoch: Option<int>, street: Option<Street>)
    ensures var v := CandidateLine(actions, epoch, street);
      && (v == EpochUnknown <==> epoch == None)
      && (v == PostflopNotReleased <==> epoch.Some? && street != Some(Preflop))
      && (v == InvalidSequence <==> epoch.Some? && street == Some(Preflop) && !InOrder(actions, epoch.value))
      && (v.Observed? <==> epoch.Some? && street == Some(Preflop) && InOrder(actions, epoch.value))
      && (v.Observed? && epoch.Some? ==>
            && v.line == LineOf(PassOver(actions, epoch.value))
            && (forall i, j | 0 <= i < j < |v.frames| :: v.frames[i] < v.frames[j])
            && forall f :: f in v.frames <==> exists a :: a in actions && Preflops(a, epoch.value) && a.frame == f)
  {
    if epoch.Some? && street == Some(Preflop) {
      var e := epoch.value;
      var selected := ActionsOf(actions, Key(e, Preflop));
      OrderExactly(actions, e);
      SelectedAre(actions, e);
      SlicesMatchAutomaton(KindsOf(selected));
      if Orderly(selected) { FramesExactly(selected); }
      hide ActionsOf, Classified, KindsOf, InOrder, PassOver, RunStages, LineOf, Preflops, Orderly, FramesOf;
    }
  }

  /** The frames of an orderly selection increase and are those of its actions. */
  lemma FramesExactly(selected: seq<Action>)
    requires Orderly(selected)
    ensures forall i, j | 0 <= i < j < |FramesOf(selected)| :: FramesOf(selected)[i] < FramesOf(selected)[j]
    ensures forall f :: f in FramesOf(selected) <==> exists a :: a in selected && a.frame == f
  {
    forall i, j | 0 <= i < j < |selected| ensures selected[i].frame < selected[j].frame { Increasing(selected, i, j); }
    hide Orderly;
    forall f ensures f in FramesOf(selected) <==> exists a :: a in selected && a.frame == f {
      if f in FramesOf(selected) {
        var i :| 0 <= i < |selected| && FramesOf(selected)[i] == f;
        assert selected[i] in selected;
      }
      if a :| a in selected && a.frame == f {
        var i :| 0 <= i < |selected| && selected[i] == a;
        assert FramesOf(selected)[i] == f;
      }
    }
  }

  lemma {:induction false} PassedOver(front: seq<Kind>, back: seq<Kind>, k: Kind)
    requires k == Fold || k == Check
    ensures RunStages(front + [k] + back) == RunStages(front + back)
  {
    if back == [] {
      assert front + [k] + back == front + [k] && front + back == front;
      assert (front + [k])[..|front|] == front;
    } else {
      var n := |back| - 1;
      PassedOver(front, back[..n], k);
      var long, short := front + [k] + back, front + back;
      assert long[..|long| - 1] == front + [k] + back[..n] && short[..|short| - 1] == front + back[..n];
    }
  }

  /** A fold or a check anywhere in the sequence makes no difference to the line. */
  lemma PassiveAnywhere(front: seq<Kind>, back: seq<Kind>, k: Kind)
    requires k == Fold || k == Check
    ensures Classified(front + [k] + back) == Classified(front + back)
  {
    PassedOver(front, back, k);
    SlicesMatchAutomaton(front + [k] + back);
    SlicesMatchAutomaton(front + back);
  }
}
