/**
 How the adapter resolves one glyph: exactly which balance decrease it is paired with, and what is published.
 */
module PairingRules {
  import opened Common
  import opened StateAdapter

  predicate Near(x: int, y: int, w: int)
  {
    -w <= x - y <= w
  }

  /** The decrease is of the glyph's seat, within the window, and not spent. */
  predicate Fits(window: int, used: set<(int, int)>, a: Pending, d: Cash)
  {
    d.seat == a.slot && Near(d.first, a.frame, window) && (d.seat, d.first) !in used
  }

  /** The pot rose by the amount of the decrease, within the window of it. */
  predicate Rises(window: int, p: PotChange, d: Cash)
  {
    p.amount == d.amount && Near(p.first, d.first, window)
  }

  /** `d` is the one entry that fits the glyph, no other seat paid at its moment, and one pot increase confirms it. */
  ghost predicate Explains(t: Adapter, a: Pending, d: Cash)
  {
    && (exists i | 0 <= i < |t.cash| :: t.cash[i] == d && Fits(t.window, t.usedCash, a, d)
          && forall k | 0 <= k < |t.cash| && k != i :: !Fits(t.window, t.usedCash, a, t.cash[k]))
    && (forall k | 0 <= k < |t.cash| && t.cash[k].seat != d.seat :: !Near(t.cash[k].first, d.first, 1))
    && (exists j | 0 <= j < |t.potChanges| :: Rises(t.window, t.potChanges[j], d)
          && forall k | 0 <= k < |t.potChanges| && k != j :: !Rises(t.window, t.potChanges[k], d))
  }

  lemma {:induction false} NoMatch(window: int, cash: seq<Cash>, used: set<(int, int)>, a: Pending)
    ensures Matches(window, cash, used, a) == [] <==> forall i | 0 <= i < |cash| :: !Fits(window, used, a, cash[i])
  {
    if cash != [] {
      var front, last := cash[..|cash| - 1], cash[|cash| - 1];
      NoMatch(window, front, used, a);
      assert cash == front + [last];
      if forall i | 0 <= i < |front| :: !Fits(window, used, a, front[i]) {
        forall i | 0 <= i < |cash| && !Fits(window, used, a, last) ensures !Fits(window, used, a, cash[i]) {
          if i < |front| { assert cash[i] == front[i]; }
        }
      } else {
        var i :| 0 <= i < |front| && Fits(window, used, a, front[i]);
        assert cash[i] == front[i];
      }
    }
  }

  ghost predicate OneFit(window: int, cash: seq<Cash>, used: set<(int, int)>, a: Pending, d: Cash)
  {
    exists i | 0 <= i < |cash| :: cash[i] == d && Fits(window, used, a, d)
      && forall k | 0 <= k < |cash| && k != i :: !Fits(window, used, a, cash[k])
  }

  lemma FitSnoc(window: int, front: seq<Cash>, last: Cash, used: set<(int, int)>, a: Pending, d: Cash)
    ensures OneFit(window, front + [last], used, a, d) <==>
      if Fits(window, used, a, last)
      then d == last && forall i | 0 <= i < |front| :: !Fits(window, used, a, front[i])
      else OneFit(window, front, used, a, d)
  {
    hide Fits;
    var all := front + [last];
    assert all[|front|] == last && forall i | 0 <= i < |front| :: all[i] == front[i];
    if OneFit(window, front, used, a, d) && !Fits(window, used, a, last) {
      var i :| 0 <= i < |front| && front[i] == d && Fits(window, used, a, d)
        && forall k | 0 <= k < |front| && k != i :: !Fits(window, used, a, front[k]);
      assert all[i] == d;
    }
    if OneFit(window, all, used, a, d) {
      var i :| 0 <= i < |all| && all[i] == d && Fits(window, used, a, d)
        && forall k | 0 <= k < |all| && k != i :: !Fits(window, used, a, all[k]);
      if i < |front| {
        assert front[i] == d && !Fits(window, used, a, all[|front|]);
        assert forall k | 0 <= k < |front| && k != i :: !Fits(window, used, a, all[k]);
      } else {
        assert forall k | 0 <= k < |front| :: !Fits(window, used, a, all[k]);
      }
    }
    if Fits(window, used, a, last) && d == last && forall i | 0 <= i < |front| :: !Fits(window, used, a, front[i]) {
      assert all[|front|] == d;
    }
  }

  lemma {:induction false} OneMatch(window: int, cash: seq<Cash>, used: set<(int, int)>, a: Pending, d: Cash)
    ensures Matches(window, cash, used, a) == [d] <==> OneFit(window, cash, used, a, d)
  {
    if cash != [] {
      var front, last := cash[..|cash| - 1], cash[|cash| - 1];
      OneMatch(window, front, used, a, d);
      NoMatch(window, front, used, a);
      assert cash == front + [last];
      FitSnoc(window, front, last, used, a, d);
      assert Fits(window, used, a, last) <==>
        last.seat == a.slot && Distance(last.first, a.frame) <= window && (last.seat, last.first) !in used;
      hide OneFit, Fits;
      var before := Matches(window, front, used, a);
      if Fits(window, used, a, last) {
        assert Matches(window, cash, used, a) == before + [last];
        assert before + [last] == [d] <==> before == [] && d == last by {
          if before == [] { assert before + [last] == [last]; }
          assert (before + [last])[|before|] == last;
        }
      } else {
        assert Matches(window, cash, used, a) == before + [] == before;
      }
    }
  }

  ghost predicate OneRise(window: int, pots: seq<PotChange>, d: Cash)
  {
    exists j | 0 <= j < |pots| :: Rises(window, pots[j], d)
      && forall k | 0 <= k < |pots| && k != j :: !Rises(window, pots[k], d)
  }

  lemma {:induction false} NoRise(window: int, pots: seq<PotChange>, d: Cash)
    ensures PotEvidence(window, pots, d) == [] <==> forall i | 0 <= i < |pots| :: !Rises(window, pots[i], d)
  {
    if pots != [] {
      var front, last := pots[..|pots| - 1], pots[|pots| - 1];
      NoRise(window, front, d);
      if forall i | 0 <= i < |front| :: !Rises(window, front[i], d) {
        forall i | 0 <= i < |pots| && !Rises(window, last, d) ensures !Rises(window, pots[i], d) {
          if i < |front| { assert pots[i] == front[i]; }
        }
      } else {
        var i :| 0 <= i < |front| && Rises(window, front[i], d);
        assert pots[i] == front[i];
      }
    }
  }

  lemma RiseSnoc(window: int, front: seq<PotChange>, last: PotChange, d: Cash)
    ensures OneRise(window, front + [last], d) <==>
      if Rises(window, last, d) then forall i | 0 <= i < |front| :: !Rises(window, front[i], d)
      else OneRise(window, front, d)
  {
    hide Rises;
    var all := front + [last];
    assert all[|front|] == last && forall i | 0 <= i < |front| :: all[i] == front[i];
    if OneRise(window, front, d) && !Rises(window, last, d) {
      var j :| 0 <= j < |front| && Rises(window, front[j], d)
        && forall k | 0 <= k < |front| && k != j :: !Rises(window, front[k], d);
      assert Rises(window, all[j], d);
    }
    if OneRise(window, all, d) {
      var j :| 0 <= j < |all| && Rises(window, all[j], d)
        && forall k | 0 <= k < |all| && k != j :: !Rises(window, all[k], d);
      if j < |front| {
        assert Rises(window, front[j], d) && !Rises(window, all[|front|], d);
        assert forall k | 0 <= k < |front| && k != j :: !Rises(window, all[k], d);
      } else {
        assert forall k | 0 <= k < |front| :: !Rises(window, all[k], d);
      }
    }
    if Rises(window, last, d) && forall i | 0 <= i < |front| :: !Rises(window, front[i], d) {
      assert Rises(window, all[|front|], d);
    }
  }

  lemma {:induction false} OnePotRise(window: int, pots: seq<PotChange>, d: Cash)
    ensures |PotEvidence(window, pots, d)| == 1 <==> OneRise(window, pots, d)
  {
    if pots != [] {
      var front, last := pots[..|pots| - 1], pots[|pots| - 1];
      OnePotRise(window, front, d);
      NoRise(window, front, d);
      assert pots == front + [last];
      RiseSnoc(window, front, last, d);
      assert Rises(window, last, d) <==> last.amount == d.amount && Distance(last.first, d.first) <= window;
      hide OneRise, Rises;
    }
  }

  /** A glyph is paired with a decrease exactly when that decrease explains it. */
  lemma PairedExactly(t: Adapter, a: Pending, d: Cash)
    ensures Paired(t, a) && DebitFor(t, a) == Some(d) <==> Explains(t, a, d)
  {
    OneMatch(t.window, t.cash, t.usedCash, a, d);
    OnePotRise(t.window, t.potChanges, d);
    hide Matches, PotEvidence, Fits, Rises;
    assert Crowded(t.cash, d) <==>
      exists k | 0 <= k < |t.cash| :: t.cash[k].seat != d.seat && Near(t.cash[k].first, d.first, 1);
    var matches := Matches(t.window, t.cash, t.usedCash, a);
    if |matches| == 1 { assert matches == [matches[0]]; }
  }

  /** What one resolved glyph is published as. */
  function Published(a: Pending, frame: int, amount: Money, debit: Option<Cash>): Action
  {
    Action(a.frame, a.slot, a.glyph, Some(a.glyph), a.epoch, a.street, frame, amount, debit)
  }

  /** The first occurrence of the glyph is gone, the others keep their order. */
  ghost predicate Removed<T(!new)>(before: seq<T>, a: T, after: seq<T>)
  {
    exists i :: RemovedAt(before, a, after, i)
  }

  predicate RemovedAt<T(==)>(before: seq<T>, a: T, after: seq<T>, i: int)
  {
    0 <= i < |before| && before[i] == a && a !in before[..i] && after == before[..i] + before[i + 1..]
  }

  lemma {:induction false} RemovedExactly<T(!new)>(before: seq<T>, a: T) returns (i: int)
    requires a in before
    ensures RemovedAt(before, a, RemoveFirst(before, a), i)
  {
    if before[0] == a {
      i := 0;
      assert before[..0] + before[1..] == before[1..];
    } else {
      var later := RemovedExactly(before[1..], a);
      RemovedLater(before, a, RemoveFirst(before[1..], a), later);
      i := later + 1;
    }
  }

  lemma RemovedLater<T>(before: seq<T>, a: T, rest: seq<T>, i: int)
    requires before != [] && before[0] != a && RemovedAt(before[1..], a, rest, i)
    ensures RemovedAt(before, a, [before[0]] + rest, i + 1)
  {
    var tail := before[1..];
    assert before[..i + 1] == [before[0]] + tail[..i];
    assert tail[i + 1..] == before[i + 2..];
    assert [before[0]] + (tail[..i] + tail[i + 1..]) == ([before[0]] + tail[..i]) + tail[i + 1..];
  }

  /**
   At its turn a glyph that a decrease explains is published with that decrease: with its amount, or with zero for a
   fold or a check, and the decrease is spent. Without one, a fold or a check is published with zero, an overdue glyph
   without an amount, and any other glyph stays.
   */
  lemma ResolvedExactly(t: Adapter, frame: int, a: Pending)
    requires a in t.pending
    ensures var u, free := ResolveOne(t, frame, a), a.glyph == Fold || a.glyph == Check;
      && (forall d | Explains(t, a, d) ::
            && u == t.(pending := u.pending, usedCash := t.usedCash + {(d.seat, d.first)},
                       actions := t.actions + [Published(a, frame, Some(if free then 0.0 else d.amount), Some(d))])
            && Removed(t.pending, a, u.pending))
      && ((forall d :: !Explains(t, a, d)) && (free || frame - a.frame > t.window) ==>
            && u == t.(pending := u.pending,
                       actions := t.actions + [Published(a, frame, if free then Some(0.0) else None, None)])
            && Removed(t.pending, a, u.pending))
      && ((forall d :: !Explains(t, a, d)) && !free && frame - a.frame <= t.window ==> u == t)
  {
    var u := ResolveOne(t, frame, a);
    var _ := RemovedExactly(t.pending, a);
    if Paired(t, a) {
      var d := DebitFor(t, a).value;
      PairedExactly(t, a, d);
      forall e | Explains(t, a, e) ensures e == d { PairedExactly(t, a, e); }
    } else {
      forall d ensures !Explains(t, a, d) { PairedExactly(t, a, d); }
      assert t.usedCash + {} == t.usedCash;
    }
  }
}
