/**
 The four rows of a short call, row by row and seat by seat, and the reviewed inference in the same terms.
 */
module ShortCallRules {
  import opened Common
  import opened StateAdapter
  import opened StreetBaseline
  import opened ShortCall

  /** Amounts that were read. */
  predicate Read(r: Reading)
  {
    r.Shown? && r.value >= 0.0
  }

  /** All eight stacks and the pot are read. */
  predicate Counted(e: Evidence)
  {
    && (forall s | 0 <= s < 8 :: s in e.stacks) && (forall s | s in e.stacks :: 0 <= s < 8)
      && (forall s | s in e.stacks :: Read(e.stacks[s])) && Read(e.pot)
  }

  /** Four frames in a row of one board. */
  predicate InARow(rows: seq<Evidence>)
  {
    && |rows| == 4 && rows[0].boardCount.Some?
    && (rows[0].boardCount.value == 0 || 3 <= rows[0].boardCount.value <= 5)
    && forall i | 0 <= i < 4 :: rows[i].frame == rows[0].frame + i && rows[i].boardCount == rows[0].boardCount
  }

  /** The timer shows the actor in the first two rows, with the same wagers; nobody acts in the last two. */
  predicate Acts(rows: seq<Evidence>, actor: int)
  {
    && |rows| == 4 && 0 <= actor < 8 && rows[0].actor == Some(actor) && rows[1].actor == Some(actor)
    && rows[0].timerVerified && rows[1].timerVerified && rows[2].actor == None && rows[3].actor == None
    && rows[0].wagers == rows[1].wagers
  }

  /** The actor's whole stack, and nothing else, goes into the pot between the second and the third row. */
  predicate Pays(rows: seq<Evidence>, actor: int, debit: real)
  {
    && |rows| == 4 && (forall i | 0 <= i < 4 :: Counted(rows[i])) && 0 <= actor < 8 && debit > 0.0
    && (forall s | 0 <= s < 8 && s != actor ::
          rows[0].stacks[s] == rows[1].stacks[s] == rows[2].stacks[s] == rows[3].stacks[s])
    && rows[0].stacks[actor] == rows[1].stacks[actor] == Shown(debit)
    && rows[2].stacks[actor] == rows[3].stacks[actor] == Shown(0.0)
    && rows[0].pot == rows[1].pot && rows[2].pot == rows[3].pot && rows[2].pot == Shown(rows[1].pot.value + debit)
  }

  /** The largest wager of another seat is `bound`, and it is out of the actor's reach. */
  predicate Short(wagers: map<int, Reading>, actor: int, debit: real, bound: real)
  {
    && actor in wagers && Read(wagers[actor]) && bound > wagers[actor].value + debit
    && (forall s | s in wagers && s != actor && wagers[s] != Missing :: Read(wagers[s]) && wagers[s].value <= bound)
    && exists s :: s in wagers && s != actor && wagers[s] == Shown(bound) && bound >= 0.0
  }

  lemma AllSeats(stacks: map<int, Reading>)
    requires (forall s | 0 <= s < 8 :: s in stacks) && forall s | s in stacks :: 0 <= s < 8
    ensures stacks.Keys == {0, 1, 2, 3, 4, 5, 6, 7}
  {
    forall s ensures s in stacks.Keys <==> s in {0, 1, 2, 3, 4, 5, 6, 7} {}
  }

  lemma SameStacks(a: Evidence, b: Evidence)
    requires Counted(a) && Counted(b) && forall s | 0 <= s < 8 :: a.stacks[s] == b.stacks[s]
    ensures a.stacks == b.stacks
  {
    AllSeats(a.stacks);
    AllSeats(b.stacks);
    forall s | s in a.stacks.Keys ensures a.stacks[s] == b.stacks[s] { assert 0 <= s < 8; }
  }

  lemma MoneyExactly(a: Evidence, b: Evidence, c: Evidence, d: Evidence)
    ensures Money4(a, b, c, d) <==>
      && Counted(a) && Counted(b) && Counted(c) && Counted(d)
      && a.stacks == b.stacks && c.stacks == d.stacks && a.pot == b.pot && c.pot == d.pot
  {
    forall e: Evidence ensures Counted(e) <==> Readable(e.stacks) && FullTable(e.stacks) && Value(e.pot).Some? {
      if Counted(e) { AllSeats(e.stacks); }
    }
  }

  lemma PaysExactly(rows: seq<Evidence>, actor: int, debit: real)
    requires |rows| == 4 && 0 <= actor < 8
    ensures Pays(rows, actor, debit) <==>
      Money4(rows[0], rows[1], rows[2], rows[3]) &&
      var b, c := rows[1], rows[2];
      && Changed(b.stacks, c.stacks) == {actor} && c.stacks[actor].value == 0.0 && b.stacks[actor].value > 0.0
      && debit == b.stacks[actor].value && c.pot.value - b.pot.value == debit
  {
    var a, b, c, d := rows[0], rows[1], rows[2], rows[3];
    MoneyExactly(a, b, c, d);
    hide Money4;
    if Pays(rows, actor, debit) {
      assert Counted(rows[0]) && Counted(rows[1]) && Counted(rows[2]) && Counted(rows[3]);
      SameStacks(a, b);
      SameStacks(c, d);
      forall s ensures s in Changed(b.stacks, c.stacks) <==> s == actor {}
      assert Changed(b.stacks, c.stacks) == {actor};
    }
    if Money4(a, b, c, d) && Changed(b.stacks, c.stacks) == {actor} {
      forall s | 0 <= s < 8 && s != actor ensures b.stacks[s] == c.stacks[s] {
        assert s !in Changed(b.stacks, c.stacks);
      }
    }
  }

  lemma ShortExactly(wagers: map<int, Reading>, actor: int, debit: real, bound: real)
    ensures Short(wagers, actor, debit, bound) <==>
      && actor in wagers && Value(wagers[actor]).Some?
      && LargestOther(wagers, actor, bound) && bound > wagers[actor].value + debit
  {
    if Short(wagers, actor, debit, bound) {
      var s :| s in wagers && s != actor && wagers[s] == Shown(bound) && bound >= 0.0;
      assert s in Others(wagers, actor);
    }
    if LargestOther(wagers, actor, bound) {
      var s :| s in Others(wagers, actor) && Value(wagers[s]) == Some(bound);
      assert wagers[s] == Shown(bound);
      forall s | s in wagers && s != actor && wagers[s] != Missing ensures Read(wagers[s]) && wagers[s].value <= bound {
        assert s in Others(wagers, actor);
      }
    }
  }

  /** Four rows show a short call exactly when they show all of this. */
  lemma ShownExactly(rows: seq<Evidence>, debit: real, bound: real)
    requires |rows| == 4
    ensures ShowsShortCall(rows[0], rows[1], rows[2], rows[3], debit, bound) <==>
      && InARow(rows) && rows[0].actor.Some? && Acts(rows, rows[0].actor.value)
      && Pays(rows, rows[0].actor.value, debit) && Short(rows[1].wagers, rows[0].actor.value, debit, bound)
  {
    var a, b, c, d := rows[0], rows[1], rows[2], rows[3];
    assert InARow(rows) ==> rows[1].frame == rows[0].frame + 1 && rows[2].frame == rows[0].frame + 2;
    assert rows[0].actor.Some? ==>
      (SameSpot(a, b, c, d) <==> InARow(rows) && Acts(rows, rows[0].actor.value)) by {
      assert InARow(rows) ==> rows[3].frame == rows[0].frame + 3 && rows[3].boardCount == rows[0].boardCount;
    }
    if rows[0].actor.Some? && 0 <= rows[0].actor.value < 8 {
      PaysExactly(rows, rows[0].actor.value, debit);
      ShortExactly(rows[1].wagers, rows[0].actor.value, debit, bound);
    }
    hide InARow, Pays, Short, Money4, LargestOther;
  }

  /**
   The reviewed inference finds a call exactly when the actor's stack is the only one that changed and the amount paid,
   seen in the pot as well, is what is owed or all that was left; it is all-in when nothing is left.
   */
  lemma InferredExactly(before: Evidence, after: Evidence, c: Reviewed, call: ReviewedCall)
    ensures InferCall(before, after, c) == Some(call) <==>
      && c.singleActionInterval && before.stacks.Keys == after.stacks.Keys && c.actor in before.stacks
      && (forall s | s in before.stacks && s in after.stacks ::
            Read(before.stacks[s]) && Read(after.stacks[s])
            && (s == c.actor || before.stacks[s] == after.stacks[s]))
      && Read(c.streetPrice) && Read(c.actorWager) && Read(before.pot) && Read(after.pot)
      && var had, left, owed := before.stacks[c.actor].value, after.stacks[c.actor].value,
                                c.streetPrice.value - c.actorWager.value;
         && owed > 0.0 && call.debit > 0.0 && had == left + call.debit
         && (if had <= owed then left == 0.0 else call.debit == owed)
         && after.pot == Shown(before.pot.value + call.debit) && (call.allIn <==> left == 0.0)
  {
    if Readable(before.stacks) && Readable(after.stacks) && before.stacks.Keys == after.stacks.Keys
       && c.actor in before.stacks {
      assert Changed(before.stacks, after.stacks) == {c.actor} <==>
        (before.stacks[c.actor] != after.stacks[c.actor]
         && forall s | s in before.stacks && s in after.stacks :: s == c.actor || before.stacks[s] == after.stacks[s])
        by { ChangedExactly(before.stacks, after.stacks, c.actor); }
      hide Changed;
    }
  }

  lemma ChangedExactly(before: map<int, Reading>, after: map<int, Reading>, actor: int)
    requires Readable(before) && Readable(after) && before.Keys == after.Keys && actor in before
    ensures Changed(before, after) == {actor} <==>
      (before[actor] != after[actor]
       && forall s | s in before && s in after :: s == actor || before[s] == after[s])
  {
    var changed := Changed(before, after);
    forall s | s in before ensures s in changed <==> before[s] != after[s] {}
    if changed == {actor} {
      assert actor in changed;
      forall s | s in before && s in after ensures s == actor || before[s] == after[s] {
        assert s in changed <==> s == actor;
      }
    }
    if before[actor] != after[actor] && forall s | s in before && s in after :: s == actor || before[s] == after[s] {
      assert changed == {actor};
    }
  }
}
