/**
 The four-frame short call and the reviewed call inference it refines: whatever the exact street price, as long as
 it is at least the largest wager seen, both describe the same all-in call.
 */
module ShortCall {
  import opened Common
  import opened StateAdapter
  import opened StreetBaseline

  /** One row of the continuous evidence. */
  datatype Evidence = Evidence(
    frame: int, boardCount: Option<int>, actor: Option<int>, timerVerified: bool, stacks: map<int, Reading>,
      pot: Reading,
    wagers: map<int, Reading>)

  datatype Candidate = Candidate(actor: int, debit: real, priceLowerBound: real, frames: seq<int>)

  predicate Readable(stacks: map<int, Reading>)
  {
    forall s | s in stacks :: Value(stacks[s]).Some?
  }

  predicate FullTable(stacks: map<int, Reading>)
  {
    stacks.Keys == {0, 1, 2, 3, 4, 5, 6, 7}
  }

  /** The seats whose stacks differ between two readable rows. */
  function Changed(before: map<int, Reading>, after: map<int, Reading>): set<int>
    requires Readable(before) && Readable(after) && after.Keys == before.Keys
  {
    set s | s in before && before[s].value != after[s].value
  }

  /**
   Consecutive frames, one readable board, an actor whose timer shows in the first two rows and who is gone in the last
   two.
   */
  predicate SameSpot(a: Evidence, b: Evidence, c: Evidence, d: Evidence)
  {
    && b.frame == a.frame + 1 && c.frame == a.frame + 2 && d.frame == a.frame + 3
    && a.boardCount.Some? && a.boardCount.value in {0, 3, 4, 5}
    && b.boardCount == a.boardCount && c.boardCount == a.boardCount && d.boardCount == a.boardCount
    && a.actor.Some? && 0 <= a.actor.value < SEATS && b.actor == a.actor && a.timerVerified && b.timerVerified
    && c.actor.None? && d.actor.None? && a.wagers == b.wagers
  }

  predicate Money4(a: Evidence, b: Evidence, c: Evidence, d: Evidence)
  {
    && Readable(a.stacks) && Readable(b.stacks) && Readable(c.stacks) && Readable(d.stacks)
    && FullTable(a.stacks) && FullTable(b.stacks) && FullTable(c.stacks) && FullTable(d.stacks)
    && Value(a.pot).Some? && Value(b.pot).Some? && Value(c.pot).Some? && Value(d.pot).Some?
    && a.stacks == b.stacks && c.stacks == d.stacks && a.pot == b.pot && c.pot == d.pot
  }

  /** The other seats' wagers that show a text. */
  function Others(wagers: map<int, Reading>, actor: int): set<int>
  {
    set s | s in wagers && s != actor && wagers[s] != Missing
  }

  predicate LargestOther(wagers: map<int, Reading>, actor: int, m: real)
  {
    && (exists s | s in Others(wagers, actor) :: Value(wagers[s]) == Some(m))
    && (forall s | s in Others(wagers, actor) :: Value(wagers[s]).Some? && wagers[s].value <= m)
  }

  /** What the four rows have to show for a short call of `debit` below a wager of `bound`. */
  predicate ShowsShortCall(a: Evidence, b: Evidence, c: Evidence, d: Evidence, debit: real, bound: real)
  {
    SameSpot(a, b, c, d) && Money4(a, b, c, d) &&
    var actor := a.actor.value;
    && Changed(b.stacks, c.stacks) == {actor} && c.stacks[actor].value == 0.0 && b.stacks[actor].value > 0.0
    && debit == b.stacks[actor].value && c.pot.value - b.pot.value == debit
    && actor in b.wagers && Value(b.wagers[actor]).Some?
    && LargestOther(b.wagers, actor, bound) && bound > b.wagers[actor].value + debit
  }

  /** The maximum of a nonempty set of readable wagers. */
  method MaxOf(wagers: map<int, Reading>, seats: set<int>) returns (m: Option<real>)
    requires seats <= wagers.Keys && forall s | s in seats :: Value(wagers[s]).Some?
    ensures m.None? ==> forall s :: s !in seats
    ensures m.Some? ==> exists s | s in seats :: Value(wagers[s]) == Some(m.value)
    ensures m.Some? ==> forall s | s in seats :: wagers[s].Shown? && wagers[s].value <= m.value
  {
    m := None;
    ghost var done: set<int> := {};
    var todo := seats;
    while true
      invariant done + todo == seats
      invariant m.None? ==> forall s :: s !in done
      invariant m.Some? ==> exists s | s in done :: Value(wagers[s]) == Some(m.value)
      invariant m.Some? ==> forall s | s in done :: wagers[s].Shown? && wagers[s].value <= m.value
      decreases todo
    {
      if s: int :| s in todo {
        if m.None? || wagers[s].value > m.value { m := Some(wagers[s].value); }
        todo := todo - {s};
        done := done + {s};
      } else {
        break;
      }
    }
  }

  method ShortAllInCandidate(rows: seq<Evidence>) returns (r: Option<Candidate>)
    ensures r.Some? ==>
      |rows| == 4 && ShowsShortCall(rows[0], rows[1], rows[2], rows[3], r.value.debit, r.value.priceLowerBound)
                        && r.value.actor == rows[0].actor.value
                        && r.value.frames == [rows[0].frame, rows[1].frame, rows[2].frame, rows[3].frame]
    ensures r.None? && |rows| == 4 ==> forall debit, bound ::
      !ShowsShortCall(rows[0], rows[1], rows[2], rows[3], debit, bound)
  {
    if |rows| != 4 { return None; }
    var a, b, c, d := rows[0], rows[1], rows[2], rows[3];
    if !SameSpot(a, b, c, d) || !Money4(a, b, c, d) { return None; }
    var actor := a.actor.value;
    if Changed(b.stacks, c.stacks) != {actor} || c.stacks[actor].value != 0.0
      || b.stacks[actor].value <= 0.0 { return None; }
    var debit := b.stacks[actor].value;
    if c.pot.value - b.pot.value != debit { return None; }
    if actor !in b.wagers || Value(b.wagers[actor]).None? { return None; }
    var others := Others(b.wagers, actor);
    if exists s | s in others :: Value(b.wagers[s]).None? { return None; }
    var bound := MaxOf(b.wagers, others);
    if bound.None? || bound.value <= b.wagers[actor].value + debit {
      forall debit', bound' ensures !ShowsShortCall(a, b, c, d, debit', bound') {
        if bound.Some? && LargestOther(b.wagers, actor, bound') { OneLargest(b.wagers, actor, bound.value, bound'); }
      }
      return None;
    }
    r := Some(Candidate(actor, debit, bound.value, [a.frame, b.frame, c.frame, d.frame]));
  }

  lemma OneLargest(wagers: map<int, Reading>, actor: int, m: real, m': real)
    requires exists s | s in Others(wagers, actor) :: wagers[s].Shown? && wagers[s].value == m
    requires forall s | s in Others(wagers, actor) :: wagers[s].Shown? && wagers[s].value <= m
    requires LargestOther(wagers, actor, m')
    ensures m == m'
  {}

  // ---------------------------------------------------------------- the reviewed inference

  datatype Reviewed = Reviewed(singleActionInterval: bool, actor: int, streetPrice: Reading, actorWager: Reading)

  datatype ReviewedCall = ReviewedCall(allIn: bool, debit: real)

  function Min(a: real, b: real): real
  {
    if a <= b then a else b
  }

  function InferCall(before: Evidence, after: Evidence, c: Reviewed): Option<ReviewedCall>
  {
    if !c.singleActionInterval || !Readable(before.stacks) || !Readable(after.stacks)
       || before.stacks.Keys != after.stacks.Keys || c.actor !in before.stacks
       || Changed(before.stacks, after.stacks) != {c.actor} || Value(c.streetPrice).None? || Value(c.actorWager).None?
    then None
    else
      var debit := before.stacks[c.actor].value - after.stacks[c.actor].value;
      var owed := c.streetPrice.value - c.actorWager.value;
      if debit <= 0.0 || owed <= 0.0 || debit != Min(before.stacks[c.actor].value, owed)
         || Value(before.pot).None? || Value(after.pot).None? || after.pot.value - before.pot.value != debit
      then None
      else Some(ReviewedCall(after.stacks[c.actor].value == 0.0, debit))
  }

  /**
   Where four rows show a short call, the reviewed inference on the two middle rows gives the same all-in call and
   debit for exactly the street prices that reach the caller's wager plus stack, and so for all from the bound up.
   */
  lemma ShortCallRefinesReviewed(
      a: Evidence, b: Evidence, c: Evidence, d: Evidence, debit: real, bound: real, price: real)
    requires ShowsShortCall(a, b, c, d, debit, bound) && price >= 0.0
    ensures var own := b.wagers[a.actor.value];
      var inferred := InferCall(b, c, Reviewed(true, a.actor.value, Shown(price), own));
      && (inferred == Some(ReviewedCall(true, debit)) <==> price >= own.value + debit)
      && (inferred.None? <==> price < own.value + debit)
      && (price >= bound ==> inferred == Some(ReviewedCall(true, debit)))
  {
    var actor := a.actor.value;
    assert b.stacks.Keys == c.stacks.Keys;
    assert b.stacks[actor].value - c.stacks[actor].value == debit;
  }

  // ---------------------------------------------------------------- the window

  class ContinuousEvidence {
    var history: seq<Evidence>

    constructor ()
      ensures history == []
    {
      history := [];
    }

    method Observe(row: Evidence) returns (r: Option<Candidate>)
      modifies this
      ensures history == LastFour(old(history) + [row])
      ensures r.Some? <==> |history| == 4 && exists debit, bound ::
        ShowsShortCall(history[0], history[1], history[2], history[3], debit, bound)
      ensures r.Some? ==>
        ShowsShortCall(history[0], history[1], history[2], history[3], r.value.debit, r.value.priceLowerBound)
    {
      history := history + [row];
      if |history| > 4 { history := history[|history| - 4..]; }
      r := ShortAllInCandidate(history);
    }
  }

  function LastFour(rows: seq<Evidence>): seq<Evidence>
  {
    if |rows| > 4 then rows[|rows| - 4..] else rows
  }

  function Window(rows: seq<Evidence>): seq<Evidence>
  {
    if rows == [] then [] else LastFour(Window(rows[..|rows| - 1]) + [rows[|rows| - 1]])
  }

  /** However many rows were observed, the window holds the last four. */
  lemma {:induction false} WindowIsLastFour(rows: seq<Evidence>)
    ensures Window(rows) == LastFour(rows)
  {
    if rows != [] {
      var init := rows[..|rows| - 1];
      WindowIsLastFour(init);
      assert rows == init + [rows[|rows| - 1]];
    }
  }
}
