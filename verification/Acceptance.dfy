/**
 The acceptance gate: it checks the holdout hands, indexes labels and predictions, counts every field of every frame,
 and passes only when nothing at all was reported.
 */
module Acceptance {
  import opened Common

  datatype Field =
    | Actor | StreetWagers | Actions | Pot | Stacks | Street | HandField | Participation | HeroCards | BoardCards
    | Insurance | Mushroom | Bomb

  const FIELDS: seq<Field> :=
    [Actor, StreetWagers, Actions, Pot, Stacks, Street, HandField, Participation, HeroCards, BoardCards,
    Insurance, Mushroom, Bomb]

  datatype StreetWord = IdleWord | PreflopWord | FlopWord | TurnWord | RiverWord | SettlementWord

  datatype Presence = Active | Folded | AllIn | Waiting | Empty | OtherPresence(code: int)

  datatype SeatValue = SeatNotApplicable | SeatAmount(code: int)

  /** A recorded value, as far as the gate looks into it. Lists keep their elements; other values are opaque codes. */
  datatype Value =
    | Plain(code: int, truthy: bool) | NotApplicable | Slot(n: int) | Items(items: seq<int>)
    | StreetIs(word: StreetWord)
    | BySeat(amounts: map<int, SeatValue>) | Presences(seats: map<int, Presence>)

  /** What a condition makes of a value: zero and empty collections count as false. */
  predicate Truthy(v: Value)
  {
    match v
    case Plain(_, truthy) => truthy
    case Slot(n) => n != 0
    case Items(items) => items != []
    case BySeat(amounts) => amounts != map[]
    case Presences(seats) => seats != map[]
    case _ => true
  }

  datatype Status = Known | Unknown | NoStatus

  /** One field of one record; `required` is absent when the flag is not a boolean. */
  datatype Entry = Entry(status: Status, value: Option<Value>, automatic: bool, required: Option<bool>,
    exemptionValid: bool)

  type Fields = map<Field, Entry>

  datatype Row = Row(hand: Option<int>, frame: Option<int>, opportunity: Option<bool>, fields: Fields)

  datatype Hand = Hand(
    id: Option<int>, holdout: bool, complete: bool, labelsReviewed: bool, tuningExposed: bool, first: Option<int>,
      last: Option<int>,
    session: Option<int>, opportunityFrames: seq<int>, opportunitiesReviewed: bool)

  datatype Development = Development(session: Option<int>, first: int, last: int)

  datatype Manifest = Manifest(hands: seq<Hand>, development: seq<Development>, gold: seq<Row>, predicted: seq<Row>,
    elsewhere: bool)

  datatype Key = Key(hand: Option<int>, frame: Option<int>)

  datatype Kind = Labels | Predictions

  datatype Issue =
    | NoHands | DuplicateOrMissingHand | NotHoldout(hand: Option<int>) | IncompleteHand(hand: Option<int>)
    | UnreviewedLabels(hand: Option<int>)
    | TuningExposure(hand: Option<int>) | InvalidInterval(hand: Option<int>) | MissingSession(hand: Option<int>)
    | DevelopmentOverlap(hand: Option<int>) | HoldoutOverlap(hand: Option<int>) | DuplicateRow(kind: Kind)
    | OutsideHand(kind: Kind)
    | IncompleteFrames(kind: Kind) | OpportunitiesInvalid(hand: Option<int>)
    | OpportunitiesUnreviewed(hand: Option<int>)
    | OpportunitiesMismatch(hand: Option<int>) | OpportunityMissing | MomentExcluded | CardCollision(kind: Kind)
    | BoardMismatch(kind: Kind)
    | GoldMissing(field: Field) | PredictionMissing(field: Field) | InvalidRequired(field: Field)
    | InvalidExemption(field: Field)
    | OpportunityExempted(field: Field) | ManualKnown(field: Field) | WrongKnown(field: Field)
    | FieldIncomplete(field: Field) | Elsewhere

  /** What one failed requirement adds to the report. */
  function When(c: bool, x: Issue): set<Issue>
  {
    if c then {x} else {}
  }

  // ---------------------------------------------------------------- hands

  predicate ValidInterval(h: Hand)
  {
    h.first.Some? && h.last.Some? && 0 <= h.first.value <= h.last.value
  }

  predicate Overlaps(h: Hand, session: Option<int>, first: int, last: int)
    requires ValidInterval(h)
  {
    session == h.session && !(h.last.value < first || h.first.value > last)
  }

  type Accepted = m: map<Option<int>, Hand> | forall id | id in m ::
    ValidInterval(m[id]) && m[id].id == id witness map[]

  function AcceptedAfter(hands: seq<Hand>): Accepted
  {
    if hands == [] then map[]
    else
      var h := hands[|hands| - 1];
      var before := AcceptedAfter(hands[..|hands| - 1]);
      if ValidInterval(h) then before[h.id := h] else before
  }

  predicate Crosses(accepted: Accepted, h: Hand)
    requires ValidInterval(h)
  {
    exists id | id in accepted :: Overlaps(h, accepted[id].session, accepted[id].first.value, accepted[id].last.value)
  }

  predicate CrossesDevelopment(development: seq<Development>, h: Hand)
    requires ValidInterval(h)
  {
    exists i | 0 <= i < |development| :: Overlaps(h, development[i].session, development[i].first, development[i].last)
  }

  function SeenIds(hands: seq<Hand>): set<Option<int>>
  {
    if hands == [] then {} else SeenIds(hands[..|hands| - 1]) + {hands[|hands| - 1].id}
  }

  function OneHand(m: Manifest, earlier: seq<Hand>, h: Hand): set<Issue>
  {
    When(h.id.None? || h.id in SeenIds(earlier), DuplicateOrMissingHand)
    + When(!h.holdout, NotHoldout(h.id)) + When(!h.complete, IncompleteHand(h.id))
    + When(!h.labelsReviewed, UnreviewedLabels(h.id))
    + When(h.tuningExposed, TuningExposure(h.id)) + When(!ValidInterval(h), InvalidInterval(h.id))
    + When(h.session.None?, MissingSession(h.id))
    + When(ValidInterval(h) && CrossesDevelopment(m.development, h), DevelopmentOverlap(h.id))
    + When(ValidInterval(h) && Crosses(AcceptedAfter(earlier), h), HoldoutOverlap(h.id))
  }

  function HandIssues(m: Manifest, n: nat): set<Issue>
    requires n <= |m.hands|
  {
    if n == 0 then {} else HandIssues(m, n - 1) + OneHand(m, m.hands[..n - 1], m.hands[n - 1])
  }

  lemma HandStep(m: Manifest, n: nat)
    requires n < |m.hands|
    ensures var h := m.hands[n];
      && HandIssues(m, n + 1) == HandIssues(m, n) + OneHand(m, m.hands[..n], h)
      && SeenIds(m.hands[..n + 1]) == SeenIds(m.hands[..n]) + {h.id}
      && AcceptedAfter(m.hands[..n + 1]) == if ValidInterval(h) then AcceptedAfter(m.hands[..n])[h.id := h]
        else AcceptedAfter(m.hands[..n])
  {
    hide OneHand, ValidInterval;
    assert m.hands[..n + 1][..n] == m.hands[..n];
  }

  method CheckHands(m: Manifest) returns (issues: set<Issue>, accepted: Accepted)
    ensures issues == HandIssues(m, |m.hands|) && accepted == AcceptedAfter(m.hands)
  {
    issues, accepted := {}, map[];
    var ids: set<Option<int>> := {};
    for n := 0 to |m.hands|
      invariant issues == HandIssues(m, n) && accepted == AcceptedAfter(m.hands[..n]) && ids == SeenIds(m.hands[..n])
    {
      hide OneHand, HandIssues, SeenIds, AcceptedAfter;
      HandStep(m, n);
      var h := m.hands[n];
      var found := CheckHand(m, m.hands[..n], ids, accepted, h);
      issues := issues + found;
      ids := ids + {h.id};
      if ValidInterval(h) { accepted := accepted[h.id := h]; }
    }
    assert m.hands[..|m.hands|] == m.hands;
  }

  method CheckHand(m: Manifest, earlier: seq<Hand>, ids: set<Option<int>>, accepted: Accepted, h: Hand)
    returns (issues: set<Issue>)
    requires accepted == AcceptedAfter(earlier) && ids == SeenIds(earlier)
    ensures issues == OneHand(m, earlier, h)
  {
    hide AcceptedAfter, Crosses, CrossesDevelopment, When, SeenIds;
    issues := When(h.id.None? || h.id in ids, DuplicateOrMissingHand);
    issues := issues + When(!h.holdout, NotHoldout(h.id));
    issues := issues + When(!h.complete, IncompleteHand(h.id));
    issues := issues + When(!h.labelsReviewed, UnreviewedLabels(h.id));
    issues := issues + When(h.tuningExposed, TuningExposure(h.id));
    issues := issues + When(!ValidInterval(h), InvalidInterval(h.id));
    issues := issues + When(h.session.None?, MissingSession(h.id));
    var development, holdout := false, false;
    if ValidInterval(h) {
      development := CrossesDevelopment(m.development, h);
      holdout := Crosses(accepted, h);
    }
    issues := issues + When(development, DevelopmentOverlap(h.id)) + When(holdout, HoldoutOverlap(h.id));
  }

  // ---------------------------------------------------------------- indexes

  predicate Inside(accepted: Accepted, k: Key)
  {
    k.hand in accepted && k.frame.Some? && accepted[k.hand].first.value <= k.frame.value <= accepted[k.hand].last.value
  }

  function KeyOf(r: Row): Key
  {
    Key(r.hand, r.frame)
  }

  /** Rows by hand and frame; a later row replaces an earlier one. */
  function Indexed(rows: seq<Row>): map<Key, Row>
  {
    if rows == [] then map[] else Indexed(rows[..|rows| - 1])[KeyOf(rows[|rows| - 1]) := rows[|rows| - 1]]
  }

  /** Two rows share their hand and frame. */
  predicate Twins(rows: seq<Row>)
  {
    exists i, j | 0 <= i < j < |rows| :: KeyOf(rows[i]) == KeyOf(rows[j])
  }

  /** Some row lies in no accepted hand. */
  predicate Strays(rows: seq<Row>, accepted: Accepted)
  {
    exists i | 0 <= i < |rows| :: !Inside(accepted, KeyOf(rows[i]))
  }

  function IndexIssues(rows: seq<Row>, kind: Kind, accepted: Accepted): set<Issue>
  {
    When(Twins(rows), DuplicateRow(kind)) + When(Strays(rows, accepted), OutsideHand(kind))
  }

  /** `k` is the key of a row, and the last such row is the one indexed. */
  ghost predicate LastOf(rows: seq<Row>, k: Key, r: Row)
  {
    exists i | 0 <= i < |rows| :: KeyOf(rows[i]) == k && rows[i] == r && forall j | i < j < |rows| ::
      KeyOf(rows[j]) != k
  }

  lemma LastSnoc(rows: seq<Row>, row: Row, k: Key, r: Row)
    ensures LastOf(rows + [row], k, r) <==> if KeyOf(row) == k then r == row else LastOf(rows, k, r)
  {
    var all := rows + [row];
    if KeyOf(row) == k {
      assert all[|rows|] == row;
    } else {
      if LastOf(rows, k, r) {
        var i :| 0 <= i < |rows| && KeyOf(rows[i]) == k && rows[i] == r && forall j | i < j < |rows| ::
          KeyOf(rows[j]) != k;
        assert all[i] == r;
      }
      if LastOf(all, k, r) {
        var i :| 0 <= i < |all| && KeyOf(all[i]) == k && all[i] == r && forall j | i < j < |all| :: KeyOf(all[j]) != k;
        assert forall j | i < j < |rows| :: all[j] == rows[j];
        assert rows[i] == r;
      }
    }
  }

  /** The index holds, under each key that some row has, the last row with that key, and nothing else. */
  lemma {:induction false} LastRowWins(rows: seq<Row>)
    ensures forall k, r :: k in Indexed(rows) && Indexed(rows)[k] == r <==> LastOf(rows, k, r)
  {
    if rows != [] {
      var front, last := rows[..|rows| - 1], rows[|rows| - 1];
      LastRowWins(front);
      assert rows == front + [last];
      forall k, r { LastSnoc(front, last, k, r); }
    }
  }

  lemma IndexedHas(rows: seq<Row>, i: nat)
    requires i < |rows|
    ensures KeyOf(rows[i]) in Indexed(rows)
    decreases |rows|
  {
    if i < |rows| - 1 { IndexedHas(rows[..|rows| - 1], i); }
  }

  method IndexRows(rows: seq<Row>, kind: Kind, accepted: Accepted) returns (issues: set<Issue>, result: map<Key, Row>)
    ensures DuplicateRow(kind) in issues <==> Twins(rows)
    ensures OutsideHand(kind) in issues <==> Strays(rows, accepted)
    ensures issues <= {DuplicateRow(kind), OutsideHand(kind)} && issues == IndexIssues(rows, kind, accepted)
    ensures result == Indexed(rows) && forall k, r :: k in result && result[k] == r <==> LastOf(rows, k, r)
  {
    hide Inside;
    issues, result := {}, map[];
    for n := 0 to |rows|
      invariant DuplicateRow(kind) in issues <==> Twins(rows[..n])
      invariant OutsideHand(kind) in issues <==> Strays(rows[..n], accepted)
      invariant issues <= {DuplicateRow(kind), OutsideHand(kind)} && result == Indexed(rows[..n])
    {
      var init, k := rows[..n], Key(rows[n].hand, rows[n].frame);
      assert rows[..n + 1] == init + [rows[n]];
      KeyIsNew(init, rows[n]);
      StraySnoc(init, rows[n], accepted);
      if k in result { issues := issues + {DuplicateRow(kind)}; }
      if !Inside(accepted, k) { issues := issues + {OutsideHand(kind)}; }
      assert rows[..n + 1][..n] == init;
      result := result[k := rows[n]];
    }
    assert rows[..|rows|] == rows;
    LastRowWins(rows);
    assert issues == IndexIssues(rows, kind, accepted);
  }

  lemma KeyIsNew(rows: seq<Row>, row: Row)
    ensures Twins(rows + [row]) <==> Twins(rows) || KeyOf(row) in Indexed(rows)
  {
    var all := rows + [row];
    if KeyOf(row) in Indexed(rows) {
      LastRowWins(rows);
      assert LastOf(rows, KeyOf(row), Indexed(rows)[KeyOf(row)]);
      var i :| 0 <= i < |rows| && KeyOf(rows[i]) == KeyOf(row);
      assert KeyOf(all[i]) == KeyOf(all[|rows|]);
    }
    if Twins(rows) {
      var i, j :| 0 <= i < j < |rows| && KeyOf(rows[i]) == KeyOf(rows[j]);
      assert KeyOf(all[i]) == KeyOf(all[j]);
    }
    if Twins(all) {
      var i, j :| 0 <= i < j < |all| && KeyOf(all[i]) == KeyOf(all[j]);
      assert all[i] == rows[i];
      if j < |rows| { assert all[j] == rows[j]; } else { IndexedHas(rows, i); }
    }
  }

  lemma StraySnoc(rows: seq<Row>, row: Row, accepted: Accepted)
    ensures Strays(rows + [row], accepted) <==> Strays(rows, accepted) || !Inside(accepted, KeyOf(row))
  {
    hide Inside;
    var all := rows + [row];
    if Strays(rows, accepted) {
      var i :| 0 <= i < |rows| && !Inside(accepted, KeyOf(rows[i]));
      assert all[i] == rows[i];
    }
    assert all[|rows|] == row;
  }

  /** Every frame of every accepted hand. */
  function Expected(accepted: Accepted): (keys: set<Key>)
    ensures forall k :: k in keys <==> Inside(accepted, k)
  {
    set id, f | id in accepted && accepted[id].first.value <= f <= accepted[id].last.value :: Key(id, Some(f))
  }

  // ---------------------------------------------------------------- one frame

  const MISSING_ENTRY := Entry(NoStatus, None, false, Some(true), false)

  function EntryOf(fields: Fields, f: Field): Entry
  {
    if f in fields then fields[f] else MISSING_ENTRY
  }

  function FieldsOf(rows: map<Key, Row>, k: Key): Fields
  {
    if k in rows then rows[k].fields else map[]
  }

  function OpportunityOf(rows: map<Key, Row>, k: Key): Option<bool>
  {
    if k in rows then rows[k].opportunity else None
  }

  predicate AbsentPresence(p: Presence)
  {
    p == Waiting || p == Empty
  }

  /** A not-applicable value is valid only beside a known state that explains it. */
  predicate ValidNaContext(f: Field, v: Value, fields: Fields)
  {
    var context := EntryOf(fields, Participation);
    if f == HeroCards && v == NotApplicable then
      var street := EntryOf(fields, Street);
      || (street.status == Known && street.value == Some(StreetIs(IdleWord)))
      || (context.status == Known && context.value.Some? && context.value.value.Presences?
        && 4 in context.value.value.seats
          && context.value.value.seats[4] in {Folded, Empty, Waiting})
    else if (f == StreetWagers || f == Stacks) && v.BySeat? then
      forall s | s in v.amounts && v.amounts[s] == SeatNotApplicable ::
        && context.status == Known && context.value.Some? && context.value.value.Presences?
        && s in context.value.value.seats
        && AbsentPresence(context.value.value.seats[s])
    else true
  }

  /** The two record sets, and the format check of single values. */
  datatype Env = Env(truth: map<Key, Row>, prediction: map<Key, Row>, valid: (Field, Value) -> bool)

  function Gold(e: Env, k: Key, f: Field): Entry
  {
    EntryOf(FieldsOf(e.truth, k), f)
  }

  function Output(e: Env, k: Key, f: Field): Entry
  {
    EntryOf(FieldsOf(e.prediction, k), f)
  }

  predicate KnownGold(e: Env, k: Key, f: Field)
  {
    var a := Gold(e, k, f);
    a.status == Known && a.value.Some? && e.valid(f, a.value.value)
      && ValidNaContext(f, a.value.value, FieldsOf(e.truth, k))
  }

  predicate AutomaticKnown(e: Env, k: Key, f: Field)
  {
    var o := Output(e, k, f);
    && o.status == Known && o.value.Some? && e.valid(f, o.value.value)
    && ValidNaContext(f, o.value.value, FieldsOf(e.prediction, k))
    && o.automatic
  }

  predicate Matched(e: Env, k: Key, f: Field)
  {
    KnownGold(e, k, f) && AutomaticKnown(e, k, f) && Gold(e, k, f).value == Output(e, k, f).value
  }

  predicate Exempt(e: Env, k: Key, f: Field)
  {
    Gold(e, k, f).required == Some(false)
  }

  /** An invalid mask cannot remove a required frame: only a frame known to be no opportunity can be exempt. */
  predicate Required(e: Env, k: Key, f: Field)
  {
    !Exempt(e, k, f) || OpportunityOf(e.truth, k) != Some(false)
  }

  function FieldIssues(e: Env, k: Key, f: Field): set<Issue>
  {
    var a, o := Gold(e, k, f), Output(e, k, f);
    When(a.status == NoStatus || a.value.None?, GoldMissing(f))
      + When(o.status == NoStatus || o.value.None?, PredictionMissing(f))
    + When(a.required.None?, InvalidRequired(f)) + When(Exempt(e, k, f) && !a.exemptionValid, InvalidExemption(f))
    + When(Exempt(e, k, f) && OpportunityOf(e.truth, k) != Some(false), OpportunityExempted(f))
    + When(o.status == Known && !AutomaticKnown(e, k, f), ManualKnown(f))
    + When(o.status == Known && !Matched(e, k, f), WrongKnown(f))
  }

  predicate PositiveMoment(fields: Fields)
  {
    var actor, actions := EntryOf(fields, Actor), EntryOf(fields, Actions);
    || (actor.status == Known && actor.value.Some? && actor.value.value.Slot?)
    || (actions.status == Known && actions.value.Some? && Truthy(actions.value.value))
  }

  function BoardSize(w: StreetWord): Option<nat>
  {
    match w
    case FlopWord => Some(3)
    case TurnWord => Some(4)
    case RiverWord => Some(5)
    case SettlementWord => None
    case _ => Some(0)
  }

  predicate Collides(fields: Fields)
  {
    var hero, board := EntryOf(fields, HeroCards).value, EntryOf(fields, BoardCards).value;
    hero.Some? && board.Some? && hero.value.Items? && board.value.Items?
    && exists i | 0 <= i < |hero.value.items| :: hero.value.items[i] in board.value.items
  }

  predicate WrongBoard(fields: Fields)
  {
    var street, board := EntryOf(fields, Street).value, EntryOf(fields, BoardCards).value;
    street.Some? && board.Some? && street.value.StreetIs? && board.value.Items?
    && BoardSize(street.value.word).Some? && |board.value.items| != BoardSize(street.value.word).value
  }

  function FrameIssues(e: Env, k: Key): set<Issue>
  {
    var gold, pred := FieldsOf(e.truth, k), FieldsOf(e.prediction, k);
    When(OpportunityOf(e.truth, k).None?, OpportunityMissing)
    + When(PositiveMoment(gold) && OpportunityOf(e.truth, k) != Some(true), MomentExcluded)
    + When(Collides(gold), CardCollision(Labels)) + When(Collides(pred), CardCollision(Predictions))
    + When(WrongBoard(gold), BoardMismatch(Labels)) + When(WrongBoard(pred), BoardMismatch(Predictions))
  }

  // ---------------------------------------------------------------- counting

  datatype Count = Count(known: nat, automatic: nat, matched: nat, required: nat, requiredMatched: nat, exempt: nat,
    abstained: nat)

  datatype Mark = MarkKnown | MarkAutomatic | MarkMatched | MarkRequired | MarkRequiredMatched | MarkExempt
      | MarkAbstained

  predicate Marked(e: Env, k: Key, f: Field, m: Mark)
  {
    match m
    case MarkKnown => KnownGold(e, k, f)
    case MarkAutomatic => AutomaticKnown(e, k, f)
    case MarkMatched => Matched(e, k, f)
    case MarkRequired => Required(e, k, f)
    case MarkRequiredMatched => Required(e, k, f) && Matched(e, k, f)
    case MarkExempt => !Required(e, k, f)
    case MarkAbstained => !Required(e, k, f) && Output(e, k, f).status == Unknown
  }

  function Having(e: Env, keys: set<Key>, f: Field, m: Mark): set<Key>
  {
    set k | k in keys && Marked(e, k, f, m)
  }

  function Counted(e: Env, keys: set<Key>, f: Field): Count
  {
    Count(|Having(e, keys, f, MarkKnown)|, |Having(e, keys, f, MarkAutomatic)|, |Having(e, keys, f, MarkMatched)|,
          |Having(e, keys, f, MarkRequired)|, |Having(e, keys, f, MarkRequiredMatched)|,
            |Having(e, keys, f, MarkExempt)|,
          |Having(e, keys, f, MarkAbstained)|)
  }

  function One(c: bool): nat
  {
    if c then 1 else 0
  }

  lemma HavingNext(e: Env, keys: set<Key>, k: Key, f: Field, m: Mark)
    requires k !in keys
    ensures |Having(e, keys + {k}, f, m)| == |Having(e, keys, f, m)| + One(Marked(e, k, f, m))
  {
    hide Marked;
    var before, after := Having(e, keys, f, m), Having(e, keys + {k}, f, m);
    assert after == if Marked(e, k, f, m) then before + {k} else before;
  }

  function Bumped(c: Count, e: Env, k: Key, f: Field): Count
  {
    Count(c.known + One(Marked(e, k, f, MarkKnown)), c.automatic + One(Marked(e, k, f, MarkAutomatic)),
          c.matched + One(Marked(e, k, f, MarkMatched)), c.required + One(Marked(e, k, f, MarkRequired)),
          c.requiredMatched + One(Marked(e, k, f, MarkRequiredMatched)), c.exempt + One(Marked(e, k, f, MarkExempt)),
          c.abstained + One(Marked(e, k, f, MarkAbstained)))
  }

  lemma CountedNext(e: Env, keys: set<Key>, k: Key, f: Field)
    requires k !in keys
    ensures Counted(e, keys + {k}, f) == Bumped(Counted(e, keys, f), e, k, f)
  {
    hide Marked, Having;
    HavingNext(e, keys, k, f, MarkKnown);
    HavingNext(e, keys, k, f, MarkAutomatic);
    HavingNext(e, keys, k, f, MarkMatched);
    HavingNext(e, keys, k, f, MarkRequired);
    HavingNext(e, keys, k, f, MarkRequiredMatched);
    HavingNext(e, keys, k, f, MarkExempt);
    HavingNext(e, keys, k, f, MarkAbstained);
  }

  method CellIssues(e: Env, k: Key, f: Field, automatic: bool, same: bool) returns (issues: set<Issue>)
    requires automatic == AutomaticKnown(e, k, f) && same == Matched(e, k, f)
    ensures issues == FieldIssues(e, k, f)
  {
    hide Matched, AutomaticKnown, When, Gold, Output, OpportunityOf;
    var actual, output, opportunity := Gold(e, k, f), Output(e, k, f), OpportunityOf(e.truth, k);
    var exempt := actual.required == Some(false);
    assert exempt == Exempt(e, k, f);
    hide Exempt;
    issues := When(actual.status == NoStatus || actual.value.None?, GoldMissing(f));
    issues := issues + When(output.status == NoStatus || output.value.None?, PredictionMissing(f));
    issues := issues + When(actual.required.None?, InvalidRequired(f));
    issues := issues + When(exempt && !actual.exemptionValid, InvalidExemption(f));
    issues := issues + When(exempt && opportunity != Some(false), OpportunityExempted(f));
    issues := issues + When(output.status == Known && !automatic, ManualKnown(f));
    issues := issues + When(output.status == Known && !same, WrongKnown(f));
  }

  lemma MarksMean(e: Env, k: Key, f: Field)
    ensures Marked(e, k, f, MarkKnown) == KnownGold(e, k, f)
      && Marked(e, k, f, MarkAutomatic) == AutomaticKnown(e, k, f)
    ensures Marked(e, k, f, MarkMatched) == Matched(e, k, f) && Marked(e, k, f, MarkRequired) == Required(e, k, f)
    ensures Marked(e, k, f, MarkRequiredMatched) == (Required(e, k, f) && Matched(e, k, f))
    ensures Marked(e, k, f, MarkExempt) == !Required(e, k, f)
    ensures Marked(e, k, f, MarkAbstained) == (!Required(e, k, f) && Output(e, k, f).status == Unknown)
  {
    hide KnownGold, AutomaticKnown, Matched, Required, Output;
  }

  method CountCell(c: Count, e: Env, k: Key, f: Field) returns (r: Count, issues: set<Issue>)
    ensures r == Bumped(c, e, k, f) && issues == FieldIssues(e, k, f)
  {
    hide KnownGold, AutomaticKnown, FieldIssues, Gold, Output, OpportunityOf, One, Marked;
    MarksMean(e, k, f);
    var known, automatic := KnownGold(e, k, f), AutomaticKnown(e, k, f);
    var actual, output := Gold(e, k, f), Output(e, k, f);
    var required := actual.required != Some(false) || OpportunityOf(e.truth, k) != Some(false);
    var same := known && automatic && actual.value == output.value;
    issues := CellIssues(e, k, f, automatic, same);
    r := Count(c.known + One(known), c.automatic + One(automatic), c.matched + One(same), c.required + One(required),
               c.requiredMatched + One(required && same), c.exempt + One(!required),
               c.abstained + One(!required && output.status == Unknown));
  }

  function FieldIssuesUpTo(e: Env, k: Key, n: nat): set<Issue>
    requires n <= |FIELDS|
  {
    if n == 0 then {} else FieldIssuesUpTo(e, k, n - 1) + FieldIssues(e, k, FIELDS[n - 1])
  }

  function KeyIssues(e: Env, k: Key): set<Issue>
  {
    FrameIssues(e, k) + FieldIssuesUpTo(e, k, |FIELDS|)
  }

  function AllKeyIssues(e: Env, keys: set<Key>): set<Issue>
  {
    set k, x | k in keys && x in KeyIssues(e, k) :: x
  }

  predicate CoverageIs(c: map<Field, Count>, e: Env, keys: set<Key>)
  {
    forall i | 0 <= i < |FIELDS| :: FIELDS[i] in c && c[FIELDS[i]] == Counted(e, keys, FIELDS[i])
  }

  predicate CoveragePart(c: map<Field, Count>, e: Env, keys: set<Key>, k: Key, n: nat)
    requires n <= |FIELDS|
  {
    && (forall i | 0 <= i < n :: FIELDS[i] in c && c[FIELDS[i]] == Counted(e, keys + {k}, FIELDS[i]))
    && (forall i | n <= i < |FIELDS| :: FIELDS[i] in c && c[FIELDS[i]] == Counted(e, keys, FIELDS[i]))
  }

  lemma FieldsDiffer(i: nat, j: nat)
    requires i < |FIELDS| && j < |FIELDS| && i != j
    ensures FIELDS[i] != FIELDS[j]
  {}

  lemma PartNext(c: map<Field, Count>, e: Env, keys: set<Key>, k: Key, n: nat, x: Count)
    requires n < |FIELDS| && CoveragePart(c, e, keys, k, n) && x == Counted(e, keys + {k}, FIELDS[n])
    ensures CoveragePart(c[FIELDS[n] := x], e, keys, k, n + 1)
  {
    hide Counted;
    forall i | 0 <= i < |FIELDS| && i != n ensures FIELDS[i] != FIELDS[n] { FieldsDiffer(i, n); }
  }

  /** One frame: all its requirements, and all its fields counted. */
  method CountFrame(c: map<Field, Count>, e: Env, keys: set<Key>, k: Key)
    returns (r: map<Field, Count>, issues: set<Issue>)
    requires k !in keys && CoverageIs(c, e, keys)
    ensures CoverageIs(r, e, keys + {k}) && issues == KeyIssues(e, k)
  {
    hide FieldIssues, Counted, Bumped, FrameIssues;
    r := c;
    var found: set<Issue> := {};
    for n := 0 to |FIELDS|
      invariant CoveragePart(r, e, keys, k, n) && found == FieldIssuesUpTo(e, k, n)
    {
      var f := FIELDS[n];
      var count, more := CountCell(r[f], e, k, f);
      CountedNext(e, keys, k, f);
      PartNext(r, e, keys, k, n, count);
      found := found + more;
      r := r[f := count];
    }
    issues := FrameIssues(e, k) + found;
  }

  lemma AllKeyIssuesNext(e: Env, keys: set<Key>, k: Key)
    ensures AllKeyIssues(e, keys + {k}) == AllKeyIssues(e, keys) + KeyIssues(e, k)
  {
    hide KeyIssues;
  }

  method CountFrames(e: Env, expected: set<Key>) returns (coverage: map<Field, Count>, issues: set<Issue>)
    ensures CoverageIs(coverage, e, expected) && issues == AllKeyIssues(e, expected)
  {
    hide CoverageIs, KeyIssues, AllKeyIssues, ZeroCoverage;
    coverage, issues := ZeroCoverage(), {};
    NothingCounted(e);
    var todo: set<Key>, done: set<Key> := expected, {};
    while todo != {}
      invariant done + todo == expected && done !! todo
      invariant CoverageIs(coverage, e, done) && issues == AllKeyIssues(e, done)
      decreases todo
    {
      var k :| k in todo;
      var more;
      coverage, more := CountFrame(coverage, e, done, k);
      AllKeyIssuesNext(e, done, k);
      issues := issues + more;
      todo, done := todo - {k}, done + {k};
    }
    assert done == expected;
  }

  function ZeroCoverage(): map<Field, Count>
  {
    map f | f in FIELDS :: Count(0, 0, 0, 0, 0, 0, 0)
  }

  lemma NothingCounted(e: Env)
    ensures CoverageIs(ZeroCoverage(), e, {}) && AllKeyIssues(e, {}) == {}
  {
    forall f ensures Counted(e, {}, f) == Count(0, 0, 0, 0, 0, 0, 0) {
      hide Marked;
      assert forall m :: Having(e, {}, f, m) == {};
    }
  }

  // ---------------------------------------------------------------- opportunities

  predicate Increasing(frames: seq<int>)
  {
    forall i, j | 0 <= i < j < |frames| :: frames[i] < frames[j]
  }

  predicate RegistryValid(h: Hand)
    requires ValidInterval(h)
  {
    h.opportunityFrames != [] && Increasing(h.opportunityFrames)
    && forall i | 0 <= i < |h.opportunityFrames| :: h.first.value <= h.opportunityFrames[i] <= h.last.value
  }

  /** The registered frames are, in order, exactly the labelled opportunities of the hand. */
  predicate RegistryMatches(truth: map<Key, Row>, h: Hand)
  {
    && Increasing(h.opportunityFrames)
    && (forall i | 0 <= i < |h.opportunityFrames| ::
          var k := Key(h.id, Some(h.opportunityFrames[i])); k in truth && truth[k].opportunity == Some(true))
    && (forall k | k in truth && k.hand == h.id && truth[k].opportunity == Some(true) ::
      k.frame.Some? && k.frame.value in h.opportunityFrames)
  }

  function OpportunityIssues(truth: map<Key, Row>, h: Hand): set<Issue>
    requires ValidInterval(h)
  {
    When(!RegistryValid(h), OpportunitiesInvalid(h.id)) + When(!h.opportunitiesReviewed, OpportunitiesUnreviewed(h.id))
    + When(!RegistryMatches(truth, h), OpportunitiesMismatch(h.id))
  }

  function AllOpportunityIssues(truth: map<Key, Row>, accepted: Accepted): set<Issue>
  {
    set id, x | id in accepted && x in OpportunityIssues(truth, accepted[id]) :: x
  }

  // ---------------------------------------------------------------- the verdict

  predicate FieldComplete(c: Count)
  {
    c.required > 0 && c.requiredMatched == c.required
  }

  function IncompleteFields(coverage: map<Field, Count>): set<Issue>
  {
    set f | f in coverage && !FieldComplete(coverage[f]) :: FieldIncomplete(f)
  }

  datatype Verdict = Verdict(pass: bool, issues: set<Issue>, coverage: map<Field, Count>, completeHands: nat)

  function EnvOf(m: Manifest, valid: (Field, Value) -> bool): Env
  {
    Env(Indexed(m.gold), Indexed(m.predicted), valid)
  }

  /** Everything that is reported, phase by phase. */
  function Report(m: Manifest, valid: (Field, Value) -> bool, coverage: map<Field, Count>): set<Issue>
  {
    var accepted, e := AcceptedAfter(m.hands), EnvOf(m, valid);
    var expected := Expected(accepted);
    HandIssues(m, |m.hands|) + When(m.hands == [], NoHands) + When(m.elsewhere, Elsewhere)
    + IndexIssues(m.gold, Labels, accepted) + IndexIssues(m.predicted, Predictions, accepted)
    + When(e.truth.Keys != expected || expected == {}, IncompleteFrames(Labels))
    + When(e.prediction.Keys != expected || expected == {}, IncompleteFrames(Predictions))
    + AllOpportunityIssues(e.truth, accepted) + AllKeyIssues(e, expected) + IncompleteFields(coverage)
  }

  method Evaluate(m: Manifest, valid: (Field, Value) -> bool) returns (v: Verdict)
    ensures CoverageIs(v.coverage, EnvOf(m, valid), Expected(AcceptedAfter(m.hands)))
    ensures v.issues == Report(m, valid, v.coverage) && v.pass == (v.issues == {})
    ensures v.completeHands == |AcceptedAfter(m.hands)|
  {
    hide HandIssues, AcceptedAfter, IndexIssues, Indexed, LastOf, Twins, Strays, AllOpportunityIssues, AllKeyIssues,
      IncompleteFields, CoverageIs, Expected;
    hide When, Inside;
    var found, accepted := CheckHands(m);
    var issues := found + When(m.hands == [], NoHands) + When(m.elsewhere, Elsewhere);
    var more, truth := IndexRows(m.gold, Labels, accepted);
    var more', prediction := IndexRows(m.predicted, Predictions, accepted);
    issues := issues + more + more';
    var expected := Expected(accepted);
    issues := issues + When(truth.Keys != expected || expected == {}, IncompleteFrames(Labels));
    issues := issues + When(prediction.Keys != expected || expected == {}, IncompleteFrames(Predictions));
    issues := issues + AllOpportunityIssues(truth, accepted);
    var coverage, counted := CountFrames(Env(truth, prediction, valid), expected);
    issues := issues + counted + IncompleteFields(coverage);
    v := Verdict(issues == {}, issues, coverage, |accepted|);
  }
}
