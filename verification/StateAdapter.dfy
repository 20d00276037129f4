/**
 The causal state adapter: frame by frame it opens hand epochs, follows the street, and pairs each completed
 action glyph with the one balance decrease and the one pot increase that explain it.
 */
module StateAdapter {
  import opened Common

  const SEATS := 8

  /** A displayed amount, when it could be read. */
  type Money = Option<real>

  type Stacks = s: seq<Money> | |s| == SEATS witness [None, None, None, None, None, None, None, None]

  datatype Cue = DealtInCue | FoldedCue | WaitingCue | EmptyCue | UnknownCue

  type Cues = s: seq<Cue> | |s| == SEATS
    witness [UnknownCue, UnknownCue, UnknownCue, UnknownCue, UnknownCue, UnknownCue, UnknownCue, UnknownCue]

  datatype Street = Preflop | Flop | Turn | River

  datatype Kind = Fold | Check | Call | Aggressive | AllIn | OtherKind(code: int)

  /** One confirmed balance decrease reported by the visual timeline. */
  datatype Cash = Cash(seat: int, first: int, confirmed: int, street: Option<Street>, amount: real)

  datatype PotChange = PotChange(first: int, confirmed: int, amount: real)

  datatype Glyph = Glyph(frame: int, slot: int, glyph: Kind)

  datatype ShortCall = ShortCall(actor: int, frame: int, debit: real)

  /** The evidence behind one board position. */
  datatype BoardSlot = BoardSlot(rectPresent: bool, rectShaped: bool, faceAccepted: bool)

  type Board = s: seq<BoardSlot> | |s| == 5
    witness [BoardSlot(false, false, false), BoardSlot(false, false, false), BoardSlot(false, false, false),
             BoardSlot(false, false, false), BoardSlot(false, false, false)]

  datatype Row = Row(
    frame: int, sceneSupported: bool, modal: bool, dealVisible: bool, boardCount: Option<int>, boardSlots: Board,
    pot: Money, stacks: Stacks, cues: Cues, drops: seq<Cash>, glyphs: seq<Glyph>, shortCall: Option<ShortCall>)

  datatype Posting = Posting(debits: map<int, real>, credits: map<int, real>, excluded: set<int>)

  datatype EpochStatus = MultiPostDeal | UnanchoredDeal

  /** An epoch is named by the first frame of its deal. */
  datatype EpochEvent = EpochEvent(epoch: int, frame: int, status: EpochStatus, posting: Option<Posting>)

  datatype PendingHand = PendingHand(first: int, stacks: Stacks, comparison: Posting)

  datatype GeometryRun = GeometryRun(count: int, firstFrame: int, lastFrame: int, streak: int)

  datatype Pending = Pending(frame: int, slot: int, glyph: Kind, epoch: Option<int>, street: Option<Street>)

  /** A resolved glyph, or a short call that showed no glyph. */
  datatype Action = Action(
    frame: int, slot: int, kind: Kind, glyph: Option<Kind>, epoch: Option<int>, street: Option<Street>,
    confirmedAt: int, amount: Money, debit: Option<Cash>)

  datatype Adapter = Adapter(
    window: int, last: Option<int>, history: seq<Row>, epoch: Option<int>, epochEvents: seq<EpochEvent>,
    dealStreak: int, pendingHand: Option<PendingHand>, street: Option<Street>, boardSupported: bool,
    geometryRun: Option<GeometryRun>, pending: seq<Pending>, actions: seq<Action>, cash: seq<Cash>,
    potChanges: seq<PotChange>, usedCash: set<(int, int)>)

  // ---------------------------------------------------------------- reading one row

  function Amount(m: Money): Money
  {
    if m.Some? && m.value >= 0.0 then m else None
  }

  function Distance(a: int, b: int): int
  {
    if a < b then b - a else a - b
  }

  function CountOf(s: Option<Street>): int
  {
    match s
    case None => 0
    case Some(Preflop) => 0
    case Some(Flop) => 3
    case Some(Turn) => 4
    case Some(River) => 5
  }

  function StreetOf(count: int): Street
  {
    if count == 3 then Flop else if count == 4 then Turn else River
  }

  function PositiveBoardGeometry(row: Row): Option<int>
  {
    if row.boardCount.None? || !(3 <= row.boardCount.value <= 5) then None
    else if forall i | 0 <= i < 5 ::
              if i < row.boardCount.value
              then row.boardSlots[i].rectPresent && row.boardSlots[i].rectShaped && row.boardSlots[i].faceAccepted
              else !row.boardSlots[i].rectPresent
    then row.boardCount else None
  }

  predicate Absent(c: Cue)
  {
    c == EmptyCue || c == WaitingCue
  }

  /** A seat whose stack is unreadable in a row without being visibly empty or waiting spoils the comparison. */
  predicate Incomparable(before: Row, after: Row, s: int)
    requires 0 <= s < SEATS
  {
    || (Amount(before.stacks[s]).None? && !Absent(before.cues[s]))
    || (Amount(after.stacks[s]).None? && !Absent(after.cues[s]))
  }

  predicate Comparable(before: Row, after: Row, s: int)
    requires 0 <= s < SEATS
  {
    Amount(before.stacks[s]).Some? && Amount(after.stacks[s]).Some?
  }

  ghost predicate Debits(before: Row, after: Row, posting: Posting, seats: int)
    requires 0 <= seats <= SEATS
  {
    && (forall s :: s in posting.debits <==>
      0 <= s < seats && Comparable(before, after, s)
      && before.stacks[s].value > after.stacks[s].value)
    && (forall s | s in posting.debits :: posting.debits[s] == before.stacks[s].value - after.stacks[s].value)
    && (forall s :: s in posting.credits <==>
      0 <= s < seats && Comparable(before, after, s)
      && before.stacks[s].value < after.stacks[s].value)
    && (forall s | s in posting.credits :: posting.credits[s] == after.stacks[s].value - before.stacks[s].value)
    && (forall s :: s in posting.excluded <==> 0 <= s < seats && !Comparable(before, after, s))
  }

  function FullPosting(before: Row, after: Row): (p: Posting)
    ensures Debits(before, after, p, SEATS)
  {
    Posting(
      map s | 0 <= s < SEATS && Comparable(before, after, s) && before.stacks[s].value > after.stacks[s].value ::
        before.stacks[s].value - after.stacks[s].value,
      map s | 0 <= s < SEATS && Comparable(before, after, s) && before.stacks[s].value < after.stacks[s].value ::
        after.stacks[s].value - before.stacks[s].value,
      set s | 0 <= s < SEATS && !Comparable(before, after, s))
  }

  function PostingComparison(before: Row, after: Row): Option<Posting>
  {
    var p := FullPosting(before, after);
    if (exists s | 0 <= s < SEATS :: Incomparable(before, after, s)) || |p.debits| < 3 then None else Some(p)
  }

  lemma OnePosting(before: Row, after: Row, p: Posting, q: Posting)
    requires Debits(before, after, p, SEATS) && Debits(before, after, q, SEATS)
    ensures p == q
  {
    forall s ensures (s in p.debits <==> s in q.debits) && (s in p.credits <==> s in q.credits)
      && (s in p.excluded <==> s in q.excluded) {}
    assert p.debits.Keys == q.debits.Keys && p.credits.Keys == q.credits.Keys;
    forall s | s in p.debits ensures p.debits[s] == q.debits[s] {}
    forall s | s in p.credits ensures p.credits[s] == q.credits[s] {}
    assert p.debits == q.debits && p.credits == q.credits && p.excluded == q.excluded;
  }

  lemma DebitsNext(before: Row, after: Row, p: Posting, s: int)
    requires 0 <= s < SEATS && Debits(before, after, p, s)
    ensures var a, b := before.stacks[s], after.stacks[s];
      Debits(before, after,
             if !Comparable(before, after, s) then p.(excluded := p.excluded + {s})
             else if a.value > b.value then p.(debits := p.debits[s := a.value - b.value])
             else if b.value > a.value then p.(credits := p.credits[s := b.value - a.value]) else p, s + 1)
  {
    hide Comparable;
  }

  /** Compares two readable rows seat by seat; fewer than three debits are no posting. */
  method ComparePosting(before: Row, after: Row) returns (r: Option<Posting>)
    ensures r == PostingComparison(before, after)
  {
    var p := Posting(map[], map[], {});
    for s := 0 to SEATS
      invariant Debits(before, after, p, s)
      invariant forall q | 0 <= q < s :: !Incomparable(before, after, q)
    {
      hide Debits;
      var a, b := Amount(before.stacks[s]), Amount(after.stacks[s]);
      DebitsNext(before, after, p, s);
      if a.None? || b.None? {
        if (a.None? && !Absent(before.cues[s])) || (b.None? && !Absent(after.cues[s])) {
          assert Incomparable(before, after, s);
          return None;
        }
        p := p.(excluded := p.excluded + {s});
      } else if a.value > b.value {
        p := p.(debits := p.debits[s := a.value - b.value]);
      } else if b.value > a.value {
        p := p.(credits := p.credits[s := b.value - a.value]);
      }
    }
    OnePosting(before, after, p, FullPosting(before, after));
    r := if |p.debits| < 3 then None else Some(p);
  }

  // ---------------------------------------------------------------- the phases of one observation

  function Initial(window: int): Adapter
  {
    Adapter(window, None, [], None, [], 0, None, None, false, None, [], [], [], [], {})
  }

  predicate Interrupts(s: Adapter, row: Row)
  {
    (s.last.Some? && row.frame != s.last.value + 1) || !row.sceneSupported || row.modal
  }

  predicate Blocked(row: Row)
  {
    !row.sceneSupported || row.modal
  }

  /** A gap, an unsupported scene or an overlay drops everything but the published actions and epochs. */
  function Interrupted(s: Adapter): Adapter
  {
    Adapter(s.window, s.last, [], None, s.epochEvents, 0, None, None, false, None, [], s.actions, [], [], {})
  }

  function NewEpoch(s: Adapter, frame: int, first: int, status: EpochStatus, posting: Option<Posting>): Adapter
  {
    s.(epoch := Some(first), epochEvents := s.epochEvents + [EpochEvent(first, frame, status, posting)],
       street := Some(Preflop), geometryRun := None, pending := [], cash := [], potChanges := [], usedCash := {})
  }

  predicate DealSpot(row: Row)
  {
    row.dealVisible && row.boardCount == Some(0)
  }

  predicate ZeroPotDeal(row: Row)
  {
    DealSpot(row) && Amount(row.pot) == Some(0.0)
  }

  function ConfirmHand(s: Adapter, row: Row): Adapter
  {
    if s.pendingHand.None? then s
    else
      var p := s.pendingHand.value;
      var begun := if ZeroPotDeal(row) && row.stacks == p.stacks
                    then NewEpoch(s, row.frame, p.first, MultiPostDeal, Some(p.comparison)) else s;
      begun.(pendingHand := None)
  }

  function ProposeHand(s: Adapter, row: Row): Adapter
  {
    var n := |s.history|;
    if n < 2 || !ZeroPotDeal(row) then s
    else
      var a, b := s.history[n - 2], s.history[n - 1];
      if a.stacks != b.stacks || a.boardCount != Some(0) || b.boardCount != Some(0) then s
      else match PostingComparison(b, row)
        case None => s
        case Some(c) => s.(pendingHand := Some(PendingHand(row.frame, row.stacks, c)))
  }

  function FollowDeal(s: Adapter, row: Row): Adapter
  {
    var counted := s.(dealStreak := if DealSpot(row) then s.dealStreak + 1 else 0);
    var proposed := ProposeHand(ConfirmHand(counted, row), row);
    if proposed.epoch.None? && proposed.dealStreak == 2
    then NewEpoch(proposed, row.frame, row.frame - 1, UnanchoredDeal, None) else proposed
  }

  function FollowStreet(s: Adapter, row: Row): Adapter
  {
    var base := s.(boardSupported := s.street == Some(Preflop) && row.boardCount == Some(0) && s.epoch.Some?);
    match PositiveBoardGeometry(row)
    case None => base.(geometryRun := None)
    case Some(count) =>
      var continues := s.geometryRun.Some? && s.geometryRun.value.count == count
        && s.geometryRun.value.lastFrame == row.frame - 1;
      var run := if continues
                 then GeometryRun(count, s.geometryRun.value.firstFrame, row.frame, s.geometryRun.value.streak + 1)
                 else GeometryRun(count, row.frame, row.frame, 1);
      var moved := base.(geometryRun := Some(run));
      if run.streak >= 2 && count >= CountOf(s.street)
      then moved.(street := Some(StreetOf(count)), boardSupported := true) else moved
  }

  function PotStep(history: seq<Row>, row: Row): seq<PotChange>
  {
    var n := |history|;
    if n < 3 then []
    else
      var a, b, c, d := Amount(history[n - 3].pot), Amount(history[n - 2].pot), Amount(history[n - 1].pot),
        Amount(row.pot);
      if a.Some? && b.Some? && c.Some? && d.Some? && a == b && c == d && c.value > b.value
      then [PotChange(history[n - 1].frame, row.frame, c.value - b.value)] else []
  }

  function FollowCash(s: Adapter, row: Row): Adapter
  {
    s.(cash := s.cash + row.drops, potChanges := s.potChanges + PotStep(s.history, row))
  }

  function Arrivals(s: Adapter, glyphs: seq<Glyph>): seq<Pending>
  {
    seq(|glyphs|, i requires 0 <= i < |glyphs| =>
      Pending(glyphs[i].frame, glyphs[i].slot, glyphs[i].glyph, s.epoch, s.street))
  }

  function Matches(window: int, cash: seq<Cash>, used: set<(int, int)>, a: Pending): seq<Cash>
  {
    if cash == [] then []
    else
      var d := cash[|cash| - 1];
      Matches(window, cash[..|cash| - 1], used, a) +
      if d.seat == a.slot && Distance(d.first, a.frame) <= window && (d.seat, d.first) !in used then [d] else []
  }

  predicate Crowded(cash: seq<Cash>, debit: Cash)
  {
    exists i :: 0 <= i < |cash| && cash[i].seat != debit.seat && Distance(cash[i].first, debit.first) <= 1
  }

  /** The debit that pairs with a glyph: the only unused one near it, with no other seat paying at the same moment. */
  function DebitFor(s: Adapter, a: Pending): Option<Cash>
  {
    var matches := Matches(s.window, s.cash, s.usedCash, a);
    if |matches| == 1 && !Crowded(s.cash, matches[0]) then Some(matches[0]) else None
  }

  function PotEvidence(window: int, pots: seq<PotChange>, debit: Cash): seq<PotChange>
  {
    if pots == [] then []
    else
      var p := pots[|pots| - 1];
      PotEvidence(window, pots[..|pots| - 1], debit) +
      if p.amount == debit.amount && Distance(p.first, debit.first) <= window then [p] else []
  }

  predicate Zero(k: Kind)
  {
    k == Fold || k == Check
  }

  predicate Paired(s: Adapter, a: Pending)
  {
    var debit := DebitFor(s, a);
    debit.Some? && |PotEvidence(s.window, s.potChanges, debit.value)| == 1
  }

  predicate Resolves(s: Adapter, frame: int, a: Pending)
  {
    Zero(a.glyph) || Paired(s, a) || frame - a.frame > s.window
  }

  function Resolution(s: Adapter, frame: int, a: Pending): Action
  {
    var paired := Paired(s, a);
    Action(a.frame, a.slot, a.glyph, Some(a.glyph), a.epoch, a.street, frame,
           if Zero(a.glyph) then Some(0.0) else if paired then Some(DebitFor(s, a).value.amount) else None,
           if paired then DebitFor(s, a) else None)
  }

  /** Deletes the first occurrence of a value, as list removal does. */
  function RemoveFirst<T(==)>(s: seq<T>, x: T): seq<T>
  {
    if s == [] then [] else if s[0] == x then s[1..] else [s[0]] + RemoveFirst(s[1..], x)
  }

  function ResolveOne(s: Adapter, frame: int, a: Pending): Adapter
  {
    if !Resolves(s, frame, a) then s
    else
      var debit := Resolution(s, frame, a).debit;
      s.(usedCash := s.usedCash + (if debit.Some? then {(debit.value.seat, debit.value.first)} else {}),
         pending := RemoveFirst(s.pending, a),
         actions := s.actions + [Resolution(s, frame, a)])
  }

  /** Each glyph pending at the start of the pass is looked at once, in order. */
  function ResolveAll(s: Adapter, frame: int, todo: seq<Pending>): Adapter
  {
    if todo == [] then s
    else ResolveOne(ResolveAll(s, frame, todo[..|todo| - 1]), frame, todo[|todo| - 1])
  }

  function ShortCallAction(s: Adapter, frame: int, c: ShortCall): Action
  {
    Action(c.frame, c.actor, Call, None, s.epoch, s.street, frame, Some(c.debit), None)
  }

  function TakeShortCall(s: Adapter, row: Row): Adapter
  {
    if row.shortCall.None? then s
    else s.(actions := s.actions + [ShortCallAction(s, row.frame, row.shortCall.value)])
  }

  function Remember(history: seq<Row>, row: Row): seq<Row>
  {
    (if |history| == 4 then history[1..] else history) + [row]
  }

  function Cleared(s: Adapter, row: Row): Adapter
  {
    (if Interrupts(s, row) then Interrupted(s) else s).(last := Some(row.frame))
  }

  /** Everything up to the arrival of the frame's glyphs. */
  function Prepared(s: Adapter, row: Row): Adapter
  {
    FollowCash(FollowStreet(FollowDeal(Cleared(s, row), row), row), row)
  }

  function WithGlyphs(s: Adapter, row: Row): Adapter
  {
    s.(pending := s.pending + Arrivals(s, row.glyphs))
  }

  function Settled(s: Adapter, row: Row): Adapter
  {
    var p := WithGlyphs(Prepared(s, row), row);
    ResolveAll(p, row.frame, p.pending)
  }

  function Closed(s: Adapter, row: Row): Adapter
  {
    var done := TakeShortCall(s, row);
    done.(history := Remember(done.history, row))
  }

  datatype Error = StrictlyIncreasingFramesRequired

  predicate BadFrame(s: Adapter, row: Row)
  {
    row.frame < 0 || (s.last.Some? && row.frame <= s.last.value)
  }

  function Step(s: Adapter, row: Row): Result<Adapter, Error>
  {
    if BadFrame(s, row) then Raised(StrictlyIncreasingFramesRequired)
    else if Blocked(row) then Ok(Cleared(s, row))
    else Ok(Closed(Settled(s, row), row))
  }

  // ---------------------------------------------------------------- the object

  class AA8StateAdapterV2 {
    const window: int
    var last: Option<int>
    var history: seq<Row>
    var epoch: Option<int>
    var epochEvents: seq<EpochEvent>
    var dealStreak: int
    var pendingHand: Option<PendingHand>
    var street: Option<Street>
    var boardSupported: bool
    var geometryRun: Option<GeometryRun>
    var pending: seq<Pending>
    var actions: seq<Action>
    var cash: seq<Cash>
    var potChanges: seq<PotChange>
    var usedCash: set<(int, int)>

    constructor (window: int)
      ensures State() == Initial(window)
    {
      this.window := window;
      last, history, epoch, epochEvents, dealStreak, pendingHand := None, [], None, [], 0, None;
      street, boardSupported, geometryRun := None, false, None;
      pending, actions, cash, potChanges, usedCash := [], [], [], [], {};
    }

    function State(): Adapter
      reads this
    {
      Adapter(window, last, history, epoch, epochEvents, dealStreak, pendingHand, street, boardSupported,
              geometryRun, pending, actions, cash, potChanges, usedCash)
    }

    method DropEvidence()
      modifies this`pending, this`cash, this`potChanges, this`usedCash
      ensures pending == [] && cash == [] && potChanges == [] && usedCash == {}
    {
      pending, cash, potChanges, usedCash := [], [], [], {};
    }

    method OpenEpoch(frame: int, first: int, status: EpochStatus, posting: Option<Posting>)
      modifies this
      ensures State() == NewEpoch(old(State()), frame, first, status, posting)
    {
      epoch := Some(first);
      epochEvents := epochEvents + [EpochEvent(first, frame, status, posting)];
      street, geometryRun := Some(Preflop), None;
      DropEvidence();
    }

    method ConfirmPhase(row: Row)
      modifies this
      ensures State() == ConfirmHand(old(State()), row)
    {
      if pendingHand.Some? {
        var p := pendingHand.value;
        if ZeroPotDeal(row) && row.stacks == p.stacks {
          OpenEpoch(row.frame, p.first, MultiPostDeal, Some(p.comparison));
        }
        pendingHand := None;
      }
    }

    method ProposePhase(row: Row)
      modifies this
      ensures State() == ProposeHand(old(State()), row)
    {
      hide PostingComparison, ZeroPotDeal;
      if |history| >= 2 && ZeroPotDeal(row) {
        var a, b := history[|history| - 2], history[|history| - 1];
        if a.stacks == b.stacks && a.boardCount == Some(0) && b.boardCount == Some(0) {
          var comparison := ComparePosting(b, row);
          if comparison.Some? { pendingHand := Some(PendingHand(row.frame, row.stacks, comparison.value)); }
        }
      }
    }

    method DealPhase(row: Row)
      modifies this
      ensures State() == FollowDeal(old(State()), row)
    {
      hide ConfirmHand, ProposeHand;
      dealStreak := if DealSpot(row) then dealStreak + 1 else 0;
      ConfirmPhase(row);
      ProposePhase(row);
      if epoch.None? && dealStreak == 2 {
        OpenEpoch(row.frame, row.frame - 1, UnanchoredDeal, None);
      }
    }

    method StreetPhase(row: Row)
      modifies this
      ensures State() == FollowStreet(old(State()), row)
    {
      boardSupported := street == Some(Preflop) && row.boardCount == Some(0) && epoch.Some?;
      var geometry := PositiveBoardGeometry(row);
      if geometry.None? {
        geometryRun := None;
      } else {
        var count, previous := geometry.value, geometryRun;
        var run := GeometryRun(count, row.frame, row.frame, 1);
        if previous.Some? && previous.value.count == count && previous.value.lastFrame == row.frame - 1 {
          run := GeometryRun(count, previous.value.firstFrame, row.frame, previous.value.streak + 1);
        }
        geometryRun := Some(run);
        if run.streak >= 2 && count >= CountOf(street) {
          street, boardSupported := Some(StreetOf(count)), true;
        }
      }
    }

    method FindMatches(a: Pending) returns (matches: seq<Cash>)
      ensures matches == Matches(window, cash, usedCash, a)
    {
      matches := [];
      for i := 0 to |cash|
        invariant matches == Matches(window, cash[..i], usedCash, a)
      {
        assert cash[..i + 1][..i] == cash[..i];
        var d := cash[i];
        if d.seat == a.slot && Distance(d.first, a.frame) <= window && (d.seat, d.first) !in usedCash {
          matches := matches + [d];
        }
      }
      assert cash[..|cash|] == cash;
    }

    method FindPots(debit: Cash) returns (pots: seq<PotChange>)
      ensures pots == PotEvidence(window, potChanges, debit)
    {
      pots := [];
      for i := 0 to |potChanges|
        invariant pots == PotEvidence(window, potChanges[..i], debit)
      {
        assert potChanges[..i + 1][..i] == potChanges[..i];
        var p := potChanges[i];
        if p.amount == debit.amount && Distance(p.first, debit.first) <= window { pots := pots + [p]; }
      }
      assert potChanges[..|potChanges|] == potChanges;
    }

    method ResolvePending(frame: int, a: Pending)
      modifies this
      ensures State() == ResolveOne(old(State()), frame, a)
    {
      var matches := FindMatches(a);
      var debit: Option<Cash> := if |matches| == 1 then Some(matches[0]) else None;
      if debit.Some? && exists i ::
           0 <= i < |cash| && cash[i].seat != debit.value.seat && Distance(cash[i].first, debit.value.first) <= 1
      {
        debit := None;
      }
      assert debit == DebitFor(State(), a);
      hide Matches, Crowded;
      var pots: seq<PotChange> := [];
      if debit.Some? { pots := FindPots(debit.value); }
      var paired := debit.Some? && |pots| == 1;
      assert paired == Paired(State(), a);
      hide PotEvidence, Paired, DebitFor, Zero, RemoveFirst;
      if Zero(a.glyph) || paired || frame - a.frame > window {
        var evidence := if paired then debit else None;
        var event := Action(a.frame, a.slot, a.glyph, Some(a.glyph), a.epoch, a.street, frame,
                            if Zero(a.glyph) then Some(0.0)
                            else if paired then Some(debit.value.amount) else None, evidence);
        if evidence.Some? { usedCash := usedCash + {(evidence.value.seat, evidence.value.first)}; }
        pending := RemoveFirst(pending, a);
        actions := actions + [event];
      }
    }

    method ResolvePhase(frame: int)
      modifies this
      ensures State() == ResolveAll(old(State()), frame, old(pending))
    {
      hide ResolveOne;
      var todo := pending;
      for i := 0 to |todo|
        invariant State() == ResolveAll(old(State()), frame, todo[..i])
      {
        assert todo[..i + 1][..i] == todo[..i];
        ResolvePending(frame, todo[i]);
      }
      assert todo[..|todo|] == todo;
    }

    method DropHand()
      modifies this
      ensures State() ==
        old(State()).(history := [], epoch := None, pending := [], street := None, pendingHand := None, dealStreak := 0)
    {
      history := [];
      epoch := None;
      pending := [];
      street := None;
      pendingHand := None;
      dealStreak := 0;
    }

    method Interrupt()
      modifies this
      ensures State() == Interrupted(old(State()))
    {
      DropHand();
      cash := [];
      potChanges := [];
      usedCash := {};
      boardSupported := false;
      geometryRun := None;
    }

    method Clear(row: Row)
      modifies this
      ensures State() == Cleared(old(State()), row)
    {
      hide Interrupted;
      if (last.Some? && row.frame != last.value + 1) || !row.sceneSupported || row.modal { Interrupt(); }
      last := Some(row.frame);
    }

    method CashPhase(row: Row)
      modifies this
      ensures State() == FollowCash(old(State()), row)
    {
      hide PotStep;
      cash := cash + row.drops;
      potChanges := potChanges + PotStep(history, row);
    }

    method GlyphPhase(row: Row)
      modifies this
      ensures State() == (var s := WithGlyphs(old(State()), row); ResolveAll(s, row.frame, s.pending))
    {
      hide ResolveAll;
      pending := pending + Arrivals(State(), row.glyphs);
      ResolvePhase(row.frame);
    }

    method ClosePhase(row: Row)
      modifies this
      ensures State() == Closed(old(State()), row)
    {
      if row.shortCall.Some? {
        var c := row.shortCall.value;
        actions := actions + [Action(c.frame, c.actor, Call, None, epoch, street, row.frame, Some(c.debit), None)];
      }
      history := (if |history| == 4 then history[1..] else history) + [row];
    }

    method Observe(row: Row) returns (r: Result<(), Error>)
      modifies this
      ensures match Step(old(State()), row)
              case Raised(e) => r == Raised(e) && State() == old(State())
              case Ok(next) => r == Ok(()) && State() == next
    {
      hide Cleared, FollowDeal, FollowStreet, FollowCash, WithGlyphs, ResolveAll, Closed;
      if row.frame < 0 || (last.Some? && row.frame <= last.value) { return Raised(StrictlyIncreasingFramesRequired); }
      Clear(row);
      if row.sceneSupported && !row.modal {
        DealPhase(row);
        StreetPhase(row);
        CashPhase(row);
        GlyphPhase(row);
        ClosePhase(row);
      }
      r := Ok(());
    }
  }
}
