/**
 Hand commitments: the opening posts of an epoch plus every action the adapter published for it, with a taint that
 keeps the ledger suspended once anything about it is unknown.
 */
module HandLedger {
  import opened Common
  import opened StateAdapter
  import opened LiveWagers

  datatype Taint = OpeningNotUnique | OpeningIncomplete | OpeningInvalid | FrameGap | ModeObserved | ActionUnknown

  datatype Status = CommitmentsUnknown | CommitmentsSuspended | CommitmentsObserved

  datatype Opening = Opening(frame: int, first: int, debits: map<int, real>, excluded: set<int>)

  type Totals = t: seq<real> | |t| == SEATS witness [0.0, 0.0, 0.0, 0.0, 0.0, 0.0, 0.0, 0.0]

  datatype Hand = Hand(
    last: Option<int>, epoch: Option<int>, totals: Option<Totals>, applied: set<Identity>, opening: Option<Opening>,
    tainted: bool, reasons: seq<Taint>)

  datatype Report = Report(status: Status, commitments: Option<Totals>, total: Option<real>, difference: Option<real>,
    applied: nat)

  // ---------------------------------------------------------------- opening

  function EventsOf(events: seq<EpochEvent>, epoch: int): seq<EpochEvent>
  {
    if events == [] then []
    else
      var e := events[|events| - 1];
      EventsOf(events[..|events| - 1], epoch) + if e.epoch == epoch then [e] else []
  }

  predicate ValidPosts(debits: map<int, real>)
  {
    forall s | s in debits :: 0 <= s < SEATS && debits[s] >= 0.0
  }

  function Posts(debits: map<int, real>): (t: Totals)
  {
    seq(SEATS, s requires 0 <= s < SEATS => if s in debits then debits[s] else 0.0)
  }

  predicate MultiPost(e: EpochEvent)
  {
    e.status == MultiPostDeal && e.posting.Some? && |e.posting.value.debits| >= 3
  }

  function Opened(last: Option<int>, epoch: Option<int>, events: seq<EpochEvent>): Hand
  {
    var blank := Hand(last, epoch, None, {}, None, false, []);
    if epoch.None? then blank
    else
      var found := EventsOf(events, epoch.value);
      if |found| != 1 then blank.(reasons := [OpeningNotUnique])
      else if !MultiPost(found[0]) then blank.(reasons := [OpeningIncomplete])
      else
        var e, p := found[0], found[0].posting.value;
        if !ValidPosts(p.debits) then blank.(reasons := [OpeningInvalid])
        else blank.(totals := Some(Posts(p.debits)), opening := Some(Opening(e.frame, e.epoch, p.debits, p.excluded)))
  }

  // ---------------------------------------------------------------- one observation

  predicate Usable(a: Action, frame: int)
  {
    Amount(a.amount).Some? && 0 <= a.slot < SEATS && a.frame <= frame
  }

  function Consume(h: Hand, a: Action, frame: int): Hand
  {
    if h.totals.None? || a.epoch != h.epoch || IdentityOf(a) in h.applied then h
    else if !Usable(a, frame) then h.(tainted := true, reasons := h.reasons + [ActionUnknown])
    else
      var t := h.totals.value;
      h.(totals := Some(t[a.slot := t[a.slot] + a.amount.value]), applied := h.applied + {IdentityOf(a)})
  }

  function ConsumeAll(h: Hand, actions: seq<Action>, frame: int): Hand
  {
    if actions == [] then h else Consume(ConsumeAll(h, actions[..|actions| - 1], frame), actions[|actions| - 1], frame)
  }

  /** What the ledger is shown with one frame: the observed epoch, the mode flag, the pot and the adapter. */
  datatype Glance = Glance(frame: int, epoch: Option<int>, modal: bool, pot: Money, adapter: Adapter)

  predicate Rejects(h: Hand, g: Glance)
  {
    g.frame < 0 || (h.last.Some? && g.frame <= h.last.value)
  }

  predicate Gap(h: Hand, g: Glance)
  {
    h.last.Some? && g.frame != h.last.value + 1
  }

  predicate Resets(h: Hand, g: Glance)
  {
    Gap(h, g) || g.epoch != h.epoch
  }

  /** The ledger just before it reads the actions. */
  function Entered(h: Hand, g: Glance): Hand
  {
    var renewed := if Resets(h, g) then Opened(Some(g.frame), g.epoch, g.adapter.epochEvents)
      else h.(last := Some(g.frame));
    var gapped := if Gap(h, g) then renewed.(tainted := true, reasons := renewed.reasons + [FrameGap]) else renewed;
    if g.modal then gapped.(tainted := true, reasons := gapped.reasons + [ModeObserved]) else gapped
  }

  function Seen(h: Hand, g: Glance): Hand
  {
    if Rejects(h, g) then h else ConsumeAll(Entered(h, g), g.adapter.actions, g.frame)
  }

  function SumOf(t: seq<real>): real
  {
    if t == [] then 0.0 else SumOf(t[..|t| - 1]) + t[|t| - 1]
  }

  function ReportOf(h: Hand, pot: Money): Report
  {
    var total := if h.totals.Some? then Some(SumOf(h.totals.value)) else None;
    var shown := Amount(pot);
    Report(if h.totals.None? then CommitmentsUnknown
    else if h.tainted then CommitmentsSuspended else CommitmentsObserved,
           h.totals, total, if total.Some? && shown.Some? then Some(total.value - shown.value) else None, |h.applied|)
  }

  // ---------------------------------------------------------------- the object

  class AA8HandLedgerCandidate {
    var last: Option<int>
    var epoch: Option<int>
    var totals: Option<Totals>
    var applied: set<Identity>
    var opening: Option<Opening>
    var tainted: bool
    var reasons: seq<Taint>

    constructor ()
      ensures State() == Hand(None, None, None, {}, None, false, [])
    {
      last, epoch, totals, applied, opening, tainted, reasons := None, None, None, {}, None, false, [];
    }

    function State(): Hand
      reads this
    {
      Hand(last, epoch, totals, applied, opening, tainted, reasons)
    }

    /** The opening vector, or nothing when a seat or an amount is invalid. */
    static method ReadPosts(debits: map<int, real>) returns (r: Option<Totals>)
      ensures r == if ValidPosts(debits) then Some(Posts(debits)) else None
    {
      var t: Totals := seq(SEATS, _ => 0.0);
      var todo := debits.Keys;
      while true
        invariant todo <= debits.Keys
        invariant forall s | s in debits.Keys - todo :: 0 <= s < SEATS && debits[s] >= 0.0
        invariant forall s | 0 <= s < SEATS :: t[s] == if s in debits.Keys - todo then debits[s] else 0.0
        decreases todo
      {
        if s: int :| s in todo {
          if !(0 <= s < SEATS) || debits[s] < 0.0 { return None; }
          t := t[s := debits[s]];
          todo := todo - {s};
        } else {
          break;
        }
      }
      assert t == Posts(debits);
      r := Some(t);
    }

    method Reset(e: Option<int>, events: seq<EpochEvent>)
      modifies this
      ensures State() == Opened(old(last), e, events)
    {
      epoch, totals, applied, opening, tainted, reasons := e, None, {}, None, false, [];
      if e.None? { return; }
      var found := EventsOf(events, e.value);
      if |found| != 1 {
        reasons := reasons + [OpeningNotUnique];
        return;
      }
      var event := found[0];
      if !MultiPost(event) {
        reasons := reasons + [OpeningIncomplete];
        return;
      }
      var p := event.posting.value;
      var posts := ReadPosts(p.debits);
      if posts.None? {
        reasons := reasons + [OpeningInvalid];
        return;
      }
      totals := posts;
      opening := Some(Opening(event.frame, event.epoch, p.debits, p.excluded));
    }

    method Enter(g: Glance)
      requires !Rejects(State(), g)
      modifies this
      ensures State() == Entered(old(State()), g)
    {
      hide Opened;
      var gap := last.Some? && g.frame != last.value + 1;
      last := Some(g.frame);
      if gap || g.epoch != epoch {
        Reset(g.epoch, g.adapter.epochEvents);
        if gap { tainted, reasons := true, reasons + [FrameGap]; }
      }
      if g.modal { tainted, reasons := true, reasons + [ModeObserved]; }
    }

    method ReadActions(actions: seq<Action>, frame: int)
      modifies this
      ensures State() == ConsumeAll(old(State()), actions, frame)
    {
      for i := 0 to |actions|
        invariant State() == ConsumeAll(old(State()), actions[..i], frame)
      {
        assert actions[..i + 1][..i] == actions[..i];
        var a := actions[i];
        if totals.Some? && a.epoch == epoch && IdentityOf(a) !in applied {
          if !Usable(a, frame) {
            tainted, reasons := true, reasons + [ActionUnknown];
          } else {
            totals := Some(totals.value[a.slot := totals.value[a.slot] + a.amount.value]);
            applied := applied + {IdentityOf(a)};
          }
        }
      }
      assert actions[..|actions|] == actions;
    }

    method Observe(g: Glance) returns (r: Result<Report, StateAdapter.Error>)
      modifies this
      ensures State() == Seen(old(State()), g)
      ensures r == if Rejects(old(State()), g) then Raised(StrictlyIncreasingFramesRequired)
        else Ok(ReportOf(State(), g.pot))
    {
      hide Entered, ConsumeAll;
      if g.frame < 0 || (last.Some? && g.frame <= last.value) { return Raised(StrictlyIncreasingFramesRequired); }
      Enter(g);
      if totals.None? {
        NothingToConsume(State(), g.adapter.actions, g.frame);
        return Ok(ReportOf(State(), g.pot));
      }
      ReadActions(g.adapter.actions, g.frame);
      r := Ok(ReportOf(State(), g.pot));
    }
  }

  lemma {:induction false} NothingToConsume(h: Hand, actions: seq<Action>, frame: int)
    requires h.totals.None?
    ensures ConsumeAll(h, actions, frame) == h
  {
    if actions != [] { NothingToConsume(h, actions[..|actions| - 1], frame); }
  }
}
