/**
 One frame of the hand ledger, in terms of the frame and the adapter alone: when it opens, what it adds, when it is
 tainted and what it reports.
 */
module LedgerRules {
  import opened Common
  import opened StateAdapter
  import opened LiveWagers
  import opened HandLedger

  // ---------------------------------------------------------------- opening

  /** The event at `i` is the only one of the epoch, and posts at least three amounts, all of them at the table. */
  predicate OpensAt(events: seq<EpochEvent>, epoch: int, i: int)
  {
    && 0 <= i < |events| && events[i].epoch == epoch
    && (forall j | 0 <= j < |events| && j != i :: events[j].epoch != epoch)
    && events[i].status == MultiPostDeal && events[i].posting.Some?
    && |events[i].posting.value.debits| >= 3
    && forall s | s in events[i].posting.value.debits ::
      0 <= s < SEATS && events[i].posting.value.debits[s] >= 0.0
  }

  lemma {:induction false} EventsAre(events: seq<EpochEvent>, epoch: int)
    ensures forall i | 0 <= i < |events| && events[i].epoch == epoch :: EventsOf(events, epoch) != []
    ensures EventsOf(events, epoch) != [] ==> exists i ::
      0 <= i < |events| && events[i].epoch == epoch && events[i] == EventsOf(events, epoch)[0]
    ensures |EventsOf(events, epoch)| >= 2 <==> exists i, j ::
      0 <= i < j < |events| && events[i].epoch == epoch && events[j].epoch == epoch
  {
    if events != [] {
      var n := |events| - 1;
      var init := events[..n];
      EventsAre(init, epoch);
      if EventsOf(init, epoch) != [] {
        var i :| 0 <= i < n && init[i].epoch == epoch && init[i] == EventsOf(init, epoch)[0];
        assert events[i] == EventsOf(events, epoch)[0];
        if events[n].epoch == epoch { assert events[i].epoch == epoch && events[n].epoch == epoch; }
      } else if events[n].epoch == epoch {
        assert events[n] == EventsOf(events, epoch)[0];
      }
      if |EventsOf(init, epoch)| >= 2 {
        var i, j :| 0 <= i < j < n && init[i].epoch == epoch && init[j].epoch == epoch;
        assert events[i].epoch == epoch && events[j].epoch == epoch;
      }
      if exists i, j :: 0 <= i < j < |events| && events[i].epoch == epoch && events[j].epoch == epoch {
        var i, j :| 0 <= i < j < |events| && events[i].epoch == epoch && events[j].epoch == epoch;
        assert init[i].epoch == epoch;
        if j < n { assert init[j].epoch == epoch; }
      }
    }
  }

  lemma UniqueEvent(events: seq<EpochEvent>, epoch: int, i: int)
    requires 0 <= i < |events| && events[i].epoch == epoch
    requires forall j | 0 <= j < |events| && j != i :: events[j].epoch != epoch
    ensures EventsOf(events, epoch) == [events[i]]
  {
    EventsAre(events, epoch);
  }

  /** A new ledger holds totals exactly when such an event exists, and then each seat starts with what it posted. */
  lemma OpenedExactly(last: Option<int>, epoch: Option<int>, events: seq<EpochEvent>)
    ensures var h := Opened(last, epoch, events);
      && h.last == last && h.epoch == epoch && h.applied == {} && !h.tainted
      && (h.totals.Some? <==> epoch.Some? && exists i :: OpensAt(events, epoch.value, i))
      && forall i | epoch.Some? && OpensAt(events, epoch.value, i) ::
           h.totals.Some? && forall s | 0 <= s < SEATS ::
             var debits := events[i].posting.value.debits;
             h.totals.value[s] == if s in debits then debits[s] else 0.0
  {
    hide EventsOf;
    if epoch.Some? {
      var e, h := epoch.value, Opened(last, epoch, events);
      EventsAre(events, e);
      forall i | OpensAt(events, e, i) ensures EventsOf(events, e) == [events[i]] { UniqueEvent(events, e, i); }
      if h.totals.Some? {
        var i :| 0 <= i < |events| && events[i].epoch == e && events[i] == EventsOf(events, e)[0];
        assert forall j | 0 <= j < |events| && j != i :: events[j].epoch != e;
        assert OpensAt(events, e, i);
      }
    }
  }

  // ---------------------------------------------------------------- actions

  predicate Readable(a: Action, epoch: Option<int>, frame: int)
  {
    && a.epoch == epoch && a.frame <= frame && 0 <= a.slot < SEATS
    && a.amount.Some? && a.amount.value >= 0.0
  }

  /** The action at `i` brings an identity that neither the ledger nor a readable action before it has. */
  predicate Brings(h: Hand, actions: seq<Action>, frame: int, i: int)
  {
    && 0 <= i < |actions| && IdentityOf(actions[i]) !in h.applied
    && forall j | 0 <= j < i && Readable(actions[j], h.epoch, frame) :: IdentityOf(actions[j]) != IdentityOf(actions[i])
  }

  predicate Adds(h: Hand, actions: seq<Action>, frame: int, i: int)
  {
    Brings(h, actions, frame, i) && Readable(actions[i], h.epoch, frame)
  }

  /** The first `n` actions spoil the ledger: one of its epoch cannot be read and was not taken before. */
  predicate Spoils(h: Hand, actions: seq<Action>, frame: int, n: int)
  {
    exists i :: 0 <= i < n && Brings(h, actions, frame, i) && actions[i].epoch == h.epoch
                && !Readable(actions[i], h.epoch, frame)
  }

  function Added(h: Hand, actions: seq<Action>, frame: int, n: nat, seat: int): real
    requires n <= |actions|
  {
    if n == 0 then 0.0
    else
      var a := actions[n - 1];
      Added(h, actions, frame, n - 1, seat)
      + if Adds(h, actions, frame, n - 1) && a.slot == seat && a.amount.Some? then a.amount.value else 0.0
  }

  /** One of the first `n` actions is readable and has this identity. */
  predicate Reads(h: Hand, actions: seq<Action>, frame: int, n: nat, x: Identity)
    requires n <= |actions|
  {
    exists i :: 0 <= i < n && Readable(actions[i], h.epoch, frame) && IdentityOf(actions[i]) == x
  }

  ghost predicate ReadsUpTo(h: Hand, actions: seq<Action>, frame: int, n: nat, c: Hand)
    requires n <= |actions|
  {
    && c.last == h.last && c.epoch == h.epoch && c.opening == h.opening && c.totals.Some? && h.totals.Some?
    && (forall s | 0 <= s < SEATS :: c.totals.value[s] == h.totals.value[s] + Added(h, actions, frame, n, s))
    && (forall x :: x in c.applied <==> (x in h.applied || Reads(h, actions, frame, n, x)))
    && (c.tainted <==> h.tainted || Spoils(h, actions, frame, n))
  }

  /** Reading actions adds the amount of each new readable one, and taints exactly when one could not be read. */
  lemma {:induction false} ActionsExactly(h: Hand, actions: seq<Action>, frame: int, n: nat)
    requires h.totals.Some? && n <= |actions|
    ensures ReadsUpTo(h, actions, frame, n, ConsumeAll(h, actions[..n], frame))
  {
    if n > 0 {
      ActionsExactly(h, actions, frame, n - 1);
      assert actions[..n][..n - 1] == actions[..n - 1];
      ReadOne(h, actions, frame, n - 1, ConsumeAll(h, actions[..n - 1], frame));
    }
  }

  lemma ReadOne(h: Hand, actions: seq<Action>, frame: int, i: nat, c: Hand)
    requires i < |actions| && ReadsUpTo(h, actions, frame, i, c)
    ensures ReadsUpTo(h, actions, frame, i + 1, Consume(c, actions[i], frame))
  {
    var a := actions[i];
    assert IdentityOf(a) in c.applied <==> !Brings(h, actions, frame, i);
    assert a.epoch == h.epoch ==> (Usable(a, frame) <==> Readable(a, h.epoch, frame));
    hide Brings;
    var d := Consume(c, a, frame);
    assert Spoils(h, actions, frame, i + 1) <==>
      (Spoils(h, actions, frame, i)
       || (Brings(h, actions, frame, i) && a.epoch == h.epoch && !Readable(a, h.epoch, frame)));
    hide Spoils;
  }

  // ---------------------------------------------------------------- one frame

  /** The ledger is opened anew: the frame does not follow the last one, or shows another epoch. */
  predicate Renews(h: Hand, g: Glance)
  {
    (h.last.Some? && g.frame != h.last.value + 1) || g.epoch != h.epoch
  }

  /**
   What one accepted frame makes of the ledger. A renewed ledger starts from its opening, an old one from where it was;
   both then read every action. A gap between frames, a modal frame or an unreadable action taints it, and nothing but
   a renewal lifts the taint.
   */
  ghost predicate SeenAs(h: Hand, g: Glance, start: Hand, next: Hand)
  {
    && next.last == Some(g.frame) && next.epoch == g.epoch && start.epoch == g.epoch
    && (Renews(h, g) ==>
          && start == Opened(Some(g.frame), g.epoch, g.adapter.epochEvents))
    && (!Renews(h, g) ==> start == h)
    && (start.totals.None? ==> next.totals.None? && next.applied == start.applied)
    && (next.tainted <==>
          || (h.last.Some? && g.frame != h.last.value + 1) || g.modal || (!Renews(h, g) && h.tainted)
          || (start.totals.Some? && Spoils(start, g.adapter.actions, g.frame, |g.adapter.actions|)))
    && (start.totals.Some? ==>
          && next.totals.Some? && next.opening == start.opening
          && (forall s | 0 <= s < SEATS :: next.totals.value[s] ==
                start.totals.value[s] + Added(start, g.adapter.actions, g.frame, |g.adapter.actions|, s))
          && (forall x :: x in next.applied <==>
                (x in start.applied || Reads(start, g.adapter.actions, g.frame, |g.adapter.actions|, x))))
  }

  function Start(h: Hand, g: Glance): Hand
  {
    if Renews(h, g) then Opened(Some(g.frame), g.epoch, g.adapter.epochEvents) else h
  }

  /**
   A frame is accepted exactly when it is not negative and later than the last one; with `OpenedExactly`, which says
   what a renewed ledger starts from, this is all that a frame does.
   */
  lemma SeenExactly(h: Hand, g: Glance)
    ensures Rejects(h, g) <==> !(g.frame >= 0 && (h.last.Some? ==> g.frame > h.last.value))
    ensures if g.frame >= 0 && (h.last.Some? ==> g.frame > h.last.value) then SeenAs(h, g, Start(h, g), Seen(h, g))
            else Seen(h, g) == h
  {
    if g.frame >= 0 && (h.last.Some? ==> g.frame > h.last.value) { AcceptedExactly(h, g); }
  }

  lemma AcceptedExactly(h: Hand, g: Glance)
    requires g.frame >= 0 && (h.last.Some? ==> g.frame > h.last.value)
    ensures SeenAs(h, g, Start(h, g), Seen(h, g))
  {
    var actions, entered := g.adapter.actions, Entered(h, g);
    OpenedExactly(Some(g.frame), g.epoch, g.adapter.epochEvents);
    hide Opened, ConsumeAll, Added, Spoils, Reads, OpensAt;
    assert actions[..|actions|] == actions;
    var start := Start(h, g);
    assert entered == start.(last := Some(g.frame), tainted := entered.tainted, reasons := entered.reasons);
    if start.totals.Some? {
      ActionsExactly(entered, actions, g.frame, |actions|);
      SameReading(start, entered, actions, g.frame, |actions|);
    } else {
      NothingToConsume(entered, actions, g.frame);
    }
  }

  /** How actions are read does not depend on the last frame, the taint or its reasons. */
  lemma {:induction false} SameReading(h: Hand, k: Hand, actions: seq<Action>, frame: int, n: nat)
    requires n <= |actions| && h.epoch == k.epoch && h.applied == k.applied
    ensures forall s :: Added(h, actions, frame, n, s) == Added(k, actions, frame, n, s)
    ensures Spoils(h, actions, frame, n) == Spoils(k, actions, frame, n)
    ensures forall x :: Reads(h, actions, frame, n, x) == Reads(k, actions, frame, n, x)
  {
    forall i ensures Brings(h, actions, frame, i) == Brings(k, actions, frame, i) {}
    hide Brings;
    if n > 0 { SameReading(h, k, actions, frame, n - 1); }
  }

  // ---------------------------------------------------------------- the report

  /**
   Commitments are reported as observed exactly when there are totals and no taint; the difference is the eight
   commitments less the displayed pot, and is reported exactly when both are there.
   */
  lemma ReportExactly(h: Hand, pot: Money)
    ensures var r := ReportOf(h, pot);
      && r.commitments == h.totals && r.applied == |h.applied|
      && (r.status == CommitmentsObserved <==> h.totals.Some? && !h.tainted)
      && (r.status == CommitmentsSuspended <==> h.totals.Some? && h.tainted)
      && (r.difference.Some? <==> h.totals.Some? && pot.Some? && pot.value >= 0.0)
      && (h.totals.Some? ==>
            var t := h.totals.value;
            var sum := t[0] + t[1] + t[2] + t[3] + t[4] + t[5] + t[6] + t[7];
            r.total == Some(sum) && (r.difference.Some? ==> r.difference == Some(sum - pot.value)))
  {
    if h.totals.Some? { SumOfEight(h.totals.value); }
  }

  lemma SumOfEight(t: Totals)
    ensures SumOf(t) == t[0] + t[1] + t[2] + t[3] + t[4] + t[5] + t[6] + t[7]
  {
    SumNext(t, 0);
    SumNext(t, 1);
    SumNext(t, 2);
    SumNext(t, 3);
    SumNext(t, 4);
    SumNext(t, 5);
    SumNext(t, 6);
    SumNext(t, 7);
    assert t[..8] == t && t[..0] == [];
  }

  lemma SumNext(t: seq<real>, n: nat)
    requires n < |t|
    ensures SumOf(t[..n + 1]) == SumOf(t[..n]) + t[n]
  {
    assert t[..n + 1][..n] == t[..n];
  }
}
