/** The deploy-event protocol of one operator process: history is backfilled, webhooks add events, and each
    poll drains what arrived since the cursor, registers it and ticks the pending set. Webhooks and polls
    interleave arbitrarily; the clock reading and the engine's answers of a poll are arbitrary too. */
module Operator {
  import opened EventStore
  import opened Pending
  import opened Types

  datatype Action =
    | Webhook(ev: DeployEvent)
    | Poll(now: int, analyse: Analyse)

  /** What one poll was given: clock, answers, and how many events had been stored by then. */
  datatype PollRecord = PollRecord(now: int, analyse: Analyse, upTo: nat)

  /** events, cursor and pending are the process's state; the rest is its history. */
  datatype State = State(
    events: seq<DeployEvent>, cursor: nat, pending: seq<PendingEvent>,
    drained: seq<DeployEvent>, alerts: seq<TickResult>, polls: seq<PollRecord>)

  ghost function RegisterAll(batch: seq<DeployEvent>, window: int): seq<PendingEvent> {
    if batch == [] then [] else
    RegisterAll(batch[..|batch| - 1], window) + [Register(batch[|batch| - 1], window)]
  }

  ghost function Start(history: seq<DeployEvent>): State {
    var events := AddAll([], history);
    State(events, |events|, [], [], [], [])
  }

  ghost function Step(window: int, s: State, a: Action): State {
    match a
    case Webhook(ev) => s.(events := AddEvent(s.events, ev))
    case Poll(now, analyse) =>
      var batch := if s.cursor >= |s.events| then [] else s.events[s.cursor..];
      var pending := s.pending + RegisterAll(batch, window);
      State(s.events, s.cursor + |batch|, TickLive(pending, now, analyse), s.drained + batch,
            s.alerts + TickAlerts(pending, analyse), s.polls + [PollRecord(now, analyse, s.cursor + |batch|)])
  }

  ghost function Run(window: int, history: seq<DeployEvent>, actions: seq<Action>): State {
    if actions == [] then Start(history) else
    Step(window, Run(window, history, actions[..|actions| - 1]), actions[|actions| - 1])
  }

  // ----- the process -----

  /** One turn of the poll loop. */
  method PollOnce(store: Store, pending: PendingSet, cursor: nat, now: int, analyse: Analyse)
    returns (cursor': nat, detected: seq<TickResult>)
    requires store.Valid() && pending.Valid()
    modifies pending, pending.buf
    ensures pending.Valid() && (pending.buf == old(pending.buf) || fresh(pending.buf))
    ensures var batch := if cursor >= |store.events| then [] else store.events[cursor..];
      var all := old(pending.Contents()) + RegisterAll(batch, pending.window);
      && cursor' == cursor + |batch|
      && detected == TickAlerts(all, analyse)
      && pending.Contents() == TickLive(all, now, analyse)
  {
    var evs;
    evs, cursor' := store.DrainSince(cursor);
    ghost var before := pending.Contents();
    assert before + [] == before;
    for i := 0 to |evs|
      invariant pending.Valid() && (pending.buf == old(pending.buf) || fresh(pending.buf))
      invariant pending.Contents() == before + RegisterAll(evs[..i], pending.window)
    {
      assert evs[..i + 1][..i] == evs[..i];
      pending.Add(evs[i]);
    }
    assert evs[..|evs|] == evs;
    detected := pending.Tick(now, analyse);
  }

  /** The process over a whole run: backfill, then the interleaved webhooks and polls. */
  method RunOperator(window: int, history: seq<DeployEvent>, actions: seq<Action>) returns (alerts: seq<TickResult>)
    ensures alerts == Run(window, history, actions).alerts
  {
    var store := new Store();
    var pending := new PendingSet(window);
    var cursor := store.Backfill(history);
    alerts := [];
    for i := 0 to |actions|
      invariant store.Valid() && pending.Valid() && fresh(store) && fresh(pending) && fresh(pending.buf)
      invariant var s := Run(window, history, actions[..i]);
        s.events == store.events && s.cursor == cursor && s.pending == pending.Contents() && s.alerts == alerts
    {
      assert actions[..i + 1][..i] == actions[..i];
      match actions[i]
      case Webhook(ev) =>
        store.Add(ev);
      case Poll(now, analyse) =>
        var detected;
        cursor, detected := PollOnce(store, pending, cursor, now, analyse);
        alerts := alerts + detected;
    }
    assert actions[..|actions|] == actions;
  }

  // ----- the meaning of the history -----

  /** No poll that saw the k-th event came at or after its deadline. */
  ghost predicate Alive(window: int, ev: DeployEvent, k: nat, polls: seq<PollRecord>) {
    forall j :: 0 <= j < |polls| && k < polls[j].upTo ==> polls[j].now < ev.timestamp + window
  }

  /** The queries found Detected for the k-th event by polls that still had it pending. */
  ghost function Seen(window: int, ev: DeployEvent, k: nat, polls: seq<PollRecord>): set<int> {
    if polls == [] then {} else
    var before, last := polls[..|polls| - 1], polls[|polls| - 1];
    Seen(window, ev, k, before)
    + if k < last.upTo && Alive(window, ev, k, before) then DetectedIDs(last.analyse(ev)) else {}
  }

  /** What must be pending of the events lo..hi, given the polls so far. */
  ghost function Expected(window: int, events: seq<DeployEvent>, polls: seq<PollRecord>, lo: nat,
                          hi: nat): seq<PendingEvent>
    requires lo <= hi <= |events|
    decreases hi
  {
    if lo == hi then [] else
    var ev := events[hi - 1];
    Expected(window, events, polls, lo, hi - 1)
    + if Alive(window, ev, hi - 1, polls)
      then [PendingEvent(ev, ev.timestamp + window, Seen(window, ev, hi - 1, polls))] else []
  }

  /** The pair must have been reported: some drained event of that ID was found Detected while pending. */
  ghost predicate Due(window: int, events: seq<DeployEvent>, polls: seq<PollRecord>, lo: nat, hi: nat, id: string,
                      q: int)
    requires hi <= |events|
  {
    exists k :: lo <= k < hi && events[k].id == id && q in Seen(window, events[k], k, polls)
  }

  ghost predicate Invariant(window: int, s: State, start: nat) {
    && DistinctIDs(s.events)
    && start <= s.cursor <= |s.events|
    && (forall j :: 0 <= j < |s.polls| ==> s.polls[j].upTo <= s.cursor)
    && s.drained == s.events[start..s.cursor]
    && s.pending == Expected(window, s.events, s.polls, start, s.cursor)
    && (forall id, q :: Count(s.alerts, id, q)
                        == if Due(window, s.events, s.polls, start, s.cursor, id, q) then 1 else 0)
  }

  // ----- a webhook -----

  lemma {:induction false} ExpectedOfPrefix(window: int, events: seq<DeployEvent>, more: seq<DeployEvent>,
                                            polls: seq<PollRecord>, lo: nat, hi: nat)
    requires lo <= hi <= |events| && events <= more
    ensures Expected(window, events, polls, lo, hi) == Expected(window, more, polls, lo, hi)
    decreases hi
  {
    if lo < hi {
      ExpectedOfPrefix(window, events, more, polls, lo, hi - 1);
    }
  }

  lemma WebhookKeepsInvariant(window: int, s: State, start: nat, ev: DeployEvent)
    requires Invariant(window, s, start)
    ensures Invariant(window, Step(window, s, Webhook(ev)), start)
  {
    var more := AddEvent(s.events, ev);
    AddKeepsDistinct(s.events, ev);
    ExpectedOfPrefix(window, s.events, more, s.polls, start, s.cursor);
    assert s.events[start..s.cursor] == more[start..s.cursor];
    forall id, q
      ensures Due(window, s.events, s.polls, start, s.cursor, id, q) == Due(window, more, s.polls, start, s.cursor, id, q)
    {
      assert forall k :: start <= k < s.cursor ==> s.events[k] == more[k];
    }
  }

  // ----- a poll -----

  /** Events no poll has seen yet are expected exactly as they are registered. */
  lemma {:induction false} RegisteredIsExpected(window: int, events: seq<DeployEvent>, polls: seq<PollRecord>,
                                                lo: nat, mid: nat, hi: nat)
    requires lo <= mid <= hi <= |events|
    requires forall j :: 0 <= j < |polls| ==> polls[j].upTo <= mid
    ensures Expected(window, events, polls, lo, hi)
            == Expected(window, events, polls, lo, mid) + RegisterAll(events[mid..hi], window)
    decreases hi
  {
    hide Seen, Alive;
    if mid < hi {
      RegisteredIsExpected(window, events, polls, lo, mid, hi - 1);
      UnseenIsEmpty(window, events[hi - 1], hi - 1, polls);
      assert events[mid..hi][..hi - 1 - mid] == events[mid..hi - 1];
    }
  }

  lemma {:induction false} UnseenIsEmpty(window: int, ev: DeployEvent, k: nat, polls: seq<PollRecord>)
    requires forall j :: 0 <= j < |polls| ==> polls[j].upTo <= k
    ensures Seen(window, ev, k, polls) == {} && Alive(window, ev, k, polls)
  {
    if polls != [] {
      UnseenIsEmpty(window, ev, k, polls[..|polls| - 1]);
    }
  }

  lemma AliveAfter(window: int, ev: DeployEvent, k: nat, polls: seq<PollRecord>, rec: PollRecord)
    ensures Alive(window, ev, k, polls + [rec])
            <==> Alive(window, ev, k, polls) && (k < rec.upTo ==> rec.now < ev.timestamp + window)
  {
    var more := polls + [rec];
    assert more[|polls|] == rec;
    assert forall j :: 0 <= j < |polls| ==> more[j] == polls[j];
  }

  lemma SeenAfter(window: int, ev: DeployEvent, k: nat, polls: seq<PollRecord>, rec: PollRecord)
    ensures Seen(window, ev, k, polls + [rec])
            == Seen(window, ev, k, polls)
               + if k < rec.upTo && Alive(window, ev, k, polls) then DetectedIDs(rec.analyse(ev)) else {}
  {
  }

  /** The tick leaves pending exactly what the longer history expects. */
  lemma {:induction false} LiveIsExpected(window: int, events: seq<DeployEvent>, polls: seq<PollRecord>,
                                          rec: PollRecord, lo: nat, hi: nat)
    requires lo <= hi <= |events| && hi <= rec.upTo
    ensures TickLive(Expected(window, events, polls, lo, hi), rec.now, rec.analyse)
            == Expected(window, events, polls + [rec], lo, hi)
    decreases hi
  {
    hide Seen, Alive, DetectedIDs;
    if lo < hi {
      var ev, k := events[hi - 1], hi - 1;
      var before := Expected(window, events, polls, lo, k);
      LiveIsExpected(window, events, polls, rec, lo, k);
      AliveAfter(window, ev, k, polls, rec);
      SeenAfter(window, ev, k, polls, rec);
      var pe := PendingEvent(ev, ev.timestamp + window, Seen(window, ev, k, polls));
      assert (before + [pe])[..|before|] == before;
      assert before + [] == before;
    }
  }

  /** What the tick reports of one pair, event by event. */
  ghost predicate NewlyDue(window: int, events: seq<DeployEvent>, polls: seq<PollRecord>, rec: PollRecord, k: nat,
                           q: int)
    requires k < |events|
  {
    && Alive(window, events[k], k, polls)
    && q in DetectedIDs(rec.analyse(events[k])) && q !in Seen(window, events[k], k, polls)
  }

  lemma CountNone(id: string, q: int)
    ensures Count([], id, q) == 0
  {
  }

  lemma {:induction false} AlertsOfExpected(window: int, events: seq<DeployEvent>, polls: seq<PollRecord>,
                                            rec: PollRecord, lo: nat, hi: nat, id: string, q: int)
    requires DistinctIDs(events) && lo <= hi <= |events|
    ensures Count(TickAlerts(Expected(window, events, polls, lo, hi), rec.analyse), id, q)
            == if exists k :: lo <= k < hi && events[k].id == id && NewlyDue(window, events, polls, rec, k, q) then 1 else 0
    decreases hi
  {
    hide Seen, Alive, DetectedIDs, Fresh, Count;
    if lo == hi {
      CountNone(id, q);
    } else {
      var ev, k := events[hi - 1], hi - 1;
      var before := Expected(window, events, polls, lo, k);
      AlertsOfExpected(window, events, polls, rec, lo, k, id, q);
      var seen := Seen(window, ev, k, polls);
      var pe := PendingEvent(ev, ev.timestamp + window, seen);
      assert (before + [pe])[..|before|] == before;
      assert before + [] == before;
      FreshCount(ev, rec.analyse(ev), seen, id, q);
      CountConcat(TickAlerts(before, rec.analyse), Fresh(ev, rec.analyse(ev), seen), id, q);
    }
  }

  /** A pair is due after the poll if it was due before or the poll found it. */
  lemma DueAfter(window: int, events: seq<DeployEvent>, polls: seq<PollRecord>, rec: PollRecord, lo: nat, mid: nat,
                 hi: nat, id: string, q: int)
    requires DistinctIDs(events) && lo <= mid <= hi <= |events| && hi <= rec.upTo
    requires forall j :: 0 <= j < |polls| ==> polls[j].upTo <= mid
    ensures (if Due(window, events, polls + [rec], lo, hi, id, q) then 1 else 0)
            == (if Due(window, events, polls, lo, mid, id, q) then 1 else 0)
               + if exists k :: lo <= k < hi && events[k].id == id && NewlyDue(window, events, polls, rec, k, q)
                 then 1 else 0
  {
    hide Alive, Seen;
    forall k | lo <= k < hi
      ensures q in Seen(window, events[k], k, polls + [rec])
              <==> q in Seen(window, events[k], k, polls) || NewlyDue(window, events, polls, rec, k, q)
      ensures k >= mid ==> Seen(window, events[k], k, polls) == {}
    {
      SeenAfter(window, events[k], k, polls, rec);
      if k >= mid {
        UnseenIsEmpty(window, events[k], k, polls);
      }
    }
  }

  lemma PollKeepsInvariant(window: int, s: State, start: nat, now: int, analyse: Analyse)
    requires Invariant(window, s, start)
    ensures Invariant(window, Step(window, s, Poll(now, analyse)), start)
  {
    hide Due, Seen, Alive, Expected, TickLive, TickAlerts;
    var n := |s.events|;
    var batch := s.events[s.cursor..];
    var rec := PollRecord(now, analyse, n);
    var all := s.pending + RegisterAll(batch, window);
    assert s.events[s.cursor..n] == batch;
    RegisteredIsExpected(window, s.events, s.polls, start, s.cursor, n);
    LiveIsExpected(window, s.events, s.polls, rec, start, n);
    assert s.events[start..s.cursor] + batch == s.events[start..n];
    forall id, q
      ensures Count(s.alerts + TickAlerts(all, analyse), id, q)
              == if Due(window, s.events, s.polls + [rec], start, n, id, q) then 1 else 0
    {
      CountConcat(s.alerts, TickAlerts(all, analyse), id, q);
      AlertsOfExpected(window, s.events, s.polls, rec, start, n, id, q);
      DueAfter(window, s.events, s.polls, rec, start, s.cursor, n, id, q);
    }
  }

  // ----- whole runs -----

  lemma {:induction false} RunKeepsInvariant(window: int, history: seq<DeployEvent>, actions: seq<Action>)
    ensures Invariant(window, Run(window, history, actions), |AddAll([], history)|)
    ensures AddAll([], history) <= Run(window, history, actions).events
  {
    var start := |AddAll([], history)|;
    if actions == [] {
      AddAllKeepsDistinct([], history);
    } else {
      var before := Run(window, history, actions[..|actions| - 1]);
      RunKeepsInvariant(window, history, actions[..|actions| - 1]);
      match actions[|actions| - 1]
      case Webhook(ev) => WebhookKeepsInvariant(window, before, start, ev);
      case Poll(now, analyse) => PollKeepsInvariant(window, before, start, now, analyse);
    }
  }

  /** Each pair of event and query is reported at most once, and exactly once if the event was drained and
      the query found Detected for it while it was pending. */
  lemma ReportedExactlyOnce(window: int, history: seq<DeployEvent>, actions: seq<Action>, id: string, q: int)
    ensures var s := Run(window, history, actions);
      && s.cursor <= |s.events|
      && Count(s.alerts, id, q)
         == if Due(window, s.events, s.polls, |AddAll([], history)|, s.cursor, id, q) then 1 else 0
  {
    RunKeepsInvariant(window, history, actions);
  }

  /** Every event stored after the backfill is drained exactly once and in order of arrival. */
  lemma DrainedOnceInOrder(window: int, history: seq<DeployEvent>, actions: seq<Action>)
    ensures var s := Run(window, history, actions);
      var start := |AddAll([], history)|;
      && start <= s.cursor <= |s.events| && DistinctIDs(s.events)
      && s.drained == s.events[start..s.cursor]
      && (actions != [] && actions[|actions| - 1].Poll? ==> s.drained == s.events[start..])
  {
    RunKeepsInvariant(window, history, actions);
    if actions != [] {
      RunKeepsInvariant(window, history, actions[..|actions| - 1]);
    }
  }

  /** A drained event is pending until the first poll at or after its deadline, and from then on retired. */
  lemma PendingUntilDeadline(window: int, history: seq<DeployEvent>, actions: seq<Action>, k: nat)
    requires |AddAll([], history)| <= k < Run(window, history, actions).cursor
    ensures var s := Run(window, history, actions);
      && k < |s.events|
      && ((exists pe :: pe in s.pending && pe.ev == s.events[k])
          <==> forall j :: 0 <= j < |s.polls| && k < s.polls[j].upTo ==> s.polls[j].now < s.events[k].timestamp + window)
  {
    var s := Run(window, history, actions);
    RunKeepsInvariant(window, history, actions);
    ExpectedMembers(window, s.events, s.polls, |AddAll([], history)|, s.cursor, k);
  }

  lemma {:induction false} ExpectedMembers(window: int, events: seq<DeployEvent>, polls: seq<PollRecord>, lo: nat,
                                           hi: nat, k: nat)
    requires DistinctIDs(events) && lo <= hi <= |events| && k < |events|
    ensures (exists pe :: pe in Expected(window, events, polls, lo, hi) && pe.ev == events[k])
            <==> lo <= k < hi && Alive(window, events[k], k, polls)
    decreases hi
  {
    hide Seen, Alive;
    if lo < hi {
      ExpectedMembers(window, events, polls, lo, hi - 1, k);
      var ev := events[hi - 1];
      var pe := PendingEvent(ev, ev.timestamp + window, Seen(window, ev, hi - 1, polls));
      var all := Expected(window, events, polls, lo, hi);
      assert forall p :: p in all <==>
        p in Expected(window, events, polls, lo, hi - 1) || (p == pe && Alive(window, ev, hi - 1, polls));
      assert pe.ev == events[k] <==> k == hi - 1;
      if k == hi - 1 && Alive(window, ev, k, polls) {
        assert pe in all;
      }
    }
  }

  /** No event of the backfilled history is ever reported, whatever webhooks repeat its ID. */
  lemma HistoryIsNeverReported(window: int, history: seq<DeployEvent>, actions: seq<Action>, known: DeployEvent, q: int)
    requires known in history
    ensures Count(Run(window, history, actions).alerts, known.id, q) == 0
  {
    var s := Run(window, history, actions);
    var start := |AddAll([], history)|;
    RunKeepsInvariant(window, history, actions);
    AddAllKeepsDistinct([], history);
    var i :| 0 <= i < start && AddAll([], history)[i].id == known.id;
    assert s.events[i].id == known.id;
  }

  /** What Seen means: some poll found the query Detected when no earlier poll had passed the deadline. */
  lemma {:induction false} SeenMeans(window: int, ev: DeployEvent, k: nat, polls: seq<PollRecord>, q: int)
    ensures q in Seen(window, ev, k, polls) <==>
            exists j :: 0 <= j < |polls| && k < polls[j].upTo && Alive(window, ev, k, polls[..j])
                        && exists i :: 0 <= i < |polls[j].analyse(ev)| && polls[j].analyse(ev)[i].queryID == q
                                       && polls[j].analyse(ev)[i].status == Detected
  {
    if polls != [] {
      DetectedMeans(polls[|polls| - 1].analyse(ev), q);
      var n := |polls| - 1;
      var before := polls[..n];
      SeenMeans(window, ev, k, before, q);
      forall j | 0 <= j < n
        ensures polls[..j] == before[..j] && polls[j] == before[j]
      {
      }
    }
  }

  /** t reports a Detected result some poll's engine gave for an event that had been drained. */
  ghost predicate Grounded(t: TickResult, s: State) {
    && t.event in s.drained
    && exists j, i :: 0 <= j < |s.polls| && FirstDetected(s.polls[j].analyse(t.event), i, t.regression)
  }

  /** Every report is the engine's own Detected result for a drained event. */
  lemma {:induction false} ReportsAreGrounded(window: int, history: seq<DeployEvent>, actions: seq<Action>)
    ensures var s := Run(window, history, actions); forall t :: t in s.alerts ==> Grounded(t, s)
  {
    if actions != [] {
      var before := Run(window, history, actions[..|actions| - 1]);
      ReportsAreGrounded(window, history, actions[..|actions| - 1]);
      RunKeepsInvariant(window, history, actions[..|actions| - 1]);
      match actions[|actions| - 1]
      case Webhook(ev) =>
      case Poll(now, analyse) => PollIsGrounded(window, before, |AddAll([], history)|, now, analyse);
    }
  }

  lemma PollIsGrounded(window: int, s: State, start: nat, now: int, analyse: Analyse)
    requires Invariant(window, s, start) && forall t :: t in s.alerts ==> Grounded(t, s)
    ensures var s' := Step(window, s, Poll(now, analyse)); forall t :: t in s'.alerts ==> Grounded(t, s')
  {
    hide Invariant, Expected, TickLive, TickAlerts, RegisterAll;
    var s' := Step(window, s, Poll(now, analyse));
    var all := PolledEvents(window, s, start);
    TickIsGenuine(all, analyse);
    forall t | t in s'.alerts
      ensures Grounded(t, s')
    {
      if t in s.alerts {
        var j, i :| 0 <= j < |s.polls| && FirstDetected(s.polls[j].analyse(t.event), i, t.regression);
        assert s'.polls[j] == s.polls[j];
      } else {
        assert Genuine(t, all, analyse);
        var i :| 0 <= i < |all| && all[i].ev == t.event;
        assert s'.polls[|s.polls|].analyse == analyse;
      }
    }
  }

  /** What a poll analyses are drained events. */
  lemma PolledEvents(window: int, s: State, start: nat) returns (all: seq<PendingEvent>)
    requires Invariant(window, s, start)
    ensures all == s.pending + RegisterAll(if s.cursor >= |s.events| then [] else s.events[s.cursor..], window)
    ensures AllFrom(all, s.drained + if s.cursor >= |s.events| then [] else s.events[s.cursor..])
  {
    hide Alive, Seen, Due, RegisterAll, Expected, AllFrom;
    var n := |s.events|;
    var batch := if s.cursor >= n then [] else s.events[s.cursor..];
    all := s.pending + RegisterAll(batch, window);
    assert s.events[s.cursor..n] == batch;
    RegisteredIsExpected(window, s.events, s.polls, start, s.cursor, n);
    ExpectedEvents(window, s.events, s.polls, start, n);
    assert s.drained + batch == s.events[start..n];
  }

  ghost predicate AllFrom(pending: seq<PendingEvent>, events: seq<DeployEvent>) {
    forall i :: 0 <= i < |pending| ==> pending[i].ev in events
  }

  lemma {:induction false} ExpectedEvents(window: int, events: seq<DeployEvent>, polls: seq<PollRecord>, lo: nat,
                                          hi: nat)
    requires lo <= hi <= |events|
    ensures AllFrom(Expected(window, events, polls, lo, hi), events[lo..hi])
    decreases hi
  {
    hide Alive, Seen;
    if lo < hi {
      ExpectedEvents(window, events, polls, lo, hi - 1);
      assert events[lo..hi] == events[lo..hi - 1] + [events[hi - 1]];
      MoreFrom(Expected(window, events, polls, lo, hi - 1), events[lo..hi - 1], events[hi - 1]);
    }
  }

  lemma MoreFrom(pending: seq<PendingEvent>, events: seq<DeployEvent>, ev: DeployEvent)
    requires AllFrom(pending, events)
    ensures AllFrom(pending, events + [ev]) && ev in events + [ev]
  {
  }
}
