/** PendingSet: deploy events kept under re-analysis until their post-deploy window has elapsed. */
module Pending {
  import opened Types

  datatype PendingEvent = PendingEvent(ev: DeployEvent, deadline: int, notified: set<int>)

  datatype TickResult = TickResult(event: DeployEvent, regression: Regression)

  /** What the engine answers for an event; arbitrary, and asked anew on every tick. */
  type Analyse = DeployEvent -> seq<Regression>

  /** The queries found Detected in one answer. */
  function DetectedIDs(rs: seq<Regression>): set<int> {
    if rs == [] then {} else
    DetectedIDs(rs[..|rs| - 1]) + if rs[|rs| - 1].status == Detected then {rs[|rs| - 1].queryID} else {}
  }

  lemma {:induction false} DetectedMeans(rs: seq<Regression>, q: int)
    ensures q in DetectedIDs(rs) <==> exists i :: 0 <= i < |rs| && rs[i].queryID == q && rs[i].status == Detected
  {
    if rs != [] {
      var m := |rs| - 1;
      DetectedMeans(rs[..m], q);
      assert forall i :: 0 <= i < m ==> rs[..m][i] == rs[i];
    }
  }

  /** The first Detected result of each query not notified before, in order. */
  function Fresh(ev: DeployEvent, rs: seq<Regression>, notified: set<int>): seq<TickResult> {
    if rs == [] then [] else
    var init, r := rs[..|rs| - 1], rs[|rs| - 1];
    Fresh(ev, init, notified)
    + if r.status == Detected && r.queryID !in notified + DetectedIDs(init) then [TickResult(ev, r)] else []
  }

  function TickAlerts(pending: seq<PendingEvent>, analyse: Analyse): seq<TickResult> {
    if pending == [] then [] else
    var pe := pending[|pending| - 1];
    TickAlerts(pending[..|pending| - 1], analyse) + Fresh(pe.ev, analyse(pe.ev), pe.notified)
  }

  /** The event with the queries of this tick's answer marked as notified. */
  function Marked(pe: PendingEvent, analyse: Analyse): PendingEvent {
    pe.(notified := pe.notified + DetectedIDs(analyse(pe.ev)))
  }

  function TickLive(pending: seq<PendingEvent>, now: int, analyse: Analyse): seq<PendingEvent> {
    if pending == [] then [] else
    var pe := pending[|pending| - 1];
    TickLive(pending[..|pending| - 1], now, analyse) + if now < pe.deadline then [Marked(pe, analyse)] else []
  }

  function Register(ev: DeployEvent, window: int): PendingEvent {
    PendingEvent(ev, ev.timestamp + window, {})
  }

  lemma TickNone(pending: seq<PendingEvent>, now: int, analyse: Analyse)
    ensures TickLive(pending[..0], now, analyse) == [] && TickAlerts(pending[..0], analyse) == []
  {
  }

  /** Appends to the survivors, which share the buffer with the events still to be looked at. */
  method PutBack(buf: array<PendingEvent>, live: nat, pe: PendingEvent)
    requires live < buf.Length
    modifies buf
    ensures buf[..live + 1] == old(buf[..live]) + [pe]
    ensures forall k :: live < k < buf.Length ==> buf[k] == old(buf[k])
  {
    buf[live] := pe;
  }

  lemma TickStep(pending: seq<PendingEvent>, i: nat, now: int, analyse: Analyse)
    requires i < |pending|
    ensures TickLive(pending[..i + 1], now, analyse)
            == TickLive(pending[..i], now, analyse) + if now < pending[i].deadline then [Marked(pending[i], analyse)] else []
    ensures TickAlerts(pending[..i + 1], analyse)
            == TickAlerts(pending[..i], analyse) + Fresh(pending[i].ev, analyse(pending[i].ev), pending[i].notified)
  {
    assert pending[..i + 1][..i] == pending[..i];
  }

  class PendingSet {
    const window: int
    var buf: array<PendingEvent>
    var len: nat

    ghost predicate Valid()
      reads this
    {
      len <= buf.Length
    }

    ghost function Contents(): seq<PendingEvent>
      requires Valid()
      reads this, buf
    {
      buf[..len]
    }

    constructor (window: int)
      ensures Valid() && fresh(buf) && Contents() == [] && this.window == window
    {
      this.window := window;
      buf := new PendingEvent[0];
      len := 0;
    }

    method Add(ev: DeployEvent)
      requires Valid()
      modifies this, buf
      ensures Valid() && (buf == old(buf) || fresh(buf))
      ensures Contents() == old(Contents()) + [Register(ev, window)]
    {
      if len == buf.Length {
        var grown := new PendingEvent[2 * len + 1](i requires 0 <= i reads this, buf =>
          if i < len <= buf.Length then buf[i] else Register(ev, window));
        assert grown[..len] == buf[..len];
        buf := grown;
      }
      buf[len] := Register(ev, window);
      len := len + 1;
    }

    /** Re-analyses every pending event and compacts the survivors to the front of the same buffer. */
    method Tick(now: int, analyse: Analyse) returns (detected: seq<TickResult>)
      requires Valid()
      modifies this`len, buf
      ensures Valid()
      ensures detected == TickAlerts(old(Contents()), analyse)
      ensures Contents() == TickLive(old(Contents()), now, analyse)
    {
      hide TickLive, TickAlerts, Fresh, DetectedIDs;
      ghost var before := buf[..len];
      TickNone(before, now, analyse);
      detected := [];
      var live, n := 0, len;
      for i := 0 to n
        modifies buf
        invariant live <= i
        invariant buf[..live] == TickLive(before[..i], now, analyse)
        invariant detected == TickAlerts(before[..i], analyse)
        invariant forall k :: i <= k < n ==> buf[k] == before[k]
      {
        var pe := buf[i];
        TickStep(before, i, now, analyse);
        var fresh', notified := Sift(pe, analyse(pe.ev));
        detected := detected + fresh';
        if now < pe.deadline {
          PutBack(buf, live, pe.(notified := notified));
          live := live + 1;
        }
      }
      assert before[..n] == before;
      len := live;
    }

    /** The inner loop over one answer. */
    method Sift(pe: PendingEvent, results: seq<Regression>) returns (detected: seq<TickResult>, notified: set<int>)
      ensures detected == Fresh(pe.ev, results, pe.notified)
      ensures notified == pe.notified + DetectedIDs(results)
    {
      detected, notified := [], pe.notified;
      for j := 0 to |results|
        invariant detected == Fresh(pe.ev, results[..j], pe.notified)
        invariant notified == pe.notified + DetectedIDs(results[..j])
      {
        var r := results[j];
        assert results[..j + 1][..j] == results[..j];
        if r.status == Detected && r.queryID !in notified {
          notified := notified + {r.queryID};
          detected := detected + [TickResult(pe.ev, r)];
        }
      }
      assert results[..|results|] == results;
    }
  }

  // ----- what one tick reports -----

  /** How often the pair of event ID and query ID occurs. */
  ghost function Count(alerts: seq<TickResult>, id: string, q: int): nat {
    if alerts == [] then 0 else
    Count(alerts[..|alerts| - 1], id, q)
    + if alerts[|alerts| - 1].event.id == id && alerts[|alerts| - 1].regression.queryID == q then 1 else 0
  }

  lemma {:induction false} CountConcat(a: seq<TickResult>, b: seq<TickResult>, id: string, q: int)
    ensures Count(a + b, id, q) == Count(a, id, q) + Count(b, id, q)
    decreases |b|
  {
    if b == [] {
      assert a + b == a;
    } else {
      assert (a + b)[..|a + b| - 1] == a + b[..|b| - 1];
      CountConcat(a, b[..|b| - 1], id, q);
    }
  }

  /** One answer reports a query exactly once if it finds it Detected for the first time, else not at all. */
  lemma {:induction false} FreshCount(ev: DeployEvent, rs: seq<Regression>, notified: set<int>, id: string, q: int)
    ensures Count(Fresh(ev, rs, notified), id, q)
            == if id == ev.id && q in DetectedIDs(rs) && q !in notified then 1 else 0
  {
    if rs != [] {
      var init, r := rs[..|rs| - 1], rs[|rs| - 1];
      FreshCount(ev, init, notified, id, q);
      CountOne(TickResult(ev, r), id, q);
      CountConcat(Fresh(ev, init, notified), [TickResult(ev, r)], id, q);
      assert Fresh(ev, init, notified) + [] == Fresh(ev, init, notified);
    }
  }

  lemma CountOne(a: TickResult, id: string, q: int)
    ensures Count([a], id, q) == if a.event.id == id && a.regression.queryID == q then 1 else 0
  {
  }

  lemma {:induction false} FreshIsGenuine(ev: DeployEvent, rs: seq<Regression>, notified: set<int>)
    ensures forall t :: t in Fresh(ev, rs, notified) ==> t.event == ev && exists i :: FirstDetected(rs, i, t.regression)
  {
    if rs != [] {
      var m := |rs| - 1;
      FreshIsGenuine(ev, rs[..m], notified);
      DetectedMeans(rs[..m], rs[m].queryID);
      forall t | t in Fresh(ev, rs, notified)
        ensures t.event == ev && exists i :: FirstDetected(rs, i, t.regression)
      {
        if t in Fresh(ev, rs[..m], notified) {
          var i :| FirstDetected(rs[..m], i, t.regression);
          assert FirstDetected(rs, i, t.regression);
        } else {
          assert FirstDetected(rs, m, rs[m]) by {
            assert forall j :: 0 <= j < m ==> rs[..m][j] == rs[j];
          }
        }
      }
    }
  }

  /** r is the i-th result, Detected, and no earlier one finds the same query Detected. */
  ghost predicate FirstDetected(rs: seq<Regression>, i: int, r: Regression) {
    && 0 <= i < |rs| && rs[i] == r && r.status == Detected
    && forall j :: 0 <= j < i ==> !(rs[j].queryID == r.queryID && rs[j].status == Detected)
  }

  /** t reports a Detected result of the engine's answer for an event of the list. */
  ghost predicate Genuine(t: TickResult, pending: seq<PendingEvent>, analyse: Analyse) {
    && (exists i :: FirstDetected(analyse(t.event), i, t.regression))
    && exists i :: 0 <= i < |pending| && pending[i].ev == t.event
  }

  lemma {:induction false} TickIsGenuine(pending: seq<PendingEvent>, analyse: Analyse)
    ensures forall t :: t in TickAlerts(pending, analyse) ==> Genuine(t, pending, analyse)
  {
    if pending != [] {
      var m := |pending| - 1;
      TickIsGenuine(pending[..m], analyse);
      FreshIsGenuine(pending[m].ev, analyse(pending[m].ev), pending[m].notified);
      forall t | t in TickAlerts(pending, analyse)
        ensures Genuine(t, pending, analyse)
      {
        if t in TickAlerts(pending[..m], analyse) {
          var i :| 0 <= i < m && pending[..m][i].ev == t.event;
          assert pending[i].ev == t.event;
        } else {
          assert pending[m].ev == t.event;
        }
      }
    }
  }
}
