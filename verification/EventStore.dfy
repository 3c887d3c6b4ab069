/** ingester.Store: deploy events in arrival order, an index of them by timestamp, and the IDs already
    present. */
module EventStore {
  import opened Sequences
  import opened Types

  // ----- arrival order -----

  predicate HasID(events: seq<DeployEvent>, id: string) {
    exists i :: 0 <= i < |events| && events[i].id == id
  }

  /** First write wins. */
  function AddEvent(events: seq<DeployEvent>, ev: DeployEvent): seq<DeployEvent> {
    if HasID(events, ev.id) then events else events + [ev]
  }

  function AddAll(events: seq<DeployEvent>, batch: seq<DeployEvent>): seq<DeployEvent> {
    if batch == [] then events else
    AddEvent(AddAll(events, batch[..|batch| - 1]), batch[|batch| - 1])
  }

  ghost predicate DistinctIDs(events: seq<DeployEvent>) {
    forall i, j :: 0 <= i < j < |events| ==> events[i].id != events[j].id
  }

  lemma AddKeepsDistinct(events: seq<DeployEvent>, ev: DeployEvent)
    requires DistinctIDs(events)
    ensures DistinctIDs(AddEvent(events, ev))
  {
  }

  lemma {:induction false} AddAllKeepsDistinct(events: seq<DeployEvent>, batch: seq<DeployEvent>)
    requires DistinctIDs(events)
    ensures DistinctIDs(AddAll(events, batch)) && events <= AddAll(events, batch)
    ensures forall ev :: ev in batch ==> HasID(AddAll(events, batch), ev.id)
  {
    if batch != [] {
      var m := |batch| - 1;
      var sofar := AddAll(events, batch[..m]);
      AddAllKeepsDistinct(events, batch[..m]);
      AddKeepsDistinct(sofar, batch[m]);
      forall ev | ev in batch
        ensures HasID(AddAll(events, batch), ev.id)
      {
        if ev in batch[..m] {
          HasIDGrows(sofar, batch[m], ev.id);
        } else {
          assert ev == batch[m];
          NowHasID(sofar, ev);
        }
      }
    }
  }

  /** The batch's i-th event is new: neither stored before nor preceded in the batch by one with its ID. */
  ghost predicate NewAt(events: seq<DeployEvent>, batch: seq<DeployEvent>, i: int) {
    && 0 <= i < |batch| && (forall k :: 0 <= k < |events| ==> events[k].id != batch[i].id)
    && (forall j :: 0 <= j < i ==> batch[j].id != batch[i].id)
  }

  ghost predicate DeliveredNew(events: seq<DeployEvent>, batch: seq<DeployEvent>, ev: DeployEvent) {
    exists i :: NewAt(events, batch, i) && batch[i] == ev
  }

  /** What is stored is what was delivered: what was there before, and the first delivery of every new ID. */
  lemma {:induction false} StoredAsDelivered(events: seq<DeployEvent>, batch: seq<DeployEvent>, ev: DeployEvent)
    ensures ev in AddAll(events, batch) <==> ev in events || DeliveredNew(events, batch, ev)
  {
    if batch != [] {
      hide HasID, NewAt, DeliveredNew;
      var m := |batch| - 1;
      StoredAsDelivered(events, batch[..m], ev);
      IDsDelivered(events, batch[..m], batch[m].id);
      OneMoreDelivery(events, batch[..m], batch[m], ev);
      assert batch == batch[..m] + [batch[m]];
    } else {
      assert !DeliveredNew(events, batch, ev);
    }
  }

  lemma OneMoreDelivery(events: seq<DeployEvent>, batch: seq<DeployEvent>, x: DeployEvent, ev: DeployEvent)
    ensures DeliveredNew(events, batch + [x], ev)
            <==> DeliveredNew(events, batch, ev) || (ev == x && !HasID(events, x.id) && !HasID(batch, x.id))
  {
    var m, more := |batch|, batch + [x];
    assert forall i :: 0 <= i < m ==> more[i] == batch[i];
    assert more[m] == x;
    if DeliveredNew(events, batch, ev) {
      var i :| NewAt(events, batch, i) && batch[i] == ev;
      assert NewAt(events, more, i);
    }
    if DeliveredNew(events, more, ev) {
      var i :| NewAt(events, more, i) && more[i] == ev;
      if i < m {
        assert NewAt(events, batch, i);
      } else {
        NotBefore(events, batch, x);
      }
    }
    if !HasID(events, x.id) && !HasID(batch, x.id) {
      assert NewAt(events, more, m);
    }
  }

  lemma NotBefore(events: seq<DeployEvent>, batch: seq<DeployEvent>, x: DeployEvent)
    requires NewAt(events, batch + [x], |batch|)
    ensures !HasID(events, x.id) && !HasID(batch, x.id)
  {
    var more := batch + [x];
    assert forall j :: 0 <= j < |batch| ==> more[j] == batch[j];
  }

  lemma {:induction false} IDsDelivered(events: seq<DeployEvent>, batch: seq<DeployEvent>, id: string)
    ensures HasID(AddAll(events, batch), id) <==> HasID(events, id) || HasID(batch, id)
  {
    if batch != [] {
      var m := |batch| - 1;
      IDsDelivered(events, batch[..m], id);
      NewID(AddAll(events, batch[..m]), batch[m]);
      NewID(batch[..m], batch[m]);
      assert batch == batch[..m] + [batch[m]];
    }
  }

  lemma HasIDGrows(events: seq<DeployEvent>, ev: DeployEvent, id: string)
    requires HasID(events, id)
    ensures HasID(AddEvent(events, ev), id)
  {
    var i :| 0 <= i < |events| && events[i].id == id;
    assert AddEvent(events, ev)[i].id == id;
  }

  lemma NowHasID(events: seq<DeployEvent>, ev: DeployEvent)
    ensures HasID(AddEvent(events, ev), ev.id)
  {
    if !HasID(events, ev.id) {
      assert (events + [ev])[|events|].id == ev.id;
    }
  }

  // ----- the time index -----

  function AtTime(t: int): DeployEvent -> bool { (ev: DeployEvent) => ev.timestamp == t }

  function Within(from: int, to: int): DeployEvent -> bool { (ev: DeployEvent) => from <= ev.timestamp <= to }

  /** sorted holds the same events as events, by timestamp, those of equal timestamp in arrival order. */
  ghost predicate StableSortOf(sorted: seq<DeployEvent>, events: seq<DeployEvent>) {
    SortedBy(sorted, Timestamp) && SameFilters(sorted, events)
  }

  /** There is only one stable sort, so the index is determined by the arrival order alone. */
  lemma {:induction false} StableSortIsUnique(a: seq<DeployEvent>, b: seq<DeployEvent>, events: seq<DeployEvent>)
    requires StableSortOf(a, events) && StableSortOf(b, events)
    ensures a == b
  {
    SameFiltersSameSort(a, b);
  }

  lemma {:induction false} SameFiltersSameSort(a: seq<DeployEvent>, b: seq<DeployEvent>)
    requires SortedBy(a, Timestamp) && SortedBy(b, Timestamp) && SameFilters(a, b)
    ensures a == b
    decreases |a|
  {
    hide Filter;
    if a != [] && b != [] {
      var a', x := a[..|a| - 1], a[|a| - 1];
      var b', y := b[..|b| - 1], b[|b| - 1];
      LastSurvives(a);
      LastSurvives(b);
      LastIsLatest(a, b);
      LastIsLatest(b, a);
      assert x == y by { assert Filter(a, AtTime(x.timestamp)) == Filter(b, AtTime(x.timestamp)); }
      DropLast(a, b, x);
      SameFiltersSameSort(a', b');
      assert a == a' + [x] && b == b' + [y];
    } else if a != [] {
      LastSurvives(a);
      NothingKept(AtTime(a[|a| - 1].timestamp));
    } else if b != [] {
      LastSurvives(b);
      NothingKept(AtTime(b[|b| - 1].timestamp));
    }
  }

  ghost predicate SameFilters(a: seq<DeployEvent>, b: seq<DeployEvent>) {
    forall t :: Filter(a, AtTime(t)) == Filter(b, AtTime(t))
  }

  lemma NothingKept(p: DeployEvent -> bool)
    ensures Filter([], p) == []
  {
  }

  lemma DropLast(a: seq<DeployEvent>, b: seq<DeployEvent>, x: DeployEvent)
    requires a != [] && b != [] && a[|a| - 1] == b[|b| - 1] == x && SameFilters(a, b)
    ensures SameFilters(a[..|a| - 1], b[..|b| - 1])
  {
    hide Filter;
    var a', b' := a[..|a| - 1], b[..|b| - 1];
    forall t
      ensures Filter(a', AtTime(t)) == Filter(b', AtTime(t))
    {
      var p := AtTime(t);
      FilterLast(a, p);
      FilterLast(b, p);
      var fa, fb := Filter(a, p), Filter(b, p);
      assert fa == fb;
      var n := if p(x) then |fa| - 1 else |fa|;
      assert Filter(a', p) == fa[..n] && Filter(b', p) == fb[..n];
    }
  }

  lemma LastSurvives(s: seq<DeployEvent>)
    requires s != []
    ensures var x := s[|s| - 1]; var kept := Filter(s, AtTime(x.timestamp));
      kept != [] && kept[|kept| - 1] == x
  {
  }

  /** The last event of one is not after the last event of the other. */
  lemma LastIsLatest(a: seq<DeployEvent>, b: seq<DeployEvent>)
    requires a != [] && b != [] && SortedBy(b, Timestamp) && SameFilters(a, b)
    ensures a[|a| - 1].timestamp <= b[|b| - 1].timestamp
  {
    hide Filter;
    var t := a[|a| - 1].timestamp;
    LastSurvives(a);
    var kept := Filter(b, AtTime(t));
    FilterMembers(b, AtTime(t));
    assert kept[|kept| - 1] in kept;
    var i :| 0 <= i < |b| && b[i] == kept[|kept| - 1];
    assert Timestamp(b[i]) <= Timestamp(b[|b| - 1]);
  }

  lemma {:induction false} FilterCommutes<T>(s: seq<T>, p: T -> bool, q: T -> bool)
    ensures Filter(Filter(s, p), q) == Filter(Filter(s, q), p)
  {
    if s != [] {
      var s', x := s[..|s| - 1], s[|s| - 1];
      FilterCommutes(s', p, q);
      FilterSnoc(Filter(s', p), x, q);
      FilterSnoc(Filter(s', q), x, p);
      assert Filter(s', p) + [] == Filter(s', p) && Filter(s', q) + [] == Filter(s', q);
    }
  }

  /** Selecting from the stable sort is the stable sort of the selection. */
  lemma SelectionOfStableSort(sorted: seq<DeployEvent>, events: seq<DeployEvent>, p: DeployEvent -> bool)
    requires StableSortOf(sorted, events)
    ensures StableSortOf(Filter(sorted, p), Filter(events, p))
  {
    hide Filter;
    FilterSorted(sorted, p, Timestamp);
    forall t
      ensures Filter(Filter(sorted, p), AtTime(t)) == Filter(Filter(events, p), AtTime(t))
    {
      FilterCommutes(sorted, p, AtTime(t));
      FilterCommutes(events, p, AtTime(t));
    }
  }

  /** Inserting after the last event not later keeps the index the stable sort. */
  lemma InsertKeepsStableSort(sorted: seq<DeployEvent>, events: seq<DeployEvent>, ev: DeployEvent, pos: nat)
    requires StableSortOf(sorted, events) && pos <= |sorted|
    requires pos > 0 ==> sorted[pos - 1].timestamp <= ev.timestamp
    requires pos < |sorted| ==> sorted[pos].timestamp > ev.timestamp
    ensures StableSortOf(sorted[..pos] + [ev] + sorted[pos..], events + [ev])
  {
    hide Filter;
    var lo, hi := sorted[..pos], sorted[pos..];
    SortedConcat(lo, [ev], Timestamp);
    SortedConcat(lo + [ev], hi, Timestamp);
    forall t
      ensures Filter(lo + [ev] + hi, AtTime(t)) == Filter(events + [ev], AtTime(t))
    {
      assert Filter(sorted, AtTime(t)) == Filter(events, AtTime(t));
      InsertedAtTime(sorted, ev, pos, t);
      FilterSnoc(events, ev, AtTime(t));
    }
  }

  lemma InsertedAtTime(sorted: seq<DeployEvent>, ev: DeployEvent, pos: nat, t: int)
    requires SortedBy(sorted, Timestamp) && pos <= |sorted|
    requires pos < |sorted| ==> sorted[pos].timestamp > ev.timestamp
    ensures Filter(sorted[..pos] + [ev] + sorted[pos..], AtTime(t))
            == Filter(sorted, AtTime(t)) + if ev.timestamp == t then [ev] else []
  {
    hide Filter, SortedBy;
    var lo, hi, p := sorted[..pos], sorted[pos..], AtTime(t);
    FilterInsert(lo, ev, hi, p);
    if t == ev.timestamp {
      LaterOnly(sorted, pos, t);
      FilterCut(sorted, pos, p);
    } else {
      FilterConcat(lo, hi, p);
      assert sorted == lo + hi;
      assert Filter(lo, p) + [] == Filter(lo, p);
    }
  }

  lemma LaterOnly(sorted: seq<DeployEvent>, pos: nat, t: int)
    requires SortedBy(sorted, Timestamp) && pos <= |sorted|
    requires pos < |sorted| ==> sorted[pos].timestamp > t
    ensures forall i :: pos <= i < |sorted| ==> sorted[i].timestamp > t
  {
  }

  class Store {
    var events: seq<DeployEvent>
    var byTime: seq<DeployEvent>
    var ids: set<string>

    ghost predicate Valid()
      reads this
    {
      && DistinctIDs(events)
      && (forall id :: id in ids <==> HasID(events, id))
      && StableSortOf(byTime, events)
    }

    constructor ()
      ensures Valid() && events == []
    {
      events, byTime, ids := [], [], {};
    }

    method Add(ev: DeployEvent)
      requires Valid()
      modifies this
      ensures Valid() && events == AddEvent(old(events), ev)
    {
      if ev.id in ids {
        return;
      }
      Append(ev);
    }

    /** The body shared by Add and Backfill once the ID is known to be new. */
    method Append(ev: DeployEvent)
      requires Valid() && !HasID(events, ev.id)
      modifies this
      ensures Valid() && events == old(events) + [ev]
    {
      NewID(events, ev);
      AddKeepsDistinct(events, ev);
      ids := ids + {ev.id};
      events := events + [ev];
      InsertByTime(ev);
    }

    method InsertByTime(ev: DeployEvent)
      requires events != [] && events[|events| - 1] == ev
      requires StableSortOf(byTime, events[..|events| - 1])
      modifies this`byTime
      ensures StableSortOf(byTime, events)
    {
      var at := ev.timestamp;
      var pos := SearchFirst(byTime, (e: DeployEvent) => e.timestamp > at);
      InsertKeepsStableSort(byTime, events[..|events| - 1], ev, pos);
      assert events == events[..|events| - 1] + [ev];
      byTime := byTime[..pos] + [ev] + byTime[pos..];
    }

    /** Loads history and returns the cursor just past it. */
    method Backfill(batch: seq<DeployEvent>) returns (cursor: nat)
      requires Valid()
      modifies this
      ensures Valid() && events == AddAll(old(events), batch) && cursor == |events|
    {
      for i := 0 to |batch|
        invariant Valid() && events == AddAll(old(events), batch[..i])
      {
        assert batch[..i + 1][..i] == batch[..i];
        if batch[i].id !in ids {
          Append(batch[i]);
        }
      }
      assert batch[..|batch|] == batch;
      cursor := |events|;
    }

    /** The events in the closed interval, by timestamp. */
    method EventsInRange(from: int, to: int) returns (result: seq<DeployEvent>)
      requires Valid()
      ensures result == Filter(byTime, Within(from, to))
      ensures StableSortOf(result, Filter(events, Within(from, to)))
      ensures forall ev :: ev in result <==> ev in events && from <= ev.timestamp <= to
    {
      hide Filter;
      var lo := SearchFirst(byTime, (e: DeployEvent) => !(e.timestamp < from));
      var j := lo;
      result := [];
      NoneBefore(byTime, lo, from, to);
      while j < |byTime| && !(byTime[j].timestamp > to)
        invariant lo <= j <= |byTime|
        invariant result == Filter(byTime[..j], Within(from, to))
      {
        assert Timestamp(byTime[lo]) <= Timestamp(byTime[j]);
        FilterLast(byTime[..j + 1], Within(from, to));
        assert byTime[..j + 1][..j] == byTime[..j];
        result := result + [byTime[j]];
        j := j + 1;
      }
      NoneAfter(byTime, j, from, to);
      SelectionOfStableSort(byTime, events, Within(from, to));
      SameMembers(byTime, events);
      FilterMembers(byTime, Within(from, to));
    }

    /** The events that arrived after the cursor, and the cursor past them. */
    method DrainSince(cursor: nat) returns (batch: seq<DeployEvent>, next: nat)
      ensures batch == if cursor >= |events| then [] else events[cursor..]
      ensures next == if cursor >= |events| then cursor else |events|
    {
      if cursor >= |events| {
        return [], cursor;
      }
      return events[cursor..], |events|;
    }
  }

  lemma SameMembers(sorted: seq<DeployEvent>, events: seq<DeployEvent>)
    requires StableSortOf(sorted, events)
    ensures forall ev :: ev in sorted <==> ev in events
  {
    hide Filter;
    forall ev: DeployEvent
      ensures ev in sorted <==> ev in events
    {
      FilterMembers(sorted, AtTime(ev.timestamp));
      FilterMembers(events, AtTime(ev.timestamp));
      assert Filter(sorted, AtTime(ev.timestamp)) == Filter(events, AtTime(ev.timestamp));
    }
  }

  lemma NewID(events: seq<DeployEvent>, ev: DeployEvent)
    ensures forall id :: HasID(events + [ev], id) <==> HasID(events, id) || id == ev.id
  {
    forall id
      ensures HasID(events + [ev], id) <==> HasID(events, id) || id == ev.id
    {
      assert (events + [ev])[|events|].id == ev.id;
      if HasID(events, id) {
        var i :| 0 <= i < |events| && events[i].id == id;
        assert (events + [ev])[i].id == id;
      }
    }
  }

  lemma NoneBefore(sorted: seq<DeployEvent>, lo: nat, from: int, to: int)
    requires SortedBy(sorted, Timestamp) && lo <= |sorted|
    requires lo > 0 ==> sorted[lo - 1].timestamp < from
    ensures Filter(sorted[..lo], Within(from, to)) == []
  {
    assert forall i :: 0 <= i < lo ==> Timestamp(sorted[i]) <= Timestamp(sorted[lo - 1]);
    FilterAll(sorted[..lo], Within(from, to));
  }

  lemma NoneAfter(sorted: seq<DeployEvent>, j: nat, from: int, to: int)
    requires SortedBy(sorted, Timestamp) && j <= |sorted|
    requires j < |sorted| ==> sorted[j].timestamp > to
    ensures Filter(sorted, Within(from, to)) == Filter(sorted[..j], Within(from, to))
  {
    hide Filter, SortedBy;
    LaterOnly(sorted, j, to);
    FilterCut(sorted, j, Within(from, to));
  }
}
