/** The native backend of the file watcher: a bounded queue of raw events and a table of watches. */
module WatchBackend {
  import opened Wrappers
  import opened Bits
  import opened CStrings

  type Text = seq<Byte>

  datatype Event = Event(name: string, watched: Text, path: Text)
  datatype Watch = Watch(id: nat, wd: nat, path: Text)

  /** What the kernel reports: a watch descriptor and the name of the file inside it, if any, padded with NULs. */
  datatype Record = Record(wd: nat, name: Text)

  const MAX_EVENTS := 1024
  const MAX_WATCHES := 256
  const OVERFLOW := Event("overflow", [], [])
  const NOTHING := Event("", [], [])

  function Kept(arrived: seq<Event>): seq<Event> {
    if |arrived| <= MAX_EVENTS then arrived else arrived[..MAX_EVENTS]
  }

  /** What one drain reports: everything that arrived, or what fitted and a mark that the rest is lost. */
  function Reported(arrived: seq<Event>): seq<Event> {
    if |arrived| <= MAX_EVENTS then arrived else arrived[..MAX_EVENTS] + [OVERFLOW]
  }

  function FirstByWd(watches: seq<Watch>, wd: nat): (r: Option<nat>)
    ensures r.None? ==> forall i | 0 <= i < |watches| :: watches[i].wd != wd
    ensures r.Some? ==> r.value < |watches| && watches[r.value].wd == wd
    ensures r.Some? ==> forall i | 0 <= i < r.value :: watches[i].wd != wd
  {
    if watches == [] then None
    else if watches[0].wd == wd then Some(0)
    else match FirstByWd(watches[1..], wd)
      case None => None
      case Some(i) => Some(i + 1)
  }

  /** The events made of the kernel's records: those that belong to a watch, in order. */
  function Matched(watches: seq<Watch>, records: seq<Record>): seq<Event> {
    if records == [] then []
    else Matched(watches, records[..|records| - 1]) + EventsOf(watches, records[|records| - 1])
  }

  function EventsOf(watches: seq<Watch>, r: Record): seq<Event> {
    var i := FirstByWd(watches, r.wd);
    if i.Some? then [Event("change", watches[i.value].path, CText(r.name))] else []
  }

  predicate Known(watches: seq<Watch>, wd: nat) { exists i | 0 <= i < |watches| :: watches[i].wd == wd }

  /** The event is the one that the record makes: below the path of the first entry with its descriptor. */
  ghost predicate MadeBy(watches: seq<Watch>, r: Record, e: Event) {
    exists i: nat :: FirstEntry(watches, r, i, e)
  }

  lemma OneRecord(watches: seq<Watch>, r: Record)
    ensures if Known(watches, r.wd) then |EventsOf(watches, r)| == 1 && MadeBy(watches, r, EventsOf(watches, r)[0])
            else EventsOf(watches, r) == []
  {
    var i := FirstByWd(watches, r.wd);
    if i.Some? { assert FirstEntry(watches, r, i.value, EventsOf(watches, r)[0]); }
  }

  /** Where the events made of the first `n` records come from. */
  ghost predicate Sources(watches: seq<Watch>, records: seq<Record>, n: nat, source: seq<nat>, es: seq<Event>) {
    && n <= |records| && |source| == |es|
    && (forall j, k | 0 <= j < k < |source| :: source[j] < source[k])
    && (forall j | 0 <= j < |source| :: source[j] < n && MadeBy(watches, records[source[j]], es[j]))
    && (forall k | 0 <= k < n :: k in source <==> Known(watches, records[k].wd))
  }

  lemma OneSourceMore(watches: seq<Watch>, records: seq<Record>, n: nat, source: seq<nat>, es: seq<Event>, e: Event)
    requires Sources(watches, records, n, source, es) && n < |records| && Known(watches, records[n].wd)
    requires MadeBy(watches, records[n], e)
    ensures Sources(watches, records, n + 1, source + [n], es + [e])
  {
    assert (source + [n])[|source|] == n;
  }

  lemma NoSourceMore(watches: seq<Watch>, records: seq<Record>, n: nat, source: seq<nat>, es: seq<Event>)
    requires Sources(watches, records, n, source, es) && n < |records| && !Known(watches, records[n].wd)
    ensures Sources(watches, records, n + 1, source, es)
  {
  }

  lemma {:induction false} SourcesOf(watches: seq<Watch>, records: seq<Record>, n: nat) returns (source: seq<nat>)
    requires n <= |records|
    ensures Sources(watches, records, n, source, Matched(watches, records[..n]))
  {
    source := [];
    if n > 0 {
      var before := SourcesOf(watches, records, n - 1);
      var es := Matched(watches, records[..n - 1]);
      MatchedStep(watches, records, n - 1);
      OneRecord(watches, records[n - 1]);
      if Known(watches, records[n - 1].wd) {
        var e := EventsOf(watches, records[n - 1])[0];
        assert EventsOf(watches, records[n - 1]) == [e];
        OneSourceMore(watches, records, n - 1, before, es, e);
        source := before + [n - 1];
      } else {
        assert Matched(watches, records[..n]) == es;
        NoSourceMore(watches, records, n - 1, before, es);
        source := before;
      }
    }
  }

  /**
    * The records that make events are those whose descriptor is in the table, in their order.  Each makes one event,
    * a change below the path of the first entry with that descriptor, of the file that the record names.
    */
  lemma EventsAre(watches: seq<Watch>, records: seq<Record>) returns (source: seq<nat>, entry: seq<nat>)
    ensures |source| == |entry| == |Matched(watches, records)|
    ensures forall j, k | 0 <= j < k < |source| :: source[j] < source[k]
    ensures forall j | 0 <= j < |source| :: source[j] < |records| && entry[j] < |watches|
    ensures forall k | 0 <= k < |records| ::
      k in source <==> exists i | 0 <= i < |watches| :: watches[i].wd == records[k].wd
    ensures forall j | 0 <= j < |source| :: var w, r := watches[entry[j]], records[source[j]];
      w.wd == r.wd && Matched(watches, records)[j] == Event("change", w.path, CText(r.name))
    ensures forall j, h | 0 <= j < |source| && 0 <= h < entry[j] :: watches[h].wd != records[source[j]].wd
  {
    source := SourcesOf(watches, records, |records|);
    var es := Matched(watches, records);
    assert records[..|records|] == records;
    entry := [];
    while |entry| < |source|
      invariant |entry| <= |source| && forall j | 0 <= j < |entry| ::
        FirstEntry(watches, records[source[j]], entry[j], es[j])
    {
      var i := EntryOf(watches, records[source[|entry|]], es[|entry|]);
      entry := entry + [i];
    }
    assert forall k | 0 <= k < |records| :: k in source <==> Known(watches, records[k].wd);
  }

  predicate FirstEntry(watches: seq<Watch>, r: Record, i: nat, e: Event) {
    i < |watches| && watches[i].wd == r.wd && (forall h | 0 <= h < i :: watches[h].wd != r.wd)
    && e == Event("change", watches[i].path, CText(r.name))
  }

  lemma EntryOf(watches: seq<Watch>, r: Record, e: Event) returns (i: nat)
    requires MadeBy(watches, r, e)
    ensures FirstEntry(watches, r, i, e)
  {
    i :| FirstEntry(watches, r, i, e);
  }

  predicate Increasing(watches: seq<Watch>) { forall i, j | 0 <= i < j < |watches| :: watches[i].id < watches[j].id }

  predicate Orderly(table: seq<Watch>, next: nat) {
    Increasing(table) && forall i | 0 <= i < |table| :: 1 <= table[i].id < next
  }

  lemma OrderlyWithout(table: seq<Watch>, i: nat, next: nat)
    requires Orderly(table, next) && i < |table|
    ensures Orderly(table[..i] + table[i + 1..], next)
  {
  }

  function WithoutId(watches: seq<Watch>, id: int): seq<Watch> {
    if watches == [] then []
    else WithoutId(watches[..|watches| - 1], id)
         + if watches[|watches| - 1].id == id then [] else [watches[|watches| - 1]]
  }

  lemma {:induction false} WithoutIdIs(watches: seq<Watch>, id: int, i: nat)
    requires Increasing(watches) && i < |watches| && watches[i].id == id
    ensures WithoutId(watches, id) == watches[..i] + watches[i + 1..]
  {
    var n := |watches| - 1;
    var front := watches[..n];
    if i < n {
      WithoutIdIs(front, id, i);
      assert front[..i] == watches[..i] && watches[i + 1..] == front[i + 1..] + [watches[n]];
    } else {
      Untouched(front, id);
      assert watches[i + 1..] == [];
    }
  }

  lemma {:induction false} Untouched(watches: seq<Watch>, id: int)
    requires forall i | 0 <= i < |watches| :: watches[i].id != id
    ensures WithoutId(watches, id) == watches
  {
    if watches != [] { Untouched(watches[..|watches| - 1], id); }
  }

  // ----- The event queue -----

  class EventQueue {
    const events: array<Event>
    var eventLen: nat
    var overflow: bool
    ghost var arrived: seq<Event>

    /** The queue holds the first events since the last clear. */
    ghost predicate Valid()
      reads this, events
    {
      && events.Length == MAX_EVENTS && eventLen == |Kept(arrived)| && (overflow <==> |arrived| > MAX_EVENTS)
      && forall k | 0 <= k < eventLen :: events[k] == arrived[k]
    }

    constructor ()
      ensures Valid() && fresh(events) && arrived == []
    {
      events := new Event[MAX_EVENTS](_ => NOTHING);
      eventLen, overflow, arrived := 0, false, [];
    }

    method Enqueue(e: Event)
      requires Valid()
      modifies this, events
      ensures Valid() && arrived == old(arrived) + [e]
    {
      arrived := arrived + [e];
      if eventLen >= MAX_EVENTS {
        overflow := true;
        return;
      }
      events[eventLen] := e;
      eventLen := eventLen + 1;
    }

    /** The number of events to read; the kernel has been asked before. */
    method Count() returns (count: nat)
      requires Valid()
      ensures count == |Reported(arrived)|
    {
      count := eventLen + if overflow then 1 else 0;
    }

    /** The three accessors at one index. */
    method EventAt(index: int) returns (e: Event)
      requires Valid()
      ensures e == if 0 <= index < |Reported(arrived)| then Reported(arrived)[index] else Event("", [], [])
    {
      if index == eventLen && overflow { return OVERFLOW; }
      if index < 0 || index >= eventLen { return NOTHING; }
      e := events[index];
    }

    method ClearEvents()
      requires Valid()
      modifies this, events
      ensures Valid() && arrived == []
    {
      var i := 0;
      while i < eventLen
        invariant 0 <= i <= eventLen <= MAX_EVENTS == events.Length
      {
        events[i] := NOTHING;
        i := i + 1;
      }
      eventLen, overflow, arrived := 0, false, [];
    }

    method ReadAll() returns (read: seq<Event>)
      requires Valid()
      ensures read == Reported(arrived)
    {
      var count := Count();
      read := [];
      var index := 0;
      while index < count
        invariant 0 <= index <= count && read == Reported(arrived)[..index]
      {
        var e := EventAt(index);
        read := read + [e];
        index := index + 1;
      }
    }
  }

  // ----- The watch table -----

  class WatchTable {
    const watches: array<Watch>
    var watchCount: nat
    var nextHandle: nat

    /** The table is in the order of its handles. */
    ghost predicate Valid()
      reads this, watches
    {
      && watches.Length == MAX_WATCHES && watchCount <= MAX_WATCHES && nextHandle >= 1
      && Orderly(watches[..watchCount], nextHandle)
    }

    ghost function Table(): seq<Watch>
      requires watchCount <= watches.Length
      reads this, watches
    {
      watches[..watchCount]
    }

    constructor ()
      ensures Valid() && fresh(watches) && Table() == [] && nextHandle == 1
    {
      watches := new Watch[MAX_WATCHES](_ => Watch(0, 0, []));
      watchCount, nextHandle := 0, 1;
    }

    method FindWatchByWd(wd: nat) returns (index: int)
      requires watchCount <= watches.Length
      ensures index == if FirstByWd(Table(), wd).Some? then FirstByWd(Table(), wd).value else -1
    {
      var i := 0;
      ghost var table := Table();
      assert table[0..] == table;
      while i < watchCount
        invariant 0 <= i <= watchCount
        invariant FirstByWd(table, wd) == Moved(FirstByWd(table[i..], wd), i)
      {
        assert table[i..][1..] == table[i + 1..] && table[i..][0] == watches[i];
        if watches[i].wd == wd { return i; }
        i := i + 1;
      }
      assert table[i..] == [];
      index := -1;
    }

    /** `wd` is the kernel's answer for the path up to a NUL, `None` when it refuses; polling needs no entry. */
    method StartWatch(path: Text, usePolling: bool, wd: Option<nat>) returns (id: int)
      requires Valid() && nextHandle < 0x7fff_ffff
      modifies this, watches
      ensures Valid() && nextHandle == old(nextHandle) + 1
      ensures id == if usePolling || (wd.Some? && old(watchCount) < 256) then old(nextHandle) else -1
      ensures Table() ==
        if !usePolling && id >= 0 then old(Table()) + [Watch(old(nextHandle), wd.value, CText(path))] else old(Table())
    {
      id := nextHandle;
      nextHandle := nextHandle + 1;
      if usePolling { return; }
      if wd.None? { return -1; }
      if watchCount >= MAX_WATCHES { return -1; }
      watches[watchCount] := Watch(id, wd.value, CText(path));
      watchCount := watchCount + 1;
    }

    /** Removes the watch with this handle, if there is one, by moving the later ones up. */
    method CloseId(id: int)
      requires Valid()
      modifies this, watches
      ensures Valid() && nextHandle == old(nextHandle) && Table() == WithoutId(old(Table()), id)
    {
      var i := 0;
      while i < watchCount
        invariant 0 <= i <= watchCount && forall k | 0 <= k < i :: watches[k].id != id
      {
        if watches[i].id == id {
          WithoutIdIs(Table(), id, i);
          ShiftDown(i);
          return;
        }
        i := i + 1;
      }
      Untouched(Table(), id);
    }

    method ShiftDown(i: nat)
      requires Valid() && i < watchCount
      modifies this, watches
      ensures Valid() && nextHandle == old(nextHandle) && Table() == old(Table()[..i] + Table()[i + 1..])
    {
      ghost var table := Table();
      OrderlyWithout(table, i, nextHandle);
      MoveUp(i);
      watchCount := watchCount - 1;
      assert Table() == table[..i] + table[i + 1..];
    }

    /** The loop that moves the later entries up. */
    method MoveUp(i: nat)
      requires i < watchCount <= watches.Length
      modifies watches
      ensures watches[..watchCount - 1] == old(watches[..i] + watches[i + 1..watchCount])
    {
      ghost var was := watches[..];
      var j := i;
      while j < watchCount - 1
        invariant i <= j <= watchCount - 1 && watches[..] == MovedUp(was, i, j)
      {
        MoveOne(i, j, was);
        j := j + 1;
      }
      MovedUpAll(was, i, watchCount);
      assert watches[..watchCount - 1] == watches[..][..watchCount - 1];
    }

    method MoveOne(i: nat, j: nat, ghost was: seq<Watch>)
      requires i <= j < watches.Length - 1 && |was| == watches.Length && watches[..] == MovedUp(was, i, j)
      modifies watches
      ensures watches[..] == MovedUp(was, i, j + 1)
    {
      OneMoved(was, i, j);
      assert watches[j + 1] == watches[..][j + 1];
      watches[j] := watches[j + 1];
    }
  }

  /** The entries from `i` to `j` replaced by those behind them. */
  function MovedUp(was: seq<Watch>, i: nat, j: nat): (now: seq<Watch>)
    requires i <= j < |was|
    ensures |now| == |was| && forall k | 0 <= k < |was| :: now[k] == if i <= k < j then was[k + 1] else was[k]
  {
    was[..i] + was[i + 1..j + 1] + was[j..]
  }

  lemma OneMoved(was: seq<Watch>, i: nat, j: nat)
    requires i <= j < |was| - 1
    ensures MovedUp(was, i, j)[j := was[j + 1]] == MovedUp(was, i, j + 1)
  {
  }

  lemma MovedUpAll(was: seq<Watch>, i: nat, n: nat)
    requires i < n <= |was|
    ensures MovedUp(was, i, n - 1)[..n - 1] == was[..i] + was[i + 1..n]
  {
  }

  function Moved(r: Option<nat>, i: nat): Option<nat> { if r.None? then None else Some(r.value + i) }

  // ----- Both together -----

  lemma MatchedStep(watches: seq<Watch>, records: seq<Record>, k: nat)
    requires k < |records|
    ensures Matched(watches, records[..k + 1]) == Matched(watches, records[..k]) + EventsOf(watches, records[k])
  {
    assert records[..k + 1][..k] == records[..k];
  }

  lemma ArrivedStep(start: seq<Event>, watches: seq<Watch>, records: seq<Record>, k: nat)
    requires k < |records|
    ensures start + Matched(watches, records[..k]) + EventsOf(watches, records[k])
         == start + Matched(watches, records[..k + 1])
  {
    MatchedStep(watches, records, k);
  }

  /** Turns the records read from the kernel into events. */
  method Poll(queue: EventQueue, table: WatchTable, records: seq<Record>)
    requires queue.Valid() && table.watchCount <= table.watches.Length
    modifies queue, queue.events
    ensures queue.Valid() && queue.arrived == old(queue.arrived) + Matched(old(table.Table()), records)
  {
    ghost var watches, start := table.Table(), queue.arrived;
    var k := 0;
    while k < |records|
      invariant 0 <= k <= |records| && queue.Valid() && table.Table() == watches
      invariant queue.arrived == start + Matched(watches, records[..k])
    {
      ArrivedStep(start, watches, records, k);
      Deliver(queue, table, records[k]);
      k := k + 1;
    }
    assert records[..k] == records;
  }

  /** One turn of the polling loop. */
  method Deliver(queue: EventQueue, table: WatchTable, record: Record)
    requires queue.Valid() && table.watchCount <= table.watches.Length
    modifies queue, queue.events
    ensures queue.Valid() && queue.arrived == old(queue.arrived) + EventsOf(table.Table(), record)
  {
    var index := table.FindWatchByWd(record.wd);
    if index >= 0 {
      queue.Enqueue(Event("change", table.watches[index].path, CText(record.name)));
    }
  }

  /** What is reported, with its limits. */
  lemma ReportedIs(arrived: seq<Event>)
    ensures |arrived| <= 1024 ==> Reported(arrived) == arrived
    ensures |arrived| > 1024 ==> Reported(arrived) == arrived[..1024] + [Event("overflow", [], [])]
  {
  }

  /** Count, read and clear: nothing that arrived is lost unless the overflow is reported. */
  method DrainEvents(queue: EventQueue, table: WatchTable, records: seq<Record>) returns (drained: seq<Event>)
    requires queue.Valid() && table.Valid()
    modifies queue, queue.events
    ensures queue.Valid() && queue.arrived == []
    ensures drained == Reported(old(queue.arrived) + Matched(old(table.Table()), records))
  {
    Poll(queue, table, records);
    drained := queue.ReadAll();
    queue.ClearEvents();
  }

  /** The report is complete exactly when it does not end in the mark of an overflow. */
  lemma NothingLostSilently(arrived: seq<Event>)
    requires forall e | e in arrived :: e.name != OVERFLOW.name
    ensures Reported(arrived) == arrived <==> OVERFLOW !in Reported(arrived)
    ensures Kept(arrived) <= Reported(arrived)
    ensures |Kept(arrived)| == if |arrived| < MAX_EVENTS then |arrived| else MAX_EVENTS
  {
    if |arrived| > MAX_EVENTS { assert Reported(arrived)[MAX_EVENTS] == OVERFLOW; }
  }

  /** Closing a watch that was just started restores the table, whatever else it holds. */
  lemma StartThenClose(table: seq<Watch>, w: Watch)
    requires forall i | 0 <= i < |table| :: table[i].id < w.id
    ensures WithoutId(table + [w], w.id) == table
  {
    assert (table + [w])[..|table|] == table;
    Untouched(table, w.id);
  }
}
