/**
 Readers of the LRU cache at the same time.

 Readers share the cache behind a read lock, so a `get` is two atomic steps that interleave with
 those of other readers: take the next generation, then store it in the cell that was found.
*/
module LruReaders {
  import opened LruCache

  /** A reader between its two steps: the cell it found and the generation it took. */
  datatype Flight = Flight(cell: nat, generation: nat)

  /** The stamps of the cells, the counter, and the readers on their way. */
  datatype State = State(cells: seq<nat>, counter: nat, flights: map<nat, Flight>)

  datatype Event = FetchAdd(reader: nat, cell: nat) | Store(reader: nat)

  predicate Possible(s: State, e: Event) {
    match e
    case FetchAdd(reader, cell) => reader !in s.flights && cell < |s.cells|
    case Store(reader) => reader in s.flights && s.flights[reader].cell < |s.cells|
  }

  function Step(s: State, e: Event): State
    requires Possible(s, e)
  {
    match e
    case FetchAdd(reader, cell) =>
      s.(counter := s.counter + 1, flights := s.flights[reader := Flight(cell, s.counter + 1)])
    case Store(reader) =>
      s.(cells := s.cells[s.flights[reader].cell := s.flights[reader].generation], flights := s.flights - {reader})
  }

  /** No generation occurs twice, in the cells or on its way to one, and none is ahead of the counter. */
  ghost predicate Invariant(s: State) {
    && (forall i, j | 0 <= i < j < |s.cells| :: s.cells[i] != s.cells[j])
    && (forall i | 0 <= i < |s.cells| :: s.cells[i] <= s.counter)
    && (forall r <- s.flights :: s.flights[r].generation <= s.counter && s.flights[r].cell < |s.cells|)
    && (forall r, q | r in s.flights && q in s.flights && r != q :: s.flights[r].generation != s.flights[q].generation)
    && (forall r, i | r in s.flights && 0 <= i < |s.cells| :: s.flights[r].generation != s.cells[i])
  }

  lemma StepKeeps(s: State, e: Event)
    requires Invariant(s) && Possible(s, e)
    ensures Invariant(Step(s, e))
  {
  }

  ghost predicate IsRun(s: State, events: seq<Event>)
    decreases |events|
  {
    events == [] || (Possible(s, events[0]) && IsRun(Step(s, events[0]), events[1..]))
  }

  ghost function After(s: State, events: seq<Event>): State
    requires IsRun(s, events)
    decreases |events|
  {
    if events == [] then s else After(Step(s, events[0]), events[1..])
  }

  /** However the readers interleave, generations stay distinct and behind the counter. */
  lemma {:induction false} RunKeeps(s: State, events: seq<Event>)
    requires Invariant(s) && IsRun(s, events)
    ensures Invariant(After(s, events))
    decreases |events|
  {
    hide Invariant, Step, Possible;
    if events != [] {
      StepKeeps(s, events[0]);
      RunKeeps(Step(s, events[0]), events[1..]);
    }
  }

  /** The cells that some reader has found, from `events` on. */
  ghost function Found(events: seq<Event>): set<nat> {
    if events == [] then {}
    else (if events[0].FetchAdd? then {events[0].cell} else {}) + Found(events[1..])
  }

  /**
   `limit` was the counter when the readers came: a stamp above it belongs to a cell that was found,
   and a found cell gets such a stamp as soon as a reader of it has stored.
  */
  ghost predicate Tracks(s: State, start: seq<nat>, limit: nat, found: set<nat>) {
    && |s.cells| == |start| && limit <= s.counter
    && (forall i | 0 <= i < |start| :: s.cells[i] == start[i] || (i in found && s.cells[i] > limit))
    && (forall r <- s.flights :: s.flights[r].cell in found && s.flights[r].generation > limit)
    && (forall i | 0 <= i < |start| && i in found ::
          s.cells[i] > limit || exists r :: r in s.flights && s.flights[r].cell == i)
  }

  lemma StepTracks(s: State, start: seq<nat>, limit: nat, found: set<nat>, e: Event)
    requires Tracks(s, start, limit, found) && Possible(s, e)
    ensures Tracks(Step(s, e), start, limit, found + if e.FetchAdd? then {e.cell} else {})
  {
    var t := Step(s, e);
    var more := found + if e.FetchAdd? then {e.cell} else {};
    forall i | 0 <= i < |start| && i in more
      ensures t.cells[i] > limit || exists r :: r in t.flights && t.flights[r].cell == i
    {
      if e.FetchAdd? && e.cell == i {
        assert e.reader in t.flights && t.flights[e.reader].cell == i;
      } else if s.cells[i] <= limit {
        var r :| r in s.flights && s.flights[r].cell == i;
        if e != Store(r) {
          assert r in t.flights && t.flights[r].cell == i;
        }
      }
    }
  }

  lemma {:induction false} RunTracks(s: State, start: seq<nat>, limit: nat, found: set<nat>, events: seq<Event>)
    requires Tracks(s, start, limit, found) && IsRun(s, events)
    ensures Tracks(After(s, events), start, limit, found + Found(events))
    decreases |events|
  {
    hide Tracks, Step, Possible;
    if events == [] {
      assert found + Found(events) == found;
    } else {
      var e := events[0];
      var more := found + if e.FetchAdd? then {e.cell} else {};
      StepTracks(s, start, limit, found, e);
      RunTracks(Step(s, e), start, limit, more, events[1..]);
      assert more + Found(events[1..]) == found + Found(events);
    }
  }

  /**
   When all the readers are done, the entries nobody used keep their stamps, every entry that was
   used is more recent than all of those, and all stamps are distinct: the next eviction is well
   defined, and takes an unused entry if there is one.
  */
  lemma QuietAgain(s: State, events: seq<Event>)
    requires Invariant(s) && s.flights == map[] && IsRun(s, events) && After(s, events).flights == map[]
    ensures
      var t, found := After(s, events), Found(events);
      && |t.cells| == |s.cells| && Invariant(t)
      && (forall i | 0 <= i < |s.cells| && i !in found :: t.cells[i] == s.cells[i])
      && (forall i, j | 0 <= i < |s.cells| && 0 <= j < |s.cells| && i !in found && j in found :: t.cells[i] < t.cells[j])
  {
    RunKeeps(s, events);
    RunTracks(s, s.cells, s.counter, {}, events);
    assert {} + Found(events) == Found(events);
  }

  // The cache again, once it is quiet

  /** The cells with their stamps of now. */
  function Restamped<T>(data: seq<Cell<T>>, stamps: seq<nat>): (cells: seq<Cell<T>>)
    requires |data| == |stamps|
    ensures |cells| == |data| && forall i | 0 <= i < |data| :: cells[i] == Cell(stamps[i], data[i].value)
  {
    if data == [] then []
    else
      var n := |data| - 1;
      Restamped(data[..n], stamps[..n]) + [Cell(stamps[n], data[n].value)]
  }

  /** The cells with one of some stamps, or with none of them, in their order. */
  function Select<T>(cells: seq<Cell<T>>, stamps: set<nat>, among: bool): seq<Cell<T>> {
    if cells == [] then []
    else
      var last := cells[|cells| - 1];
      Select(cells[..|cells| - 1], stamps, among) + if (last.generation in stamps) == among then [last] else []
  }

  lemma {:induction false} SelectCount<T>(cells: seq<Cell<T>>, stamps: set<nat>, among: bool, c: Cell<T>)
    ensures multiset(Select(cells, stamps, among))[c]
         == if (c.generation in stamps) == among then multiset(cells)[c] else 0
  {
    if cells != [] {
      var rest, last := cells[..|cells| - 1], cells[|cells| - 1];
      assert cells == rest + [last];
      SelectCount(rest, stamps, among, c);
    }
  }

  lemma {:induction false} SelectAppend<T>(a: seq<Cell<T>>, b: seq<Cell<T>>, stamps: set<nat>, among: bool)
    ensures Select(a + b, stamps, among) == Select(a, stamps, among) + Select(b, stamps, among)
  {
    if b == [] {
      assert a + b == a;
    } else {
      assert (a + b)[..|a + b| - 1] == a + b[..|b| - 1];
      SelectAppend(a, b[..|b| - 1], stamps, among);
    }
  }

  lemma SelectTaken<T>(cells: seq<Cell<T>>, k: nat, stamps: set<nat>, among: bool)
    requires k < |cells|
    ensures multiset(Select(cells, stamps, among))
         == multiset(Select(RemoveAt(cells, k), stamps, among)) + multiset(Select([cells[k]], stamps, among))
  {
    hide Select;
    var before, one, after := cells[..k], [cells[k]], cells[k + 1..];
    assert cells == before + one + after;
    SelectAppend(before + one, after, stamps, among);
    SelectAppend(before, one, stamps, among);
    SelectAppend(before, after, stamps, among);
  }

  /** The same cells in another order: the same selection in another order. */
  lemma {:induction false} SelectSame<T>(a: seq<Cell<T>>, b: seq<Cell<T>>, stamps: set<nat>, among: bool)
    requires multiset(a) == multiset(b)
    ensures multiset(Select(a, stamps, among)) == multiset(Select(b, stamps, among))
    decreases |a|
  {
    hide Select, RemoveAt;
    assert |multiset(a)| == |multiset(b)|;
    if a == [] {
      assert a == b;
    } else {
      assert a[0] in multiset(a);
      var k :| 0 <= k < |b| && b[k] == a[0];
      RemoveAtElements(a, 0);
      RemoveAtElements(b, k);
      SelectSame(RemoveAt(a, 0), RemoveAt(b, k), stamps, among);
      SelectTaken(a, 0, stamps, among);
      SelectTaken(b, k, stamps, among);
    }
  }

  lemma {:induction false} SelectBoth<T>(cells: seq<Cell<T>>, stamps: set<nat>)
    ensures multiset(cells) == multiset(Select(cells, stamps, true)) + multiset(Select(cells, stamps, false))
  {
    if cells != [] {
      var rest, last := cells[..|cells| - 1], cells[|cells| - 1];
      assert cells == rest + [last];
      SelectBoth(rest, stamps);
    }
  }

  /** Cells that differ only where neither has one of the stamps. */
  lemma {:induction false} SelectAgree<T>(a: seq<Cell<T>>, b: seq<Cell<T>>, stamps: set<nat>)
    requires |a| == |b|
    requires forall i | 0 <= i < |a| :: a[i] == b[i] || (a[i].generation !in stamps && b[i].generation !in stamps)
    ensures Select(a, stamps, true) == Select(b, stamps, true)
  {
    if a != [] {
      SelectAgree(a[..|a| - 1], b[..|b| - 1], stamps);
    }
  }

  lemma StampedInit<T>(cells: seq<Cell<T>>, generation: nat)
    requires Stamped(cells, generation) && cells != []
    ensures
      var rest, last := cells[..|cells| - 1], cells[|cells| - 1];
      && cells == rest + [last] && last.generation <= generation
      && (last.generation > 0 ==> Stamped(rest, last.generation - 1))
      && (last.generation == 0 ==> rest == [])
  {
    assert |cells| > 1 ==> cells[0].generation < cells[|cells| - 1].generation;
  }

  lemma StampedSnoc<T>(rest: seq<Cell<T>>, last: Cell<T>, generation: nat)
    requires last.generation <= generation
    requires if last.generation > 0 then Stamped(rest, last.generation - 1) else rest == []
    ensures Stamped(rest + [last], generation)
  {
  }

  lemma StampedMore<T>(cells: seq<Cell<T>>, before: nat, generation: nat)
    requires Stamped(cells, before) && before <= generation
    ensures Stamped(cells, generation)
  {
  }

  /** A selection keeps the order of its cells. */
  lemma {:induction false} SelectStamped<T>(cells: seq<Cell<T>>, generation: nat, stamps: set<nat>, among: bool)
    requires Stamped(cells, generation)
    ensures Stamped(Select(cells, stamps, among), generation)
  {
    hide Stamped, Select;
    if cells == [] {
      SelectNone<T>(stamps, among);
    } else {
      var rest, last := cells[..|cells| - 1], cells[|cells| - 1];
      StampedInit(cells, generation);
      SelectLast(cells, stamps, among);
      var some := Select(rest, stamps, among);
      if last.generation > 0 {
        SelectStamped(rest, last.generation - 1, stamps, among);
        StampedMore(some, last.generation - 1, generation);
      } else {
        SelectNone<T>(stamps, among);
        StampedNone<T>(generation);
      }
      StampedSnoc(some, last, generation);
      assert some + [] == some;
    }
  }

  lemma SelectNone<T>(stamps: set<nat>, among: bool)
    ensures Select<T>([], stamps, among) == []
  {
  }

  lemma SelectLast<T>(cells: seq<Cell<T>>, stamps: set<nat>, among: bool)
    requires cells != []
    ensures
      var last := cells[|cells| - 1];
      Select(cells, stamps, among)
      == Select(cells[..|cells| - 1], stamps, among) + if (last.generation in stamps) == among then [last] else []
  {
  }

  lemma StampedNone<T>(generation: nat)
    ensures Stamped<T>([], generation)
  {
  }

  /** A cell finds its place among cells in the order of their stamps. */
  lemma {:induction false} Inserted<T>(cells: seq<Cell<T>>, generation: nat, x: Cell<T>) returns (all: seq<Cell<T>>)
    requires Stamped(cells, generation) && x.generation <= generation && forall c <- cells :: c.generation != x.generation
    ensures Stamped(all, generation) && multiset(all) == multiset(cells) + multiset{x}
  {
    hide Stamped;
    if cells == [] {
      all := [x];
      StampedNone<T>(if x.generation > 0 then x.generation - 1 else 0);
      StampedSnoc([], x, generation);
      assert [] + [x] == [x];
    } else {
      var rest, last := cells[..|cells| - 1], cells[|cells| - 1];
      StampedInit(cells, generation);
      assert last in cells && forall c <- rest :: c in cells;
      if last.generation < x.generation {
        all := cells + [x];
        StampedTo(cells, generation, x.generation - 1);
        StampedSnoc(cells, x, generation);
      } else {
        var before := Inserted(rest, last.generation - 1, x);
        all := before + [last];
        StampedSnoc(before, last, generation);
      }
    }
  }

  lemma StampedTo<T>(cells: seq<Cell<T>>, generation: nat, bound: nat)
    requires Stamped(cells, generation) && cells != [] && cells[|cells| - 1].generation <= bound
    ensures Stamped(cells, bound)
  {
  }

  lemma {:induction false} InOrder<T>(cells: seq<Cell<T>>, generation: nat) returns (all: seq<Cell<T>>)
    requires forall i, j | 0 <= i < j < |cells| :: cells[i].generation != cells[j].generation
    requires forall i | 0 <= i < |cells| :: cells[i].generation <= generation
    ensures Stamped(all, generation) && multiset(all) == multiset(cells)
  {
    if cells == [] {
      all := [];
    } else {
      var rest, last := cells[..|cells| - 1], cells[|cells| - 1];
      assert cells == rest + [last];
      var before := InOrder(rest, generation);
      SameElements(before, rest);
      all := Inserted(before, generation, last);
    }
  }

  lemma SameElements<T>(a: seq<T>, b: seq<T>)
    requires multiset(a) == multiset(b)
    ensures forall x <- a :: x in b
  {
    forall x <- a
      ensures x in b
    {
      assert x in multiset(a);
    }
  }

  lemma {:induction false} SelectDistinct<T>(cells: seq<Cell<T>>, stamps: set<nat>, among: bool)
    requires forall i, j | 0 <= i < j < |cells| :: cells[i].generation != cells[j].generation
    ensures
      var some := Select(cells, stamps, among);
      && (forall i, j | 0 <= i < j < |some| :: some[i].generation != some[j].generation)
      && (forall c <- some :: c in cells && (c.generation in stamps) == among)
  {
    if cells != [] {
      var rest, last := cells[..|cells| - 1], cells[|cells| - 1];
      assert cells == rest + [last];
      SelectDistinct(rest, stamps, among);
    }
  }

  lemma StampedBehind<T>(low: seq<Cell<T>>, limit: nat, high: seq<Cell<T>>, generation: nat)
    requires Stamped(low, limit) && Stamped(high, generation) && limit <= generation
    requires forall c <- high :: limit < c.generation
    ensures Stamped(low + high, generation)
  {
  }

  /** The stamps of the entries that nobody used. */
  function UnusedStamps(s: State, found: set<nat>): set<nat> {
    set i | 0 <= i < |s.cells| && i !in found :: s.cells[i]
  }

  lemma QuietCells<T>(s: State, events: seq<Event>, data: seq<Cell<T>>, i: nat)
    requires Invariant(s) && s.flights == map[] && IsRun(s, events) && After(s, events).flights == map[]
    requires |data| == |s.cells| && i < |s.cells| && forall j | 0 <= j < |data| :: data[j].generation == s.cells[j]
    ensures
      var t, unused := After(s, events), UnusedStamps(s, Found(events));
      && |t.cells| == |data|
      && (i !in Found(events) ==> t.cells[i] == s.cells[i] && s.cells[i] in unused)
      && (i in Found(events) ==> s.counter < t.cells[i] && s.cells[i] !in unused && t.cells[i] !in unused)
  {
    hide Found, Invariant, IsRun, After;
    TracksStart(s);
    RunTracks(s, s.cells, s.counter, {}, events);
    assert {} + Found(events) == Found(events);
    CounterAhead(s);
  }

  lemma TracksStart(s: State)
    requires s.flights == map[]
    ensures Tracks(s, s.cells, s.counter, {})
  {
  }

  lemma CounterAhead(s: State)
    ensures Invariant(s) ==>
      && (forall k | 0 <= k < |s.cells| :: s.cells[k] <= s.counter)
      && (forall k, l | 0 <= k < |s.cells| && 0 <= l < |s.cells| && k != l :: s.cells[k] != s.cells[l])
  {
    if Invariant(s) {
      forall k, l | 0 <= k < |s.cells| && 0 <= l < |s.cells| && k != l
        ensures s.cells[k] != s.cells[l]
      {
        if k < l {
        } else {
          assert s.cells[l] != s.cells[k];
        }
      }
    }
  }

  /**
   The cache is valid again, with the stamps that the readers left: its recency order is the old
   one without the used entries, followed by the used entries in the order of their last stamps.
  */
  lemma QuietIsValid<T>(s: State, events: seq<Event>, data: seq<Cell<T>>, recency: seq<Cell<T>>)
    returns (after: seq<Cell<T>>, used: seq<Cell<T>>)
    requires Invariant(s) && s.flights == map[] && IsRun(s, events) && After(s, events).flights == map[]
    requires |data| == |s.cells| && forall i | 0 <= i < |data| :: data[i].generation == s.cells[i]
    requires multiset(data) == multiset(recency) && Stamped(recency, s.counter)
    ensures |After(s, events).cells| == |data|
    ensures
      var t, unused := After(s, events), UnusedStamps(s, Found(events));
      var now := Restamped(data, t.cells);
      && multiset(now) == multiset(after) && Stamped(after, t.counter)
      && after == Select(recency, unused, true) + used
      && multiset(used) == multiset(Select(now, unused, false))
      && forall i | 0 <= i < |data| :: now[i] in Select(now, unused, false) <==> i in Found(events)
  {
    hide Stamped, Select, Invariant, IsRun, After, Found, UnusedStamps;
    var t, unused := After(s, events), UnusedStamps(s, Found(events));
    QuietBounds(s, events);
    var now := Restamped(data, t.cells);
    forall i | 0 <= i < |data|
      ensures i !in Found(events) ==> now[i] == data[i] && now[i].generation in unused
      ensures i in Found(events) ==> s.counter < now[i].generation && data[i].generation !in unused && now[i].generation !in unused
    {
      QuietCells(s, events, data, i);
    }
    SelectAgree(data, now, unused);
    SelectSame(data, recency, unused, true);
    SelectBoth(now, unused);
    CounterAhead(t);
    SelectDistinct(now, unused, false);
    used := InOrder(Select(now, unused, false), t.counter);
    SameElements(used, Select(now, unused, false));
    SelectStamped(recency, s.counter, unused, true);
    after := Select(recency, unused, true) + used;
    forall c <- used
      ensures s.counter < c.generation
    {
      var i :| 0 <= i < |now| && now[i] == c;
    }
    StampedBehind(Select(recency, unused, true), s.counter, used, t.counter);
    forall i | 0 <= i < |data|
      ensures now[i] in Select(now, unused, false) <==> i in Found(events)
    {
      SelectHas(now, unused, false, i);
    }
  }

  lemma {:induction false} SelectHas<T>(cells: seq<Cell<T>>, stamps: set<nat>, among: bool, i: nat)
    requires i < |cells|
    ensures cells[i] in Select(cells, stamps, among) <==> (cells[i].generation in stamps) == among
  {
    SelectCount(cells, stamps, among, cells[i]);
    assert cells[i] in multiset(cells);
    assert cells[i] in Select(cells, stamps, among) <==> cells[i] in multiset(Select(cells, stamps, among));
  }

  lemma QuietBounds(s: State, events: seq<Event>)
    requires Invariant(s) && s.flights == map[] && IsRun(s, events)
    ensures
      var t := After(s, events);
      Invariant(t) && |t.cells| == |s.cells| && s.counter <= t.counter
  {
    RunKeeps(s, events);
    RunTracks(s, s.cells, s.counter, {}, events);
  }
}
