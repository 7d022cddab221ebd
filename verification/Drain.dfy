/**
 Draining the queue with autobatching gives the same indexes as draining it task by task.

 First the tasks of a batch are moved to the front of the queue: the tasks they overtake mention
 other indexes.  Then the batch does what its tasks do.  The two runs may disagree on primary
 keys, so they are compared by `SameIndexes`, and `KeysBelow` keeps both within the declared keys.
*/
module Drain {
  import opened Wrappers
  import opened Tasks
  import opened Settings
  import opened Autobatcher
  import opened BatchShape
  import opened Indexing
  import opened SlotRuns
  import opened BatchEquivalence
  import opened Queue
  import opened Independence
  import opened AloneRuns

  predicate IndexTasks(queue: seq<Queued>) {
    forall t <- queue :: !t.kind.IsPrioritised()
  }

  lemma {:induction false} AdvanceAppend(milli: Milli, w: World, a: seq<Queued>, b: seq<Queued>)
    requires IndexTasks(a) && IndexTasks(b)
    ensures AdvanceAll(milli, w, a + b) == AdvanceAll(milli, AdvanceAll(milli, w, a), b)
    ensures KeysStable(milli, w, a + b) <==> KeysStable(milli, w, a) && KeysStable(milli, AdvanceAll(milli, w, a), b)
    decreases |a|
  {
    if a == [] {
      assert a + b == b;
    } else {
      assert (a + b)[1..] == a[1..] + b;
      var t := a[0];
      assert t in a;
      AdvanceAppend(milli, Advance(milli, w, t.kind), a[1..], b);
    }
  }

  /** A task may be delayed past tasks that share no index with it. */
  lemma {:induction false} Delay(milli: Milli, w: World, t: Queued, p: seq<Queued>)
    requires !t.kind.IsPrioritised() && IndexTasks(p)
    requires forall u <- p :: t.kind.Indexes() !! u.kind.Indexes()
    ensures AdvanceAll(milli, w, [t] + p) == AdvanceAll(milli, w, p + [t])
    ensures KeysStable(milli, w, [t] + p) <==> KeysStable(milli, w, p + [t])
    decreases |p|
  {
    hide Advance, KeyAgrees;
    if p == [] {
      assert [t] + p == p + [t];
    } else {
      var u := p[0];
      assert u in p;
      var wt, wu := Advance(milli, w, t.kind), Advance(milli, w, u.kind);
      Commute(milli, w, t.kind, u.kind);
      Commute(milli, w, u.kind, t.kind);
      Delay(milli, wu, t, p[1..]);
      assert ([t] + p)[1..] == p && (p + [t])[1..] == p[1..] + [t];
      assert ([t] + p[1..])[1..] == p[1..];
      assert forall x <- p + [t] :: x in p || x == t;
    }
  }

  /** The queue once the first `n` tasks on `name` have left. */
  function Rest(queue: seq<Queued>, name: string, n: nat): (rest: seq<Queued>)
    ensures forall t <- rest :: t in queue
  {
    if n == 0 || queue == [] then queue
    else if name in queue[0].kind.Indexes() then Rest(queue[1..], name, n - 1)
    else [queue[0]] + Rest(queue[1..], name, n)
  }

  lemma Overtake(milli: Milli, w: World, t: Queued, p: seq<Queued>, rest: seq<Queued>)
    requires !t.kind.IsPrioritised() && IndexTasks(p) && IndexTasks(rest)
    requires forall u <- p :: t.kind.Indexes() !! u.kind.Indexes()
    ensures IndexTasks([t] + (p + rest)) && IndexTasks(p + ([t] + rest))
    ensures AdvanceAll(milli, w, [t] + (p + rest)) == AdvanceAll(milli, w, p + ([t] + rest))
    ensures KeysStable(milli, w, [t] + (p + rest)) <==> KeysStable(milli, w, p + ([t] + rest))
  {
    hide AdvanceAll, KeysStable;
    Delay(milli, w, t, p);
    AdvanceAppend(milli, w, [t] + p, rest);
    AdvanceAppend(milli, w, p + [t], rest);
    assert [t] + p + rest == [t] + (p + rest) && p + [t] + rest == p + ([t] + rest);
  }

  lemma AdvanceCons(milli: Milli, w: World, t: Queued, tail: seq<Queued>)
    requires !t.kind.IsPrioritised() && IndexTasks(tail)
    ensures IndexTasks([t] + tail)
    ensures AdvanceAll(milli, w, [t] + tail) == AdvanceAll(milli, Advance(milli, w, t.kind), tail)
    ensures KeysStable(milli, w, [t] + tail) <==> KeyAgrees(w, t.kind) && KeysStable(milli, Advance(milli, w, t.kind), tail)
  {
    hide Advance, KeyAgrees;
    assert ([t] + tail)[1..] == tail;
  }

  /** The front of the queue when its first task is taken. */
  lemma FrontTaken(queue: seq<Queued>, name: string, n: nat)
    requires queue != [] && name in queue[0].kind.Indexes() && 0 < n <= |OnIndex(queue, name)|
    ensures
      var t, tail, mine, later := queue[0], queue[1..], OnIndex(queue, name), OnIndex(queue[1..], name);
      && n - 1 <= |later| && mine[..n] == [t] + later[..n - 1]
      && mine[..n] + Rest(queue, name, n) == [t] + (later[..n - 1] + Rest(tail, name, n - 1))
      && forall u <- later[..n - 1] :: u in mine[..n]
  {
    hide KindWithContent.Indexes;
    var t, later := queue[0], OnIndex(queue[1..], name);
    assert OnIndex(queue, name) == [t] + later && Rest(queue, name, n) == Rest(queue[1..], name, n - 1);
    hide OnIndex, Rest;
    TakeCons(t, later, n, Rest(queue, name, n));
  }

  lemma TakeCons<T>(t: T, later: seq<T>, n: nat, rest: seq<T>)
    requires 0 < n <= |later| + 1
    ensures ([t] + later)[..n] == [t] + later[..n - 1]
    ensures ([t] + later)[..n] + rest == [t] + (later[..n - 1] + rest)
    ensures forall u <- later[..n - 1] :: u in ([t] + later)[..n]
  {
    assert ([t] + later)[..n] == [t] + later[..n - 1];
  }

  /** The front of the queue when its first task is overtaken. */
  lemma FrontOvertaken(queue: seq<Queued>, name: string, n: nat)
    requires queue != [] && name !in queue[0].kind.Indexes() && 0 < n <= |OnIndex(queue, name)|
    ensures OnIndex(queue, name) == OnIndex(queue[1..], name)
    ensures Rest(queue, name, n) == [queue[0]] + Rest(queue[1..], name, n)
  {
    hide KindWithContent.Indexes;
  }

  /** The tasks of a batch may be executed before everything they overtake. */
  lemma {:induction false} Extract(milli: Milli, w: World, queue: seq<Queued>, name: string, n: nat)
    requires IndexTasks(queue) && n <= |OnIndex(queue, name)|
    requires forall t <- OnIndex(queue, name)[..n] :: t.kind.Indexes() == {name}
    ensures IndexTasks(OnIndex(queue, name)[..n]) && IndexTasks(Rest(queue, name, n))
    ensures AdvanceAll(milli, w, queue) == AdvanceAll(milli, w, OnIndex(queue, name)[..n] + Rest(queue, name, n))
    ensures KeysStable(milli, w, queue) <==> KeysStable(milli, w, OnIndex(queue, name)[..n] + Rest(queue, name, n))
    decreases |queue|
  {
    hide Advance, KeyAgrees, AdvanceAll, KeysStable, OnIndex, KindWithContent.Indexes;
    if n == 0 {
      assert OnIndex(queue, name)[..n] + Rest(queue, name, n) == queue;
    } else {
      hide Rest;
      EmptyHasNone(queue, name, n);
      var t, tail := queue[0], queue[1..];
      assert t in queue && queue == [t] + tail;
      AdvanceCons(milli, w, t, tail);
      var later := OnIndex(tail, name);
      if name in t.kind.Indexes() {
        FrontTaken(queue, name, n);
        Extract(milli, Advance(milli, w, t.kind), tail, name, n - 1);
        AdvanceCons(milli, w, t, later[..n - 1] + Rest(tail, name, n - 1));
      } else {
        FrontOvertaken(queue, name, n);
        Extract(milli, Advance(milli, w, t.kind), tail, name, n);
        AdvanceCons(milli, w, t, later[..n] + Rest(tail, name, n));
        Overtake(milli, w, t, later[..n], Rest(tail, name, n));
      }
    }
  }

  lemma EmptyHasNone(queue: seq<Queued>, name: string, n: nat)
    requires 0 < n <= |OnIndex(queue, name)|
    ensures queue != []
  {
  }

  /** The same names, each with the same documents and settings. */
  ghost predicate SameIndexes(a: Indexes, b: Indexes) {
    forall n :: SameData(Get(a, n), Get(b, n))
  }

  predicate KeyBelow(slot: Slot, declared: Option<string>) {
    slot.Some? && slot.value.primaryKey.Some? ==> slot.value.primaryKey == declared
  }

  /** Every index has no key, or the key declared for it. */
  ghost predicate KeysBelow(indexes: Indexes, declared: map<string, string>) {
    forall n :: KeyBelow(Get(indexes, n), Get(declared, n))
  }

  /** A task that agrees with the declared key acts alike on slots that differ in their keys only. */
  lemma EffectSimilar(milli: Milli, a: Slot, b: Slot, declared: Option<string>, kind: KindWithContent)
    requires !kind.IsPrioritised() && !kind.IndexSwaps?
    requires SameData(a, b) && KeyBelow(a, declared) && KeyBelow(b, declared)
    requires DeclaredKey(kind).Some? && declared.Some? ==> DeclaredKey(kind) == declared
    ensures SameData(Effect(milli, a, kind), Effect(milli, b, kind))
    ensures KeyBelow(Effect(milli, a, kind), NextDeclared(Effect(milli, a, kind).Some?, declared, DeclaredKey(kind)))
    ensures KeyBelow(Effect(milli, b, kind), NextDeclared(Effect(milli, b, kind).Some?, declared, DeclaredKey(kind)))
  {
    hide ApplyDocumentOperations, Execute, Remove, Check, Writes;
  }

  lemma {:induction false} SwapSimilar(a: Indexes, b: Indexes, declared: map<string, string>, swaps: seq<IndexSwap>)
    requires SameIndexes(a, b) && KeysBelow(a, declared) && KeysBelow(b, declared)
    ensures SameIndexes(SwapAll(a, swaps), SwapAll(b, swaps))
    ensures KeysBelow(SwapAll(a, swaps), SwapAll(declared, swaps)) && KeysBelow(SwapAll(b, swaps), SwapAll(declared, swaps))
    decreases |swaps|
  {
    if swaps != [] {
      var s := swaps[0];
      forall n
        ensures SameData(Get(SwapOne(a, s), n), Get(SwapOne(b, s), n))
        ensures KeyBelow(Get(SwapOne(a, s), n), Get(SwapOne(declared, s), n))
        ensures KeyBelow(Get(SwapOne(b, s), n), Get(SwapOne(declared, s), n))
      {
        var from := if n == s.lhs then s.rhs else if n == s.rhs then s.lhs else n;
        assert SameData(Get(a, from), Get(b, from));
        assert KeyBelow(Get(a, from), Get(declared, from)) && KeyBelow(Get(b, from), Get(declared, from));
      }
      SwapSimilar(SwapOne(a, s), SwapOne(b, s), SwapOne(declared, s), swaps[1..]);
    }
  }

  lemma AdvanceSnoc(milli: Milli, w: World, q: seq<Queued>, t: Queued)
    requires IndexTasks(q + [t])
    ensures IndexTasks(q) && !t.kind.IsPrioritised()
    ensures AdvanceAll(milli, w, q + [t]) == Advance(milli, AdvanceAll(milli, w, q), t.kind)
    ensures KeysStable(milli, w, q + [t]) <==> KeysStable(milli, w, q) && KeyAgrees(AdvanceAll(milli, w, q), t.kind)
  {
    hide Advance, KeyAgrees;
    assert t in q + [t] && forall u <- q :: u in q + [t];
    AdvanceAppend(milli, w, q, [t]);
    var v := AdvanceAll(milli, w, q);
    AdvanceCons(milli, v, t, []);
    assert [t] + [] == [t];
  }

  predicate OnlyOn(p: seq<Queued>, name: string) {
    forall t <- p :: !t.kind.IsPrioritised() && !t.kind.IndexSwaps? && t.kind.indexUid == name
  }

  /** Tasks of one index act on its slot, and on nothing else. */
  lemma {:induction false} AdvanceSlot(milli: Milli, w: World, p: seq<Queued>, name: string)
    requires OnlyOn(p, name)
    ensures
      var v := AdvanceAll(milli, w, p);
      && Get(v.indexes, name) == Run(milli, Get(w.indexes, name), p)
      && forall n | n != name :: Get(v.indexes, n) == Get(w.indexes, n) && Get(v.declared, n) == Get(w.declared, n)
  {
    if p != [] {
      var q, t := p[..|p| - 1], p[|p| - 1];
      assert p == q + [t] && t in p;
      AdvanceSnoc(milli, w, q, t);
      AdvanceSlot(milli, w, q, name);
      RunSnoc(milli, Get(w.indexes, name), q, t);
      AdvanceSlotStep(milli, AdvanceAll(milli, w, q), t.kind, name);
    }
  }

  lemma AdvanceSlotStep(milli: Milli, w: World, kind: KindWithContent, name: string)
    requires !kind.IsPrioritised() && !kind.IndexSwaps? && kind.indexUid == name
    ensures
      var v := Advance(milli, w, kind);
      && Get(v.indexes, name) == Effect(milli, Get(w.indexes, name), kind)
      && Get(v.declared, name) == NextDeclared(Get(v.indexes, name).Some?, Get(w.declared, name), DeclaredKey(kind))
      && forall n | n != name :: Get(v.indexes, n) == Get(w.indexes, n) && Get(v.declared, n) == Get(w.declared, n)
  {
    hide Effect;
  }

  /** A plain task never deletes an index. */
  lemma PlainKeeps(milli: Milli, slot: Slot, t: Queued)
    requires IsPlain(t) && (slot.Some? || CanCreate(t.kind))
    ensures Effect(milli, slot, t.kind).Some?
  {
    hide ApplyDocumentOperations, Execute, Remove, Check, Writes, ApplyOperations;
  }

  lemma {:induction false} PlainRun(milli: Milli, slot: Slot, p: seq<Queued>)
    requires AllPlain(p) && p != [] && (slot.Some? || CanCreate(p[0].kind))
    ensures Run(milli, slot, p).Some?
  {
    hide Run, Effect, CanCreate;
    var q, t := p[..|p| - 1], p[|p| - 1];
    assert p == q + [t] && t in p;
    RunSnoc(milli, slot, q, t);
    if q == [] {
      RunNothing(milli, slot);
      assert t == p[0];
    } else {
      PlainRun(milli, slot, q);
    }
    PlainKeeps(milli, Run(milli, slot, q), t);
  }

  lemma RunNothing(milli: Milli, slot: Slot)
    ensures Run(milli, slot, []) == slot
  {
  }

  /** Along plain tasks the declared key is kept, and it is the key of the first import that has one. */
  lemma {:induction false} DeclaredRun(milli: Milli, w: World, p: seq<Queued>, name: string)
    requires AllPlain(p) && OnlyOn(p, name) && p != [] && KeysStable(milli, w, p)
    requires name in w.indexes || CanCreate(p[0].kind)
    ensures
      var after := Get(AdvanceAll(milli, w, p).declared, name);
      && (name in w.declared ==> after == Some(w.declared[name]))
      && (FirstKey(p).Some? && FirstKey(p).value.Some? ==> after == FirstKey(p).value)
  {
    hide Run, Effect, CanCreate, AdvanceAll, KeysStable, Advance, FirstKey;
    var q, t := p[..|p| - 1], p[|p| - 1];
    assert p == q + [t] && t in p;
    AdvanceSnoc(milli, w, q, t);
    FirstKeySnoc(q, t);
    var v := AdvanceAll(milli, w, q);
    AdvanceSlot(milli, w, p, name);
    PlainRun(milli, Get(w.indexes, name), p);
    AdvanceSlotStep(milli, v, t.kind, name);
    if q == [] {
      NothingFirst(milli, w);
    } else {
      DeclaredRun(milli, w, q, name);
    }
  }

  lemma NothingFirst(milli: Milli, w: World)
    ensures FirstKey([]).None? && AdvanceAll(milli, w, []) == w
  {
  }

  /** One task on two worlds that differ in their keys only. */
  lemma AdvanceSimilar(milli: Milli, a: Indexes, b: Indexes, declared: map<string, string>, kind: KindWithContent)
    requires !kind.IsPrioritised()
    requires SameIndexes(a, b) && KeysBelow(a, declared) && KeysBelow(b, declared) && KeyAgrees(World(a, declared), kind)
    ensures
      var a', b' := Advance(milli, World(a, declared), kind), Advance(milli, World(b, declared), kind);
      && SameIndexes(a'.indexes, b'.indexes) && a'.declared == b'.declared
      && KeysBelow(a'.indexes, a'.declared) && KeysBelow(b'.indexes, b'.declared)
  {
    hide Effect, SwapAll, SameData, KeyBelow;
    if kind.IndexSwaps? {
      SameNames(a, b);
      SwapSimilar(a, b, declared, kind.swaps);
    } else {
      var name := kind.indexUid;
      assert SameData(Get(a, name), Get(b, name));
      assert KeyBelow(Get(a, name), Get(declared, name)) && KeyBelow(Get(b, name), Get(declared, name));
      EffectSimilar(milli, Get(a, name), Get(b, name), Get(declared, name), kind);
      AdvanceSlotStep(milli, World(a, declared), kind, name);
      AdvanceSlotStep(milli, World(b, declared), kind, name);
      SomeOfSame(Effect(milli, Get(a, name), kind), Effect(milli, Get(b, name), kind));
      var a', b' := Advance(milli, World(a, declared), kind), Advance(milli, World(b, declared), kind);
      forall n
        ensures SameData(Get(a'.indexes, n), Get(b'.indexes, n)) && Get(a'.declared, n) == Get(b'.declared, n)
        ensures KeyBelow(Get(a'.indexes, n), Get(a'.declared, n)) && KeyBelow(Get(b'.indexes, n), Get(b'.declared, n))
      {
        assert SameData(Get(a, n), Get(b, n));
        assert KeyBelow(Get(a, n), Get(declared, n)) && KeyBelow(Get(b, n), Get(declared, n));
      }
      SameMaps(a'.declared, b'.declared);
    }
  }

  lemma SomeOfSame(a: Slot, b: Slot)
    requires SameData(a, b)
    ensures a.Some? <==> b.Some?
  {
  }

  lemma SameNames(a: Indexes, b: Indexes)
    requires SameIndexes(a, b)
    ensures a.Keys == b.Keys
  {
    forall n
      ensures n in a <==> n in b
    {
      assert SameData(Get(a, n), Get(b, n));
    }
  }

  /** The same holds along a queue whose keys are stable. */
  lemma {:induction false} AdvanceAllSimilar(milli: Milli, a: Indexes, b: Indexes, declared: map<string, string>, queue: seq<Queued>)
    requires IndexTasks(queue) && KeysStable(milli, World(a, declared), queue)
    requires SameIndexes(a, b) && KeysBelow(a, declared) && KeysBelow(b, declared)
    ensures KeysStable(milli, World(b, declared), queue)
    ensures
      var a', b' := AdvanceAll(milli, World(a, declared), queue), AdvanceAll(milli, World(b, declared), queue);
      && SameIndexes(a'.indexes, b'.indexes) && a'.declared == b'.declared
      && KeysBelow(a'.indexes, a'.declared) && KeysBelow(b'.indexes, b'.declared)
    decreases |queue|
  {
    if queue != [] {
      hide Advance, SameIndexes, KeysBelow;
      var t := queue[0];
      assert t in queue;
      AdvanceSimilar(milli, a, b, declared, t.kind);
      var a', b' := Advance(milli, World(a, declared), t.kind), Advance(milli, World(b, declared), t.kind);
      AdvanceAllSimilar(milli, a'.indexes, b'.indexes, a'.declared, queue[1..]);
    }
  }

  lemma SameAsItself(a: Indexes)
    ensures SameIndexes(a, a)
  {
  }

  /** What a scheduled batch of one index does to the indexes, against executing its tasks. */
  lemma BatchSimilar(milli: Milli, w: World, tasks: map<TaskId, KindWithContent>, name: string, final: BatchKind, p: seq<Queued>)
    requires p != [] && OnlyOn(p, name) && Stored(tasks, p) && KeysStable(milli, w, p) && KeysBelow(w.indexes, w.declared)
    requires Batched(final, p, name in w.indexes || CanCreate(p[0].kind), KeyOf(Get(w.indexes, name)))
    requires name in w.indexes ==> Lossless(milli, w.indexes[name], final, p)
    ensures Buildable(tasks, final) && !final.IndexSwap?
    ensures
      var batch := CreateNextBatchIndex(tasks, name, final, CanCreate(p[0].kind));
      var v := AdvanceAll(milli, w, p);
      && SameIndexes(ProcessBatch(milli, w.indexes, batch), v.indexes)
      && KeysBelow(ProcessBatch(milli, w.indexes, batch), v.declared)
  {
    hide Summarises, KeyRun, Lossless, CreateNextBatchIndex, Buildable, ProcessSlot, ProcessBatch, Run, Effect, Advance, AdvanceAll;
    hide SameData, KeyBelow, CanCreate, KeysStable, Batched;
    var slot := Get(w.indexes, name);
    BatchPreserves(milli, tasks, name, slot, final, p);
    var batch := CreateNextBatchIndex(tasks, name, final, CanCreate(p[0].kind));
    SummaryOf(final, p, slot);
    BatchName(tasks, name, final, p, CanCreate(p[0].kind));
    ProcessIsLocal(milli, w.indexes, batch, name);
    AdvanceSlot(milli, w, p, name);
    BatchKeyBelow(milli, w, tasks, name, final, p);
    var v := AdvanceAll(milli, w, p);
    var after := ProcessBatch(milli, w.indexes, batch);
    forall n
      ensures SameData(Get(after, n), Get(v.indexes, n)) && KeyBelow(Get(after, n), Get(v.declared, n))
    {
      if n != name {
        SameSlot(Get(w.indexes, n));
        assert Get(after, n) == Get(w.indexes, n);
        assert KeyBelow(Get(w.indexes, n), Get(w.declared, n));
      }
    }
  }

  lemma SummaryOf(final: BatchKind, p: seq<Queued>, slot: Slot)
    requires p != [] && Batched(final, p, slot.Some? || CanCreate(p[0].kind), KeyOf(slot))
    ensures Summarises(final, p)
  {
  }

  lemma SameSlot(slot: Slot)
    ensures SameData(slot, slot)
  {
  }

  /** The key a batch leaves is the declared one, or none. */
  lemma BatchKeyBelow(milli: Milli, w: World, tasks: map<TaskId, KindWithContent>, name: string, final: BatchKind, p: seq<Queued>)
    requires p != [] && OnlyOn(p, name) && Stored(tasks, p) && KeysStable(milli, w, p) && KeysBelow(w.indexes, w.declared)
    requires Batched(final, p, name in w.indexes || CanCreate(p[0].kind), KeyOf(Get(w.indexes, name)))
    requires Buildable(tasks, final) && !final.IndexSwap?
    ensures
      KeyBelow(
        ProcessSlot(milli, Get(w.indexes, name), CreateNextBatchIndex(tasks, name, final, CanCreate(p[0].kind))),
        Get(AdvanceAll(milli, w, p).declared, name))
  {
    hide KeyRun, Lossless, Run, Effect, Advance, AdvanceAll, CanCreate, KeysStable, FirstKey;
    hide Docs, Setts, Ids, EndsCleared, LastKey, ApplyOperations, ApplySettings, Buildable;
    var slot := Get(w.indexes, name);
    var create := CanCreate(p[0].kind);
    assert KeyBelow(slot, Get(w.declared, name));
    if final.IsOpen() {
      if slot.Some? || create {
        DeclaredRun(milli, w, p, name);
        OpenBatchKey(milli, tasks, name, if slot.Some? then slot.value else EMPTY_INDEX, final, p, create);
      }
    } else if !final.IndexDeletion? {
      assert p == [p[0]];
      PreservesSingle(milli, tasks, name, slot, final, p[0], create);
      AdvanceSlot(milli, w, p, name);
      SameAsItself(w.indexes);
      AdvanceAllSimilar(milli, w.indexes, w.indexes, w.declared, p);
    }
  }
}
