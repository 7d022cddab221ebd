/**
 Tasks that share no index can be executed in either order.

 `Execute1` is one task executed alone on all the indexes.  Beside the indexes, `World` carries
 the key that the tasks so far have declared for each index; it follows the index through swaps
 and is forgotten when the index is deleted.
*/
module Independence {
  import opened Wrappers
  import opened Tasks
  import opened Autobatcher
  import opened BatchShape
  import opened Indexing
  import opened SlotRuns

  function Execute1(milli: Milli, indexes: Indexes, kind: KindWithContent): Indexes
    requires !kind.IsPrioritised()
  {
    if kind.IndexSwaps? then
      if SwapNames(kind.swaps) <= indexes.Keys then SwapAll(indexes, kind.swaps) else indexes
    else Put(indexes, kind.indexUid, Effect(milli, Get(indexes, kind.indexUid), kind))
  }

  function ExecuteAll(milli: Milli, indexes: Indexes, queue: seq<Queued>): Indexes
    requires forall t <- queue :: !t.kind.IsPrioritised()
    decreases |queue|
  {
    if queue == [] then indexes
    else
      var t := queue[0];
      assert t in queue;
      ExecuteAll(milli, Execute1(milli, indexes, t.kind), queue[1..])
  }

  datatype World = World(indexes: Indexes, declared: map<string, string>)

  /** The primary key a task declares. */
  function DeclaredKey(kind: KindWithContent): Option<string> {
    if kind.DocumentAdditionOrUpdate? || kind.IndexCreation? || kind.IndexUpdate? then kind.primaryKey else None
  }

  function NextDeclared(after: bool, declared: Option<string>, key: Option<string>): Option<string> {
    if !after then None else if key.Some? then key else declared
  }

  function Advance(milli: Milli, w: World, kind: KindWithContent): World
    requires !kind.IsPrioritised()
  {
    var after := Execute1(milli, w.indexes, kind);
    if kind.IndexSwaps? then
      World(after, if SwapNames(kind.swaps) <= w.indexes.Keys then SwapAll(w.declared, kind.swaps) else w.declared)
    else
      var name := kind.indexUid;
      World(after, Put(w.declared, name, NextDeclared(name in after, Get(w.declared, name), DeclaredKey(kind))))
  }

  function AdvanceAll(milli: Milli, w: World, queue: seq<Queued>): World
    requires forall t <- queue :: !t.kind.IsPrioritised()
    decreases |queue|
  {
    if queue == [] then w
    else
      var t := queue[0];
      assert t in queue;
      AdvanceAll(milli, Advance(milli, w, t.kind), queue[1..])
  }

  /** The key a task declares is the one declared before for its index, if there was one. */
  predicate KeyAgrees(w: World, kind: KindWithContent) {
    DeclaredKey(kind).Some? && kind.indexUid in w.declared ==> w.declared[kind.indexUid] == DeclaredKey(kind).value
  }

  /** No two tasks declare different keys for an index between its creation and its deletion. */
  predicate KeysStable(milli: Milli, w: World, queue: seq<Queued>)
    requires forall t <- queue :: !t.kind.IsPrioritised()
    decreases |queue|
  {
    queue == []
    || (var t := queue[0];
        assert t in queue;
        KeyAgrees(w, t.kind) && KeysStable(milli, Advance(milli, w, t.kind), queue[1..]))
  }

  /** The same things stand behind the names of `names`. */
  predicate AgreeOn<V(==)>(a: map<string, V>, b: map<string, V>, names: set<string>) {
    forall n <- names :: Get(a, n) == Get(b, n)
  }

  lemma {:induction false} SwapFrame<V>(m: map<string, V>, swaps: seq<IndexSwap>, n: string)
    requires n !in SwapNames(swaps)
    ensures Get(SwapAll(m, swaps), n) == Get(m, n)
    decreases |swaps|
  {
    if swaps != [] {
      SwapFrame(SwapOne(m, swaps[0]), swaps[1..], n);
    }
  }

  lemma SwapOneLocal<V>(a: map<string, V>, b: map<string, V>, swap: IndexSwap, k: string)
    requires Get(a, swap.lhs) == Get(b, swap.lhs) && Get(a, swap.rhs) == Get(b, swap.rhs) && Get(a, k) == Get(b, k)
    ensures Get(SwapOne(a, swap), k) == Get(SwapOne(b, swap), k)
  {
  }

  lemma {:induction false} SwapLocal<V>(a: map<string, V>, b: map<string, V>, swaps: seq<IndexSwap>, n: string)
    requires forall k <- SwapNames(swaps) + {n} :: Get(a, k) == Get(b, k)
    ensures Get(SwapAll(a, swaps), n) == Get(SwapAll(b, swaps), n)
    decreases |swaps|
  {
    if swaps != [] {
      hide SwapOne, Get;
      assert SwapNames(swaps) == {swaps[0].lhs, swaps[0].rhs} + SwapNames(swaps[1..]);
      forall k <- SwapNames(swaps[1..]) + {n}
        ensures Get(SwapOne(a, swaps[0]), k) == Get(SwapOne(b, swaps[0]), k)
      {
        SwapOneLocal(a, b, swaps[0], k);
      }
      SwapLocal(SwapOne(a, swaps[0]), SwapOne(b, swaps[0]), swaps[1..], n);
    }
  }

  lemma {:induction false} SwapKeys<V>(m: map<string, V>, swaps: seq<IndexSwap>)
    requires SwapNames(swaps) <= m.Keys
    ensures SwapAll(m, swaps).Keys == m.Keys
    decreases |swaps|
  {
    if swaps != [] {
      SwapKeys(SwapOne(m, swaps[0]), swaps[1..]);
    }
  }

  /** A task leaves the indexes it does not mention alone. */
  lemma AdvanceFrame(milli: Milli, w: World, kind: KindWithContent, n: string)
    requires !kind.IsPrioritised() && n !in kind.Indexes()
    ensures Get(Advance(milli, w, kind).indexes, n) == Get(w.indexes, n)
    ensures Get(Advance(milli, w, kind).declared, n) == Get(w.declared, n)
  {
    if kind.IndexSwaps? {
      SwapFrame(w.indexes, kind.swaps, n);
      SwapFrame(w.declared, kind.swaps, n);
    }
  }

  lemma SwapsLocal(milli: Milli, w: World, v: World, kind: KindWithContent, n: string)
    requires kind.IndexSwaps? && n in kind.Indexes()
    requires AgreeOn(w.indexes, v.indexes, kind.Indexes()) && AgreeOn(w.declared, v.declared, kind.Indexes())
    ensures Get(Advance(milli, w, kind).indexes, n) == Get(Advance(milli, v, kind).indexes, n)
    ensures Get(Advance(milli, w, kind).declared, n) == Get(Advance(milli, v, kind).declared, n)
  {
    hide Effect, SwapAll;
    var names := SwapNames(kind.swaps);
    assert kind.Indexes() == names && names + {n} == names;
    assert names <= w.indexes.Keys <==> names <= v.indexes.Keys by {
      assert forall k <- names :: Get(w.indexes, k) == Get(v.indexes, k);
    }
    SwapLocal(w.indexes, v.indexes, kind.swaps, n);
    SwapLocal(w.declared, v.declared, kind.swaps, n);
  }

  /** What a task does to an index depends only on the indexes it mentions. */
  lemma AdvanceLocal(milli: Milli, w: World, v: World, kind: KindWithContent, n: string)
    requires !kind.IsPrioritised() && n in kind.Indexes()
    requires AgreeOn(w.indexes, v.indexes, kind.Indexes()) && AgreeOn(w.declared, v.declared, kind.Indexes())
    ensures Get(Advance(milli, w, kind).indexes, n) == Get(Advance(milli, v, kind).indexes, n)
    ensures Get(Advance(milli, w, kind).declared, n) == Get(Advance(milli, v, kind).declared, n)
  {
    hide Effect, SwapAll;
    if kind.IndexSwaps? {
      SwapsLocal(milli, w, v, kind, n);
    } else {
      assert n == kind.indexUid;
      assert Get(w.indexes, n) == Get(v.indexes, n);
    }
  }

  lemma SameMaps<V>(a: map<string, V>, b: map<string, V>)
    requires forall n :: Get(a, n) == Get(b, n)
    ensures a == b
  {
    forall n
      ensures n in a <==> n in b
      ensures n in a ==> a[n] == b[n]
    {
      assert Get(a, n) == Get(b, n);
    }
  }

  lemma Commute(milli: Milli, w: World, t: KindWithContent, u: KindWithContent)
    requires !t.IsPrioritised() && !u.IsPrioritised() && t.Indexes() !! u.Indexes()
    ensures Advance(milli, Advance(milli, w, t), u) == Advance(milli, Advance(milli, w, u), t)
    ensures KeyAgrees(Advance(milli, w, t), u) == KeyAgrees(w, u)
  {
    hide Advance;
    var wt, wu := Advance(milli, w, t), Advance(milli, w, u);
    var wtu, wut := Advance(milli, wt, u), Advance(milli, wu, t);
    forall n
      ensures Get(wtu.indexes, n) == Get(wut.indexes, n) && Get(wtu.declared, n) == Get(wut.declared, n)
    {
      if n in t.Indexes() {
        AdvanceFrame(milli, wt, u, n);
        FrameOn(milli, w, u, t.Indexes());
        AdvanceLocal(milli, w, wu, t, n);
      } else if n in u.Indexes() {
        AdvanceFrame(milli, wu, t, n);
        FrameOn(milli, w, t, u.Indexes());
        AdvanceLocal(milli, wt, w, u, n);
      } else {
        AdvanceFrame(milli, wt, u, n);
        AdvanceFrame(milli, w, t, n);
        AdvanceFrame(milli, wu, t, n);
        AdvanceFrame(milli, w, u, n);
      }
    }
    SameMaps(wtu.indexes, wut.indexes);
    SameMaps(wtu.declared, wut.declared);
    if DeclaredKey(u).Some? {
      assert u.indexUid in u.Indexes();
      AdvanceFrame(milli, w, t, u.indexUid);
    }
  }

  lemma FrameOn(milli: Milli, w: World, kind: KindWithContent, names: set<string>)
    requires !kind.IsPrioritised() && names !! kind.Indexes()
    ensures AgreeOn(w.indexes, Advance(milli, w, kind).indexes, names)
    ensures AgreeOn(w.declared, Advance(milli, w, kind).declared, names)
    ensures AgreeOn(Advance(milli, w, kind).indexes, w.indexes, names)
    ensures AgreeOn(Advance(milli, w, kind).declared, w.declared, names)
  {
    forall n <- names
      ensures Get(Advance(milli, w, kind).indexes, n) == Get(w.indexes, n)
      ensures Get(Advance(milli, w, kind).declared, n) == Get(w.declared, n)
    {
      AdvanceFrame(milli, w, kind, n);
    }
  }
}
