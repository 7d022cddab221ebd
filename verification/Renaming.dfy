/**
 What a swap does to names: to the indexes behind them and to the older tasks that mention them.

 A swap task names each index once, so its pairs can be read at once: `Partner` gives the other
 name of the pair.  The lemmas relate the program's pair-by-pair updates to that reading.
*/
module Renaming {
  import opened Wrappers
  import opened Tasks
  import opened Indexing
  import opened TaskQueue

  /** The name that `name` is exchanged with. */
  function Partner(name: string, swaps: seq<IndexSwap>): string {
    if swaps == [] then name
    else if name == swaps[0].lhs then swaps[0].rhs
    else if name == swaps[0].rhs then swaps[0].lhs
    else Partner(name, swaps[1..])
  }

  lemma {:induction false} PartnerOutside(name: string, swaps: seq<IndexSwap>)
    requires name !in SwapNames(swaps)
    ensures Partner(name, swaps) == name
  {
    if swaps != [] {
      PartnerOutside(name, swaps[1..]);
    }
  }

  lemma {:induction false} PartnerInside(name: string, swaps: seq<IndexSwap>)
    requires ValidSwaps(swaps) && name in SwapNames(swaps)
    ensures Partner(name, swaps) in SwapNames(swaps) && Partner(name, swaps) != name
    ensures Partner(Partner(name, swaps), swaps) == name
  {
    if name != swaps[0].lhs && name != swaps[0].rhs {
      PartnerInside(name, swaps[1..]);
    }
  }

  /** Exchanging twice gives every name back. */
  lemma PartnerTwice(name: string, swaps: seq<IndexSwap>)
    requires ValidSwaps(swaps)
    ensures Partner(Partner(name, swaps), swaps) == name
  {
    if name in SwapNames(swaps) {
      PartnerInside(name, swaps);
    } else {
      PartnerOutside(name, swaps);
    }
  }

  /** The partner of a name is the one it is listed with. */
  lemma {:induction false} PartnerListed(swap: IndexSwap, swaps: seq<IndexSwap>)
    requires ValidSwaps(swaps) && swap in swaps
    ensures swap.lhs in SwapNames(swaps) && swap.rhs in SwapNames(swaps)
    ensures Partner(swap.lhs, swaps) == swap.rhs && Partner(swap.rhs, swaps) == swap.lhs
  {
    if swap != swaps[0] {
      PartnerListed(swap, swaps[1..]);
    }
  }

  lemma {:induction false} ListedSwap(name: string, swaps: seq<IndexSwap>) returns (swap: IndexSwap)
    requires name in SwapNames(swaps)
    ensures swap in swaps && (name == swap.lhs || name == swap.rhs)
  {
    if name == swaps[0].lhs || name == swaps[0].rhs {
      swap := swaps[0];
    } else {
      swap := ListedSwap(name, swaps[1..]);
    }
  }

  /** The order of the pairs does not matter. */
  lemma PartnerOrder(name: string, swaps: seq<IndexSwap>, other: seq<IndexSwap>)
    requires ValidSwaps(swaps) && ValidSwaps(other)
    requires forall swap :: swap in swaps <==> swap in other
    ensures Partner(name, swaps) == Partner(name, other)
  {
    if name in SwapNames(swaps) {
      var swap := ListedSwap(name, swaps);
      PartnerListed(swap, swaps);
      PartnerListed(swap, other);
    } else if name in SwapNames(other) {
      var swap := ListedSwap(name, other);
      PartnerListed(swap, swaps);
    } else {
      PartnerOutside(name, swaps);
      PartnerOutside(name, other);
    }
  }

  // Indexes

  /** Swapping pair by pair puts behind each name what was behind its partner. */
  lemma {:induction false} SwapAllAt<V>(m: map<string, V>, swaps: seq<IndexSwap>, name: string)
    requires ValidSwaps(swaps)
    ensures Get(SwapAll(m, swaps), name) == Get(m, Partner(name, swaps))
    decreases |swaps|
  {
    if swaps != [] {
      SwapAllAt(SwapOne(m, swaps[0]), swaps[1..], name);
      if name == swaps[0].lhs || name == swaps[0].rhs {
        PartnerOutside(name, swaps[1..]);
      } else if name in SwapNames(swaps[1..]) {
        PartnerInside(name, swaps[1..]);
      } else {
        PartnerOutside(name, swaps[1..]);
      }
    }
  }

  lemma SameMap<V>(m: map<string, V>, n: map<string, V>)
    requires forall name :: Get(m, name) == Get(n, name)
    ensures m == n
  {
    forall name
      ensures name in m <==> name in n
      ensures name in m ==> m[name] == n[name]
    {
      assert Get(m, name) == Get(n, name);
    }
  }

  /** A swap task run twice leaves the indexes as they were. */
  lemma SwapAllTwice<V>(m: map<string, V>, swaps: seq<IndexSwap>)
    requires ValidSwaps(swaps)
    ensures SwapAll(SwapAll(m, swaps), swaps) == m
  {
    forall name
      ensures Get(SwapAll(SwapAll(m, swaps), swaps), name) == Get(m, name)
    {
      SwapAllAt(SwapAll(m, swaps), swaps, name);
      SwapAllAt(m, swaps, Partner(name, swaps));
      PartnerTwice(name, swaps);
    }
    SameMap(SwapAll(SwapAll(m, swaps), swaps), m);
  }

  /** The pairs of a swap task can be listed in any order. */
  lemma SwapAllOrder<V>(m: map<string, V>, swaps: seq<IndexSwap>, other: seq<IndexSwap>)
    requires ValidSwaps(swaps) && ValidSwaps(other)
    requires forall swap :: swap in swaps <==> swap in other
    ensures SwapAll(m, swaps) == SwapAll(m, other)
  {
    forall name
      ensures Get(SwapAll(m, swaps), name) == Get(SwapAll(m, other), name)
    {
      SwapAllAt(m, swaps, name);
      SwapAllAt(m, other, name);
      PartnerOrder(name, swaps, other);
    }
    SameMap(SwapAll(m, swaps), SwapAll(m, other));
  }

  // Tasks

  /** The renamings of a swap task on one name, pair by pair. */
  function RenameName(name: string, swaps: seq<IndexSwap>): string
    decreases |swaps|
  {
    if swaps == [] then name else RenameName(RenameOne(name, swaps[0]), swaps[1..])
  }

  lemma {:induction false} RenameNameIsPartner(name: string, swaps: seq<IndexSwap>)
    requires ValidSwaps(swaps)
    ensures RenameName(name, swaps) == Partner(name, swaps)
    decreases |swaps|
  {
    if swaps != [] {
      RenameNameIsPartner(RenameOne(name, swaps[0]), swaps[1..]);
      if name == swaps[0].lhs || name == swaps[0].rhs {
        PartnerOutside(RenameOne(name, swaps[0]), swaps[1..]);
      }
    }
  }

  function RenameKinds(kind: KindWithContent, swaps: seq<IndexSwap>): KindWithContent
    decreases |swaps|
  {
    if swaps == [] then kind else RenameKinds(RenameKind(kind, swaps[0]), swaps[1..])
  }

  /** The stored tasks after a swap task: the older ones are renamed, one by one. */
  lemma {:induction false} RenameAllAt(tasks: TaskMap, swaps: seq<IndexSwap>, bound: TaskId, id: TaskId)
    requires id in tasks
    ensures RenameAll(tasks, swaps, bound).Keys == tasks.Keys
    ensures RenameAll(tasks, swaps, bound)[id]
         == if id < bound then tasks[id].(kind := RenameKinds(tasks[id].kind, swaps)) else tasks[id]
    decreases |swaps|
  {
    if swaps != [] {
      var renamed := RenameTasks(tasks, swaps[0], bound);
      assert renamed.Keys == tasks.Keys;
      RenameAllAt(renamed, swaps[1..], bound, id);
    }
  }

  /** The kind with the partner of each name in its place. */
  function Renamed(kind: KindWithContent, swaps: seq<IndexSwap>): KindWithContent {
    if kind.IndexSwaps? then KindWithContent.IndexSwaps(PartnerSwaps(kind.swaps, swaps))
    else if kind.IsPrioritised() then kind
    else kind.(indexUid := Partner(kind.indexUid, swaps))
  }

  function PartnerSwaps(list: seq<IndexSwap>, swaps: seq<IndexSwap>): seq<IndexSwap> {
    if list == [] then []
    else [IndexSwap.IndexSwap(Partner(list[0].lhs, swaps), Partner(list[0].rhs, swaps))] + PartnerSwaps(list[1..], swaps)
  }

  lemma {:induction false} RenameSwapsIsPartner(list: seq<IndexSwap>, swap: IndexSwap, rest: seq<IndexSwap>)
    requires ValidSwaps([swap] + rest)
    ensures PartnerSwaps(RenameSwaps(list, swap), rest) == PartnerSwaps(list, [swap] + rest)
  {
    if list != [] {
      RenameThenPartner(list[0].lhs, swap, rest);
      RenameThenPartner(list[0].rhs, swap, rest);
      RenameSwapsIsPartner(list[1..], swap, rest);
    }
  }

  lemma RenameThenPartner(name: string, swap: IndexSwap, rest: seq<IndexSwap>)
    requires ValidSwaps([swap] + rest)
    ensures Partner(RenameOne(name, swap), rest) == Partner(name, [swap] + rest)
  {
    assert ([swap] + rest)[1..] == rest;
    if name == swap.lhs || name == swap.rhs {
      PartnerOutside(RenameOne(name, swap), rest);
    }
  }

  lemma {:induction false} NoPartners(list: seq<IndexSwap>)
    ensures PartnerSwaps(list, []) == list
  {
    if list != [] {
      NoPartners(list[1..]);
    }
  }

  /** Renaming pair by pair puts each name's partner in its place, in older swap tasks too. */
  lemma {:induction false} RenameKindsIsRenamed(kind: KindWithContent, swaps: seq<IndexSwap>)
    requires ValidSwaps(swaps)
    ensures RenameKinds(kind, swaps) == Renamed(kind, swaps)
    decreases |swaps|
  {
    if swaps == [] {
      if kind.IndexSwaps? {
        NoPartners(kind.swaps);
      }
    } else {
      var swap, rest := swaps[0], swaps[1..];
      assert swaps == [swap] + rest;
      RenameKindsIsRenamed(RenameKind(kind, swap), rest);
      if kind.IndexSwaps? {
        RenameSwapsIsPartner(kind.swaps, swap, rest);
      } else if !kind.IsPrioritised() {
        RenameThenPartner(kind.indexUid, swap, rest);
      }
    }
  }

  lemma {:induction false} PartnerSwapsTwice(list: seq<IndexSwap>, swaps: seq<IndexSwap>)
    requires ValidSwaps(swaps)
    ensures PartnerSwaps(PartnerSwaps(list, swaps), swaps) == list
  {
    if list != [] {
      PartnerTwice(list[0].lhs, swaps);
      PartnerTwice(list[0].rhs, swaps);
      PartnerSwapsTwice(list[1..], swaps);
    }
  }

  lemma RenamedTwice(kind: KindWithContent, swaps: seq<IndexSwap>)
    requires ValidSwaps(swaps)
    ensures Renamed(Renamed(kind, swaps), swaps) == kind
  {
    if kind.IndexSwaps? {
      PartnerSwapsTwice(kind.swaps, swaps);
    } else if !kind.IsPrioritised() {
      PartnerTwice(kind.indexUid, swaps);
    }
  }

  lemma {:induction false} PartnerSwapsOrder(list: seq<IndexSwap>, swaps: seq<IndexSwap>, other: seq<IndexSwap>)
    requires ValidSwaps(swaps) && ValidSwaps(other)
    requires forall swap :: swap in swaps <==> swap in other
    ensures PartnerSwaps(list, swaps) == PartnerSwaps(list, other)
  {
    if list != [] {
      PartnerOrder(list[0].lhs, swaps, other);
      PartnerOrder(list[0].rhs, swaps, other);
      PartnerSwapsOrder(list[1..], swaps, other);
    }
  }

  lemma RenamedOrder(kind: KindWithContent, swaps: seq<IndexSwap>, other: seq<IndexSwap>)
    requires ValidSwaps(swaps) && ValidSwaps(other)
    requires forall swap :: swap in swaps <==> swap in other
    ensures Renamed(kind, swaps) == Renamed(kind, other)
  {
    if kind.IndexSwaps? {
      PartnerSwapsOrder(kind.swaps, swaps, other);
    } else if !kind.IsPrioritised() {
      PartnerOrder(kind.indexUid, swaps, other);
    }
  }

  lemma {:induction false} PartnerSwapsNames(list: seq<IndexSwap>, swaps: seq<IndexSwap>, name: string)
    requires ValidSwaps(swaps)
    ensures name in SwapNames(PartnerSwaps(list, swaps)) <==> Partner(name, swaps) in SwapNames(list)
  {
    if list != [] {
      PartnerTwice(list[0].lhs, swaps);
      PartnerTwice(list[0].rhs, swaps);
      PartnerTwice(name, swaps);
      PartnerSwapsNames(list[1..], swaps, name);
    }
  }

  /** A renamed task mentions a name exactly when it mentioned its partner before. */
  lemma RenamedIndexes(kind: KindWithContent, swaps: seq<IndexSwap>, name: string)
    requires ValidSwaps(swaps)
    ensures name in Renamed(kind, swaps).Indexes() <==> Partner(name, swaps) in kind.Indexes()
  {
    if kind.IndexSwaps? {
      PartnerSwapsNames(kind.swaps, swaps, name);
    } else if !kind.IsPrioritised() {
      PartnerTwice(kind.indexUid, swaps);
      PartnerTwice(name, swaps);
    }
  }

  lemma {:induction false} PartnerSwapsValid(list: seq<IndexSwap>, swaps: seq<IndexSwap>)
    requires ValidSwaps(swaps) && ValidSwaps(list)
    ensures ValidSwaps(PartnerSwaps(list, swaps))
  {
    if list != [] {
      var l, r := list[0].lhs, list[0].rhs;
      PartnerTwice(l, swaps);
      PartnerTwice(r, swaps);
      PartnerSwapsNames(list[1..], swaps, Partner(l, swaps));
      PartnerSwapsNames(list[1..], swaps, Partner(r, swaps));
      PartnerSwapsValid(list[1..], swaps);
    }
  }

  /** Nothing but names changes: not the type, the file, the tasks referred to, nor being a valid swap. */
  lemma RenamedKeeps(kind: KindWithContent, swaps: seq<IndexSwap>)
    requires ValidSwaps(swaps)
    ensures Renamed(kind, swaps).AsKind() == kind.AsKind()
    ensures Renamed(kind, swaps).ContentUuid() == kind.ContentUuid()
    ensures Renamed(kind, swaps).IndexSwaps? == kind.IndexSwaps?
    ensures kind.IsPrioritised() ==> Renamed(kind, swaps) == kind
    ensures !kind.IsPrioritised() ==> !Renamed(kind, swaps).IsPrioritised()
    ensures kind.IndexSwaps? && ValidSwaps(kind.swaps) ==> ValidSwaps(Renamed(kind, swaps).swaps)
  {
    if kind.IndexSwaps? && ValidSwaps(kind.swaps) {
      PartnerSwapsValid(kind.swaps, swaps);
    }
  }

  /** The whole effect of a swap task on a stored task. */
  lemma SwappedTask(tasks: TaskMap, swaps: seq<IndexSwap>, bound: TaskId, id: TaskId)
    requires ValidSwaps(swaps) && id in tasks
    ensures RenameAll(tasks, swaps, bound).Keys == tasks.Keys
    ensures RenameAll(tasks, swaps, bound)[id]
         == if id < bound then tasks[id].(kind := Renamed(tasks[id].kind, swaps)) else tasks[id]
  {
    RenameAllAt(tasks, swaps, bound, id);
    RenameKindsIsRenamed(tasks[id].kind, swaps);
  }

  lemma SwappedKeys(tasks: TaskMap, swaps: seq<IndexSwap>, bound: TaskId)
    requires ValidSwaps(swaps)
    ensures RenameAll(tasks, swaps, bound).Keys == tasks.Keys
  {
    if id :| id in tasks {
      RenameAllAt(tasks, swaps, bound, id);
    } else {
      EmptyStaysEmpty(tasks, swaps, bound);
    }
  }

  lemma {:induction false} EmptyStaysEmpty(tasks: TaskMap, swaps: seq<IndexSwap>, bound: TaskId)
    requires tasks.Keys == {}
    ensures RenameAll(tasks, swaps, bound).Keys == {}
    decreases |swaps|
  {
    if swaps != [] {
      EmptyStaysEmpty(RenameTasks(tasks, swaps[0], bound), swaps[1..], bound);
    }
  }

  /** A swap task run twice leaves the references of the older tasks as they were. */
  lemma RenameAllTwice(tasks: TaskMap, swaps: seq<IndexSwap>, bound: TaskId)
    requires ValidSwaps(swaps)
    ensures RenameAll(RenameAll(tasks, swaps, bound), swaps, bound) == tasks
  {
    var once := RenameAll(tasks, swaps, bound);
    SwappedKeys(tasks, swaps, bound);
    SwappedKeys(once, swaps, bound);
    forall id <- tasks
      ensures RenameAll(once, swaps, bound)[id] == tasks[id]
    {
      SwappedTask(tasks, swaps, bound, id);
      SwappedTask(once, swaps, bound, id);
      RenamedTwice(tasks[id].kind, swaps);
    }
  }

  lemma RenameAllOrder(tasks: TaskMap, swaps: seq<IndexSwap>, other: seq<IndexSwap>, bound: TaskId)
    requires ValidSwaps(swaps) && ValidSwaps(other)
    requires forall swap :: swap in swaps <==> swap in other
    ensures RenameAll(tasks, swaps, bound) == RenameAll(tasks, other, bound)
  {
    SwappedKeys(tasks, swaps, bound);
    SwappedKeys(tasks, other, bound);
    forall id <- tasks
      ensures RenameAll(tasks, swaps, bound)[id] == RenameAll(tasks, other, bound)[id]
    {
      SwappedTask(tasks, swaps, bound, id);
      SwappedTask(tasks, other, bound, id);
      RenamedOrder(tasks[id].kind, swaps, other);
    }
  }

  /** After a swap, an older task is about the same index as before, under its new name. */
  lemma ReferencesFollow(tasks: TaskMap, indexes: Indexes, swaps: seq<IndexSwap>, bound: TaskId, id: TaskId, name: string)
    requires ValidSwaps(swaps) && id in tasks && id < bound && name in tasks[id].kind.Indexes()
    ensures RenameAll(tasks, swaps, bound).Keys == tasks.Keys
    ensures Partner(name, swaps) in RenameAll(tasks, swaps, bound)[id].kind.Indexes()
    ensures Get(SwapAll(indexes, swaps), Partner(name, swaps)) == Get(indexes, name)
  {
    SwappedTask(tasks, swaps, bound, id);
    PartnerTwice(name, swaps);
    RenamedIndexes(tasks[id].kind, swaps, Partner(name, swaps));
    SwapAllAt(indexes, swaps, Partner(name, swaps));
  }
}
