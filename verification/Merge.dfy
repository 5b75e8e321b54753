/** The heap-driven k-way merge over sorted tables, and its de-duplicating reader. */
module Merge {
  import opened Basics
  import opened Bytes
  import Lex

  /** One emitted row: a key and the table it came from. */
  datatype Entry = Entry(key: seq<byte>, sst: nat)

  datatype SstIterator = SstIterator(sst: nat, keys: seq<seq<byte>>, current: nat)

  datatype HeapEntry = HeapEntry(entry: Entry, iter: nat)

  // ---------------------------------------------------------------- the output order

  predicate Before(a: Entry, b: Entry) {
    Lex.Less(a.key, b.key) || (a.key == b.key && a.sst < b.sst)
  }

  predicate AtMost(a: Entry, b: Entry) {
    a == b || Before(a, b)
  }

  lemma OrderLaws(a: Entry, b: Entry)
    ensures Before(a, b) || a == b || Before(b, a)
    ensures !(Before(a, b) && Before(b, a)) && !Before(a, a)
  {
    Lex.Trichotomy(a.key, b.key);
    Lex.Trichotomy(a.key, a.key);
  }

  lemma AtMostTransitive(a: Entry, b: Entry, c: Entry)
    requires AtMost(a, b) && AtMost(b, c)
    ensures AtMost(a, c)
  {
    if Lex.Less(a.key, b.key) && Lex.Less(b.key, c.key) { Lex.Transitive(a.key, b.key, c.key); }
  }

  ghost predicate Sorted(entries: seq<Entry>) {
    forall i, j :: 0 <= i < j < |entries| ==> AtMost(entries[i], entries[j])
  }

  ghost predicate SortedKeys(keys: seq<seq<byte>>) {
    forall i, j :: 0 <= i < j < |keys| ==> !Lex.Less(keys[j], keys[i])
  }

  lemma SameFirst(a: seq<Entry>, b: seq<Entry>)
    requires Sorted(a) && Sorted(b) && a != [] && b != [] && a[0] in b && b[0] in a
    ensures a[0] == b[0]
  {
    OrderLaws(a[0], b[0]);
    var i :| 0 <= i < |a| && a[i] == b[0];
    var j :| 0 <= j < |b| && b[j] == a[0];
    assert AtMost(a[0], b[0]) && AtMost(b[0], a[0]);
  }

  lemma RestOf(a: seq<Entry>)
    requires a != []
    ensures multiset(a[1..]) == multiset(a) - multiset{a[0]}
  {
    assert a == [a[0]] + a[1..];
  }

  /** A sorted order of given entries is unique, so the merge has only one correct output. */
  lemma {:induction false} SortedUnique(a: seq<Entry>, b: seq<Entry>)
    requires Sorted(a) && Sorted(b) && multiset(a) == multiset(b)
    ensures a == b
  {
    assert |multiset(a)| == |a| && |multiset(b)| == |b|;
    if a != [] {
      assert a[0] in multiset(b) && b[0] in multiset(a);
      SameFirst(a, b);
      RestOf(a);
      RestOf(b);
      SortedUnique(a[1..], b[1..]);
      assert a == [a[0]] + a[1..] && b == [b[0]] + b[1..];
    }
  }

  // ---------------------------------------------------------------- what is still to come

  /** What one table has still to deliver. */
  function Tail(it: SstIterator): multiset<Entry>
    decreases |it.keys| - it.current
  {
    if it.current >= |it.keys| then multiset{}
    else multiset{Entry(it.keys[it.current], it.sst)} + Tail(it.(current := it.current + 1))
  }

  /** What all tables have still to deliver. */
  function Tails(iterators: seq<SstIterator>): multiset<Entry> {
    if iterators == [] then multiset{}
    else Tails(iterators[..|iterators| - 1]) + Tail(iterators[|iterators| - 1])
  }

  function Heads(heap: seq<HeapEntry>): multiset<Entry> {
    if heap == [] then multiset{}
    else Heads(heap[..|heap| - 1]) + multiset{heap[|heap| - 1].entry}
  }

  lemma {:induction false} TailMember(it: SstIterator, e: Entry) returns (j: nat)
    requires e in Tail(it)
    ensures it.current <= j < |it.keys| && e == Entry(it.keys[j], it.sst)
    decreases |it.keys| - it.current
  {
    if e == Entry(it.keys[it.current], it.sst) {
      j := it.current;
    } else {
      j := TailMember(it.(current := it.current + 1), e);
    }
  }

  lemma {:induction false} TailsMember(iterators: seq<SstIterator>, e: Entry) returns (i: nat, j: nat)
    requires e in Tails(iterators)
    ensures i < |iterators| && iterators[i].current <= j < |iterators[i].keys|
    ensures e == Entry(iterators[i].keys[j], iterators[i].sst)
  {
    var n := |iterators| - 1;
    if e in Tail(iterators[n]) {
      i := n;
      j := TailMember(iterators[n], e);
    } else {
      i, j := TailsMember(iterators[..n], e);
    }
  }

  lemma {:induction false} ReplaceTail(iterators: seq<SstIterator>, i: nat, it: SstIterator, e: Entry)
    requires i < |iterators|
    ensures Tails(iterators[i := it])[e] + Tail(iterators[i])[e] == Tails(iterators)[e] + Tail(it)[e]
  {
    var n := |iterators| - 1;
    var changed := iterators[i := it];
    assert Tails(iterators)[e] == Tails(iterators[..n])[e] + Tail(iterators[n])[e];
    assert Tails(changed)[e] == Tails(changed[..n])[e] + Tail(changed[n])[e];
    if i == n {
      assert changed[..n] == iterators[..n];
    } else {
      ReplaceTail(iterators[..n], i, it, e);
      assert changed[..n] == iterators[..n][i := it];
    }
  }

  /** Advancing one cursor takes exactly the entry under it out of the tails. */
  lemma AdvanceTails(iterators: seq<SstIterator>, i: nat)
    requires i < |iterators| && iterators[i].current < |iterators[i].keys|
    ensures
      var it := iterators[i];
      Tails(iterators) ==
      Tails(iterators[i := it.(current := it.current + 1)]) + multiset{Entry(it.keys[it.current], it.sst)}
  {
    var it := iterators[i];
    var moved := iterators[i := it.(current := it.current + 1)];
    var head := multiset{Entry(it.keys[it.current], it.sst)};
    forall e ensures Tails(iterators)[e] == (Tails(moved) + head)[e] {
      ReplaceTail(iterators, i, it.(current := it.current + 1), e);
      TailOfNext(it, e);
    }
  }

  lemma TailOfNext(it: SstIterator, e: Entry)
    requires it.current < |it.keys|
    ensures Tail(it)[e] == multiset{Entry(it.keys[it.current], it.sst)}[e] + Tail(it.(current := it.current + 1))[e]
  {
  }

  lemma {:induction false} HeadsMember(heap: seq<HeapEntry>, e: Entry) returns (i: nat)
    requires e in Heads(heap)
    ensures i < |heap| && heap[i].entry == e
  {
    var n := |heap| - 1;
    if heap[n].entry == e { i := n; } else { i := HeadsMember(heap[..n], e); }
  }

  lemma PushHead(heap: seq<HeapEntry>, h: HeapEntry)
    ensures Heads(heap + [h]) == Heads(heap) + multiset{h.entry}
  {
    assert (heap + [h])[..|heap|] == heap;
  }

  /** The heap without the entry at `top`: the last entry moves into the gap. */
  function Removed(heap: seq<HeapEntry>, top: nat): seq<HeapEntry>
    requires top < |heap|
  {
    var last := |heap| - 1;
    if top == last then heap[..last] else heap[..last][top := heap[last]]
  }

  lemma {:induction false} ReplaceHead(heap: seq<HeapEntry>, i: nat, h: HeapEntry, e: Entry)
    requires i < |heap|
    ensures Heads(heap[i := h])[e] + multiset{heap[i].entry}[e] == Heads(heap)[e] + multiset{h.entry}[e]
  {
    var n := |heap| - 1;
    var changed := heap[i := h];
    assert Heads(heap)[e] == Heads(heap[..n])[e] + multiset{heap[n].entry}[e];
    assert Heads(changed)[e] == Heads(changed[..n])[e] + multiset{changed[n].entry}[e];
    if i == n {
      assert changed[..n] == heap[..n];
    } else {
      ReplaceHead(heap[..n], i, h, e);
      assert changed[..n] == heap[..n][i := h];
    }
  }

  lemma RemoveHeadCount(heap: seq<HeapEntry>, top: nat, e: Entry)
    requires top < |heap|
    ensures Heads(heap)[e] == Heads(Removed(heap, top))[e] + multiset{heap[top].entry}[e]
  {
    var last := |heap| - 1;
    assert Heads(heap)[e] == Heads(heap[..last])[e] + multiset{heap[last].entry}[e];
    if top < last { ReplaceHead(heap[..last], top, heap[last], e); }
  }

  lemma RemoveHead(heap: seq<HeapEntry>, top: nat)
    requires top < |heap|
    ensures Heads(heap) == Heads(Removed(heap, top)) + multiset{heap[top].entry}
  {
    var before, after, popped := Heads(heap), Heads(Removed(heap, top)), multiset{heap[top].entry};
    forall e ensures before[e] == (after + popped)[e] { RemoveHeadCount(heap, top, e); }
  }

  /** A binary heap's pop: the position of an entry no other one precedes. */
  method Top(heap: seq<HeapEntry>) returns (top: nat)
    requires heap != []
    ensures top < |heap|
    ensures forall i :: 0 <= i < |heap| ==> AtMost(heap[top].entry, heap[i].entry)
  {
    top := 0;
    for k := 1 to |heap|
      invariant top < |heap|
      invariant forall i :: 0 <= i < k ==> AtMost(heap[top].entry, heap[i].entry)
    {
      OrderLaws(heap[top].entry, heap[k].entry);
      if Before(heap[k].entry, heap[top].entry) {
        forall i | 0 <= i < k ensures AtMost(heap[k].entry, heap[i].entry) {
          AtMostTransitive(heap[k].entry, heap[top].entry, heap[i].entry);
        }
        top := k;
      }
    }
  }

  // ---------------------------------------------------------------- the state of a merge

  ghost predicate HeadOk(iterators: seq<SstIterator>, h: HeapEntry) {
    && h.iter < |iterators|
    && h.entry.sst == iterators[h.iter].sst
    && forall j :: iterators[h.iter].current <= j < |iterators[h.iter].keys| ==>
         !Lex.Less(iterators[h.iter].keys[j], h.entry.key)
  }

  /** Tables are sorted, and every heap entry precedes what is left of its table. */
  ghost predicate Consistent(iterators: seq<SstIterator>, heap: seq<HeapEntry>) {
    && (forall i :: 0 <= i < |iterators| ==> SortedKeys(iterators[i].keys))
    && (forall h :: 0 <= h < |heap| ==> HeadOk(iterators, heap[h]))
  }

  ghost predicate Waiting(heap: seq<HeapEntry>, i: nat) {
    exists h :: 0 <= h < |heap| && heap[h].iter == i
  }

  /** Table `i` is exhausted or has an entry in the heap. */
  ghost predicate Represented(iterators: seq<SstIterator>, heap: seq<HeapEntry>, i: nat)
    requires i < |iterators|
  {
    iterators[i].current < |iterators[i].keys| ==> Waiting(heap, i)
  }

  ghost function Remaining(iterators: seq<SstIterator>, heap: seq<HeapEntry>): multiset<Entry> {
    Heads(heap) + Tails(iterators)
  }

  function Advanced(iterators: seq<SstIterator>, i: nat): seq<SstIterator>
    requires i < |iterators|
  {
    iterators[i := iterators[i].(current := iterators[i].current + 1)]
  }

  function Pushed(iterators: seq<SstIterator>, heap: seq<HeapEntry>, i: nat): seq<HeapEntry>
    requires i < |iterators| && iterators[i].current < |iterators[i].keys|
  {
    heap + [HeapEntry(Entry(iterators[i].keys[iterators[i].current], iterators[i].sst), i)]
  }

  lemma RefillKeepsRemaining(iterators: seq<SstIterator>, heap: seq<HeapEntry>, i: nat)
    requires i < |iterators| && iterators[i].current < |iterators[i].keys|
    ensures Remaining(Advanced(iterators, i), Pushed(iterators, heap, i)) == Remaining(iterators, heap)
  {
    AdvanceTails(iterators, i);
    PushHead(heap, HeapEntry(Entry(iterators[i].keys[iterators[i].current], iterators[i].sst), i));
  }

  /** Taking the next key of table `i` into the heap. */
  lemma RefillKeeps(iterators: seq<SstIterator>, heap: seq<HeapEntry>, i: nat)
    requires Consistent(iterators, heap) && i < |iterators| && iterators[i].current < |iterators[i].keys|
    ensures
      var more := Pushed(iterators, heap, i);
      && Consistent(Advanced(iterators, i), more)
      && Waiting(more, i)
      && (forall k :: Waiting(heap, k) ==> Waiting(more, k))
  {
    var moved, more := Advanced(iterators, i), Pushed(iterators, heap, i);
    assert more[|heap|].iter == i;
    forall k | Waiting(heap, k) ensures Waiting(more, k) {
      var h :| 0 <= h < |heap| && heap[h].iter == k;
      assert more[h] == heap[h];
    }
    forall h | 0 <= h < |more| ensures HeadOk(moved, more[h]) {
      if h < |heap| { assert HeadOk(iterators, heap[h]); }
    }
  }

  /** The remaining heap is made of entries of the heap. */
  lemma RemovedAt(heap: seq<HeapEntry>, top: nat, h: nat)
    requires top < |heap| && h < |heap| - 1
    ensures Removed(heap, top)[h] == heap[if h == top then |heap| - 1 else h]
  {
  }

  lemma PopKeepsConsistent(iterators: seq<SstIterator>, heap: seq<HeapEntry>, top: nat)
    requires Consistent(iterators, heap) && top < |heap|
    ensures Consistent(iterators, Removed(heap, top))
  {
    var rest := Removed(heap, top);
    forall h | 0 <= h < |rest| ensures HeadOk(iterators, rest[h]) { RemovedAt(heap, top, h); }
  }

  lemma PopKeepsWaiting(heap: seq<HeapEntry>, top: nat, k: nat)
    requires top < |heap| && Waiting(heap, k) && k != heap[top].iter
    ensures Waiting(Removed(heap, top), k)
  {
    var last := |heap| - 1;
    var h :| 0 <= h < |heap| && heap[h].iter == k;
    var g := if h == last then top else h;
    RemovedAt(heap, top, g);
    assert Removed(heap, top)[g].iter == k;
  }

  /** Taking an entry off the heap leaves only its own table unrepresented. */
  lemma PopKeeps(iterators: seq<SstIterator>, heap: seq<HeapEntry>, top: nat)
    requires Consistent(iterators, heap) && top < |heap|
    ensures
      var rest := Removed(heap, top);
      && Consistent(iterators, rest)
      && (forall k :: Waiting(heap, k) && k != heap[top].iter ==> Waiting(rest, k))
      && Remaining(iterators, heap) == Remaining(iterators, rest) + multiset{heap[top].entry}
  {
    RemoveHead(heap, top);
    PopKeepsConsistent(iterators, heap, top);
    forall k | Waiting(heap, k) && k != heap[top].iter ensures Waiting(Removed(heap, top), k) {
      PopKeepsWaiting(heap, top, k);
    }
  }

  lemma PopRepresents(iterators: seq<SstIterator>, heap: seq<HeapEntry>, top: nat)
    requires Consistent(iterators, heap) && top < |heap|
    requires forall i :: 0 <= i < |iterators| ==> Represented(iterators, heap, i)
    ensures forall i :: 0 <= i < |iterators| && i != heap[top].iter ==>
              Represented(iterators, Removed(heap, top), i)
  {
    PopKeeps(iterators, heap, top);
    forall i | 0 <= i < |iterators| && i != heap[top].iter ensures Represented(iterators, Removed(heap, top), i) {
      assert Represented(iterators, heap, i);
    }
  }

  lemma NothingLeft(iterators: seq<SstIterator>)
    requires forall i :: 0 <= i < |iterators| ==> iterators[i].current >= |iterators[i].keys|
    ensures Remaining(iterators, []) == multiset{}
  {
    if e :| e in Tails(iterators) {
      var i, j := TailsMember(iterators, e);
      assert false;
    }
  }

  lemma TopIsLeast(iterators: seq<SstIterator>, heap: seq<HeapEntry>, top: nat)
    requires Consistent(iterators, heap) && top < |heap|
    requires forall i :: 0 <= i < |iterators| ==> Represented(iterators, heap, i)
    requires forall i :: 0 <= i < |heap| ==> AtMost(heap[top].entry, heap[i].entry)
    ensures forall e :: e in Remaining(iterators, heap) ==> AtMost(heap[top].entry, e)
  {
    forall e | e in Remaining(iterators, heap) ensures AtMost(heap[top].entry, e) {
      if e in Heads(heap) {
        var i := HeadsMember(heap, e);
      } else {
        var i, j := TailsMember(iterators, e);
        assert Represented(iterators, heap, i);
        var h :| 0 <= h < |heap| && heap[h].iter == i;
        assert HeadOk(iterators, heap[h]);
        Lex.Trichotomy(heap[h].entry.key, e.key);
        AtMostTransitive(heap[top].entry, heap[h].entry, e);
      }
    }
  }

  // ---------------------------------------------------------------- the merge itself

  class MergeIterator {
    var iterators: seq<SstIterator>
    var heap: seq<HeapEntry>
    var keysCompared: nat

    ghost predicate Valid()
      reads this
    {
      && Consistent(iterators, heap)
      && forall i :: 0 <= i < |iterators| ==> Represented(iterators, heap, i)
    }

    /** Everything not yet emitted. */
    ghost function Pending(): multiset<Entry>
      reads this
    {
      Remaining(iterators, heap)
    }

    constructor (sources: seq<SstIterator>)
      requires forall i :: 0 <= i < |sources| ==> SortedKeys(sources[i].keys)
      ensures Valid() && Pending() == Tails(sources) && keysCompared == 0
    {
      iterators := sources;
      heap := [];
      keysCompared := 0;
      new;
      for i := 0 to |sources|
        invariant Consistent(iterators, heap) && |iterators| == |sources|
        invariant Pending() == Tails(sources) && keysCompared == 0
        invariant forall k :: 0 <= k < i ==> Represented(iterators, heap, k)
      {
        Refill(i);
      }
    }

    /** Pull the next key of one table, if it has any, into the heap. */
    method Refill(i: nat)
      requires Consistent(iterators, heap) && i < |iterators|
      modifies this`iterators, this`heap
      ensures Consistent(iterators, heap) && |iterators| == old(|iterators|)
      ensures Represented(iterators, heap, i)
      ensures forall k :: 0 <= k < |iterators| && k != i && old(Represented(iterators, heap, k)) ==>
                Represented(iterators, heap, k)
      ensures Pending() == old(Pending())
    {
      if iterators[i].current < |iterators[i].keys| {
        RefillKeeps(iterators, heap, i);
        RefillKeepsRemaining(iterators, heap, i);
        iterators, heap := Advanced(iterators, i), Pushed(iterators, heap, i);
      }
    }

    /** Emits a least pending entry, and nothing exactly when none is pending. */
    method Next() returns (r: Option<Entry>)
      requires Valid()
      modifies this
      ensures Valid()
      ensures r.None? <==> old(Pending()) == multiset{}
      ensures old(Pending()) == Pending() + (if r.Some? then multiset{r.value} else multiset{})
      ensures r.Some? ==> forall e :: e in Pending() ==> AtMost(r.value, e)
      ensures keysCompared == old(keysCompared) + (if r.Some? then 1 else 0)
    {
      if heap == [] {
        assert forall i :: 0 <= i < |iterators| && iterators[i].current < |iterators[i].keys| ==>
                 Represented(iterators, heap, i);
        NothingLeft(iterators);
        return None;
      }
      var top := Top(heap);
      var popped := heap[top];
      TopIsLeast(iterators, heap, top);
      PopKeeps(iterators, heap, top);
      assert HeadOk(iterators, popped);
      heap := Removed(heap, top);
      keysCompared := keysCompared + 1;
      PopRepresents(iterators, old(heap), top);
      Refill(popped.iter);
      return Some(popped.entry);
    }
  }

  // ---------------------------------------------------------------- whole runs

  /** `out` has been emitted in order and `pending`, all of it later, is still to come. */
  ghost predicate Emitted(out: seq<Entry>, pending: multiset<Entry>, total: multiset<Entry>) {
    && Sorted(out)
    && multiset(out) + pending == total
    && forall i, e :: 0 <= i < |out| && e in pending ==> AtMost(out[i], e)
  }

  lemma Emit(out: seq<Entry>, pending: multiset<Entry>, e: Entry, rest: multiset<Entry>, total: multiset<Entry>)
    requires Emitted(out, pending, total)
    requires pending == rest + multiset{e} && forall f :: f in rest ==> AtMost(e, f)
    ensures Emitted(out + [e], rest, total)
  {
    assert e in pending;
    forall i, f | 0 <= i < |out + [e]| && f in rest ensures AtMost((out + [e])[i], f) {
      assert f in pending;
    }
  }

  /** One turn of a reader: the next entry, with what it means for the whole run. */
  method Read(merge: MergeIterator, ghost out: seq<Entry>, ghost total: multiset<Entry>) returns (next: Option<Entry>)
    requires merge.Valid() && Emitted(out, merge.Pending(), total)
    modifies merge
    ensures merge.Valid()
    ensures next.None? ==> multiset(out) == total && |out| == |total| && merge.keysCompared == old(merge.keysCompared)
    ensures next.Some? ==>
              && Emitted(out + [next.value], merge.Pending(), total)
              && |merge.Pending()| < old(|merge.Pending()|)
              && merge.keysCompared == old(merge.keysCompared) + 1
  {
    ghost var pending := merge.Pending();
    next := merge.Next();
    if next.Some? { Emit(out, pending, next.value, merge.Pending(), total); }
  }

  /** The merge emits exactly the union of its tables, in order, and counts each entry once. */
  method MergeAll(sources: seq<SstIterator>) returns (out: seq<Entry>, compared: nat)
    requires forall i :: 0 <= i < |sources| ==> SortedKeys(sources[i].keys)
    ensures Sorted(out) && multiset(out) == Tails(sources)
    ensures forall i, j :: 0 <= i < j < |out| ==>
              !Lex.Less(out[j].key, out[i].key) && (out[i].key == out[j].key ==> out[i].sst <= out[j].sst)
    ensures compared == |out|
  {
    var merge := new MergeIterator(sources);
    out := [];
    while true
      invariant merge.Valid() && fresh(merge)
      invariant Emitted(out, merge.Pending(), Tails(sources)) && merge.keysCompared == |out|
      decreases |merge.Pending()|
    {
      var next := Read(merge, out, Tails(sources));
      if next.None? { break; }
      out := out + [next.value];
    }
    compared := merge.keysCompared;
    forall i, j | 0 <= i < j < |out|
      ensures !Lex.Less(out[j].key, out[i].key) && (out[i].key == out[j].key ==> out[i].sst <= out[j].sst)
    {
      TiesByTable(out[i], out[j]);
    }
  }

  lemma TiesByTable(a: Entry, b: Entry)
    requires AtMost(a, b)
    ensures !Lex.Less(b.key, a.key) && (a.key == b.key ==> a.sst <= b.sst)
  {
    Lex.Trichotomy(a.key, b.key);
  }

  ghost function KeySet(entries: multiset<Entry>): set<seq<byte>> {
    set e | e in entries :: e.key
  }

  /** A key differing from the last one emitted has not been emitted at all. */
  lemma NewKey(out: seq<Entry>, e: Entry)
    requires Sorted(out + [e])
    requires out != [] ==> out[|out| - 1].key != e.key
    ensures e.key !in KeySet(multiset(out))
  {
    if e.key in KeySet(multiset(out)) {
      var f :| f in multiset(out) && f.key == e.key;
      var j :| 0 <= j < |out| && out[j] == f;
      var last := out[|out| - 1];
      var all := out + [e];
      assert all[j] == f && all[|out| - 1] == last && all[|out|] == e;
      assert AtMost(f, last) && AtMost(last, e);
      Lex.Trichotomy(last.key, e.key);
    }
  }

  lemma KeySetGrows(out: seq<Entry>, e: Entry)
    ensures KeySet(multiset(out + [e])) == KeySet(multiset(out)) + {e.key}
  {
    assert multiset(out + [e]) == multiset(out) + multiset{e};
  }

  ghost function LastKey(out: seq<Entry>): Option<seq<byte>> {
    if out == [] then None else Some(out[|out| - 1].key)
  }

  /** What the reader keeps: the last key and the number of keys so far. */
  ghost predicate CountedTo(out: seq<Entry>, previous: Option<seq<byte>>, count: nat) {
    previous == LastKey(out) && count == |KeySet(multiset(out))|
  }

  lemma CountStep(out: seq<Entry>, e: Entry, count: nat)
    requires Sorted(out + [e]) && CountedTo(out, LastKey(out), count)
    ensures CountedTo(out + [e], Some(e.key), count + (if LastKey(out) == Some(e.key) then 0 else 1))
  {
    KeySetGrows(out, e);
    assert forall i :: 0 <= i < |out| ==> (out + [e])[i] == out[i];
    if LastKey(out) == Some(e.key) {
      assert out[|out| - 1] in multiset(out);
      assert KeySet(multiset(out)) + {e.key} == KeySet(multiset(out));
    } else {
      NewKey(out, e);
    }
  }

  /** The de-duplicating reader counts exactly the distinct keys of all tables. */
  method DistinctKeys(sources: seq<SstIterator>) returns (count: nat, compared: nat)
    requires forall i :: 0 <= i < |sources| ==> SortedKeys(sources[i].keys)
    ensures count == |KeySet(Tails(sources))|
    ensures compared == |Tails(sources)|
  {
    var merge := new MergeIterator(sources);
    ghost var out := [];
    count := 0;
    var previous: Option<seq<byte>> := None;
    while true
      invariant merge.Valid() && fresh(merge)
      invariant Emitted(out, merge.Pending(), Tails(sources)) && merge.keysCompared == |out|
      invariant CountedTo(out, previous, count)
      decreases |merge.Pending()|
    {
      var next := Read(merge, out, Tails(sources));
      if next.None? { break; }
      CountStep(out, next.value, count);
      if previous != Some(next.value.key) {
        count := count + 1;
        previous := Some(next.value.key);
      }
      out := out + [next.value];
    }
    compared := merge.keysCompared;
  }
}
