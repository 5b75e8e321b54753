/** JSON trees of cumulative counters, their difference, and the algebra of differences. */
module CounterTree {
  import opened Basics

  datatype Origin =
    | OrdinaryLocalFlush | CloudFlush | Recovery | Bootstrap | Ddl
    | CompactionBeforeGc | Administration | Shutdown | Unclassified

  datatype Medium = Persistent | MemoryOnly

  datatype Counter =
    | OperationAttempts | OperationFailures | AbandonedOperations
    | SnapshotDurableBytes | JournalDurableBytes | SnapshotDurableCount
    | CheckpointCompleteCount | CheckpointAttempts | CheckpointElapsedNs
    | JournalAppendAttempts | JournalElapsedNs
    | PublicationAttempts | PublicationFailures | PublicationAttemptElapsedNs
    | FlushCommittedCount | FlushCommittedSstBytes | FlushFullPublicationElapsedNs
    | CompactionCommittedCount | CompactionCommittedSstBytes

  /** Object keys of the accounting documents. */
  datatype Key =
    | OwnerId | Overflow | LateOperationWrites | IncompleteObservations | Buckets
    | OriginKey | MediumKey | ActiveOperations | Counters
    | CheckpointLatency | FullPublicationLatency | CommittedSstSizeLog2 | Counts
    | IssuedBytes | ReturnedWriteBytes
    | CounterKey(counter: Counter)
    | OtherKey(name: string)

  datatype Text = OriginText(origin: Origin) | MediumText(medium: Medium) | OtherText(text: string)

  /** `Num` is a number the readers accept as u64; every other number is `OddNum`. */
  datatype Value =
    | Null
    | Bool(b: bool)
    | Num(n: nat)
    | OddNum
    | Str(t: Text)
    | Arr(items: seq<Value>)
    | Obj(fields: map<Key, Value>)

  /** Missing keys read as null. */
  function Index(v: Value, k: Key): Value {
    if v.Obj? && k in v.fields then v.fields[k] else Null
  }

  function Number(v: Value, k: Key): Option<nat> {
    if Index(v, k).Num? then Some(Index(v, k).n) else None
  }

  function ArrayAt(v: Value, k: Key): Option<seq<Value>> {
    if Index(v, k).Arr? then Some(Index(v, k).items) else None
  }

  /** A numeric array of exactly the expected size. */
  function U64Array(v: Value, size: nat): Option<seq<nat>> {
    if v.Arr? && |v.items| == size && forall i :: 0 <= i < size ==> v.items[i].Num?
    then Some(seq(size, i requires 0 <= i < |v.items| && v.items[i].Num? => v.items[i].n))
    else None
  }

  /** The checker's difference of two counter trees. */
  function Subtract(after: Value, before: Value): Option<Value> {
    match (after, before)
    case (Num(a), Num(b)) => if b <= a then Some(Num(a - b)) else None
    case (Arr(a), Arr(b)) =>
      if |a| == |b| && forall i :: 0 <= i < |a| ==> Subtract(a[i], b[i]).Some?
      then Some(Arr(seq(|a|, i requires 0 <= i < |a| && |a| == |b| && Subtract(a[i], b[i]).Some? =>
                        Subtract(a[i], b[i]).value)))
      else None
    case (Obj(a), Obj(b)) =>
      if |a| == |b| && forall k :: k in a ==> k in b && Subtract(a[k], b[k]).Some?
      then Some(Obj(map k | k in a :: Subtract(a[k], b[k]).value))
      else None
    case _ => None
  }

  // ---------------------------------------------------------------- when a difference exists

  /** Same topology, every leaf a counter, no counter below its earlier value. */
  ghost predicate Dominates(after: Value, before: Value) {
    match (after, before)
    case (Num(a), Num(b)) => b <= a
    case (Arr(a), Arr(b)) => |a| == |b| && forall i :: 0 <= i < |a| ==> Dominates(a[i], b[i])
    case (Obj(a), Obj(b)) => a.Keys == b.Keys && forall k :: k in a ==> k in b && Dominates(a[k], b[k])
    case _ => false
  }

  lemma SubsetOfSameSize<T>(a: set<T>, b: set<T>)
    requires a <= b && |a| == |b|
    ensures a == b
  {
    if x :| x in b && x !in a {
      assert a <= b - {x};
      SubsetSize(a, b - {x});
    }
  }

  lemma {:induction false} SubsetSize<T>(a: set<T>, b: set<T>)
    requires a <= b
    ensures |a| <= |b|
  {
    if a != {} {
      var x :| x in a;
      SubsetSize(a - {x}, b - {x});
    }
  }

  /** Subtraction succeeds exactly on trees of one topology whose counters did not decrease. */
  lemma {:induction false} SubtractSucceedsExactly(after: Value, before: Value)
    ensures Subtract(after, before).Some? <==> Dominates(after, before)
    decreases after
  {
    match (after, before)
    case (Arr(a), Arr(b)) =>
      if |a| == |b| {
        forall i | 0 <= i < |a| ensures Subtract(a[i], b[i]).Some? <==> Dominates(a[i], b[i]) {
          SubtractSucceedsExactly(a[i], b[i]);
        }
      }
    case (Obj(a), Obj(b)) =>
      forall k | k in a && k in b ensures Subtract(a[k], b[k]).Some? <==> Dominates(a[k], b[k]) {
        SubtractSucceedsExactly(a[k], b[k]);
      }
      if |a| == |b| && a.Keys <= b.Keys { SubsetOfSameSize(a.Keys, b.Keys); }
      if a.Keys == b.Keys { assert |a.Keys| == |b.Keys|; }
    case _ =>
  }

  // ---------------------------------------------------------------- the algebra of differences

  /** Same topology and nothing but counters at the leaves. */
  ghost predicate Alike(x: Value, y: Value) {
    match (x, y)
    case (Num(_), Num(_)) => true
    case (Arr(a), Arr(b)) => |a| == |b| && forall i :: 0 <= i < |a| ==> Alike(a[i], b[i])
    case (Obj(a), Obj(b)) => a.Keys == b.Keys && forall k :: k in a ==> k in b && Alike(a[k], b[k])
    case _ => false
  }

  ghost function Plus(x: Value, y: Value): Value
    requires Alike(x, y)
    decreases x
  {
    match (x, y)
    case (Num(a), Num(b)) => Num(a + b)
    case (Arr(a), Arr(b)) =>
      Arr(seq(|a|, i requires 0 <= i < |a| && |a| == |b| && Alike(a[i], b[i]) => Plus(a[i], b[i])))
    case (Obj(a), Obj(b)) => Obj(map k | k in a :: Plus(a[k], b[k]))
  }

  ghost function Minus(after: Value, before: Value): Value
    requires Dominates(after, before)
  {
    SubtractSucceedsExactly(after, before);
    Subtract(after, before).value
  }

  lemma MinusItems(after: Value, before: Value)
    requires Dominates(after, before)
    ensures after.Num? ==> Minus(after, before) == Num(after.n - before.n)
    ensures after.Arr? ==> Minus(after, before).Arr? && |Minus(after, before).items| == |after.items|
    ensures after.Arr? ==> forall i :: 0 <= i < |after.items| ==>
              Minus(after, before).items[i] == Minus(after.items[i], before.items[i])
    ensures after.Obj? ==> Minus(after, before).Obj? && Minus(after, before).fields.Keys == after.fields.Keys
    ensures after.Obj? ==> forall k :: k in after.fields ==>
              Minus(after, before).fields[k] == Minus(after.fields[k], before.fields[k])
  {
    SubtractSucceedsExactly(after, before);
  }

  lemma ObjectSum(x: map<Key, Value>, y: map<Key, Value>, z: map<Key, Value>)
    requires x.Keys == y.Keys == z.Keys
    requires forall k :: k in x ==> Alike(x[k], y[k]) && z[k] == Plus(x[k], y[k])
    ensures Alike(Obj(x), Obj(y)) && Plus(Obj(x), Obj(y)) == Obj(z)
  {
    assert Plus(Obj(x), Obj(y)).fields == z;
  }

  ghost predicate Undoes(after: Value, before: Value)
    requires Dominates(after, before)
  {
    Alike(Minus(after, before), before) && Plus(Minus(after, before), before) == after
  }

  lemma {:induction false} PlusInvertsMinusInArrays(after: Value, before: Value)
    requires Dominates(after, before) && after.Arr?
    ensures Undoes(after, before)
    decreases after, 0
  {
    MinusItems(after, before);
    var d, a, b := Minus(after, before), after.items, before.items;
    forall i | 0 <= i < |a| ensures Alike(d.items[i], b[i]) && Plus(d.items[i], b[i]) == a[i] {
      PlusInvertsMinus(a[i], b[i]);
    }
    assert Plus(d, before).items == a;
  }

  lemma {:induction false} PlusInvertsMinusInObjects(after: Value, before: Value)
    requires Dominates(after, before) && after.Obj?
    ensures Undoes(after, before)
    decreases after, 0
  {
    MinusItems(after, before);
    var d, a, b := Minus(after, before), after.fields, before.fields;
    forall k | k in a ensures Alike(d.fields[k], b[k]) && Plus(d.fields[k], b[k]) == a[k] {
      PlusInvertsMinus(a[k], b[k]);
    }
    ObjectSum(d.fields, b, a);
  }

  /** Addition undoes subtraction. */
  lemma {:induction false} PlusInvertsMinus(after: Value, before: Value)
    requires Dominates(after, before)
    ensures Alike(Minus(after, before), before) && Plus(Minus(after, before), before) == after
    decreases after, 1
  {
    if after.Arr? {
      PlusInvertsMinusInArrays(after, before);
    } else if after.Obj? {
      PlusInvertsMinusInObjects(after, before);
    } else {
      MinusItems(after, before);
    }
  }

  lemma {:induction false} DominatesTransitive(c: Value, b: Value, a: Value)
    requires Dominates(c, b) && Dominates(b, a)
    ensures Dominates(c, a)
    decreases c
  {
    match (c, b, a)
    case (Num(_), Num(_), Num(_)) =>
    case (Arr(z), Arr(y), Arr(x)) =>
      forall i | 0 <= i < |z| ensures Dominates(z[i], x[i]) { DominatesTransitive(z[i], y[i], x[i]); }
    case (Obj(z), Obj(y), Obj(x)) =>
      forall k | k in z ensures Dominates(z[k], x[k]) { DominatesTransitive(z[k], y[k], x[k]); }
  }

  ghost predicate Telescopes(settled: Value, after: Value, before: Value)
    requires Dominates(settled, after) && Dominates(after, before) && Dominates(settled, before)
  {
    && Alike(Minus(settled, after), Minus(after, before))
    && Minus(settled, before) == Plus(Minus(settled, after), Minus(after, before))
  }

  lemma {:induction false} ArraysTelescope(settled: Value, after: Value, before: Value)
    requires Dominates(settled, after) && Dominates(after, before) && Dominates(settled, before) && settled.Arr?
    ensures Telescopes(settled, after, before)
    decreases settled, 0
  {
    MinusItems(settled, before);
    MinusItems(settled, after);
    MinusItems(after, before);
    var x, y, z := Minus(settled, after), Minus(after, before), Minus(settled, before);
    forall i | 0 <= i < |settled.items|
      ensures Alike(x.items[i], y.items[i]) && z.items[i] == Plus(x.items[i], y.items[i])
    {
      DifferencesTelescope(settled.items[i], after.items[i], before.items[i]);
    }
    assert Plus(x, y).items == z.items;
  }

  lemma {:induction false} ObjectsTelescope(settled: Value, after: Value, before: Value)
    requires Dominates(settled, after) && Dominates(after, before) && Dominates(settled, before) && settled.Obj?
    ensures Telescopes(settled, after, before)
    decreases settled, 0
  {
    MinusItems(settled, before);
    MinusItems(settled, after);
    MinusItems(after, before);
    var x, y, z := Minus(settled, after), Minus(after, before), Minus(settled, before);
    forall k | k in settled.fields
      ensures Alike(x.fields[k], y.fields[k]) && z.fields[k] == Plus(x.fields[k], y.fields[k])
    {
      DifferencesTelescope(settled.fields[k], after.fields[k], before.fields[k]);
    }
    ObjectSum(x.fields, y.fields, z.fields);
  }

  /** Differences telescope: over two adjacent windows they add up to the difference over both. */
  lemma {:induction false} DifferencesTelescope(settled: Value, after: Value, before: Value)
    requires Dominates(settled, after) && Dominates(after, before)
    ensures Dominates(settled, before)
    ensures Telescopes(settled, after, before)
    decreases settled, 1
  {
    DominatesTransitive(settled, after, before);
    if settled.Arr? {
      ArraysTelescope(settled, after, before);
    } else if settled.Obj? {
      ObjectsTelescope(settled, after, before);
    }
  }
}
