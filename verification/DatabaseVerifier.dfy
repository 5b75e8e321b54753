/** Checking a database against what a cell committed: point reads, then one full scan per family. */
module DatabaseVerifier {
  import opened Basics
  import opened Bytes
  import Lex

  type Key = seq<byte>
  type Payload = seq<byte>

  datatype Cell = Cell(cycles: nat, rows: nat, families: nat)

  /** The payload of a record is some fixed function of its family and ordinal. */
  type Payloads = (nat, nat) -> Payload

  // ---------------------------------------------------------------- keys

  /** `width` bytes, most significant first. */
  function BeBytes(n: nat, width: nat): (b: seq<byte>)
    ensures |b| == width
  {
    if width == 0 then [] else BeBytes(n / 256, width - 1) + [n % 256]
  }

  function KeyOf(family: nat, ordinal: nat): (key: Key)
    ensures |key| == 16
  {
    BeBytes(family, 8) + BeBytes(ordinal, 8)
  }

  lemma {:induction false} BeOrder(m: nat, n: nat, width: nat)
    requires m < Pow2(8 * width) && n < Pow2(8 * width)
    ensures Lex.Less(BeBytes(m, width), BeBytes(n, width)) <==> m < n
    ensures BeBytes(m, width) == BeBytes(n, width) <==> m == n
    decreases width
  {
    if width > 0 {
      var a, b := BeBytes(m / 256, width - 1), BeBytes(n / 256, width - 1);
      Pow2Byte(8 * (width - 1));
      assert 8 * width == 8 * (width - 1) + 8;
      BeOrder(m / 256, n / 256, width - 1);
      if m / 256 == n / 256 {
        Lex.CommonPrefix(a, [m % 256], [n % 256]);
        assert BeBytes(m, width)[width - 1] == m % 256 && BeBytes(n, width)[width - 1] == n % 256;
      } else {
        Lex.EqualLengthHeads(a, b, [m % 256], [n % 256]);
        assert BeBytes(m, width)[..width - 1] == a && BeBytes(n, width)[..width - 1] == b;
      }
    }
  }

  /** Within a family, keys sort as their ordinals do. */
  lemma KeyOrder(family: nat, m: nat, n: nat)
    requires m < Pow2(64) && n < Pow2(64)
    ensures Lex.Less(KeyOf(family, m), KeyOf(family, n)) <==> m < n
    ensures KeyOf(family, m) == KeyOf(family, n) <==> m == n
  {
    Lex.CommonPrefix(BeBytes(family, 8), BeBytes(m, 8), BeBytes(n, 8));
    BeOrder(m, n, 8);
    assert KeyOf(family, m)[8..] == BeBytes(m, 8) && KeyOf(family, n)[8..] == BeBytes(n, 8);
  }

  /** Keys of any two records sort by family, then by ordinal, and are equal only for the same record. */
  lemma KeysSortByRecord(f: nat, m: nat, g: nat, n: nat)
    requires f < Pow2(64) && g < Pow2(64) && m < Pow2(64) && n < Pow2(64)
    ensures Lex.Less(KeyOf(f, m), KeyOf(g, n)) <==> f < g || (f == g && m < n)
    ensures KeyOf(f, m) == KeyOf(g, n) <==> f == g && m == n
  {
    BeOrder(f, g, 8);
    if f == g {
      KeyOrder(f, m, n);
    } else {
      Lex.EqualLengthHeads(BeBytes(f, 8), BeBytes(g, 8), BeBytes(m, 8), BeBytes(n, 8));
      assert KeyOf(f, m)[..8] == BeBytes(f, 8) && KeyOf(g, n)[..8] == BeBytes(g, 8);
    }
  }

  function BeNumber(b: seq<byte>): nat {
    if b == [] then 0 else 256 * BeNumber(b[..|b| - 1]) + b[|b| - 1]
  }

  lemma {:induction false} BeRoundTrip(n: nat, width: nat)
    requires n < Pow2(8 * width)
    ensures BeNumber(BeBytes(n, width)) == n
  {
    if width > 0 {
      Pow2Byte(8 * (width - 1));
      assert 8 * width == 8 * (width - 1) + 8;
      BeRoundTrip(n / 256, width - 1);
      assert BeBytes(n, width)[..width - 1] == BeBytes(n / 256, width - 1);
    }
  }

  /** The ordinal a key was made from. */
  function OrdinalOf(key: Key): nat {
    if |key| >= 8 then BeNumber(key[8..]) else 0
  }

  lemma OrdinalOfKey(family: nat, ordinal: nat)
    requires ordinal < Pow2(64)
    ensures OrdinalOf(KeyOf(family, ordinal)) == ordinal
  {
    BeRoundTrip(ordinal, 8);
    assert KeyOf(family, ordinal)[8..] == BeBytes(ordinal, 8);
  }

  // ---------------------------------------------------------------- places

  /** The ordinal of a cycle's `i`-th row. */
  function Place(cell: Cell, cycle: nat, i: nat): nat {
    cycle * cell.rows + i
  }

  lemma Multiples(a: nat, b: nat, d: nat)
    requires a < b
    ensures a * d + d <= b * d
  {
    assert (a + 1) * d <= b * d;
  }

  lemma PlaceOrder(cell: Cell, c: nat, i: nat, c': nat, i': nat)
    requires i < cell.rows && i' < cell.rows
    ensures Place(cell, c, i) < Place(cell, c', i') <==> c < c' || (c == c' && i < i')
  {
    if c < c' { Multiples(c, c', cell.rows); }
    if c' < c { Multiples(c', c, cell.rows); }
  }

  lemma PlaceBounded(cell: Cell, c: nat, i: nat)
    requires c < cell.cycles && i < cell.rows
    ensures Place(cell, c, i) < cell.cycles * cell.rows
  {
    Multiples(c, cell.cycles, cell.rows);
  }

  /** The cycle in which a family is written for the `round`-th time. */
  function CycleOf(cell: Cell, family: nat, round: nat): nat {
    family + round * cell.families
  }

  /** The ordinal expected at position `seen` of a family's scan. */
  function OrdinalAt(cell: Cell, family: nat, seen: nat): nat {
    if cell.rows == 0 then 0 else Place(cell, CycleOf(cell, family, seen / cell.rows), seen % cell.rows)
  }

  /** The number of cycles that write to a family. */
  function Rounds(cell: Cell, family: nat): nat
    requires cell.families > 0
  {
    if family >= cell.cycles then 0 else (cell.cycles - family + cell.families - 1) / cell.families
  }

  function Expected(cell: Cell, family: nat): nat
    requires cell.families > 0
  {
    Place(cell, Rounds(cell, family), 0)
  }

  lemma CeilingDivision(x: nat, d: nat, j: nat)
    requires x > 0 && d > 0
    ensures j < (x + d - 1) / d <==> j * d < x
  {
    var q := (x + d - 1) / d;
    assert q * d <= x + d - 1 < q * d + d;
    if j < q { Multiples(j, q, d); }
    if q < j { Multiples(q, j, d); }
  }

  lemma RoundsExactly(cell: Cell, family: nat, round: nat)
    requires cell.families > 0
    ensures round < Rounds(cell, family) <==> CycleOf(cell, family, round) < cell.cycles
  {
    if family < cell.cycles { CeilingDivision(cell.cycles - family, cell.families, round); }
  }

  lemma DivideProduct(j: nat, d: nat, i: nat)
    requires i < d
    ensures (j * d + i) / d == j && (j * d + i) % d == i
  {
    var n := j * d + i;
    var q := n / d;
    assert n == q * d + n % d;
    if q < j { Multiples(q, j, d); }
    if j < q { Multiples(j, q, d); }
  }

  lemma OrdinalAtRound(cell: Cell, family: nat, round: nat, i: nat)
    requires i < cell.rows
    ensures OrdinalAt(cell, family, Place(cell, round, i)) == Place(cell, CycleOf(cell, family, round), i)
  {
    DivideProduct(round, cell.rows, i);
  }

  lemma PositionIsWithin(cell: Cell, family: nat, seen: nat)
    requires cell.families > 0 && cell.rows > 0
    ensures seen < Expected(cell, family) <==> seen / cell.rows < Rounds(cell, family)
  {
    var j, n := seen / cell.rows, Rounds(cell, family);
    assert seen == j * cell.rows + seen % cell.rows;
    if j < n { Multiples(j, n, cell.rows); }
    if n < j { Multiples(n, j, cell.rows); }
  }

  /** Quotient and remainder order numbers lexicographically. */
  lemma QuotientsOrder(a: nat, b: nat, d: nat)
    requires d > 0 && a < b
    ensures a / d < b / d || (a / d == b / d && a % d < b % d)
  {
    var j, k := a / d, b / d;
    assert a == j * d + a % d && b == k * d + b % d;
    if k < j { Multiples(k, j, d); }
  }

  /** Positions are strictly increasing in their ordinals. */
  lemma OrdinalsIncrease(cell: Cell, family: nat, a: nat, b: nat)
    requires cell.rows > 0 && cell.families > 0 && a < b
    ensures OrdinalAt(cell, family, a) < OrdinalAt(cell, family, b)
  {
    var j, k := a / cell.rows, b / cell.rows;
    QuotientsOrder(a, b, cell.rows);
    if j < k { Multiples(j, k, cell.families); }
    PlaceOrder(cell, CycleOf(cell, family, j), a % cell.rows, CycleOf(cell, family, k), b % cell.rows);
  }

  /** The ordinal was written to the family by one of the first `cycles` cycles. */
  ghost predicate WrittenBy(cell: Cell, family: nat, cycles: nat, ordinal: nat)
    requires cell.families > 0
  {
    exists c: nat, i: nat :: c < cycles && c % cell.families == family && i < cell.rows && ordinal == Place(cell, c, i)
  }

  /** The positions of a scan reach exactly the ordinals written to the family. */
  lemma PositionsAreWritten(cell: Cell, family: nat, seen: nat)
    requires family < cell.families && seen < Expected(cell, family)
    ensures WrittenBy(cell, family, cell.cycles, OrdinalAt(cell, family, seen))
  {
    assert cell.rows > 0;
    var j := seen / cell.rows;
    PositionIsWithin(cell, family, seen);
    RoundsExactly(cell, family, j);
    DivideProduct(j, cell.families, family);
    assert CycleOf(cell, family, j) % cell.families == family;
    assert OrdinalAt(cell, family, seen) == Place(cell, CycleOf(cell, family, j), seen % cell.rows);
  }

  lemma PositionOfPlace(cell: Cell, family: nat, c: nat, i: nat)
    requires c < cell.cycles && i < cell.rows && cell.families > 0 && c % cell.families == family
    ensures Place(cell, c / cell.families, i) < Expected(cell, family)
    ensures OrdinalAt(cell, family, Place(cell, c / cell.families, i)) == Place(cell, c, i)
  {
    var j := c / cell.families;
    assert c == CycleOf(cell, family, j);
    RoundsExactly(cell, family, j);
    OrdinalAtRound(cell, family, j, i);
    DivideProduct(j, cell.rows, i);
    PositionIsWithin(cell, family, Place(cell, j, i));
  }

  lemma WrittenHasPosition(cell: Cell, family: nat, ordinal: nat) returns (seen: nat)
    requires family < cell.families && WrittenBy(cell, family, cell.cycles, ordinal)
    ensures seen < Expected(cell, family) && OrdinalAt(cell, family, seen) == ordinal
  {
    var c: nat, i: nat :|
      c < cell.cycles && c % cell.families == family && i < cell.rows && ordinal == Place(cell, c, i);
    PositionOfPlace(cell, family, c, i);
    seen := Place(cell, c / cell.families, i);
  }

  // ---------------------------------------------------------------- what was committed

  /** One cycle's transaction, up to its first `i` rows. */
  function WithRows(m: map<Key, Payload>, cell: Cell, payload: Payloads, family: nat, cycle: nat,
                    i: nat): map<Key, Payload> {
    if i == 0 then m
    else
      var ordinal := Place(cell, cycle, i - 1);
      WithRows(m, cell, payload, family, cycle, i - 1)[KeyOf(family, ordinal) := payload(family, ordinal)]
  }

  method CommitCycle(m: map<Key, Payload>, cell: Cell, payload: Payloads, cycle: nat)
    returns (committed: map<Key, Payload>)
    requires cell.families > 0
    ensures committed == WithRows(m, cell, payload, cycle % cell.families, cycle, cell.rows)
  {
    committed := m;
    for index := 0 to cell.rows
      invariant committed == WithRows(m, cell, payload, cycle % cell.families, cycle, index)
    {
      var family, ordinal := cycle % cell.families, Place(cell, cycle, index);
      committed := committed[KeyOf(family, ordinal) := payload(family, ordinal)];
    }
  }

  /** What the first `cycles` cycles committed to a family. */
  function Committed(cell: Cell, payload: Payloads, family: nat, cycles: nat): map<Key, Payload>
    requires cell.families > 0
  {
    if cycles == 0 then map[]
    else
      var m := Committed(cell, payload, family, cycles - 1);
      if (cycles - 1) % cell.families == family then WithRows(m, cell, payload, family, cycles - 1, cell.rows) else m
  }

  /** All cycles in turn, each into its own family. */
  method CommitAll(cell: Cell, payload: Payloads) returns (db: seq<map<Key, Payload>>)
    requires cell.families > 0
    ensures |db| == cell.families && forall f :: 0 <= f < |db| ==> db[f] == Committed(cell, payload, f, cell.cycles)
  {
    db := seq(cell.families, _ => map[]);
    for cycle := 0 to cell.cycles
      invariant |db| == cell.families && forall f :: 0 <= f < |db| ==> db[f] == Committed(cell, payload, f, cycle)
    {
      var family := cycle % cell.families;
      var committed := CommitCycle(db[family], cell, payload, cycle);
      db := db[family := committed];
    }
  }

  /** Every payload is that of its key's ordinal. */
  predicate Keyed(m: map<Key, Payload>, payload: Payloads, family: nat) {
    forall k :: k in m ==> k == KeyOf(family, OrdinalOf(k)) && m[k] == payload(family, OrdinalOf(k))
  }

  lemma {:induction false} RowsAreKeyed(m: map<Key, Payload>, cell: Cell, payload: Payloads, family: nat, cycle: nat,
                                        i: nat)
    requires i <= cell.rows && cycle < cell.cycles && cell.cycles * cell.rows <= Pow2(64) && Keyed(m, payload, family)
    ensures Keyed(WithRows(m, cell, payload, family, cycle, i), payload, family)
    decreases i
  {
    if i > 0 {
      RowsAreKeyed(m, cell, payload, family, cycle, i - 1);
      PlaceBounded(cell, cycle, i - 1);
      OrdinalOfKey(family, Place(cell, cycle, i - 1));
    }
  }

  /** One of a cycle's first `n` rows has the ordinal. */
  ghost predicate AmongRows(cell: Cell, cycle: nat, n: nat, ordinal: nat) {
    exists i: nat :: i < n && ordinal == Place(cell, cycle, i)
  }

  lemma AmongRowsStep(cell: Cell, cycle: nat, n: nat, ordinal: nat)
    ensures AmongRows(cell, cycle, n + 1, ordinal) <==>
            AmongRows(cell, cycle, n, ordinal) || ordinal == Place(cell, cycle, n)
  {
  }

  lemma {:induction false} RowsExactly(m: map<Key, Payload>, cell: Cell, payload: Payloads, family: nat, cycle: nat,
                                       i: nat, ordinal: nat)
    requires i <= cell.rows && cycle < cell.cycles && cell.cycles * cell.rows <= Pow2(64) && ordinal < Pow2(64)
    ensures KeyOf(family, ordinal) in WithRows(m, cell, payload, family, cycle, i) <==>
            KeyOf(family, ordinal) in m || AmongRows(cell, cycle, i, ordinal)
    decreases i
  {
    if i > 0 {
      RowsExactly(m, cell, payload, family, cycle, i - 1, ordinal);
      PlaceBounded(cell, cycle, i - 1);
      KeyOrder(family, ordinal, Place(cell, cycle, i - 1));
      AmongRowsStep(cell, cycle, i - 1, ordinal);
    }
  }

  /** Each committed key holds the payload of its ordinal. */
  lemma {:induction false} CommittedIsKeyed(cell: Cell, payload: Payloads, family: nat, cycles: nat)
    requires cell.families > 0 && cycles <= cell.cycles && cell.cycles * cell.rows <= Pow2(64)
    ensures Keyed(Committed(cell, payload, family, cycles), payload, family)
    decreases cycles
  {
    if cycles > 0 {
      CommittedIsKeyed(cell, payload, family, cycles - 1);
      RowsAreKeyed(Committed(cell, payload, family, cycles - 1), cell, payload, family, cycles - 1, cell.rows);
    }
  }

  /** A family's committed map holds exactly the keys of the ordinals written to it. */
  lemma {:induction false} CommittedExactly(cell: Cell, payload: Payloads, family: nat, cycles: nat, ordinal: nat)
    requires cell.families > 0 && cycles <= cell.cycles && cell.cycles * cell.rows <= Pow2(64) && ordinal < Pow2(64)
    ensures KeyOf(family, ordinal) in Committed(cell, payload, family, cycles) <==>
            WrittenBy(cell, family, cycles, ordinal)
    decreases cycles
  {
    if cycles > 0 {
      CommittedExactly(cell, payload, family, cycles - 1, ordinal);
      RowsExactly(Committed(cell, payload, family, cycles - 1), cell, payload, family, cycles - 1, cell.rows, ordinal);
      WrittenStep(cell, family, cycles - 1, ordinal);
    }
  }

  lemma WrittenStep(cell: Cell, family: nat, cycle: nat, ordinal: nat)
    requires cell.families > 0
    ensures WrittenBy(cell, family, cycle + 1, ordinal) <==>
            || WrittenBy(cell, family, cycle, ordinal)
            || (cycle % cell.families == family && AmongRows(cell, cycle, cell.rows, ordinal))
  {
  }

  lemma WrittenIsBounded(cell: Cell, family: nat, ordinal: nat)
    requires cell.families > 0 && cell.cycles * cell.rows <= Pow2(64) && WrittenBy(cell, family, cell.cycles, ordinal)
    ensures ordinal < Pow2(64)
  {
    var c: nat, i: nat :| c < cell.cycles && i < cell.rows && ordinal == Place(cell, c, i);
    PlaceBounded(cell, c, i);
  }

  // ---------------------------------------------------------------- the database under test

  datatype Lookup = Found(value: Payload) | Missing | LookupFailed
  datatype ScanRow = Row(key: Key, value: Payload) | RowFailed

  /** One family's read transaction: point reads and a scan, neither assumed right. */
  datatype View = View(get: Key -> Lookup, scan: Option<seq<ScanRow>>)

  datatype Mismatch =
    | MissingFamily | MissingKey | PointMismatch | ReadError | ExtraRow | RowMismatch | CountMismatch

  predicate Ascending(rows: seq<ScanRow>) {
    && (forall i :: 0 <= i < |rows| ==> rows[i].Row?)
    && forall i, j :: 0 <= i < j < |rows| ==> Lex.Less(rows[i].key, rows[j].key)
  }

  /** The reads are those of the map, and the scan lists it in key order. */
  ghost predicate Intact(view: View, m: map<Key, Payload>) {
    && (forall k :: k in m ==> view.get(k) == Found(m[k]))
    && view.scan.Some? && Ascending(view.scan.value)
    && forall k, v :: Row(k, v) in view.scan.value <==> k in m && m[k] == v
  }

  function RowAt(cell: Cell, payload: Payloads, family: nat, seen: nat): ScanRow {
    var ordinal := OrdinalAt(cell, family, seen);
    Row(KeyOf(family, ordinal), payload(family, ordinal))
  }

  predicate PointMatches(view: View, row: ScanRow) {
    row.Row? && view.get(row.key) == Found(row.value)
  }

  /** The `i`-th row a cycle wrote. */
  function RowOf(cell: Cell, payload: Payloads, family: nat, cycle: nat, i: nat): ScanRow {
    Row(KeyOf(family, Place(cell, cycle, i)), payload(family, Place(cell, cycle, i)))
  }

  predicate PointsMatch(view: View, cell: Cell, payload: Payloads, family: nat, n: nat) {
    forall s :: 0 <= s < n ==> PointMatches(view, RowAt(cell, payload, family, s))
  }

  predicate RowsMatch(rows: seq<ScanRow>, cell: Cell, payload: Payloads, family: nat, n: nat)
    requires n <= |rows|
  {
    forall s :: 0 <= s < n ==> rows[s] == RowAt(cell, payload, family, s)
  }

  // ---------------------------------------------------------------- what an error says

  /** The point read of an expected row fails in this way. */
  predicate PointFails(error: Mismatch, view: View, row: ScanRow) {
    row.Row? &&
    match error
    case ReadError => view.get(row.key).LookupFailed?
    case MissingKey => view.get(row.key).Missing?
    case PointMismatch => view.get(row.key).Found? && view.get(row.key).value != row.value
    case _ => false
  }

  ghost predicate SomePointFails(error: Mismatch, view: View, cell: Cell, payload: Payloads, family: nat, n: nat) {
    exists s :: 0 <= s < n && PointFails(error, view, RowAt(cell, payload, family, s))
  }

  /** The scan fails in this way. */
  ghost predicate ScanFails(error: Mismatch, rows: seq<ScanRow>, cell: Cell, payload: Payloads, family: nat,
                            expected: nat) {
    match error
    case ReadError => exists i :: 0 <= i < |rows| && rows[i].RowFailed?
    case ExtraRow => |rows| > expected
    case CountMismatch => |rows| < expected
    case RowMismatch =>
      exists i :: 0 <= i < |rows| && i < expected && rows[i].Row? && rows[i] != RowAt(cell, payload, family, i)
    case _ => false
  }

  /** Why a family does not verify. */
  ghost predicate Cause(error: Mismatch, view: View, cell: Cell, payload: Payloads, family: nat)
    requires cell.families > 0
  {
    || SomePointFails(error, view, cell, payload, family, Expected(cell, family))
    || (error.ReadError? && view.scan.None?)
    || (view.scan.Some? && ScanFails(error, view.scan.value, cell, payload, family, Expected(cell, family)))
  }

  // ---------------------------------------------------------------- the verifier

  method CheckRows(view: View, cell: Cell, payload: Payloads, family: nat, cycle: nat) returns (r: Result<(), Mismatch>)
    ensures r.Ok? <==> forall i :: 0 <= i < cell.rows ==> PointMatches(view, RowOf(cell, payload, family, cycle, i))
    ensures r.Err? ==>
              exists i :: 0 <= i < cell.rows && PointFails(r.error, view, RowOf(cell, payload, family, cycle, i))
  {
    for index := 0 to cell.rows
      invariant forall i :: 0 <= i < index ==> PointMatches(view, RowOf(cell, payload, family, cycle, i))
    {
      var row := RowOf(cell, payload, family, cycle, index);
      match view.get(row.key) {
        case LookupFailed =>
          assert PointFails(ReadError, view, row);
          return Err(ReadError);
        case Missing =>
          assert PointFails(MissingKey, view, row);
          return Err(MissingKey);
        case Found(actual) =>
          if actual != row.value {
            assert PointFails(PointMismatch, view, row);
            return Err(PointMismatch);
          }
      }
    }
    return Ok(());
  }

  lemma RoundMatches(view: View, cell: Cell, payload: Payloads, family: nat, round: nat)
    requires PointsMatch(view, cell, payload, family, Place(cell, round, 0))
    ensures PointsMatch(view, cell, payload, family, Place(cell, round, cell.rows)) <==>
            forall i :: 0 <= i < cell.rows ==>
              PointMatches(view, RowOf(cell, payload, family, CycleOf(cell, family, round), i))
  {
    var n, cycle := Place(cell, round, 0), CycleOf(cell, family, round);
    forall i | 0 <= i < cell.rows
      ensures RowAt(cell, payload, family, n + i) == RowOf(cell, payload, family, cycle, i)
    {
      OrdinalAtRound(cell, family, round, i);
    }
    if PointsMatch(view, cell, payload, family, n + cell.rows) {
      forall i | 0 <= i < cell.rows ensures PointMatches(view, RowOf(cell, payload, family, cycle, i)) {
        assert PointMatches(view, RowAt(cell, payload, family, n + i));
      }
    } else {
      var s :| 0 <= s < n + cell.rows && !PointMatches(view, RowAt(cell, payload, family, s));
      assert RowAt(cell, payload, family, n + (s - n)) == RowOf(cell, payload, family, cycle, s - n);
    }
  }

  lemma RoundFails(view: View, cell: Cell, payload: Payloads, family: nat, round: nat, error: Mismatch)
    requires cell.families > 0 && round < Rounds(cell, family)
    requires exists i :: 0 <= i < cell.rows &&
               PointFails(error, view, RowOf(cell, payload, family, CycleOf(cell, family, round), i))
    ensures SomePointFails(error, view, cell, payload, family, Expected(cell, family))
  {
    var cycle := CycleOf(cell, family, round);
    var i :| 0 <= i < cell.rows && PointFails(error, view, RowOf(cell, payload, family, cycle, i));
    OrdinalAtRound(cell, family, round, i);
    NextRound(cell, family, round);
    assert PointFails(error, view, RowAt(cell, payload, family, Place(cell, round, i)));
    assert Place(cell, round, i) < Place(cell, round, cell.rows);
  }

  lemma NextRound(cell: Cell, family: nat, round: nat)
    requires cell.families > 0
    ensures Place(cell, 0, 0) == 0 && CycleOf(cell, family, 0) == family
    ensures Place(cell, round + 1, 0) == Place(cell, round, cell.rows) == Place(cell, round, 0) + cell.rows
    ensures CycleOf(cell, family, round + 1) == CycleOf(cell, family, round) + cell.families
    ensures round < Rounds(cell, family) ==> Place(cell, round, cell.rows) <= Expected(cell, family)
  {
    if round < Rounds(cell, family) { Multiples(round, Rounds(cell, family), cell.rows); }
  }

  method CheckPoints(view: View, cell: Cell, payload: Payloads, family: nat) returns (r: Result<nat, Mismatch>)
    requires cell.families > 0
    ensures r.Ok? <==> PointsMatch(view, cell, payload, family, Expected(cell, family))
    ensures r.Ok? ==> r.value == Expected(cell, family)
    ensures r.Err? ==> SomePointFails(r.error, view, cell, payload, family, Expected(cell, family))
  {
    var expected, cycle := 0, family;
    ghost var round := 0;
    NextRound(cell, family, 0);
    while cycle < cell.cycles
      invariant cycle == CycleOf(cell, family, round) && expected == Place(cell, round, 0)
                && round <= Rounds(cell, family)
      invariant PointsMatch(view, cell, payload, family, expected)
      decreases cell.cycles - cycle
    {
      RoundsExactly(cell, family, round);
      NextRound(cell, family, round);
      RoundMatches(view, cell, payload, family, round);
      var checked := CheckRows(view, cell, payload, family, cycle);
      if checked.Err? {
        RoundFails(view, cell, payload, family, round, checked.error);
        return Err(checked.error);
      }
      expected, cycle, round := expected + cell.rows, cycle + cell.families, round + 1;
    }
    RoundsExactly(cell, family, round);
    return Ok(expected);
  }

  method ScanOrdinal(cell: Cell, family: nat, seen: nat) returns (ordinal: nat)
    requires cell.rows > 0
    ensures ordinal == OrdinalAt(cell, family, seen)
  {
    var cycle := family + (seen / cell.rows) * cell.families;
    ordinal := cycle * cell.rows + seen % cell.rows;
  }

  method CheckScan(rows: seq<ScanRow>, cell: Cell, payload: Payloads, family: nat, expected: nat)
    returns (r: Result<(), Mismatch>)
    requires cell.families > 0 && expected == Expected(cell, family)
    ensures r.Ok? <==> |rows| == expected && RowsMatch(rows, cell, payload, family, expected)
    ensures r.Err? ==> ScanFails(r.error, rows, cell, payload, family, expected)
  {
    var seen := 0;
    while seen < |rows|
      invariant seen <= |rows| && seen <= expected && RowsMatch(rows, cell, payload, family, seen)
    {
      if rows[seen].RowFailed? { return Err(ReadError); }
      if seen >= expected { return Err(ExtraRow); }
      var ordinal := ScanOrdinal(cell, family, seen);
      if rows[seen].key != KeyOf(family, ordinal) || rows[seen].value != payload(family, ordinal) {
        return Err(RowMismatch);
      }
      seen := seen + 1;
    }
    if seen != expected { return Err(CountMismatch); }
    return Ok(());
  }

  method VerifyFamily(view: View, cell: Cell, payload: Payloads, family: nat) returns (r: Result<(), Mismatch>)
    requires family < cell.families && cell.cycles * cell.rows <= Pow2(64)
    ensures r.Ok? <==> Intact(view, Committed(cell, payload, family, cell.cycles))
    ensures r.Err? ==> Cause(r.error, view, cell, payload, family)
  {
    MatchesExactlyIntact(view, cell, payload, family);
    var expected := CheckPoints(view, cell, payload, family);
    if expected.Err? { return Err(expected.error); }
    if view.scan.None? { return Err(ReadError); }
    r := CheckScan(view.scan.value, cell, payload, family, expected.value);
  }

  /** Succeeds exactly when every family exists and is intact. */
  method Verify(views: nat -> Option<View>, cell: Cell, payload: Payloads) returns (r: Result<(), Mismatch>)
    requires cell.families > 0 && cell.cycles * cell.rows <= Pow2(64)
    ensures r.Ok? <==> forall f :: 0 <= f < cell.families ==> FamilyIntact(views, cell, payload, f)
    ensures r.Err? ==> exists f :: 0 <= f < cell.families && FamilyFails(r.error, views, cell, payload, f)
  {
    for family := 0 to cell.families
      invariant forall f :: 0 <= f < family ==> FamilyIntact(views, cell, payload, f)
    {
      ghost var intact := FamilyIntact(views, cell, payload, family);
      if views(family).None? {
        assert !intact && FamilyFails(MissingFamily, views, cell, payload, family);
        return Err(MissingFamily);
      }
      r := VerifyFamily(views(family).value, cell, payload, family);
      if r.Err? {
        assert FamilyFails(r.error, views, cell, payload, family);
        return;
      }
    }
    return Ok(());
  }

  ghost predicate FamilyFails(error: Mismatch, views: nat -> Option<View>, cell: Cell, payload: Payloads, family: nat)
    requires cell.families > 0
  {
    if views(family).None? then error.MissingFamily? else Cause(error, views(family).value, cell, payload, family)
  }

  ghost predicate FamilyIntact(views: nat -> Option<View>, cell: Cell, payload: Payloads, family: nat)
    requires cell.families > 0
  {
    views(family).Some? && Intact(views(family).value, Committed(cell, payload, family, cell.cycles))
  }

  // ---------------------------------------------------------------- soundness and completeness

  function Listing(cell: Cell, payload: Payloads, family: nat): (rows: seq<ScanRow>)
    requires cell.families > 0
    ensures |rows| == Expected(cell, family)
  {
    seq(Expected(cell, family), s requires 0 <= s < Expected(cell, family) => RowAt(cell, payload, family, s))
  }

  lemma PositionIsBounded(cell: Cell, family: nat, seen: nat)
    requires family < cell.families && cell.cycles * cell.rows <= Pow2(64) && seen < Expected(cell, family)
    ensures OrdinalAt(cell, family, seen) < Pow2(64)
  {
    PositionsAreWritten(cell, family, seen);
    WrittenIsBounded(cell, family, OrdinalAt(cell, family, seen));
  }

  lemma ListingIsAscending(cell: Cell, payload: Payloads, family: nat)
    requires family < cell.families && cell.cycles * cell.rows <= Pow2(64)
    ensures Ascending(Listing(cell, payload, family))
  {
    var rows := Listing(cell, payload, family);
    forall a, b | 0 <= a < b < |rows| ensures Lex.Less(rows[a].key, rows[b].key) {
      PositionIsBounded(cell, family, a);
      PositionIsBounded(cell, family, b);
      OrdinalsIncrease(cell, family, a, b);
      KeyOrder(family, OrdinalAt(cell, family, a), OrdinalAt(cell, family, b));
    }
  }

  /** The rows of the listing are exactly the committed items. */
  lemma ListingHolds(cell: Cell, payload: Payloads, family: nat, k: Key, v: Payload)
    requires family < cell.families && cell.cycles * cell.rows <= Pow2(64)
    ensures
      var m := Committed(cell, payload, family, cell.cycles);
      Row(k, v) in Listing(cell, payload, family) <==> k in m && m[k] == v
  {
    var m := Committed(cell, payload, family, cell.cycles);
    var rows := Listing(cell, payload, family);
    if Row(k, v) in rows {
      var s :| 0 <= s < |rows| && rows[s] == Row(k, v);
      PositionIsCommitted(cell, payload, family, s);
    }
    if k in m && m[k] == v {
      var s := CommittedHasPosition(cell, payload, family, k);
      assert rows[s] == Row(k, v);
    }
  }

  lemma PositionIsCommitted(cell: Cell, payload: Payloads, family: nat, s: nat)
    requires family < cell.families && cell.cycles * cell.rows <= Pow2(64) && s < Expected(cell, family)
    ensures
      var m, row := Committed(cell, payload, family, cell.cycles), RowAt(cell, payload, family, s);
      row.key in m && m[row.key] == row.value
  {
    var ordinal := OrdinalAt(cell, family, s);
    PositionIsBounded(cell, family, s);
    PositionsAreWritten(cell, family, s);
    CommittedExactly(cell, payload, family, cell.cycles, ordinal);
    CommittedIsKeyed(cell, payload, family, cell.cycles);
    OrdinalOfKey(family, ordinal);
  }

  lemma CommittedHasPosition(cell: Cell, payload: Payloads, family: nat, k: Key) returns (s: nat)
    requires family < cell.families && cell.cycles * cell.rows <= Pow2(64)
    requires k in Committed(cell, payload, family, cell.cycles)
    ensures s < Expected(cell, family)
            && RowAt(cell, payload, family, s) == Row(k, Committed(cell, payload, family, cell.cycles)[k])
  {
    var ordinal := OrdinalOf(k);
    CommittedIsKeyed(cell, payload, family, cell.cycles);
    assert |k| == 16;
    BeNumberBounded(k[8..]);
    CommittedExactly(cell, payload, family, cell.cycles, ordinal);
    s := WrittenHasPosition(cell, family, ordinal);
  }

  lemma {:induction false} BeNumberBounded(b: seq<byte>)
    ensures BeNumber(b) < Pow2(8 * |b|)
  {
    if b != [] {
      BeNumberBounded(b[..|b| - 1]);
      Pow2Byte(8 * (|b| - 1));
      assert 8 * |b| == 8 * (|b| - 1) + 8;
    }
  }

  /** A set of rows has only one listing in key order. */
  lemma {:induction false} AscendingIsUnique(a: seq<ScanRow>, b: seq<ScanRow>)
    requires Ascending(a) && Ascending(b) && forall x :: x in a <==> x in b
    ensures a == b
    decreases |a|
  {
    if b != [] { assert b[0] in a; }
    if a != [] {
      assert a[0] in b;
      FirstRows(a, b);
      forall x ensures x in a[1..] <==> x in b[1..] {
        RestOf(a, x);
        RestOf(b, x);
      }
      AscendingIsUnique(a[1..], b[1..]);
      assert a == [a[0]] + a[1..] && b == [b[0]] + b[1..];
    }
  }

  lemma FirstRows(a: seq<ScanRow>, b: seq<ScanRow>)
    requires Ascending(a) && Ascending(b) && a != [] && b != [] && forall x :: x in a <==> x in b
    ensures a[0] == b[0]
  {
    assert a[0] in b && b[0] in a;
    var j :| 0 <= j < |b| && b[j] == a[0];
    var i :| 0 <= i < |a| && a[i] == b[0];
    Lex.Trichotomy(a[0].key, b[0].key);
  }

  lemma RestOf(a: seq<ScanRow>, x: ScanRow)
    requires Ascending(a) && a != []
    ensures x in a[1..] <==> x in a && x != a[0]
  {
    if x in a[1..] {
      var i :| 0 <= i < |a| - 1 && a[1..][i] == x;
      Lex.Trichotomy(a[0].key, a[i + 1].key);
    }
  }

  lemma ScanIsListing(rows: seq<ScanRow>, cell: Cell, payload: Payloads, family: nat)
    requires family < cell.families && cell.cycles * cell.rows <= Pow2(64)
    ensures
      var m := Committed(cell, payload, family, cell.cycles);
      rows == Listing(cell, payload, family) <==>
      Ascending(rows) && forall k, v :: Row(k, v) in rows <==> k in m && m[k] == v
  {
    var m, listing := Committed(cell, payload, family, cell.cycles), Listing(cell, payload, family);
    ListingIsAscending(cell, payload, family);
    forall k, v ensures Row(k, v) in listing <==> k in m && m[k] == v { ListingHolds(cell, payload, family, k, v); }
    if Ascending(rows) && forall k, v :: Row(k, v) in rows <==> k in m && m[k] == v {
      forall x ensures x in rows <==> x in listing {
        if x.Row? { assert Row(x.key, x.value) == x; }
      }
      AscendingIsUnique(rows, listing);
    }
  }

  lemma PointsAreIntact(view: View, cell: Cell, payload: Payloads, family: nat)
    requires family < cell.families && cell.cycles * cell.rows <= Pow2(64)
    ensures
      var m := Committed(cell, payload, family, cell.cycles);
      PointsMatch(view, cell, payload, family, Expected(cell, family)) <==>
      forall k :: k in m ==> view.get(k) == Found(m[k])
  {
    var m := Committed(cell, payload, family, cell.cycles);
    if PointsMatch(view, cell, payload, family, Expected(cell, family)) {
      forall k | k in m ensures view.get(k) == Found(m[k]) {
        var s := CommittedHasPosition(cell, payload, family, k);
        assert PointMatches(view, RowAt(cell, payload, family, s));
      }
    }
    if forall k :: k in m ==> view.get(k) == Found(m[k]) {
      forall s | 0 <= s < Expected(cell, family) ensures PointMatches(view, RowAt(cell, payload, family, s)) {
        PositionIsCommitted(cell, payload, family, s);
      }
    }
  }

  /** What the two passes check is exactly that the family is intact. */
  lemma MatchesExactlyIntact(view: View, cell: Cell, payload: Payloads, family: nat)
    requires family < cell.families && cell.cycles * cell.rows <= Pow2(64)
    ensures Intact(view, Committed(cell, payload, family, cell.cycles)) <==>
            && PointsMatch(view, cell, payload, family, Expected(cell, family))
            && view.scan.Some? && |view.scan.value| == Expected(cell, family)
            && RowsMatch(view.scan.value, cell, payload, family, Expected(cell, family))
  {
    PointsAreIntact(view, cell, payload, family);
    if view.scan.Some? {
      ScanIsListing(view.scan.value, cell, payload, family);
      assert view.scan.value == Listing(cell, payload, family) <==>
             && |view.scan.value| == Expected(cell, family)
             && RowsMatch(view.scan.value, cell, payload, family, Expected(cell, family));
    }
  }
}
