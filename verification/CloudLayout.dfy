/** Names of SST objects: canonical printing, exact parsing, and the order of listings. */
module CloudLayout {
  import opened Basics
  import opened Decimal
  import Lex

  const U32 := 0x1_0000_0000
  const U64 := 0x1_0000_0000_0000_0000

  const SST_SEQUENCE_WIDTH := 20

  datatype FlushId = FlushId(family: nat, level: nat, sequence: nat)

  datatype CompactionId = CompactionId(family: nat, level: nat, generation: nat, partition: nat)

  predicate FlushInRange(id: FlushId) {
    id.family < U32 && id.level < U32 && id.sequence < U64
  }

  predicate CompactionInRange(id: CompactionId) {
    id.family < U32 && id.level < U32 && id.generation < U64 && id.partition < U32
  }

  function Stem3(a: string, b: string, c: string): string {
    a + "_" + (b + "_" + c)
  }

  function FileName(id: FlushId): string {
    Stem3(Padded(id.family, 6), Padded(id.level, 2), Padded(id.sequence, SST_SEQUENCE_WIDTH)) + ".sst"
  }

  function CompactionFileName(id: CompactionId): string {
    Stem3(Padded(id.family, 6), Padded(id.level, 2),
          Padded(id.generation, SST_SEQUENCE_WIDTH) + "_" + Padded(id.partition, 10)) + ".sst"
  }

  function StripSuffix(s: string, suffix: string): Option<string> {
    if |s| >= |suffix| && s[|s| - |suffix|..] == suffix then Some(s[..|s| - |suffix|]) else None
  }

  function ParseFileName(name: string): Option<FlushId> {
    match StripSuffix(name, ".sst")
    case None => None
    case Some(stem) =>
      var parts := Split(stem, '_');
      if |parts| != 3 then None
      else
        var family := ParseUnsigned(parts[0], U32);
        var level := ParseUnsigned(parts[1], U32);
        var sequence := ParseUnsigned(parts[2], U64);
        if family.None? || level.None? || sequence.None? then None
        else
          var id := FlushId(family.value, level.value, sequence.value);
          if FileName(id) == name then Some(id) else None
  }

  function ParseCompactionFileName(name: string): Option<CompactionId> {
    match StripSuffix(name, ".sst")
    case None => None
    case Some(stem) =>
      var parts := Split(stem, '_');
      if |parts| != 4 || !DigitParts(parts) then None
      else
        match CompactionFields(parts)
        case None => None
        case Some(id) => if CompactionFileName(id) == name then Some(id) else None
  }

  predicate DigitParts(parts: seq<string>) {
    forall i :: 0 <= i < |parts| ==> parts[i] != [] && AllDigits(parts[i])
  }

  function CompactionFields(parts: seq<string>): (id: Option<CompactionId>)
    requires |parts| == 4
    ensures id.Some? ==> CompactionInRange(id.value)
  {
    var family := ParseUnsigned(parts[0], U32);
    var level := ParseUnsigned(parts[1], U32);
    var generation := ParseUnsigned(parts[2], U64);
    var partition := ParseUnsigned(parts[3], U32);
    if family.None? || level.None? || generation.None? || partition.None? then None
    else Some(CompactionId(family.value, level.value, generation.value, partition.value))
  }

  // ---------------------------------------------------------------- printing and parsing are inverse

  lemma StripOwnSuffix(stem: string, suffix: string)
    ensures StripSuffix(stem + suffix, suffix) == Some(stem)
  {
  }

  lemma SplitStem3(a: string, b: string, c: string)
    requires '_' !in a && '_' !in b
    ensures Split(Stem3(a, b, c), '_') == [a, b] + Split(c, '_')
  {
    SplitFirst(a, '_', b + "_" + c);
    assert Stem3(a, b, c) == a + ['_'] + (b + "_" + c);
    SplitFirst(b, '_', c);
    assert b + "_" + c == b + ['_'] + c;
    assert [a] + ([b] + Split(c, '_')) == [a, b] + Split(c, '_');
  }

  lemma FileNameParts(id: FlushId)
    ensures StripSuffix(FileName(id), ".sst").Some?
    ensures Split(StripSuffix(FileName(id), ".sst").value, '_') ==
            [Padded(id.family, 6), Padded(id.level, 2), Padded(id.sequence, SST_SEQUENCE_WIDTH)]
  {
    var a, b, c := Padded(id.family, 6), Padded(id.level, 2), Padded(id.sequence, SST_SEQUENCE_WIDTH);
    StripOwnSuffix(Stem3(a, b, c), ".sst");
    SplitStem3(a, b, c);
    SplitLast(c, '_');
  }

  lemma CompactionFileNameParts(id: CompactionId)
    ensures StripSuffix(CompactionFileName(id), ".sst").Some?
    ensures Split(StripSuffix(CompactionFileName(id), ".sst").value, '_') ==
            [Padded(id.family, 6), Padded(id.level, 2), Padded(id.generation, SST_SEQUENCE_WIDTH),
             Padded(id.partition, 10)]
  {
    var a, b := Padded(id.family, 6), Padded(id.level, 2);
    var c, d := Padded(id.generation, SST_SEQUENCE_WIDTH), Padded(id.partition, 10);
    StripOwnSuffix(Stem3(a, b, c + "_" + d), ".sst");
    SplitStem3(a, b, c + "_" + d);
    SplitFirst(c, '_', d);
    assert c + "_" + d == c + ['_'] + d;
    SplitLast(d, '_');
  }

  /** The flush parser returns an identity exactly for the canonical name of that identity. */
  lemma FlushNamesParseExactly(name: string, id: FlushId)
    ensures ParseFileName(name) == Some(id) <==> FlushInRange(id) && name == FileName(id)
  {
    if FlushInRange(id) && name == FileName(id) {
      FileNameParts(id);
      ParsePadded(id.family, 6, U32);
      ParsePadded(id.level, 2, U32);
      ParsePadded(id.sequence, SST_SEQUENCE_WIDTH, U64);
    }
  }

  lemma CompactionNameParses(id: CompactionId)
    requires CompactionInRange(id)
    ensures ParseCompactionFileName(CompactionFileName(id)) == Some(id)
  {
    CompactionFileNameParts(id);
    var parts := Split(StripSuffix(CompactionFileName(id), ".sst").value, '_');
    assert DigitParts(parts);
    assert CompactionFields(parts) == Some(id) by {
      ParsePadded(id.family, 6, U32);
      ParsePadded(id.level, 2, U32);
      ParsePadded(id.generation, SST_SEQUENCE_WIDTH, U64);
      ParsePadded(id.partition, 10, U32);
    }
  }

  /** The compaction parser returns an identity exactly for the canonical name of that identity. */
  lemma CompactionNamesParseExactly(name: string, id: CompactionId)
    ensures ParseCompactionFileName(name) == Some(id) <==> CompactionInRange(id) && name == CompactionFileName(id)
  {
    if CompactionInRange(id) && name == CompactionFileName(id) {
      CompactionNameParses(id);
    }
  }

  /** Different identities never share a name, within a kind or across kinds. */
  lemma NamesAreDistinct(f: FlushId, g: FlushId, c: CompactionId, d: CompactionId)
    requires FlushInRange(f) && FlushInRange(g) && CompactionInRange(c) && CompactionInRange(d)
    ensures FileName(f) == FileName(g) ==> f == g
    ensures CompactionFileName(c) == CompactionFileName(d) ==> c == d
    ensures FileName(f) != CompactionFileName(c)
  {
    FlushNamesParseExactly(FileName(f), f);
    FlushNamesParseExactly(FileName(f), g);
    CompactionNamesParseExactly(CompactionFileName(c), c);
    CompactionNamesParseExactly(CompactionFileName(c), d);
    FileNameParts(f);
    CompactionFileNameParts(c);
  }

  // ---------------------------------------------------------------- order of listings

  lemma TextPrefix(p: string, a: string, b: string)
    ensures TextLess(p + a, p + b) <==> TextLess(a, b)
  {
    assert Codes(p + a) == Codes(p) + Codes(a) && Codes(p + b) == Codes(p) + Codes(b);
    Lex.CommonPrefix(Codes(p), Codes(a), Codes(b));
  }

  lemma TextHeads(a: string, b: string, x: string, y: string)
    requires |a| == |b| && a != b
    ensures TextLess(a + x, b + y) <==> TextLess(a, b)
  {
    assert Codes(a + x) == Codes(a) + Codes(x) && Codes(b + y) == Codes(b) + Codes(y);
    CodesInjective(a, b);
    Lex.EqualLengthHeads(Codes(a), Codes(b), Codes(x), Codes(y));
  }

  /** One padded field followed by anything: the field decides unless it is equal. */
  lemma FieldOrder(m: nat, n: nat, width: nat, x: string, y: string)
    requires width > 0 && m < Pow10(width) && n < Pow10(width)
    ensures TextLess(Padded(m, width) + x, Padded(n, width) + y) <==> m < n || (m == n && TextLess(x, y))
  {
    PaddedOrder(m, n, width);
    PaddedWidth(m, width);
    PaddedWidth(n, width);
    if m == n {
      TextPrefix(Padded(m, width), x, y);
    } else {
      TextHeads(Padded(m, width), Padded(n, width), x, y);
    }
  }

  lemma WidthsSuffice()
    ensures U64 <= Pow10(20) && U32 <= Pow10(10) && Pow10(6) == 1_000_000 && Pow10(2) == 100
  {
    assert Pow10(5) == 100_000;
    assert Pow10(10) == 10_000_000_000;
    assert Pow10(15) == 1_000_000_000_000_000;
    assert Pow10(20) == 100_000_000_000_000_000_000;
  }

  /** What follows family and level in a flush name, and in a compaction name. */
  function FlushTail(sequence: nat): string {
    Padded(sequence, SST_SEQUENCE_WIDTH) + ".sst"
  }

  function CompactionTail(generation: nat, partition: nat): string {
    Padded(generation, SST_SEQUENCE_WIDTH) + ("_" + (Padded(partition, 10) + ".sst"))
  }

  function Named(family: nat, level: nat, tail: string): string {
    Padded(family, 6) + ("_" + (Padded(level, 2) + ("_" + tail)))
  }

  lemma NameShapes(f: FlushId, c: CompactionId)
    ensures FileName(f) == Named(f.family, f.level, FlushTail(f.sequence))
    ensures CompactionFileName(c) == Named(c.family, c.level, CompactionTail(c.generation, c.partition))
  {
  }

  /** `name[from..to]` is the number `n` in decimal digits. */
  predicate Spells(name: string, from: nat, to: nat, n: nat) {
    from <= to <= |name| && AllDigits(name[from..to]) && Value(name[from..to]) == n
  }

  /** What follows `from` in a name begins with a field that fits its width. */
  lemma FieldAt(name: string, from: nat, n: nat, width: nat, rest: string)
    requires width > 0 && n < Pow10(width) && from <= |name| && name[from..] == Padded(n, width) + rest
    ensures Spells(name, from, from + width, n) && name[from + width..] == rest
  {
    PaddedWidth(n, width);
    ValueOfPadded(n, width);
    assert name[from..from + width] == name[from..][..width] == Padded(n, width);
    assert name[from + width..] == name[from..][width..];
  }

  lemma MarkAt(name: string, from: nat, rest: string)
    requires from <= |name| && name[from..] == "_" + rest
    ensures from < |name| && name[from] == '_' && name[from + 1..] == rest
  {
    assert name[from] == name[from..][0];
    assert name[from + 1..] == name[from..][1..];
  }

  /** The name begins with six digits, two digits, and their underscores. */
  predicate BeginsWith(name: string, family: nat, level: nat) {
    && |name| >= 10 && Spells(name, 0, 6, family) && name[6] == '_' && Spells(name, 7, 9, level) && name[9] == '_'
  }

  lemma NamedLayout(family: nat, level: nat, tail: string)
    requires family <= 999_999 && level <= 99
    ensures BeginsWith(Named(family, level, tail), family, level) && Named(family, level, tail)[10..] == tail
  {
    WidthsSuffice();
    var name := Named(family, level, tail);
    assert name[0..] == name;
    FieldAt(name, 0, family, 6, "_" + (Padded(level, 2) + ("_" + tail)));
    MarkAt(name, 6, Padded(level, 2) + ("_" + tail));
    FieldAt(name, 7, level, 2, "_" + tail);
    MarkAt(name, 9, tail);
  }

  /** A flush name is six, two and twenty digits between underscores, and the suffix. */
  lemma FlushNameLayout(id: FlushId)
    requires FlushWithin(id, 999_999, 99)
    ensures
      var name := FileName(id);
      BeginsWith(name, id.family, id.level) && Spells(name, 10, 30, id.sequence) && name[30..] == ".sst"
  {
    NameShapes(id, CompactionId(0, 0, 0, 0));
    NamedLayout(id.family, id.level, FlushTail(id.sequence));
    WidthsSuffice();
    FieldAt(FileName(id), 10, id.sequence, SST_SEQUENCE_WIDTH, ".sst");
  }

  /** In a compaction name ten more digits name the partition. */
  lemma CompactionNameLayout(id: CompactionId)
    requires CompactionWithin(id, 999_999, 99)
    ensures
      var name := CompactionFileName(id);
      && BeginsWith(name, id.family, id.level) && Spells(name, 10, 30, id.generation) && name[30..] != []
      && name[30] == '_' && Spells(name, 31, 41, id.partition) && name[41..] == ".sst"
  {
    NameShapes(FlushId(0, 0, 0), id);
    NamedLayout(id.family, id.level, CompactionTail(id.generation, id.partition));
    WidthsSuffice();
    var name := CompactionFileName(id);
    FieldAt(name, 10, id.generation, SST_SEQUENCE_WIDTH, "_" + (Padded(id.partition, 10) + ".sst"));
    MarkAt(name, 30, Padded(id.partition, 10) + ".sst");
    FieldAt(name, 31, id.partition, 10, ".sst");
  }

  lemma SameFamilyAndLevel(family: nat, level: nat, x: string, y: string)
    ensures TextLess(Named(family, level, x), Named(family, level, y)) <==> TextLess(x, y)
  {
    TextPrefix(Padded(family, 6), "_" + (Padded(level, 2) + ("_" + x)), "_" + (Padded(level, 2) + ("_" + y)));
    TextPrefix("_", Padded(level, 2) + ("_" + x), Padded(level, 2) + ("_" + y));
    TextPrefix(Padded(level, 2), "_" + x, "_" + y);
    TextPrefix("_", x, y);
  }

  lemma AnyFamilyAndLevel(f: nat, l: nat, x: string, f': nat, l': nat, y: string)
    requires f <= 999_999 && f' <= 999_999 && l <= 99 && l' <= 99
    ensures TextLess(Named(f, l, x), Named(f', l', y)) <==>
            f < f' || (f == f' && (l < l' || (l == l' && TextLess(x, y))))
  {
    WidthsSuffice();
    FieldOrder(f, f', 6, "_" + (Padded(l, 2) + ("_" + x)), "_" + (Padded(l', 2) + ("_" + y)));
    TextPrefix("_", Padded(l, 2) + ("_" + x), Padded(l', 2) + ("_" + y));
    FieldOrder(l, l', 2, "_" + x, "_" + y);
    TextPrefix("_", x, y);
  }

  lemma TailOrder(s: nat, t: nat)
    requires s < U64 && t < U64
    ensures TextLess(FlushTail(s), FlushTail(t)) <==> s < t
  {
    WidthsSuffice();
    FieldOrder(s, t, SST_SEQUENCE_WIDTH, ".sst", ".sst");
    Lex.Trichotomy(Codes(".sst"), Codes(".sst"));
  }

  lemma CompactionTailOrder(g: nat, p: nat, g': nat, p': nat)
    requires g < U64 && g' < U64 && p < U32 && p' < U32
    ensures TextLess(CompactionTail(g, p), CompactionTail(g', p')) <==> g < g' || (g == g' && p < p')
  {
    WidthsSuffice();
    FieldOrder(g, g', SST_SEQUENCE_WIDTH, "_" + (Padded(p, 10) + ".sst"), "_" + (Padded(p', 10) + ".sst"));
    TextPrefix("_", Padded(p, 10) + ".sst", Padded(p', 10) + ".sst");
    FieldOrder(p, p', 10, ".sst", ".sst");
    Lex.Trichotomy(Codes(".sst"), Codes(".sst"));
  }

  lemma MixedTailOrder(s: nat, g: nat, p: nat)
    requires s < U64 && g < U64
    ensures TextLess(FlushTail(s), CompactionTail(g, p)) <==> s <= g
  {
    WidthsSuffice();
    var x, y := ".sst", "_" + (Padded(p, 10) + ".sst");
    FieldOrder(s, g, SST_SEQUENCE_WIDTH, x, y);
    assert Codes(x)[0] < Codes(y)[0];
  }

  /** For one family and level, flush names sort exactly by sequence, over every u64. */
  lemma FlushNamesSortBySequence(a: FlushId, b: FlushId)
    requires FlushInRange(a) && FlushInRange(b) && a.family == b.family && a.level == b.level
    ensures TextLess(FileName(a), FileName(b)) <==> a.sequence < b.sequence
  {
    NameShapes(a, CompactionId(0, 0, 0, 0));
    NameShapes(b, CompactionId(0, 0, 0, 0));
    SameFamilyAndLevel(a.family, a.level, FlushTail(a.sequence), FlushTail(b.sequence));
    TailOrder(a.sequence, b.sequence);
  }

  /** For one family and level, compaction names sort exactly by generation, then partition. */
  lemma CompactionNamesSortByGeneration(a: CompactionId, b: CompactionId)
    requires CompactionInRange(a) && CompactionInRange(b) && a.family == b.family && a.level == b.level
    ensures TextLess(CompactionFileName(a), CompactionFileName(b)) <==>
            a.generation < b.generation || (a.generation == b.generation && a.partition < b.partition)
  {
    NameShapes(FlushId(0, 0, 0), a);
    NameShapes(FlushId(0, 0, 0), b);
    SameFamilyAndLevel(a.family, a.level, CompactionTail(a.generation, a.partition),
                       CompactionTail(b.generation, b.partition));
    CompactionTailOrder(a.generation, a.partition, b.generation, b.partition);
  }

  /** A flush name sorts before exactly the partitions of its own and later generations. */
  lemma FlushSortsBeforePartitions(f: FlushId, c: CompactionId)
    requires FlushInRange(f) && CompactionInRange(c) && f.family == c.family && f.level == c.level
    ensures TextLess(FileName(f), CompactionFileName(c)) <==> f.sequence <= c.generation
  {
    NameShapes(f, c);
    SameFamilyAndLevel(f.family, f.level, FlushTail(f.sequence), CompactionTail(c.generation, c.partition));
    MixedTailOrder(f.sequence, c.generation, c.partition);
  }

  predicate FlushBefore(a: FlushId, b: FlushId) {
    || a.family < b.family
    || (a.family == b.family && (a.level < b.level || (a.level == b.level && a.sequence < b.sequence)))
  }

  /** Where family and level fit their padding, flush names sort by the whole identity. */
  lemma FlushNamesSortByIdentity(a: FlushId, b: FlushId)
    requires FlushInRange(a) && FlushInRange(b)
    requires a.family <= 999_999 && b.family <= 999_999 && a.level <= 99 && b.level <= 99
    ensures TextLess(FileName(a), FileName(b)) <==> FlushBefore(a, b)
  {
    NameShapes(a, CompactionId(0, 0, 0, 0));
    NameShapes(b, CompactionId(0, 0, 0, 0));
    AnyFamilyAndLevel(a.family, a.level, FlushTail(a.sequence), b.family, b.level, FlushTail(b.sequence));
    TailOrder(a.sequence, b.sequence);
  }

  predicate CompactionBefore(a: CompactionId, b: CompactionId) {
    || a.family < b.family
    || (a.family == b.family
        && (|| a.level < b.level
            || (a.level == b.level
                && (a.generation < b.generation || (a.generation == b.generation && a.partition < b.partition)))))
  }

  /** The same for compaction names. */
  lemma CompactionNamesSortByIdentity(a: CompactionId, b: CompactionId)
    requires CompactionInRange(a) && CompactionInRange(b)
    requires a.family <= 999_999 && b.family <= 999_999 && a.level <= 99 && b.level <= 99
    ensures TextLess(CompactionFileName(a), CompactionFileName(b)) <==> CompactionBefore(a, b)
  {
    NameShapes(FlushId(0, 0, 0), a);
    NameShapes(FlushId(0, 0, 0), b);
    AnyFamilyAndLevel(a.family, a.level, CompactionTail(a.generation, a.partition),
                      b.family, b.level, CompactionTail(b.generation, b.partition));
    CompactionTailOrder(a.generation, a.partition, b.generation, b.partition);
  }

  lemma WideFamilyNamed(x: string, y: string)
    ensures TextLess(Named(1_000_000, 0, x), Named(999_999, 0, y))
  {
    var a, b := Named(1_000_000, 0, x), Named(999_999, 0, y);
    LeadingDigit(1_000_000);
    LeadingDigit(999_999);
    assert a[0] == Padded(1_000_000, 6)[0] && b[0] == Padded(999_999, 6)[0];
    assert Codes(a)[0] < Codes(b)[0];
  }

  lemma WideLevelNamed(x: string, y: string)
    ensures TextLess(Named(0, 100, x), Named(0, 99, y))
  {
    var a, b := Padded(100, 2) + ("_" + x), Padded(99, 2) + ("_" + y);
    TextPrefix(Padded(0, 6), "_" + a, "_" + b);
    TextPrefix("_", a, b);
    assert Digits(100)[0] == '1' && Digits(99)[0] == '9';
    assert a[0] == '1' && b[0] == '9';
    assert Codes(a)[0] < Codes(b)[0];
  }

  /** Beyond the padding the order across families is lost: the millionth family sorts before its predecessor. */
  lemma WideFamilySortsEarly(s: nat, t: nat)
    requires s < U64 && t < U64
    ensures TextLess(FileName(FlushId(1_000_000, 0, s)), FileName(FlushId(999_999, 0, t)))
  {
    NameShapes(FlushId(1_000_000, 0, s), CompactionId(0, 0, 0, 0));
    NameShapes(FlushId(999_999, 0, t), CompactionId(0, 0, 0, 0));
    WideFamilyNamed(FlushTail(s), FlushTail(t));
  }

  lemma LeadingDigit(n: nat)
    ensures n == 1_000_000 ==> Padded(n, 6)[0] == '1'
    ensures n == 999_999 ==> Padded(n, 6)[0] == '9'
  {
    if n == 1_000_000 {
      assert Digits(10) == "10";
      assert Digits(1_000)[0] == '1';
      assert Digits(100_000)[0] == '1';
    }
    if n == 999_999 {
      assert Digits(99)[0] == '9';
      assert Digits(9_999)[0] == '9';
    }
  }

  /** Within a family, level 100 sorts before level 99. */
  lemma WideLevelSortsEarly(s: nat, t: nat)
    requires s < U64 && t < U64
    ensures TextLess(FileName(FlushId(0, 100, s)), FileName(FlushId(0, 99, t)))
  {
    NameShapes(FlushId(0, 100, s), CompactionId(0, 0, 0, 0));
    NameShapes(FlushId(0, 99, t), CompactionId(0, 0, 0, 0));
    WideLevelNamed(FlushTail(s), FlushTail(t));
  }

  predicate FlushWithin(id: FlushId, maxFamily: nat, maxLevel: nat) {
    FlushInRange(id) && id.family <= maxFamily && id.level <= maxLevel
  }

  predicate CompactionWithin(id: CompactionId, maxFamily: nat, maxLevel: nat) {
    CompactionInRange(id) && id.family <= maxFamily && id.level <= maxLevel
  }

  /** Flush names of families and levels up to these bounds sort by the whole identity. */
  ghost predicate SortsByIdentity(maxFamily: nat, maxLevel: nat) {
    forall a, b :: FlushWithin(a, maxFamily, maxLevel) && FlushWithin(b, maxFamily, maxLevel) ==>
                     (TextLess(FileName(a), FileName(b)) <==> FlushBefore(a, b))
  }

  /** The same for compaction names. */
  ghost predicate CompactionsSortByIdentity(maxFamily: nat, maxLevel: nat) {
    forall a, b :: CompactionWithin(a, maxFamily, maxLevel) && CompactionWithin(b, maxFamily, maxLevel) ==>
                     (TextLess(CompactionFileName(a), CompactionFileName(b)) <==> CompactionBefore(a, b))
  }

  /** Listings of flush names sort by identity exactly as far as the padding reaches. */
  lemma OrderHoldsExactly(maxFamily: nat, maxLevel: nat)
    requires maxFamily < U32 && maxLevel < U32
    ensures SortsByIdentity(maxFamily, maxLevel) <==> maxFamily <= 999_999 && maxLevel <= 99
  {
    if maxFamily <= 999_999 && maxLevel <= 99 {
      forall a, b | FlushWithin(a, maxFamily, maxLevel) && FlushWithin(b, maxFamily, maxLevel)
        ensures TextLess(FileName(a), FileName(b)) <==> FlushBefore(a, b)
      {
        FlushNamesSortByIdentity(a, b);
      }
    } else if maxFamily > 999_999 {
      WideFamilySortsEarly(0, 0);
      assert !FlushBefore(FlushId(1_000_000, 0, 0), FlushId(999_999, 0, 0));
    } else {
      WideLevelSortsEarly(0, 0);
      assert !FlushBefore(FlushId(0, 100, 0), FlushId(0, 99, 0));
    }
  }

  lemma WideCompactionsSortEarly()
    ensures TextLess(CompactionFileName(CompactionId(1_000_000, 0, 0, 0)),
                     CompactionFileName(CompactionId(999_999, 0, 0, 0)))
    ensures TextLess(CompactionFileName(CompactionId(0, 100, 0, 0)), CompactionFileName(CompactionId(0, 99, 0, 0)))
  {
    NameShapes(FlushId(0, 0, 0), CompactionId(1_000_000, 0, 0, 0));
    NameShapes(FlushId(0, 0, 0), CompactionId(999_999, 0, 0, 0));
    NameShapes(FlushId(0, 0, 0), CompactionId(0, 100, 0, 0));
    NameShapes(FlushId(0, 0, 0), CompactionId(0, 99, 0, 0));
    WideFamilyNamed(CompactionTail(0, 0), CompactionTail(0, 0));
    WideLevelNamed(CompactionTail(0, 0), CompactionTail(0, 0));
  }

  /** So do listings of compaction names, and no further. */
  lemma CompactionOrderHoldsExactly(maxFamily: nat, maxLevel: nat)
    requires maxFamily < U32 && maxLevel < U32
    ensures CompactionsSortByIdentity(maxFamily, maxLevel) <==> maxFamily <= 999_999 && maxLevel <= 99
  {
    WideCompactionsSortEarly();
    if maxFamily <= 999_999 && maxLevel <= 99 {
      forall a, b | CompactionWithin(a, maxFamily, maxLevel) && CompactionWithin(b, maxFamily, maxLevel)
        ensures TextLess(CompactionFileName(a), CompactionFileName(b)) <==> CompactionBefore(a, b)
      {
        CompactionNamesSortByIdentity(a, b);
      }
    } else if maxFamily > 999_999 {
      assert CompactionWithin(CompactionId(1_000_000, 0, 0, 0), maxFamily, maxLevel);
      assert !CompactionBefore(CompactionId(1_000_000, 0, 0, 0), CompactionId(999_999, 0, 0, 0));
    } else {
      assert CompactionWithin(CompactionId(0, 100, 0, 0), maxFamily, maxLevel);
      assert !CompactionBefore(CompactionId(0, 100, 0, 0), CompactionId(0, 99, 0, 0));
    }
  }

  // ---------------------------------------------------------------- names read back from metadata

  datatype Component = RootDir | CurDir | ParentDir | Normal(text: string)

  /** Path components of a name: separators collapse, and a dot counts only at the front. */
  function Components(name: string): seq<Component> {
    (if name != [] && name[0] == '/' then [RootDir] else []) + Pieces(Split(name, '/'), true)
  }

  function Pieces(parts: seq<string>, first: bool): seq<Component> {
    if parts == [] then []
    else
      (match parts[0]
       case "" => []
       case "." => if first then [CurDir] else []
       case ".." => [ParentDir]
       case text => [Normal(text)]) + Pieces(parts[1..], false)
  }

  /** The text after the last dot of a file name that has something before it. */
  function Extension(name: string): Option<string> {
    if name == ".." then None else ExtensionFrom(name, |name|)
  }

  function ExtensionFrom(name: string, end: nat): Option<string>
    requires end <= |name|
  {
    if end <= 1 then None
    else if name[end - 1] == '.' then Some(name[end..])
    else ExtensionFrom(name, end - 1)
  }

  predicate UnsafeSyntax(name: string) {
    exists c :: c in name && (c == '/' || c == '\\' || c == ':' || c == '\0')
  }

  predicate ParsesAsPersisted(name: string) {
    var components := Components(name);
    && name != ""
    && |components| == 1 && components[0].Normal?
    && !UnsafeSyntax(name)
    && Extension(name) == Some("sst")
  }

  /** Persisted names are exactly the safe texts ending in `.sst` with something before it. */
  lemma PersistedNamesExactly(name: string)
    ensures ParsesAsPersisted(name) <==>
            && '/' !in name && '\\' !in name && ':' !in name && '\0' !in name
            && |name| > 4 && name[|name| - 4..] == ".sst"
  {
    if !UnsafeSyntax(name) {
      assert '/' !in name;
      SplitLast(name, '/');
      SstExtension(name);
      assert Pieces([name], true) == (match name
                                      case "" => []
                                      case "." => [CurDir]
                                      case ".." => [ParentDir]
                                      case text => [Normal(text)]) + Pieces([], false);
    }
  }

  lemma SstExtension(name: string)
    ensures Extension(name) == Some("sst") <==> |name| > 4 && name[|name| - 4..] == ".sst"
  {
    var n := |name|;
    ExtensionIsSuffix(name, n);
    if n > 4 && name[n - 4..] == ".sst" {
      assert name[n - 1] == 't' && name[n - 2] == 's' && name[n - 3] == 's' && name[n - 4] == '.';
      assert name[n - 3..] == "sst";
      assert ExtensionFrom(name, n) == ExtensionFrom(name, n - 1) == ExtensionFrom(name, n - 2) ==
             ExtensionFrom(name, n - 3);
    }
    if Extension(name) == Some("sst") {
      assert name[n - 4..] == ['.'] + name[n - 3..];
    }
  }

  lemma {:induction false} ExtensionIsSuffix(name: string, end: nat)
    requires end <= |name|
    ensures
      var e := ExtensionFrom(name, end);
      e.Some? ==> |e.value| + 1 < |name| && name[|name| - |e.value| - 1] == '.' && e.value == name[|name| - |e.value|..]
  {
    if end > 1 && name[end - 1] != '.' { ExtensionIsSuffix(name, end - 1); }
  }

  predicate PlainStem(stem: string) {
    stem != [] && forall i :: 0 <= i < |stem| ==> IsDigit(stem[i]) || stem[i] == '_'
  }

  lemma PlainStemIsPersistable(stem: string)
    requires PlainStem(stem)
    ensures ParsesAsPersisted(stem + ".sst")
  {
    var name := stem + ".sst";
    assert name[|name| - 4..] == ".sst";
    PersistedNamesExactly(name);
  }

  lemma PlainJoin(a: string, b: string)
    requires PlainStem(a) && PlainStem(b)
    ensures PlainStem(a + "_" + b)
  {
  }

  /** Every generated name is accepted when metadata is read back. */
  lemma GeneratedNamesArePersistable(f: FlushId, c: CompactionId)
    ensures ParsesAsPersisted(FileName(f)) && ParsesAsPersisted(CompactionFileName(c))
  {
    PlainJoin(Padded(f.level, 2), Padded(f.sequence, SST_SEQUENCE_WIDTH));
    PlainJoin(Padded(f.family, 6), Padded(f.level, 2) + "_" + Padded(f.sequence, SST_SEQUENCE_WIDTH));
    PlainStemIsPersistable(Stem3(Padded(f.family, 6), Padded(f.level, 2), Padded(f.sequence, SST_SEQUENCE_WIDTH)));
    var tail := Padded(c.generation, SST_SEQUENCE_WIDTH) + "_" + Padded(c.partition, 10);
    PlainJoin(Padded(c.generation, SST_SEQUENCE_WIDTH), Padded(c.partition, 10));
    PlainJoin(Padded(c.level, 2), tail);
    PlainJoin(Padded(c.family, 6), Padded(c.level, 2) + "_" + tail);
    PlainStemIsPersistable(Stem3(Padded(c.family, 6), Padded(c.level, 2), tail));
  }
}
