/** The blocks managed by the API cache of hcdataapi/apicache.go and the comparators of its queue. */
module CachedBlocks {
  const MAX_UINT32: nat := 0xFFFF_FFFF

  type uint32 = x: int | 0 <= x <= 0xFFFF_FFFF

  /** Block hashes. Parsing and printing of hash strings are not part of this model. */
  newtype Hash = x: int | 0 <= x

  const ZERO_HASH: Hash := 0

  datatype BlockDataBasic = BlockDataBasic(height: uint32, hash: Hash, data: string)

  /** What a comparator may look at in a cached block. */
  datatype Entry = Entry(summary: BlockDataBasic, accesses: int, accessTime: int)

  class CachedBlock {
    var summary: BlockDataBasic
    var accesses: int
    var accessTime: int
    var heapIdx: int

    constructor (summary: BlockDataBasic, accesses: int, accessTime: int, heapIdx: int)
      ensures Snapshot() == Entry(summary, accesses, accessTime) && this.heapIdx == heapIdx
    {
      this.summary := summary;
      this.accesses := accesses;
      this.accessTime := accessTime;
      this.heapIdx := heapIdx;
    }

    ghost function Snapshot(): Entry
      reads this`summary, this`accesses, this`accessTime
    {
      Entry(summary, accesses, accessTime)
    }

    /** Counts an access made at time `now`. */
    method Access(now: int) returns (data: BlockDataBasic)
      modifies this`accesses, this`accessTime
      ensures data == summary
      ensures accesses == old(accesses) + 1 && accessTime == now
    {
      accesses := accesses + 1;
      accessTime := now;
      data := summary;
    }
  }

  type Comparator = (Entry, Entry) -> bool

  // ---------------------------------------------------------------------------------------------
  // The comparators

  function LessByHeight(a: Entry, b: Entry): bool {
    a.summary.height < b.summary.height
  }

  function LessByAccessCount(a: Entry, b: Entry): bool {
    a.accesses < b.accesses
  }

  function LessByAccessTime(a: Entry, b: Entry): bool {
    a.accessTime < b.accessTime
  }

  function LessByAccessCountThenHeight(a: Entry, b: Entry): bool {
    if a.accesses == b.accesses then LessByHeight(a, b) else LessByAccessCount(a, b)
  }

  /** Integer division of Go, which truncates toward zero. */
  function Quotient(x: int, d: nat): int
    requires d > 0
  {
    if x >= 0 then x / d else -((-x) / d)
  }

  const NANOS_PER_MILLISECOND: nat := 1_000_000

  /** MakeLessByAccessTimeThenCount, for a resolution of at least one millisecond. */
  function LessByAccessTimeThenCount(millisecondsBinned: nat, a: Entry, b: Entry): bool
    requires millisecondsBinned > 0
  {
    if Quotient(a.accessTime - b.accessTime, millisecondsBinned * NANOS_PER_MILLISECOND) == 0
    then LessByAccessCount(a, b)
    else LessByAccessTime(a, b)
  }

  // ---------------------------------------------------------------------------------------------
  // Which of them order blocks

  ghost predicate Asymmetric(less: Comparator) {
    forall a, b :: less(a, b) ==> !less(b, a)
  }

  ghost predicate Chain(less: Comparator, a: Entry, b: Entry, c: Entry) {
    !less(a, b) && !less(b, c) ==> !less(a, c)
  }

  /** "Not less" is transitive: with asymmetry this makes `less` a strict weak order. */
  ghost predicate NotLessTransitive(less: Comparator) {
    forall a, b, c :: Chain(less, a, b, c)
  }

  ghost predicate StrictWeakOrder(less: Comparator) {
    Asymmetric(less) && NotLessTransitive(less)
  }

  lemma StrictWeakOrderIsTransitive(less: Comparator, a: Entry, b: Entry, c: Entry)
    requires StrictWeakOrder(less) && less(a, b) && less(b, c)
    ensures less(a, c) && !less(c, a) && !less(a, a)
  {
    assert !less(c, b);
    assert Chain(less, a, c, b);
    assert less(a, a) ==> !less(a, a);
    assert less(a, c) ==> !less(c, a);
  }

  lemma ComparatorsAreStrictWeakOrders()
    ensures StrictWeakOrder(LessByHeight)
    ensures StrictWeakOrder(LessByAccessCount)
    ensures StrictWeakOrder(LessByAccessTime)
    ensures StrictWeakOrder(LessByAccessCountThenHeight)
  {
  }

  lemma QuotientOf(x: int, d: nat)
    requires 0 < d && 0 < x + d && x < 2 * d
    ensures Quotient(x, d) == if x < d then 0 else 1
  {
    var q, r := x / d, x % d;
    assert x == q * d + r;
    if x >= 0 {
      assert q >= 2 ==> q * d >= 2 * d;
      assert q <= 0 ==> q * d <= 0;
    } else {
      var p := (-x) / d;
      assert -x == p * d + (-x) % d;
      assert p >= 1 ==> p * d >= d;
    }
  }

  lemma SmallQuotient(y: nat, d: nat)
    requires d > 0
    ensures y / d == 0 <==> y < d
  {
    var q, r := y / d, y % d;
    assert y == q * d + r;
    if q >= 1 {
      assert q * d >= d;
    }
  }

  lemma QuotientIsZero(x: int, d: nat)
    requires d > 0
    ensures Quotient(x, d) == 0 <==> -x < d && x < d
  {
    if x >= 0 {
      SmallQuotient(x, d);
    } else {
      SmallQuotient(-x, d);
    }
  }

  /** Accesses at least the resolution apart are told by their times, others by the counts. */
  lemma BinnedOrder(millisecondsBinned: nat, a: Entry, b: Entry)
    requires millisecondsBinned > 0
    ensures var apart := if a.accessTime < b.accessTime then b.accessTime - a.accessTime else a.accessTime - b.accessTime;
      LessByAccessTimeThenCount(millisecondsBinned, a, b) <==>
        if apart >= millisecondsBinned * 1_000_000 then a.accessTime < b.accessTime else a.accesses < b.accesses
  {
    var d: int := millisecondsBinned * 1_000_000;
    assert d > 0;
    QuotientIsZero(a.accessTime - b.accessTime, d);
  }

  /** The default comparator is not an order at any resolution: three blocks spaced by six tenths of it
      precede one another in a circle. */
  lemma DefaultComparatorCycles(millisecondsBinned: nat, s: BlockDataBasic)
    requires millisecondsBinned > 0
    ensures var less := (x, y) => LessByAccessTimeThenCount(millisecondsBinned, x, y);
      var step := 600_000 * millisecondsBinned;
      var a, b, c := Entry(s, 3, 0), Entry(s, 2, step), Entry(s, 1, 2 * step);
      less(c, b) && less(b, a) && less(a, c) && !StrictWeakOrder(less)
  {
    var less := (x, y) => LessByAccessTimeThenCount(millisecondsBinned, x, y);
    var step := 600_000 * millisecondsBinned;
    var a, b, c := Entry(s, 3, 0), Entry(s, 2, step), Entry(s, 1, 2 * step);
    var threshold := millisecondsBinned * NANOS_PER_MILLISECOND;
    QuotientOf(step, threshold);
    QuotientOf(2 * step, threshold);
    assert Quotient(-2 * step, threshold) == -Quotient(2 * step, threshold);
    assert less(c, b) && less(b, a) && less(a, c);
    if StrictWeakOrder(less) {
      StrictWeakOrderIsTransitive(less, c, b, a);
    }
  }
}
