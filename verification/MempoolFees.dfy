/** Ticket fees in the mempool: what Collect of mempool/mempool.go computes, and the cache of
    mempool/mempoolcache.go that serves it. Amounts are real numbers. */
module MempoolFees {
  import opened Options
  import opened SeqMultisets

  type positive = x: int | x > 0 witness 1

  /** A ticket purchase as getrawmempool reports it. */
  datatype Entry = Entry(hash: string, fee: real, size: positive, height: nat)

  datatype Ticket = Ticket(hash: string, fee: real, feeRate: real, size: positive, height: nat)

  datatype MinableFeeInfo = MinableFeeInfo(
    allFees: seq<real>, allFeeRates: seq<real>, lowestMineableIdx: int, lowestMineableFee: real, targetFeeWindow: seq<real>)

  datatype MempoolData = MempoolData(height: nat, mineableFees: MinableFeeInfo, allTicketsDetails: seq<Ticket>)

  const FEE_RAD := 5

  function TicketOf(e: Entry): Ticket {
    Ticket(e.hash, e.fee, e.fee / (e.size as real) * 1000.0, e.size, e.height)
  }

  function TicketsOf(entries: seq<Entry>): seq<Ticket> {
    if entries == [] then [] else TicketsOf(entries[..|entries| - 1]) + [TicketOf(entries[|entries| - 1])]
  }

  /** The ticket has the hash, fee, size and height of the entry, and a rate that is its fee per thousand bytes. */
  predicate StandsFor(t: Ticket, e: Entry) {
    && t.hash == e.hash && t.fee == e.fee && t.size == e.size && t.height == e.height
    && t.feeRate * (t.size as real) == 1000.0 * t.fee
  }

  lemma TicketStandsFor(e: Entry)
    ensures StandsFor(TicketOf(e), e)
  {
    var size := e.size as real;
    assert e.fee / size * 1000.0 * size == e.fee / size * size * 1000.0;
  }

  /** Every ticket of the mempool becomes one ticket that stands for it. */
  lemma {:induction false} TicketsAre(entries: seq<Entry>)
    ensures |TicketsOf(entries)| == |entries|
    ensures forall i :: 0 <= i < |entries| ==> StandsFor(TicketsOf(entries)[i], entries[i])
    decreases |entries|
  {
    hide StandsFor, TicketOf;
    if entries != [] {
      var n := |entries| - 1;
      TicketsAre(entries[..n]);
      TicketStandsFor(entries[n]);
    }
  }

  function Fees(tickets: seq<Ticket>): (r: seq<real>)
    ensures |r| == |tickets| && forall i :: 0 <= i < |r| ==> r[i] == tickets[i].fee
  {
    seq(|tickets|, i requires 0 <= i < |tickets| => tickets[i].fee)
  }

  function Rates(tickets: seq<Ticket>): (r: seq<real>)
    ensures |r| == |tickets| && forall i :: 0 <= i < |r| ==> r[i] == tickets[i].feeRate
  {
    seq(|tickets|, i requires 0 <= i < |tickets| => tickets[i].feeRate)
  }

  ghost predicate Ascending(a: seq<real>) {
    forall i, j :: 0 <= i <= j < |a| ==> a[i] <= a[j]
  }

  ghost predicate Permutation<T>(a: seq<T>, b: seq<T>) {
    multiset(a) == multiset(b)
  }

  // ---------------------------------------------------------------------------------------------
  // Sorting

  datatype Key = ByAbsoluteFee | ByFeeRate

  function KeyOf(key: Key, t: Ticket): real {
    if key.ByAbsoluteFee? then t.fee else t.feeRate
  }

  ghost predicate SortedBy(key: Key, tickets: seq<Ticket>) {
    forall i, j :: 0 <= i <= j < |tickets| ==> KeyOf(key, tickets[i]) <= KeyOf(key, tickets[j])
  }

  /** Stands for sort.Sort. Tickets with equal keys may come out in any order, so that no more than this
      contract is used. */
  method Sort(key: Key, tickets: seq<Ticket>) returns (r: seq<Ticket>)
    ensures SortedBy(key, r) && Permutation(r, tickets) && |r| == |tickets|
  {
    r := [];
    for n := 0 to |tickets|
      invariant SortedBy(key, r) && Permutation(r, tickets[..n]) && |r| == n
    {
      assert tickets[..n + 1] == tickets[..n] + [tickets[n]];
      r := Insert(key, r, tickets[n]);
    }
    assert tickets[..|tickets|] == tickets;
  }

  method Insert(key: Key, tickets: seq<Ticket>, t: Ticket) returns (r: seq<Ticket>)
    requires SortedBy(key, tickets)
    ensures SortedBy(key, r) && Permutation(r, tickets + [t]) && |r| == |tickets| + 1
  {
    hide SortedBy, KeyOf;
    var k := |tickets|;
    while k > 0 && KeyOf(key, t) < KeyOf(key, tickets[k - 1])
      invariant 0 <= k <= |tickets|
      invariant k < |tickets| ==> KeyOf(key, t) <= KeyOf(key, tickets[k])
    {
      k := k - 1;
    }
    r := tickets[..k] + [t] + tickets[k..];
    SplicePermutes(tickets, k, t);
    SpliceSorts(key, tickets, k, t);
  }

  lemma SpliceSorts(key: Key, tickets: seq<Ticket>, k: nat, t: Ticket)
    requires SortedBy(key, tickets) && k <= |tickets|
    requires k > 0 ==> KeyOf(key, tickets[k - 1]) <= KeyOf(key, t)
    requires k < |tickets| ==> KeyOf(key, t) <= KeyOf(key, tickets[k])
    ensures SortedBy(key, tickets[..k] + [t] + tickets[k..])
  {
    hide KeyOf;
  }

  lemma SplicePermutes<T>(s: seq<T>, k: nat, t: T)
    requires k <= |s|
    ensures multiset(s[..k] + [t] + s[k..]) == multiset(s + [t])
  {
    assert s == s[..k] + s[k..];
  }

  /** Sorted numbers are determined by which numbers they are: the order in which the mempool map is iterated
      and the ties of the sort leave no trace in the fees. */
  lemma {:induction false} AscendingIsUnique(a: seq<real>, b: seq<real>)
    requires Ascending(a) && Ascending(b) && Permutation(a, b)
    ensures a == b
    decreases |a|
  {
    SameLength(a, b);
    if a != [] {
      var n := |a| - 1;
      LastIsHighest(a, b);
      LastIsHighest(b, a);
      WithoutLast(a, b);
      hide Ascending, Permutation;
      AscendingIsUnique(a[..n], b[..n]);
      assert a == a[..n] + [a[n]] && b == b[..n] + [b[n]];
    }
  }

  lemma WithoutLast(a: seq<real>, b: seq<real>)
    requires Ascending(a) && Ascending(b) && Permutation(a, b) && |a| == |b| > 0 && a[|a| - 1] == b[|b| - 1]
    ensures Ascending(a[..|a| - 1]) && Ascending(b[..|b| - 1]) && Permutation(a[..|a| - 1], b[..|b| - 1])
  {
    var n := |a| - 1;
    DropLast(a, a, a[n]);
    DropLast(a, b, a[n]);
  }

  lemma LastIsHighest(a: seq<real>, b: seq<real>)
    requires Ascending(a) && Permutation(a, b) && a != [] && b != []
    ensures b[|b| - 1] <= a[|a| - 1]
  {
    assert b[|b| - 1] in multiset(b);
    assert b[|b| - 1] in a;
  }

  lemma SameLength<T>(a: seq<T>, b: seq<T>)
    requires Permutation(a, b)
    ensures |a| == |b|
  {
    assert |multiset(a)| == |a| && |multiset(b)| == |b|;
  }

  // ---------------------------------------------------------------------------------------------
  // Collect

  function Min(a: int, b: int): int {
    if a <= b then a else b
  }

  /** The tickets by fee rate, and their fees and rates in ascending order. */
  ghost predicate WellCollected(d: MempoolData, tickets: seq<Ticket>) {
    && Permutation(d.allTicketsDetails, tickets) && SortedBy(ByFeeRate, d.allTicketsDetails)
    && d.mineableFees.allFeeRates == Rates(d.allTicketsDetails)
    && Ascending(d.mineableFees.allFees) && exists byFee: seq<Ticket> :: FeesOf(d, tickets, byFee)
  }

  ghost predicate FeesOf(d: MempoolData, tickets: seq<Ticket>, byFee: seq<Ticket>) {
    Permutation(byFee, tickets) && d.mineableFees.allFees == Fees(byFee)
  }

  /** Exactly min(count, limit) tickets are at or above the mineable index, none of them below the fee there,
      and the window reaches five tickets to either side as far as there are any. */
  ghost predicate MineableExact(m: MinableFeeInfo, limit: nat) {
    var rates, idx := m.allFeeRates, m.lowestMineableIdx;
    if rates == [] then idx == -1 && m.lowestMineableFee == 0.0 && m.targetFeeWindow == []
    else
      && 0 <= idx < |rates| && |rates| - idx == Min(|rates|, limit)
      && m.lowestMineableFee == rates[idx]
      && (forall i :: 0 <= i < idx ==> rates[i] <= m.lowestMineableFee)
      && (forall i :: idx <= i < |rates| ==> rates[i] >= m.lowestMineableFee)
      && WindowAround(m.targetFeeWindow, rates, idx)
  }

  ghost predicate WindowAround(window: seq<real>, rates: seq<real>, idx: int) {
    exists low :: WindowFrom(window, rates, idx, low)
  }

  ghost predicate WindowFrom(window: seq<real>, rates: seq<real>, idx: int, low: int) {
    && 0 <= low <= idx < low + |window| <= |rates|
    && window == rates[low..low + |window|]
    && low == (if idx < FEE_RAD then 0 else idx - FEE_RAD)
    && low + |window| == (if idx + FEE_RAD >= |rates| then |rates| else idx + FEE_RAD + 1)
  }

  /** The window is the fees at most five places from the mineable index. */
  lemma WindowReachesFive(m: MinableFeeInfo, limit: nat)
    requires MineableExact(m, limit) && m.allFeeRates != []
    ensures var rates, idx, window := m.allFeeRates, m.lowestMineableIdx, m.targetFeeWindow;
      && |window| == Min(5, idx) + 1 + Min(5, |rates| - 1 - idx)
      && forall i :: idx - 5 <= i <= idx + 5 && 0 <= i < |rates| ==> window[i - (idx - Min(5, idx))] == rates[i]
  {
    var low :| WindowFrom(m.targetFeeWindow, m.allFeeRates, m.lowestMineableIdx, low);
  }

  /** Collect, given what the node reports. It indexes out of range exactly when the limit per block is zero. */
  method Collect(mempoolTickets: seq<Entry>, limit: nat, height: nat) returns (r: Option<MempoolData>)
    ensures r.None? <==> limit == 0
    ensures r.Some? ==> WellCollected(r.value, TicketsOf(mempoolTickets)) && r.value.height == height
    ensures r.Some? ==> MineableExact(r.value.mineableFees, limit)
  {
    var N := |mempoolTickets|;
    var allTicketsDetails: seq<Ticket> := [];
    for i := 0 to N
      invariant allTicketsDetails == TicketsOf(mempoolTickets[..i]) && |allTicketsDetails| == i
    {
      assert mempoolTickets[..i + 1][..i] == mempoolTickets[..i];
      allTicketsDetails := allTicketsDetails + [TicketOf(mempoolTickets[i])];
    }
    assert mempoolTickets[..N] == mempoolTickets;
    allTicketsDetails := Sort(ByAbsoluteFee, allTicketsDetails);
    ghost var byFee := allTicketsDetails;
    var allFees := Fees(allTicketsDetails);
    allTicketsDetails := Sort(ByFeeRate, allTicketsDetails);
    var allFeeRates := Rates(allTicketsDetails);
    var mineables := Mineable(allFees, allFeeRates, limit);
    if mineables.None? {
      return None;
    }
    var data := MempoolData(height, mineables.value, allTicketsDetails);
    assert FeesOf(data, TicketsOf(mempoolTickets), byFee);
    r := Some(data);
  }

  /** The mineable index and the fee window. */
  method Mineable(allFees: seq<real>, allFeeRates: seq<real>, limit: nat) returns (m: Option<MinableFeeInfo>)
    requires Ascending(allFeeRates)
    ensures m.None? <==> limit == 0
    ensures m.Some? ==> m.value.allFees == allFees && m.value.allFeeRates == allFeeRates && MineableExact(m.value, limit)
  {
    var N := |allFeeRates|;
    var lowestMineableFee := 0.0;
    var lowestMineableIdx := -1;
    if N >= limit {
      lowestMineableIdx := N - limit;
      if lowestMineableIdx >= N {
        return None;
      }
      lowestMineableFee := allFeeRates[lowestMineableIdx];
    } else if N != 0 {
      lowestMineableIdx := 0;
      lowestMineableFee := allFeeRates[0];
    }
    var targetFeeWindow: seq<real> := [];
    if N > 0 {
      var lowEnd := lowestMineableIdx - FEE_RAD;
      if lowEnd < 0 {
        lowEnd := 0;
      }
      var highEnd := lowestMineableIdx + FEE_RAD + 1;
      if highEnd > N {
        highEnd := N;
      }
      targetFeeWindow := allFeeRates[lowEnd..highEnd];
      assert WindowFrom(targetFeeWindow, allFeeRates, lowestMineableIdx, lowEnd);
    }
    m := Some(MinableFeeInfo(allFees, allFeeRates, lowestMineableIdx, lowestMineableFee, targetFeeWindow));
  }

  // ---------------------------------------------------------------------------------------------
  // The cache

  /** How many of `count` values a request for n gets. */
  function Wanted(count: nat, n: int): nat {
    if n < 0 || n >= count then count else n
  }

  /** r are the n largest of all, or all if n is negative or too big, in ascending order. */
  ghost predicate Largest(r: seq<real>, all: seq<real>, n: int) {
    && |r| == Wanted(|all|, n) && Ascending(r)
    && exists rest: seq<real> :: Completes(r, rest, all)
  }

  /** Together they are all the values, and none of the rest is above any of r. */
  ghost predicate Completes(r: seq<real>, rest: seq<real>, all: seq<real>) {
    multiset(r) + multiset(rest) == multiset(all) && forall x, y :: x in rest && y in r ==> x <= y
  }

  lemma SuffixIsLargest(all: seq<real>, n: int)
    requires Ascending(all)
    ensures Largest(all[|all| - Wanted(|all|, n)..], all, n)
  {
    var k := |all| - Wanted(|all|, n);
    assert all == all[..k] + all[k..];
    assert Completes(all[k..], all[..k], all);
  }

  class MempoolDataCache {
    var height: nat
    var allFees: seq<real>
    var allFeeRates: seq<real>
    var lowestMineableByFeeRate: real
    var allTicketsDetails: seq<Ticket>

    ghost predicate Valid()
      reads this
    {
      && Ascending(allFees) && SortedBy(ByFeeRate, allTicketsDetails)
      && allFeeRates == Rates(allTicketsDetails)
    }

    constructor ()
      ensures Valid() && allTicketsDetails == [] && allFees == []
    {
      height, lowestMineableByFeeRate := 0, 0.0;
      allFees, allFeeRates, allTicketsDetails := [], [], [];
    }

    method StoreMPData(data: MempoolData, ghost tickets: seq<Ticket>)
      requires WellCollected(data, tickets)
      modifies this
      ensures Valid() && height == data.height && allTicketsDetails == data.allTicketsDetails
      ensures allFees == data.mineableFees.allFees && allFeeRates == data.mineableFees.allFeeRates
      ensures lowestMineableByFeeRate == data.mineableFees.lowestMineableFee
    {
      height := data.height;
      allFees := data.mineableFees.allFees;
      allFeeRates := data.mineableFees.allFeeRates;
      lowestMineableByFeeRate := data.mineableFees.lowestMineableFee;
      allTicketsDetails := data.allTicketsDetails;
    }

    method GetFees(N: int) returns (h: nat, numFees: nat, fees: seq<real>)
      requires Valid()
      ensures h == height && numFees == |allFees| && Largest(fees, allFees, N)
      ensures if 0 <= N < numFees then |fees| == N else fees == allFees
    {
      numFees := |allFees|;
      SuffixIsLargest(allFees, N);
      assert allFees[numFees - numFees..] == allFees && allFees[numFees..] == [];
      fees := [];
      if N == 0 {
        return height, numFees, fees;
      }
      if N < 0 || N >= numFees {
        fees := allFees;
      } else {
        var smallestFeeInd := numFees - N;
        fees := allFees[smallestFeeInd..];
      }
      h := height;
    }

    method GetFeeRates(N: int) returns (h: nat, numFees: nat, fees: seq<real>)
      requires Valid()
      ensures h == height && numFees == |allFeeRates| && Largest(fees, allFeeRates, N)
      ensures if 0 <= N < numFees then |fees| == N else fees == allFeeRates
      ensures fees == allFeeRates[|allFeeRates| - Wanted(|allFeeRates|, N)..]
    {
      numFees := |allFeeRates|;
      assert Ascending(allFeeRates);
      SuffixIsLargest(allFeeRates, N);
      assert allFeeRates[numFees - numFees..] == allFeeRates && allFeeRates[numFees..] == [];
      fees := [];
      if N == 0 {
        return height, numFees, fees;
      }
      if N < 0 || N >= numFees {
        fees := allFeeRates;
      } else {
        var smallestFeeInd := numFees - N;
        fees := allFeeRates[smallestFeeInd..];
      }
      h := height;
    }

    /** The details of the tickets with the largest rates, in line with what GetFeeRates returns. */
    method GetTicketsDetails(N: int) returns (h: nat, numSSTx: nat, details: seq<Ticket>)
      requires Valid()
      ensures h == height && numSSTx == |allTicketsDetails| && Largest(Rates(details), allFeeRates, N)
      ensures if 0 <= N < numSSTx then |details| == N else details == allTicketsDetails
      ensures Rates(details) == allFeeRates[|allFeeRates| - Wanted(|allFeeRates|, N)..]
      ensures details == allTicketsDetails[|allTicketsDetails| - Wanted(|allTicketsDetails|, N)..]
    {
      numSSTx := |allTicketsDetails|;
      assert Ascending(allFeeRates);
      SuffixIsLargest(allFeeRates, N);
      details := [];
      if N == 0 {
        assert Rates(details) == allFeeRates[numSSTx..];
        return height, numSSTx, details;
      }
      if N < 0 || N >= numSSTx {
        details := allTicketsDetails;
        assert Rates(details) == allFeeRates[numSSTx - numSSTx..];
      } else {
        var smallestFeeInd := numSSTx - N;
        details := allTicketsDetails[smallestFeeInd..];
        assert Rates(details) == allFeeRates[smallestFeeInd..];
      }
      h := height;
    }
  }
}
