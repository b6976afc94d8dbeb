/** Blocks, the stake transactions in them, and the stake node that a chain of blocks leads to. */
module StakeChain {
  import opened SeqMultisets
  import opened Subsequences

  newtype TxHash = x: int | 0 <= x

  /** The stake transactions of a block, as stake.DetermineTxType tells them apart. */
  datatype STx =
    | Ticket(hash: TxHash)
    | Vote(spends: TxHash)
    | Revocation(revokes: TxHash)
    | OtherStake

  /** A block together with its ancestry. A block hash commits to the header, and the header to the hash of
      the parent, so that with injective hashing a hash stands for exactly one value of this type; it is
      used wherever the source passes a hash, and GetBlock by hash is the identity. */
  datatype Block =
    | Genesis(stx: seq<STx>)
    | Child(prev: Block, height: nat, stx: seq<STx>, nonce: int)
  {
    function Height(): nat {
      if Genesis? then 0 else height
    }

    /** Headers count heights correctly, as the node has checked. */
    predicate WellFormed() {
      Child? ==> prev.WellFormed() && height == prev.Height() + 1
    }
  }

  lemma {:induction false} HeightsArePositive(b: Block)
    requires b.WellFormed()
    ensures b.Child? <==> b.Height() >= 1
  {
    if b.Child? {
      HeightsArePositive(b.prev);
    }
  }

  /** The block at height h on the chain that ends in b. */
  function Ancestor(b: Block, h: int): (a: Block)
    requires b.WellFormed() && 0 <= h <= b.Height()
    ensures a.WellFormed() && a.Height() == h
    decreases b
  {
    if b.Height() == h then b else Ancestor(b.prev, h)
  }

  predicate OnChain(a: Block, tip: Block)
    requires tip.WellFormed()
  {
    0 <= a.Height() <= tip.Height() && Ancestor(tip, a.Height()) == a
  }

  lemma {:induction false} AncestorTwice(b: Block, h: int, k: int)
    requires b.WellFormed() && 0 <= k <= h <= b.Height()
    ensures Ancestor(Ancestor(b, h), k) == Ancestor(b, k)
  {
    if b.Height() != h {
      AncestorTwice(b.prev, h, k);
    }
  }

  // ---------------------------------------------------------------------------------------------
  // Tickets in a block: txhelpers/staketree.go

  /** The hashes that `pick` takes from stake transactions, in order. */
  function TicketsIn(stx: seq<STx>): seq<TxHash> {
    if stx == [] then []
    else TicketsIn(stx[..|stx| - 1]) + (var t := stx[|stx| - 1]; if t.Ticket? then [t.hash] else [])
  }

  function SpentIn(stx: seq<STx>): seq<TxHash> {
    if stx == [] then []
    else SpentIn(stx[..|stx| - 1]) + (var t := stx[|stx| - 1]; if t.Vote? then [t.spends] else [])
  }

  function RevokedIn(stx: seq<STx>): seq<TxHash> {
    if stx == [] then []
    else RevokedIn(stx[..|stx| - 1]) + (var t := stx[|stx| - 1]; if t.Revocation? then [t.revokes] else [])
  }

  lemma {:induction false} TicketsInMembers(stx: seq<STx>, h: TxHash)
    ensures h in TicketsIn(stx) <==> Ticket(h) in stx
    ensures h in SpentIn(stx) <==> Vote(h) in stx
    ensures h in RevokedIn(stx) <==> Revocation(h) in stx
    decreases |stx|
  {
    if stx != [] {
      var rest, last := stx[..|stx| - 1], stx[|stx| - 1];
      TicketsInMembers(rest, h);
      assert stx == rest + [last];
    }
  }

  /** Each transaction counts once, as what it is. */
  lemma {:induction false} TicketsCounted(stx: seq<STx>, h: TxHash)
    ensures multiset(TicketsIn(stx))[h] == multiset(stx)[Ticket(h)]
    ensures multiset(SpentIn(stx))[h] == multiset(stx)[Vote(h)]
    ensures multiset(RevokedIn(stx))[h] == multiset(stx)[Revocation(h)]
    decreases |stx|
  {
    if stx != [] {
      var rest, last := stx[..|stx| - 1], stx[|stx| - 1];
      TicketsCounted(rest, h);
      CountLast(stx, Ticket(h));
      CountLast(stx, Vote(h));
      CountLast(stx, Revocation(h));
      CountJoined(TicketsIn(rest), if last.Ticket? then [last.hash] else [], h);
      CountJoined(SpentIn(rest), if last.Vote? then [last.spends] else [], h);
      CountJoined(RevokedIn(rest), if last.Revocation? then [last.revokes] else [], h);
    }
  }

  predicate IsTicket(t: STx) {
    t.Ticket?
  }

  function AsTicket(h: TxHash): STx {
    Ticket(h)
  }

  predicate IsVote(t: STx) {
    t.Vote?
  }

  function AsVote(h: TxHash): STx {
    Vote(h)
  }

  predicate IsRevocation(t: STx) {
    t.Revocation?
  }

  function AsRevocation(h: TxHash): STx {
    Revocation(h)
  }

  /** TicketsIn lists the purchases in the order of the block, each once and nothing else. */
  lemma {:induction false} TicketsPicked(stx: seq<STx>)
    ensures Picked(stx, IsTicket, TicketsIn(stx), AsTicket)
    decreases |stx|
  {
    if stx == [] {
      PickedNone(IsTicket, AsTicket);
    } else {
      var rest, last := stx[..|stx| - 1], stx[|stx| - 1];
      TicketsPicked(rest);
      assert stx == rest + [last];
      if last.Ticket? {
        PickedTakes(rest, IsTicket, TicketsIn(rest), AsTicket, last, last.hash);
      } else {
        PickedSkips(rest, IsTicket, TicketsIn(rest), AsTicket, last);
        assert TicketsIn(stx) == TicketsIn(rest);
      }
    }
  }

  /** So does SpentIn for the tickets of the votes ... */
  lemma {:induction false} SpentPicked(stx: seq<STx>)
    ensures Picked(stx, IsVote, SpentIn(stx), AsVote)
    decreases |stx|
  {
    if stx == [] {
      PickedNone(IsVote, AsVote);
    } else {
      var rest, last := stx[..|stx| - 1], stx[|stx| - 1];
      SpentPicked(rest);
      assert stx == rest + [last];
      if last.Vote? {
        PickedTakes(rest, IsVote, SpentIn(rest), AsVote, last, last.spends);
      } else {
        PickedSkips(rest, IsVote, SpentIn(rest), AsVote, last);
        assert SpentIn(stx) == SpentIn(rest);
      }
    }
  }

  /** ... and RevokedIn for those of the revocations. */
  lemma {:induction false} RevokedPicked(stx: seq<STx>)
    ensures Picked(stx, IsRevocation, RevokedIn(stx), AsRevocation)
    decreases |stx|
  {
    if stx == [] {
      PickedNone(IsRevocation, AsRevocation);
    } else {
      var rest, last := stx[..|stx| - 1], stx[|stx| - 1];
      RevokedPicked(rest);
      assert stx == rest + [last];
      if last.Revocation? {
        PickedTakes(rest, IsRevocation, RevokedIn(rest), AsRevocation, last, last.revokes);
      } else {
        PickedSkips(rest, IsRevocation, RevokedIn(rest), AsRevocation, last);
        assert RevokedIn(stx) == RevokedIn(rest);
      }
    }
  }

  method TicketsInBlock(bl: Block) returns (tickets: seq<TxHash>)
    ensures tickets == TicketsIn(bl.stx)
    ensures Picked(bl.stx, IsTicket, tickets, AsTicket)
  {
    tickets := [];
    for i := 0 to |bl.stx|
      invariant tickets == TicketsIn(bl.stx[..i])
    {
      assert bl.stx[..i + 1][..i] == bl.stx[..i];
      if bl.stx[i].Ticket? {
        tickets := tickets + [bl.stx[i].hash];
      }
    }
    assert bl.stx[..|bl.stx|] == bl.stx;
    TicketsPicked(bl.stx);
  }

  method TicketsSpentInBlock(bl: Block) returns (tickets: seq<TxHash>)
    ensures tickets == SpentIn(bl.stx)
    ensures Picked(bl.stx, IsVote, tickets, AsVote)
  {
    tickets := [];
    for i := 0 to |bl.stx|
      invariant tickets == SpentIn(bl.stx[..i])
    {
      assert bl.stx[..i + 1][..i] == bl.stx[..i];
      if bl.stx[i].Vote? {
        tickets := tickets + [bl.stx[i].spends];
      }
    }
    assert bl.stx[..|bl.stx|] == bl.stx;
    SpentPicked(bl.stx);
  }

  method RevokedTicketsInBlock(bl: Block) returns (tickets: seq<TxHash>)
    ensures tickets == RevokedIn(bl.stx)
    ensures Picked(bl.stx, IsRevocation, tickets, AsRevocation)
  {
    tickets := [];
    for i := 0 to |bl.stx|
      invariant tickets == RevokedIn(bl.stx[..i])
    {
      assert bl.stx[..i + 1][..i] == bl.stx[..i];
      if bl.stx[i].Revocation? {
        tickets := tickets + [bl.stx[i].revokes];
      }
    }
    assert bl.stx[..|bl.stx|] == bl.stx;
    RevokedPicked(bl.stx);
  }

  // ---------------------------------------------------------------------------------------------
  // The stake node

  /** A stake.Node, told as the calls of ConnectNode that made it. Whatever the library computes is a
      function of these calls, and DisconnectNode returns to the node before the last of them. */
  datatype Node =
    | Initial
    | Connected(parent: Node, header: Block, spent: seq<TxHash>, revoked: seq<TxHash>, maturing: seq<TxHash>)
  {
    function Height(): nat {
      if Initial? then 0 else parent.Height() + 1
    }
  }

  /** What the library and the node are asked about: the live tickets of a stake node, and the price of a
      ticket (the value of its first output). */
  datatype Library = Library(live: Node -> seq<TxHash>, price: TxHash -> int)

  /** The tickets that mature in block b come from its own ancestor. */
  function Maturing(b: Block, maturity: nat): seq<TxHash>
    requires b.WellFormed()
  {
    var h := b.Height() - maturity;
    if h >= 0 then TicketsIn(Ancestor(b, h).stx) else []
  }

  /** The stake node at block b: every block of its chain connected in order. */
  function Replay(b: Block, maturity: nat): (n: Node)
    requires b.WellFormed()
    ensures n.Height() == b.Height()
  {
    if b.Genesis? then Initial
    else Connected(Replay(b.prev, maturity), b, SpentIn(b.stx), RevokedIn(b.stx), Maturing(b, maturity))
  }

  datatype TicketPoolInfo = TicketPoolInfo(size: nat, value: real, valAvg: real)

  const ATOMS_PER_COIN: real := 100_000_000.0

  function Sum(price: TxHash -> int, tickets: seq<TxHash>): int {
    if tickets == [] then 0
    else Sum(price, tickets[..|tickets| - 1]) + price(tickets[|tickets| - 1])
  }

  lemma {:induction false} SumJoined(price: TxHash -> int, a: seq<TxHash>, b: seq<TxHash>)
    ensures Sum(price, a + b) == Sum(price, a) + Sum(price, b)
    decreases |b|
  {
    if b == [] {
      assert a + b == a;
    } else {
      var n := |b| - 1;
      assert (a + b)[..|a + b| - 1] == a + b[..n];
      SumJoined(price, a, b[..n]);
    }
  }

  lemma SumOfOne(price: TxHash -> int, h: TxHash)
    ensures Sum(price, [h]) == price(h)
  {
    assert [h][..0] == [];
    assert Sum(price, [h][..0]) == 0;
  }

  lemma SumWithout(price: TxHash -> int, tickets: seq<TxHash>, k: nat)
    requires k < |tickets|
    ensures Sum(price, tickets) == Sum(price, Without(tickets, k)) + price(tickets[k])
  {
    hide Sum;
    var a, b := tickets[..k], tickets[k + 1..];
    assert tickets == (a + [tickets[k]]) + b;
    SumJoined(price, a + [tickets[k]], b);
    SumJoined(price, a, [tickets[k]]);
    SumJoined(price, a, b);
    SumOfOne(price, tickets[k]);
  }

  /** A sum of prices does not depend on the order of the tickets. */
  lemma {:induction false} SumOfSame(price: TxHash -> int, a: seq<TxHash>, b: seq<TxHash>)
    requires multiset(a) == multiset(b)
    ensures Sum(price, a) == Sum(price, b)
    decreases |a|
  {
    hide Sum, Without;
    if a == [] {
      NoneLeft(b);
    } else {
      assert a[0] in multiset(a);
      var k := IndexOf(b, a[0]);
      RemoveSame(a, b, 0, k);
      SumOfSame(price, Without(a, 0), Without(b, k));
      SumWithout(price, a, 0);
      SumWithout(price, b, k);
    }
  }

  /** The pool size and value at a stake node. */
  function PoolInfoOf(lib: Library, node: Node): TicketPoolInfo {
    var tickets := lib.live(node);
    var coin := Sum(lib.price, tickets) as real / ATOMS_PER_COIN;
    TicketPoolInfo(|tickets|, coin, if |tickets| > 0 then coin / (|tickets| as real) else 0.0)
  }

  /** The size is the number of live tickets, the value their prices in coins, and the average times the size
      is the value. */
  lemma PoolInfoIs(lib: Library, node: Node)
    ensures var info := PoolInfoOf(lib, node);
      && info.size == |lib.live(node)|
      && info.value * 100_000_000.0 == Sum(lib.price, lib.live(node)) as real
      && info.valAvg * info.size as real == info.value
      && (info.size == 0 ==> info.valAvg == 0.0)
  {
    var tickets := lib.live(node);
    if tickets == [] {
      assert Sum(lib.price, tickets) == 0;
    }
  }
}
