/** The two SQLite tables of db/hcsqlite/sqlite.go, keyed by height, and the cached best heights. */
module SqlTables {
  import opened Options
  import opened StakeChain
  import opened StakeStore

  /** A row, of either table: the block it was made from, and the ticket pool info put with it. */
  datatype Row = Row(block: Block, pool: TicketPoolInfo)

  datatype Tables = Tables(summaries: map<int, Row>, stakeInfo: map<int, Row>, summaryHeight: int, stakeHeight: int)

  ghost predicate IsHighest(keys: set<int>, h: int) {
    if keys == {} then h == -1 else h in keys && forall k <- keys :: k <= h
  }

  ghost predicate Keyed(table: map<int, Row>) {
    forall h :: h in table ==> h >= 0 && table[h].block.Height() == h
  }

  /** The cached heights are those of the highest rows. */
  ghost predicate TablesOk(t: Tables) {
    && Keyed(t.summaries) && Keyed(t.stakeInfo)
    && IsHighest(t.summaries.Keys, t.summaryHeight)
    && IsHighest(t.stakeInfo.Keys, t.stakeHeight)
  }

  /** INSERT OR REPLACE, and the cached height raised if need be. */
  function StoreSummary(t: Tables, r: Row): Tables {
    var h := r.block.Height();
    t.(summaries := t.summaries[h := r], summaryHeight := if h > t.summaryHeight then h else t.summaryHeight)
  }

  function StoreStakeInfo(t: Tables, r: Row): Tables {
    var h := r.block.Height();
    t.(stakeInfo := t.stakeInfo[h := r], stakeHeight := if h > t.stakeHeight then h else t.stakeHeight)
  }

  function StoreBoth(t: Tables, r: Row): Tables {
    StoreStakeInfo(StoreSummary(t, r), r)
  }

  lemma HighestAfter(keys: set<int>, top: int, h: int)
    requires IsHighest(keys, top) && h >= 0
    ensures IsHighest(keys + {h}, if h > top then h else top)
  {
    assert h in keys + {h};
  }

  lemma StoreKeepsOk(t: Tables, r: Row)
    requires TablesOk(t)
    ensures TablesOk(StoreSummary(t, r)) && TablesOk(StoreStakeInfo(t, r)) && TablesOk(StoreBoth(t, r))
  {
    var h := r.block.Height();
    HighestAfter(t.summaries.Keys, t.summaryHeight, h);
    HighestAfter(t.stakeInfo.Keys, t.stakeHeight, h);
    assert t.summaries[h := r].Keys == t.summaries.Keys + {h};
    assert t.stakeInfo[h := r].Keys == t.stakeInfo.Keys + {h};
    hide IsHighest;
  }

  lemma SomeMember<T>(s: set<T>) returns (x: T)
    requires s != {}
    ensures x in s
  {
    x :| x in s;
  }

  /** SELECT ... ORDER BY height DESC LIMIT 1, or -1 if there is no row. */
  method HighestKey(table: map<int, Row>) returns (height: int)
    requires Keyed(table)
    ensures IsHighest(table.Keys, height)
  {
    height := -1;
    var rest := table.Keys;
    while rest != {}
      invariant rest <= table.Keys
      invariant height == -1 || height in table
      invariant forall k :: k in table && k !in rest ==> k <= height
      decreases |rest|
    {
      ghost var some := SomeMember(rest);
      var k :| k in rest;
      if k > height {
        height := k;
      }
      rest := rest - {k};
    }
    if table.Keys != {} {
      ghost var some := SomeMember(table.Keys);
    }
  }

  class SqlDb {
    var summaries: map<int, Row>
    var stakeInfo: map<int, Row>
    var dbSummaryHeight: int
    var dbStakeInfoHeight: int

    ghost function State(): Tables
      reads this
    {
      Tables(summaries, stakeInfo, dbSummaryHeight, dbStakeInfoHeight)
    }

    ghost predicate Valid()
      reads this
    {
      TablesOk(State())
    }

    /** NewDB, on the tables found in the file. */
    constructor (summaries: map<int, Row>, stakeInfo: map<int, Row>)
      requires Keyed(summaries) && Keyed(stakeInfo)
      ensures Valid() && this.summaries == summaries && this.stakeInfo == stakeInfo
    {
      this.summaries, this.stakeInfo := summaries, stakeInfo;
      dbSummaryHeight, dbStakeInfoHeight := -1, -1;
      new;
      dbSummaryHeight := HighestKey(summaries);
      dbStakeInfoHeight := HighestKey(stakeInfo);
    }

    method StoreBlockSummary(bd: Row)
      requires Valid()
      modifies this`summaries, this`dbSummaryHeight
      ensures Valid() && State() == StoreSummary(old(State()), bd)
    {
      StoreKeepsOk(State(), bd);
      var height := bd.block.Height();
      summaries := summaries[height := bd];
      if height > dbSummaryHeight {
        dbSummaryHeight := height;
      }
    }

    method StoreStakeInfoExtended(si: Row)
      requires Valid()
      modifies this`stakeInfo, this`dbStakeInfoHeight
      ensures Valid() && State() == StoreStakeInfo(old(State()), si)
    {
      StoreKeepsOk(State(), si);
      var height := si.block.Height();
      stakeInfo := stakeInfo[height := si];
      if height > dbStakeInfoHeight {
        dbStakeInfoHeight := height;
      }
    }

    /** The query below a negative cached height finds nothing, and the cached height is right. */
    method GetBlockSummaryHeight() returns (height: int)
      requires Valid()
      modifies this`dbSummaryHeight
      ensures State() == old(State()) && height == dbSummaryHeight && IsHighest(summaries.Keys, height)
    {
      if dbSummaryHeight < 0 {
        dbSummaryHeight := HighestKey(summaries);
      }
      height := dbSummaryHeight;
    }

    method GetStakeInfoHeight() returns (height: int)
      requires Valid()
      modifies this`dbStakeInfoHeight
      ensures State() == old(State()) && height == dbStakeInfoHeight && IsHighest(stakeInfo.Keys, height)
    {
      if dbStakeInfoHeight < 0 {
        dbStakeInfoHeight := HighestKey(stakeInfo);
      }
      height := dbStakeInfoHeight;
    }

    method GetBestBlockSummary() returns (bd: Option<Row>)
      requires Valid()
      modifies this`dbSummaryHeight
      ensures State() == old(State())
      ensures bd.None? <==> summaries == map[]
      ensures bd.Some? ==> bd.value in summaries.Values && forall h :: h in summaries ==> h <= bd.value.block.Height()
      ensures bd == if dbSummaryHeight in summaries then Some(summaries[dbSummaryHeight]) else None
    {
      var dbBlkHeight := GetBlockSummaryHeight();
      if dbBlkHeight !in summaries {
        assert summaries.Keys == {} ==> summaries == map[];
        return None;
      }
      assert summaries[dbBlkHeight] in summaries.Values;
      return Some(summaries[dbBlkHeight]);
    }
  }
}
