/** The volume-history collection: trade logs in, keyed records stored, windows aggregated per account.

    Amounts are numbers rather than decimal text, and a record's key is the pair of transaction hash and log index. */
module VolumeLedger {
  import opened Wrappers
  import opened Seqs
  import opened Sums
  import opened AccountStats
  import opened SortedSlice

  const TOPIC_TOKEN_PURCHASE: nat := 0xcd60aa75dea3072fbc07ae6d7d856b5dc5f4eee88854f5b4abf7b680ef8bc50f
  const TOPIC_ETH_PURCHASE: nat := 0x7f4091b46c33e918a0f3aa42307641d17bb67029427a5369e54b353984238705
  const TWO_TO_THE_160: nat := 0x1_0000000000_0000000000_0000000000_0000000000

  /** An event log; topics are 32-byte words. */
  datatype Log = Log(address: nat, topics: seq<nat>, removed: bool)
  datatype Receipt = Receipt(status: nat, logs: seq<Log>)
  datatype Transaction = Transaction(hash: nat, blockNumber: nat, timestamp: nat, receipt: Option<Receipt>)

  /** The exchange configuration and whether only accounts are synced, both fixed during a run. */
  datatype Config = Config(scanAllExchange: bool, configured: set<nat>, allExchanges: set<nat>, onlySyncAccount: bool) {
    predicate IsExcludedRewardAccount(account: nat)
    {
      account == 0 || account in configured || account in allExchanges
    }
  }

  datatype LogType = TokenPurchase | EthPurchase

  /** `MgoVolumeHistory`. */
  datatype Record = Record(exchange: nat, account: nat, coinAmount: nat, tokenAmount: nat,
                           blockNumber: nat, timestamp: nat, txHash: nat, logType: LogType, logIndex: nat) {
    function Key(): (nat, nat)
    {
      (txHash, logIndex)
    }
  }

  function AddressOf(topic: nat): nat
  {
    topic % TWO_TO_THE_160
  }

  /** The volume record a log gives rise to, if any: a trade on a watched exchange whose buyer is not an exchange,
      unless only accounts are synced. */
  function RecordOf(tx: Transaction, log: Log, logIndex: nat, cfg: Config): Option<Record>
  {
    if |log.topics| == 0 || log.removed then None
    else if log.topics[0] != TOPIC_TOKEN_PURCHASE && log.topics[0] != TOPIC_ETH_PURCHASE then None
    else if !cfg.scanAllExchange && log.address !in cfg.configured then None
    else if |log.topics| < 4 || cfg.onlySyncAccount || AddressOf(log.topics[1]) in cfg.allExchanges then None
    else if log.topics[0] == TOPIC_TOKEN_PURCHASE then
      Some(Record(log.address, AddressOf(log.topics[1]), log.topics[2], log.topics[3],
                  tx.blockNumber, tx.timestamp, tx.hash, TokenPurchase, logIndex))
    else
      Some(Record(log.address, AddressOf(log.topics[1]), log.topics[3], log.topics[2],
                  tx.blockNumber, tx.timestamp, tx.hash, EthPurchase, logIndex))
  }

  function Logs(tx: Transaction): seq<Log>
  {
    if tx.receipt.Some? && tx.receipt.value.status != 0 then tx.receipt.value.logs else []
  }

  /** The records of the first `n` logs of a transaction, in order. */
  function RecordsUpTo(tx: Transaction, cfg: Config, n: nat): seq<Record>
    requires n <= |Logs(tx)|
  {
    if n == 0 then []
    else
      var record := RecordOf(tx, Logs(tx)[n - 1], n - 1, cfg);
      RecordsUpTo(tx, cfg, n - 1) + if record.Some? then [record.value] else []
  }

  function RecordsOf(tx: Transaction, cfg: Config): seq<Record>
  {
    RecordsUpTo(tx, cfg, |Logs(tx)|)
  }

  /** A record is there exactly for the log index it names, with the contents that log gives it. */
  lemma {:induction false} RecordsAreLogs(tx: Transaction, cfg: Config, n: nat, r: Record)
    requires n <= |Logs(tx)|
    ensures r in RecordsUpTo(tx, cfg, n) <==>
            r.logIndex < n && RecordOf(tx, Logs(tx)[r.logIndex], r.logIndex, cfg) == Some(r)
  {
    if n > 0 {
      RecordsAreLogs(tx, cfg, n - 1, r);
    }
  }

  /** A log gives a record if and only if it is a whole, lasting trade log of a watched exchange whose buyer is not an
      exchange; the record's contents follow from the log and its transaction alone. */
  lemma RecordIs(tx: Transaction, log: Log, logIndex: nat, cfg: Config)
    ensures
      var t := log.topics;
      RecordOf(tx, log, logIndex, cfg).Some? <==>
      && |t| >= 4 && !log.removed && (t[0] == TOPIC_TOKEN_PURCHASE || t[0] == TOPIC_ETH_PURCHASE)
      && (cfg.scanAllExchange || log.address in cfg.configured)
      && t[1] % TWO_TO_THE_160 !in cfg.allExchanges && !cfg.onlySyncAccount
    ensures RecordOf(tx, log, logIndex, cfg).Some? ==>
              IsTrade(RecordOf(tx, log, logIndex, cfg).value, tx, log.address, log.topics, logIndex)
  {
  }

  /** What a record of a trade holds: a purchase of coins lists tokens first. */
  predicate IsTrade(r: Record, tx: Transaction, exchange: nat, topics: seq<nat>, logIndex: nat)
    requires |topics| >= 4
  {
    && r.exchange == exchange && r.account == topics[1] % TWO_TO_THE_160 && r.logIndex == logIndex
    && r.blockNumber == tx.blockNumber && r.timestamp == tx.timestamp && r.txHash == tx.hash
    && (topics[0] == TOPIC_ETH_PURCHASE ==>
          r.logType == EthPurchase && r.coinAmount == topics[3] && r.tokenAmount == topics[2])
    && (topics[0] == TOPIC_TOKEN_PURCHASE ==>
          r.logType == TokenPurchase && r.coinAmount == topics[2] && r.tokenAmount == topics[3])
  }

  /** Exactly the records a transaction writes, from its receipt alone. */
  lemma RecordsAre(tx: Transaction, cfg: Config, r: Record)
    ensures r in RecordsOf(tx, cfg) <==>
            && tx.receipt.Some? && tx.receipt.value.status != 0
            && r.logIndex < |tx.receipt.value.logs|
            && var log := tx.receipt.value.logs[r.logIndex];
               && |log.topics| >= 4 && !log.removed
               && (log.topics[0] == TOPIC_TOKEN_PURCHASE || log.topics[0] == TOPIC_ETH_PURCHASE)
               && (cfg.scanAllExchange || log.address in cfg.configured)
               && log.topics[1] % TWO_TO_THE_160 !in cfg.allExchanges && !cfg.onlySyncAccount
               && IsTrade(r, tx, log.address, log.topics, r.logIndex)
  {
    RecordsAreLogs(tx, cfg, |Logs(tx)|, r);
    if r.logIndex < |Logs(tx)| {
      RecordIs(tx, Logs(tx)[r.logIndex], r.logIndex, cfg);
    }
  }

  /** They are written in the order of the logs, each once. */
  lemma {:induction false} RecordsOrdered(tx: Transaction, cfg: Config, n: nat)
    requires n <= |Logs(tx)|
    ensures forall i :: 0 <= i < |RecordsUpTo(tx, cfg, n)| ==> RecordsUpTo(tx, cfg, n)[i].logIndex < n
    ensures forall i, j :: 0 <= i < j < |RecordsUpTo(tx, cfg, n)| ==>
              RecordsUpTo(tx, cfg, n)[i].logIndex < RecordsUpTo(tx, cfg, n)[j].logIndex
  {
    if n > 0 {
      RecordsOrdered(tx, cfg, n - 1);
      RecordIs(tx, Logs(tx)[n - 1], n - 1, cfg);
    }
  }

  /** The amounts the daily totals take from a trade receipt: coins first, then tokens. */
  function CoinAndToken(logType: LogType, fromAmount: nat, toAmount: nat): (nat, nat)
  {
    match logType
    case TokenPurchase => (fromAmount, toAmount)
    case EthPurchase => (toAmount, fromAmount)
  }

  /** Volume records and daily totals read a trade log the same way, and no exchange is ever a trader. */
  lemma RecordsAgreeWithDailyTotals(tx: Transaction, cfg: Config, r: Record)
    requires r in RecordsOf(tx, cfg)
    ensures r.account !in cfg.allExchanges && r.txHash == tx.hash
    ensures r.logIndex < |Logs(tx)| && |Logs(tx)[r.logIndex].topics| >= 4
    ensures
      var topics := Logs(tx)[r.logIndex].topics;
      (r.coinAmount, r.tokenAmount) == CoinAndToken(r.logType, topics[2], topics[3])
  {
    RecordsAreLogs(tx, cfg, |Logs(tx)|, r);
  }

  // ----- the collection -----

  type Table = map<(nat, nat), Record>

  /** An upsert replaces; an insert on a taken key is a duplicate and changes nothing. */
  function Added(table: Table, record: Record, overwrite: bool): Table
  {
    if overwrite || record.Key() !in table then table[record.Key() := record] else table
  }

  function Written(table: Table, records: seq<Record>, overwrite: bool): Table
  {
    if |records| == 0 then table
    else Added(Written(table, records[..|records| - 1], overwrite), records[|records| - 1], overwrite)
  }

  class VolumeHistory {
    var table: Table

    constructor ()
      ensures table == map[]
    {
      table := map[];
    }

    method AddVolumeHistory(mv: Record, overwrite: bool)
      modifies this
      ensures table == Added(old(table), mv, overwrite)
    {
      if overwrite {
        table := table[mv.Key() := mv];
      } else if mv.Key() !in table {
        table := table[mv.Key() := mv];
      }
    }

    /** `parseReceipt`, as far as it writes volume history: the logs in order, each record under its own index. */
    method ParseReceipt(tx: Transaction, cfg: Config, overwrite: bool)
      modifies this
      ensures table == Written(old(table), RecordsOf(tx, cfg), overwrite)
    {
      if tx.receipt.None? || tx.receipt.value.status == 0 {
        return;
      }
      var logs := tx.receipt.value.logs;
      for idx := 0 to |logs|
        invariant table == Written(old(table), RecordsUpTo(tx, cfg, idx), overwrite)
      {
        var rlog := logs[idx];
        ghost var done := RecordsUpTo(tx, cfg, idx);
        if |rlog.topics| == 0 || rlog.removed {
          assert done + [] == done;
          continue;
        }
        var mv := RecordOf(tx, rlog, idx, cfg);
        if mv.Some? {
          AddVolumeHistory(mv.value, overwrite);
          assert (done + [mv.value])[..|done|] == done;
        } else {
          assert done + [] == done;
        }
      }
    }
  }

  /** No two records claim the same key. */
  ghost predicate Functional(records: set<Record>)
  {
    forall r, r' :: r in records && r' in records && r.Key() == r'.Key() ==> r == r'
  }

  ghost function Elements(records: seq<Record>): set<Record>
  {
    set r | r in records
  }

  /** Lookup after writing: insertion keeps what was there, an upsert does not. */
  lemma {:induction false} WrittenLookup(table: Table, records: seq<Record>, overwrite: bool, k: (nat, nat))
    requires Functional(Elements(records))
    ensures k in Written(table, records, overwrite) <==> k in table || exists r :: r in records && r.Key() == k
    ensures forall r :: r in records && r.Key() == k ==>
              Written(table, records, overwrite)[k] == if !overwrite && k in table then table[k] else r
    ensures (forall r :: r in records ==> r.Key() != k) && k in table ==>
              Written(table, records, overwrite)[k] == table[k]
  {
    if |records| > 0 {
      var init, last := records[..|records| - 1], records[|records| - 1];
      InitLast(records);
      assert Elements(init) <= Elements(records);
      assert last in Elements(records);
      WrittenLookup(table, init, overwrite, k);
      assert forall r :: r in init ==> r in Elements(records);
    }
  }

  /** Confluence: any order, interleaving and repetition of the same writes leaves the same table. */
  lemma WritesConfluent(table: Table, records: seq<Record>, records': seq<Record>, overwrite: bool)
    requires Elements(records) == Elements(records') && Functional(Elements(records))
    ensures Written(table, records, overwrite) == Written(table, records', overwrite)
  {
    var m, m' := Written(table, records, overwrite), Written(table, records', overwrite);
    assert forall r :: r in records <==> r in Elements(records);
    assert forall r :: r in records' <==> r in Elements(records');
    forall k: (nat, nat)
      ensures k in m <==> k in m'
      ensures k in m ==> m[k] == m'[k]
    {
      WrittenLookup(table, records, overwrite, k);
      WrittenLookup(table, records', overwrite, k);
    }
  }

  ghost predicate OrderIrrelevant(records: set<Record>, overwrite: bool)
  {
    forall s, s' :: Elements(s) == records && Elements(s') == records ==>
                      Written(map[], s, overwrite) == Written(map[], s', overwrite)
  }

  lemma {:induction false} FirstInsertWins(first: Record, rest: seq<Record>)
    ensures first.Key() in Written(map[], [first] + rest, false)
    ensures Written(map[], [first] + rest, false)[first.Key()] == first
  {
    var all := [first] + rest;
    if |rest| == 0 {
      assert all[..0] == [];
    } else {
      assert all[..|all| - 1] == [first] + rest[..|rest| - 1];
      FirstInsertWins(first, rest[..|rest| - 1]);
    }
  }

  lemma LastUpsertWins(rest: seq<Record>, last: Record)
    ensures last.Key() in Written(map[], rest + [last], true)
    ensures Written(map[], rest + [last], true)[last.Key()] == last
  {
    AppendInit(rest, last);
  }

  /** An order of writing the records that leaves `a` under its key. */
  lemma Winning(a: Record, s: seq<Record>, records: set<Record>, overwrite: bool) returns (t: seq<Record>)
    requires Elements(s) == records && a in records
    ensures Elements(t) == records
    ensures a.Key() in Written(map[], t, overwrite) && Written(map[], t, overwrite)[a.Key()] == a
  {
    assert a in s;
    if overwrite {
      t := s + [a];
      LastUpsertWins(s, a);
    } else {
      t := [a] + s;
      FirstInsertWins(a, s);
    }
    assert forall r :: r in t <==> r in s;
  }

  /** Confluence is exactly functional dependence on the key: were a transaction parsed with two different
      contents under one hash, the table would depend on the order of the writes. */
  lemma ConfluentIffFunctional(records: set<Record>, overwrite: bool)
    ensures OrderIrrelevant(records, overwrite) <==> Functional(records)
  {
    if Functional(records) {
      forall s, s' | Elements(s) == records && Elements(s') == records
        ensures Written(map[], s, overwrite) == Written(map[], s', overwrite)
      {
        WritesConfluent(map[], s, s', overwrite);
      }
    } else {
      var a, b :| a in records && b in records && a.Key() == b.Key() && a != b;
      var s := Enumeration(records);
      var t := Winning(a, s, records, overwrite);
      var t' := Winning(b, s, records, overwrite);
      assert Written(map[], t, overwrite)[a.Key()] != Written(map[], t', overwrite)[a.Key()];
    }
  }

  lemma {:induction false} Enumeration(records: set<Record>) returns (s: seq<Record>)
    ensures Elements(s) == records
  {
    if records == {} {
      s := [];
    } else {
      var r :| r in records;
      var rest := Enumeration(records - {r});
      assert forall x :: x in rest <==> x in Elements(rest);
      s := rest + [r];
    }
  }

  /** A chain: every transaction under its own hash. */
  type Chain = map<nat, Transaction>

  ghost predicate ValidChain(chain: Chain)
  {
    forall h :: h in chain ==> chain[h].hash == h
  }

  ghost function ChainRecords(chain: Chain, cfg: Config): set<Record>
  {
    set h, r | h in chain && r in RecordsOf(chain[h], cfg) :: r
  }

  /** The records of one chain depend functionally on their keys, so parsing it confluently fills one table: whichever
      tasks parse whichever transactions, in whatever order and however often, as long as each is parsed. */
  lemma ReparsingConfluent(chain: Chain, cfg: Config, table: Table, records: seq<Record>, records': seq<Record>,
                           overwrite: bool)
    requires ValidChain(chain)
    requires Elements(records) == ChainRecords(chain, cfg) == Elements(records')
    ensures Written(table, records, overwrite) == Written(table, records', overwrite)
  {
    forall r, r' | r in ChainRecords(chain, cfg) && r' in ChainRecords(chain, cfg) && r.Key() == r'.Key()
      ensures r == r'
    {
      RecordOrigin(chain, cfg, r);
      RecordOrigin(chain, cfg, r');
    }
    WritesConfluent(table, records, records', overwrite);
  }

  lemma RecordOrigin(chain: Chain, cfg: Config, r: Record)
    requires ValidChain(chain) && r in ChainRecords(chain, cfg)
    ensures r.txHash in chain && r.logIndex < |Logs(chain[r.txHash])|
    ensures RecordOf(chain[r.txHash], Logs(chain[r.txHash])[r.logIndex], r.logIndex, cfg) == Some(r)
  {
    var h :| h in chain && r in RecordsOf(chain[h], cfg);
    RecordsAreLogs(chain[h], cfg, |Logs(chain[h])|, r);
  }

  const TRADE: Log := Log(7, [TOPIC_TOKEN_PURCHASE, 5, 30, 40], false)

  /** A transaction with one trade, as it stands in the block of the given height and time. */
  function TradeAt(blockNumber: nat, timestamp: nat): Transaction
  {
    Transaction(1, blockNumber, timestamp, Some(Receipt(1, [TRADE])))
  }

  function TradeRecord(blockNumber: nat, timestamp: nat): Record
  {
    Record(7, 5, 30, 40, blockNumber, timestamp, 1, TokenPurchase, 0)
  }

  lemma TradeRecords(blockNumber: nat, timestamp: nat)
    ensures RecordsOf(TradeAt(blockNumber, timestamp), Config(true, {}, {}, false)) ==
            [TradeRecord(blockNumber, timestamp)]
  {
    var tx, cfg := TradeAt(blockNumber, timestamp), Config(true, {}, {}, false);
    assert RecordOf(tx, TRADE, 0, cfg) == Some(TradeRecord(blockNumber, timestamp));
    assert RecordsUpTo(tx, cfg, 0) == [];
  }

  /** A fork breaks it: one transaction, parsed in two blocks, gives two records for one key, and which of them stays
      depends on the order of the tasks, in both modes. */
  lemma ForkedTransaction(overwrite: bool)
    ensures RecordsOf(TradeAt(10, 100), Config(true, {}, {}, false)) == [TradeRecord(10, 100)]
    ensures RecordsOf(TradeAt(11, 115), Config(true, {}, {}, false)) == [TradeRecord(11, 115)]
    ensures !OrderIrrelevant({TradeRecord(10, 100), TradeRecord(11, 115)}, overwrite)
  {
    TradeRecords(10, 100);
    TradeRecords(11, 115);
    var r, r' := TradeRecord(10, 100), TradeRecord(11, 115);
    assert r.Key() == r'.Key() && r != r';
    ConfluentIffFunctional({r, r'}, overwrite);
  }

  // ----- aggregation -----

  datatype Query = Query(exchange: nat, from: nat, to: nat, useTimestamp: bool) {
    /** Start inclusive, end exclusive. */
    predicate Matches(r: Record)
    {
      var position := if useTimestamp then r.timestamp else r.blockNumber;
      r.exchange == exchange && from <= position < to
    }
  }

  ghost function Matching(table: Table, q: Query): set<Record>
  {
    set k | k in table && q.Matches(table[k]) :: table[k]
  }

  /** A cursor yields the matching records once each, in any order. */
  ghost predicate IsCursor(cursor: seq<Record>, table: Table, q: Query)
  {
    multiset(cursor) == multiset(Matching(table, q))
  }

  /** A cursor lists the exchange's records whose block number, or time when time is measured, lies in the window. */
  lemma CursorIs(cursor: seq<Record>, table: Table, q: Query, r: Record)
    requires IsCursor(cursor, table, q)
    ensures r in cursor <==>
            && r in table.Values && r.exchange == q.exchange
            && if q.useTimestamp then q.from <= r.timestamp < q.to else q.from <= r.blockNumber < q.to
  {
    assert r in cursor <==> r in multiset(cursor);
  }

  predicate Counts(r: Record, cfg: Config)
  {
    r.coinAmount > 0 && !cfg.IsExcludedRewardAccount(r.account)
  }

  /** Exchanges and the zero address are no traders; a trade without coins does not count. */
  function VolumeBy(account: nat, cfg: Config): Record -> int
  {
    (r: Record) =>
      if r.account == account && account != 0 && account !in cfg.configured && account !in cfg.allExchanges then
        r.coinAmount
      else 0
  }

  function TradesBy(account: nat, cfg: Config): Record -> int
  {
    (r: Record) =>
      if r.account == account && account != 0 && account !in cfg.configured && account !in cfg.allExchanges &&
         r.coinAmount > 0 then 1
      else 0
  }

  /** One step of the cursor loop. */
  function Merged(stats: map<nat, Stat>, r: Record, cfg: Config): map<nat, Stat>
  {
    if !Counts(r, cfg) then stats
    else if r.account in stats then
      var stat := stats[r.account];
      stats[r.account := stat.(share := stat.share + r.coinAmount, number := stat.number + 1)]
    else stats[r.account := Stat(r.account, None, r.coinAmount, 1)]
  }

  function Volumes(cursor: seq<Record>, cfg: Config): map<nat, Stat>
  {
    if |cursor| == 0 then map[]
    else Merged(Volumes(cursor[..|cursor| - 1], cfg), cursor[|cursor| - 1], cfg)
  }

  /** The cursor loop; a trader's statistic is updated in place. */
  method FindAccountVolumes(cursor: seq<Record>, cfg: Config) returns (result: seq<AccountStat>)
    ensures IsSortedSliceOf(Views(result), Volumes(cursor, cfg))
    ensures WellKeyed(Volumes(cursor, cfg))
    ensures fresh(result) && Distinct(result)
  {
    var statMap: map<nat, AccountStat> := map[];
    for i := 0 to |cursor|
      invariant Filed(statMap) && fresh(statMap.Values)
      invariant StatViews(statMap) == Volumes(cursor[..i], cfg)
    {
      var mh := cursor[i];
      TakeNext(cursor, i);
      if mh.coinAmount <= 0 || cfg.IsExcludedRewardAccount(mh.account) {
        continue;
      }
      statMap := AddTrade(statMap, mh.account, mh.coinAmount);
    }
    TakeAll(cursor);
    VolumesKeyed(cursor, cfg);
    result := ConvertToSortedSlice(statMap);
    assert forall i :: 0 <= i < |result| ==> result[i] in result;
  }

  /** One counted trade. */
  method AddTrade(statMap: map<nat, AccountStat>, account: nat, volume: nat) returns (statMap': map<nat, AccountStat>)
    requires Filed(statMap)
    modifies statMap.Values
    ensures Filed(statMap') && forall o :: o in statMap'.Values ==> o in statMap.Values || fresh(o)
    ensures
      var before := old(StatViews(statMap));
      StatViews(statMap') ==
        if account in before then
          before[account := before[account].(share := before[account].share + volume,
                                             number := before[account].number + 1)]
        else before[account := Stat(account, None, volume, 1)]
  {
    statMap' := statMap;
    if account in statMap {
      var stat := statMap[account];
      stat.share := stat.share + volume;
      stat.number := stat.number + 1;
    } else {
      var stat := new AccountStat(account, None, volume, 1);
      statMap' := statMap[account := stat];
    }
  }

  lemma {:induction false} VolumesKeyed(cursor: seq<Record>, cfg: Config)
    ensures WellKeyed(Volumes(cursor, cfg))
  {
    if |cursor| > 0 {
      VolumesKeyed(cursor[..|cursor| - 1], cfg);
    }
  }

  /** The map holds each counted trader's total volume and number of trades, and nobody else. */
  lemma {:induction false} VolumesAre(cursor: seq<Record>, cfg: Config, account: nat)
    ensures SumBy(VolumeBy(account, cfg), cursor) >= 0
    ensures account in Volumes(cursor, cfg) <==> SumBy(VolumeBy(account, cfg), cursor) > 0
    ensures SumBy(TradesBy(account, cfg), cursor) >= 0
    ensures account in Volumes(cursor, cfg) ==>
              Volumes(cursor, cfg)[account] == Stat(account, None, SumBy(VolumeBy(account, cfg), cursor),
                                                    SumBy(TradesBy(account, cfg), cursor))
    ensures account !in Volumes(cursor, cfg) ==> SumBy(TradesBy(account, cfg), cursor) == 0
  {
    if |cursor| > 0 {
      VolumesAre(cursor[..|cursor| - 1], cfg, account);
    }
  }

  /** The slice does not depend on the order in which the cursor yields the records. */
  lemma CursorOrderIrrelevant(cursor: seq<Record>, cursor': seq<Record>, cfg: Config, r: seq<Stat>, r': seq<Stat>)
    requires multiset(cursor) == multiset(cursor')
    requires IsSortedSliceOf(r, Volumes(cursor, cfg)) && IsSortedSliceOf(r', Volumes(cursor', cfg))
    ensures r == r'
  {
    var m, m' := Volumes(cursor, cfg), Volumes(cursor', cfg);
    forall account: nat
      ensures account in m <==> account in m'
      ensures account in m ==> m[account] == m'[account] && m[account].reward.None?
    {
      VolumesAre(cursor, cfg, account);
      VolumesAre(cursor', cfg, account);
      SumByPermutation(VolumeBy(account, cfg), cursor, cursor');
      SumByPermutation(TradesBy(account, cfg), cursor, cursor');
    }
    assert m == m';
    VolumesKeyed(cursor, cfg);
    SliceDetermined(m, r, r');
  }

  ghost function Window(q: Query, from: nat, to: nat): Query
  {
    q.(from := from, to := to)
  }

  lemma MatchingSplits(table: Table, q: Query, a: nat, b: nat, c: nat)
    requires a <= b <= c
    ensures multiset(Matching(table, Window(q, a, c))) ==
            multiset(Matching(table, Window(q, a, b))) + multiset(Matching(table, Window(q, b, c)))
  {
    var left, right := Matching(table, Window(q, a, b)), Matching(table, Window(q, b, c));
    assert left !! right;
    assert Matching(table, Window(q, a, c)) == left + right;
  }

  /** The measure of each window. */
  function SumsOf(f: Record -> int, cursors: seq<seq<Record>>): (r: seq<int>)
    ensures |r| == |cursors|
  {
    seq(|cursors|, i requires 0 <= i < |cursors| => SumBy(f, cursors[i]))
  }

  lemma LastSum(f: Record -> int, cursors: seq<seq<Record>>)
    requires |cursors| > 0
    ensures Sum(SumsOf(f, cursors)) == Sum(SumsOf(f, cursors[..|cursors| - 1])) + SumBy(f, cursors[|cursors| - 1])
  {
    assert SumsOf(f, cursors)[..|cursors| - 1] == SumsOf(f, cursors[..|cursors| - 1]);
  }

  lemma SplitSum(f: Record -> int, whole: seq<Record>, front: seq<Record>, last: seq<Record>)
    requires multiset(whole) == multiset(front) + multiset(last)
    ensures SumBy(f, whole) == SumBy(f, front) + SumBy(f, last)
  {
    SumByPermutation(f, whole, front + last);
    SumByConcat(f, front, last);
  }

  /** Windowed aggregation is additive: over any consecutive half-open windows, the per-window volumes and trade
      counts of an account add up to those of the whole range. */
  lemma {:induction false} WindowsTile(table: Table, q: Query, cuts: seq<nat>, cursors: seq<seq<Record>>,
                                       whole: seq<Record>, f: Record -> int)
    requires |cuts| == |cursors| + 1
    requires forall i, j :: 0 <= i <= j < |cuts| ==> cuts[i] <= cuts[j]
    requires forall i :: 0 <= i < |cursors| ==> IsCursor(cursors[i], table, Window(q, cuts[i], cuts[i + 1]))
    requires IsCursor(whole, table, Window(q, cuts[0], cuts[|cuts| - 1]))
    ensures SumBy(f, whole) == Sum(SumsOf(f, cursors))
  {
    var n := |cursors|;
    if n == 0 {
      assert Matching(table, Window(q, cuts[0], cuts[0])) == {};
      assert |whole| == |multiset(whole)| == 0;
    } else {
      var front := CursorFor(table, Window(q, cuts[0], cuts[n - 1]));
      WindowsTile(table, q, cuts[..n], cursors[..n - 1], front, f);
      LastSum(f, cursors);
      MatchingSplits(table, q, cuts[0], cuts[n - 1], cuts[n]);
      SplitSum(f, whole, front, cursors[n - 1]);
    }
  }

  function ShareOf(stats: map<nat, Stat>, account: nat): int
  {
    if account in stats then stats[account].share else 0
  }

  function NumberOf(stats: map<nat, Stat>, account: nat): int
  {
    if account in stats then stats[account].number else 0
  }

  function SharesOver(cursors: seq<seq<Record>>, cfg: Config, account: nat): (r: seq<int>)
    ensures |r| == |cursors|
  {
    seq(|cursors|, i requires 0 <= i < |cursors| => ShareOf(Volumes(cursors[i], cfg), account))
  }

  function NumbersOver(cursors: seq<seq<Record>>, cfg: Config, account: nat): (r: seq<int>)
    ensures |r| == |cursors|
  {
    seq(|cursors|, i requires 0 <= i < |cursors| => NumberOf(Volumes(cursors[i], cfg), account))
  }

  lemma SharesAreSums(cursors: seq<seq<Record>>, cfg: Config, account: nat)
    ensures SharesOver(cursors, cfg, account) == SumsOf(VolumeBy(account, cfg), cursors)
    ensures NumbersOver(cursors, cfg, account) == SumsOf(TradesBy(account, cfg), cursors)
  {
    forall i | 0 <= i < |cursors|
      ensures ShareOf(Volumes(cursors[i], cfg), account) == SumBy(VolumeBy(account, cfg), cursors[i])
      ensures NumberOf(Volumes(cursors[i], cfg), account) == SumBy(TradesBy(account, cfg), cursors[i])
    {
      VolumesAre(cursors[i], cfg, account);
    }
  }

  /** So what is reported of an account for the whole range is, in volume and in trades, the sum of what is reported of
      it for the windows. */
  lemma AccountWindowsTile(table: Table, q: Query, cuts: seq<nat>, cursors: seq<seq<Record>>, whole: seq<Record>,
                           cfg: Config, account: nat)
    requires |cuts| == |cursors| + 1
    requires forall i, j :: 0 <= i <= j < |cuts| ==> cuts[i] <= cuts[j]
    requires forall i :: 0 <= i < |cursors| ==> IsCursor(cursors[i], table, Window(q, cuts[i], cuts[i + 1]))
    requires IsCursor(whole, table, Window(q, cuts[0], cuts[|cuts| - 1]))
    ensures ShareOf(Volumes(whole, cfg), account) == Sum(SharesOver(cursors, cfg, account))
    ensures NumberOf(Volumes(whole, cfg), account) == Sum(NumbersOver(cursors, cfg, account))
  {
    WindowsTile(table, q, cuts, cursors, whole, VolumeBy(account, cfg));
    WindowsTile(table, q, cuts, cursors, whole, TradesBy(account, cfg));
    VolumesAre(whole, cfg, account);
    SharesAreSums(cursors, cfg, account);
  }

  lemma CursorFor(table: Table, q: Query) returns (cursor: seq<Record>)
    ensures IsCursor(cursor, table, q)
  {
    cursor := ListOf(Matching(table, q));
  }

  lemma {:induction false} ListOf(records: set<Record>) returns (s: seq<Record>)
    ensures multiset(s) == multiset(records)
  {
    s := [];
    if records != {} {
      var r :| r in records;
      var rest := ListOf(records - {r});
      s := rest + [r];
      assert records == records - {r} + {r};
    }
  }
}
