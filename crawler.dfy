/**
 * The range-ingestion loop `retrieve_transactions`: for each block height in
 * `[start_block, end_block]`, ascending, fetch the block with its full
 * transactions, insert one `blocks` row, then one `transactions` row per
 * transaction in list order. Any failure for a height is logged with that
 * height and the loop moves on; rows inserted before the failure stay, and a
 * single commit follows the loop.
 *
 * The node is a function from the request string (`Quantity.Hex`) to an
 * optional block; the specification reads it by height (`ChainOf`). The sqlite
 * tables are maps keyed by their `hash` primary key.
 */
module Crawler {
  import opened Wrappers
  import opened Quantity
  import opened Validator

  /** Hashes and addresses are opaque keys, already rendered as text. */
  type Hash = string
  type Address = string

  /** A transaction as the node returns it; `receiver` is absent for a contract creation. */
  datatype Transaction = Transaction(
    hash: Hash, blockHash: Hash, blockNumber: nat,
    sender: Address, receiver: Option<Address>, value: nat)

  datatype Block = Block(hash: Hash, number: nat, timestamp: nat, transactions: seq<Transaction>)

  /** The non-key columns of a `blocks` row. */
  datatype BlockRow = BlockRow(number: nat, timestamp: nat)

  /** The non-key columns of a `transactions` row; `value` is kept in wei. */
  datatype TransactionRow = TransactionRow(
    blockHash: Hash, blockNumber: nat, sender: Address, receiver: Option<Address>, value: nat)

  /** Both tables, each keyed by its primary key. */
  datatype Tables = Tables(blocks: map<Hash, BlockRow>, transactions: map<Hash, TransactionRow>)

  /** Why a height was logged as failed. */
  datatype Cause = FetchFailed | DuplicateBlock | DuplicateTransaction(hash: Hash)

  /** One line of the error log: the height and what went wrong. */
  datatype LogEntry = LogEntry(blockNumber: nat, cause: Cause)

  /** The outcome of a whole run: the tables afterwards and the error log. */
  datatype Run = Run(tables: Tables, log: seq<LogEntry>)

  function BlockRowOf(b: Block): (row: BlockRow)
  {
    BlockRow(b.number, b.timestamp)
  }

  function TransactionRowOf(tx: Transaction): (row: TransactionRow)
  {
    TransactionRow(tx.blockHash, tx.blockNumber, tx.sender, tx.receiver, tx.value)
  }

  /** Every row of `a` is in `b`, unchanged. */
  predicate Extends<K, V(==)>(a: map<K, V>, b: map<K, V>)
  {
    forall k :: k in a ==> k in b && b[k] == a[k]
  }

  predicate TablesExtend(a: Tables, b: Tables)
  {
    Extends(a.blocks, b.blocks) && Extends(a.transactions, b.transactions)
  }

  /** None of the transactions' hashes is stored yet, and no two of them collide. */
  predicate FreshHashes(t: map<Hash, TransactionRow>, txs: seq<Transaction>)
  {
    && (forall i :: 0 <= i < |txs| ==> txs[i].hash !in t)
    && (forall i, j :: 0 <= i < j < |txs| ==> txs[i].hash != txs[j].hash)
  }

  /** Every transaction of `txs` has its row in `t`. */
  predicate HoldsRows(t: map<Hash, TransactionRow>, txs: seq<Transaction>)
  {
    forall i :: 0 <= i < |txs| ==> txs[i].hash in t && t[txs[i].hash] == TransactionRowOf(txs[i])
  }

  ghost function HashesOf(txs: seq<Transaction>): (hashes: set<Hash>)
  {
    set i | 0 <= i < |txs| :: txs[i].hash
  }

  // ---------------------------------------------------------------------
  // Specification of one pass, as functions of the tables before it
  // ---------------------------------------------------------------------

  /**
   * The transaction INSERTs of one block, in list order. The first insert
   * whose hash is already present fails; the rows inserted before it stay,
   * and its hash is reported.
   */
  function InsertTransactions(t: map<Hash, TransactionRow>, txs: seq<Transaction>)
    : (r: (map<Hash, TransactionRow>, Option<Hash>))
    ensures r.1.Some? ==> r.1.value in r.0
    decreases |txs|
  {
    if txs == [] then (t, None)
    else if txs[0].hash in t then (t, Some(txs[0].hash))
    else InsertTransactions(t[txs[0].hash := TransactionRowOf(txs[0])], txs[1..])
  }

  /** The INSERTs for one fetched block: its `blocks` row first, then its transactions. */
  function ProcessBlock(t: Tables, b: Block): (r: (Tables, Option<Cause>))
    ensures r.1 != Some(FetchFailed)
  {
    if b.hash in t.blocks then (t, Some(DuplicateBlock))
    else
      var (txs, clash) := InsertTransactions(t.transactions, b.transactions);
      (Tables(t.blocks[b.hash := BlockRowOf(b)], txs),
       if clash.Some? then Some(DuplicateTransaction(clash.value)) else None)
  }

  /** One iteration of the loop body: what the fetch returned, then the inserts. */
  function Attempt(t: Tables, fetched: Option<Block>): (r: (Tables, Option<Cause>))
    ensures r.1 == Some(FetchFailed) <==> fetched == None
  {
    match fetched
    case None => (t, Some(FetchFailed))
    case Some(b) => ProcessBlock(t, b)
  }

  /** The log line for height `n`, if its attempt failed. */
  function LogLine(n: nat, cause: Option<Cause>): (line: seq<LogEntry>)
  {
    if cause.Some? then [LogEntry(n, cause.value)] else []
  }

  /** The number of heights in `range(startBlock, endBlock + 1)`. */
  function RangeSize(startBlock: nat, endBlock: int): (count: nat)
    ensures count == 0 <==> endBlock < startBlock
    ensures count > 0 ==> startBlock + count - 1 == endBlock
  {
    if endBlock < startBlock then 0 else endBlock - startBlock + 1
  }

  /**
   * The chain as the node serves it, by height: the answer to the request
   * that encodes the height.
   */
  function ChainOf(node: string -> Option<Block>): (chain: nat -> Option<Block>)
  {
    (n: nat) => node(Hex(n))
  }

  /**
   * The first `count` iterations of the loop, from height `startBlock` and
   * tables `t`: the tables afterwards and the lines logged so far.
   */
  function Crawl(chain: nat -> Option<Block>, startBlock: nat, count: nat, t: Tables): (r: Run)
  {
    if count == 0 then Run(t, [])
    else
      var before := Crawl(chain, startBlock, count - 1, t);
      var n := startBlock + count - 1;
      var step := Attempt(before.tables, chain(n));
      Run(step.0, before.log + LogLine(n, step.1))
  }

  // ---------------------------------------------------------------------
  // Properties of the specification
  // ---------------------------------------------------------------------

  /** Transaction inserts never remove or change a stored row. */
  lemma {:induction false} InsertTransactionsExtends(t: map<Hash, TransactionRow>, txs: seq<Transaction>)
    ensures Extends(t, InsertTransactions(t, txs).0)
    decreases |txs|
  {
    if txs != [] && txs[0].hash !in t {
      InsertTransactionsExtends(t[txs[0].hash := TransactionRowOf(txs[0])], txs[1..]);
    }
  }

  /** The hashes of a non-empty list: its head's and its tail's. */
  lemma HashesOfCons(txs: seq<Transaction>)
    requires txs != []
    ensures HashesOf(txs) == {txs[0].hash} + HashesOf(txs[1..])
  {
    var tail := txs[1..];
    forall x | x in HashesOf(txs) ensures x in {txs[0].hash} + HashesOf(tail) {
      var i :| 0 <= i < |txs| && txs[i].hash == x;
      if i > 0 { assert tail[i - 1].hash == x; }
    }
    forall x | x in HashesOf(tail) ensures x in HashesOf(txs) {
      var i :| 0 <= i < |tail| && tail[i].hash == x;
      assert txs[i + 1].hash == x;
    }
  }

  /** A list is fresh exactly when its head is new and its tail is fresh once the head is stored. */
  lemma FreshHashesCons(t: map<Hash, TransactionRow>, txs: seq<Transaction>)
    requires txs != []
    ensures FreshHashes(t, txs) <==>
      txs[0].hash !in t && FreshHashes(t[txs[0].hash := TransactionRowOf(txs[0])], txs[1..])
  {
    var t1 := t[txs[0].hash := TransactionRowOf(txs[0])];
    var tail := txs[1..];
    if txs[0].hash !in t && FreshHashes(t1, tail) {
      forall i, j | 0 <= i < j < |txs| ensures txs[i].hash != txs[j].hash {
        if i > 0 { assert tail[i - 1] == txs[i] && tail[j - 1] == txs[j]; }
        else { assert tail[j - 1] == txs[j]; }
      }
      forall i | 0 <= i < |txs| ensures txs[i].hash !in t {
        if i > 0 { assert tail[i - 1] == txs[i]; }
      }
    }
    if FreshHashes(t, txs) {
      forall i | 0 <= i < |tail| ensures tail[i].hash !in t1 {
        assert tail[i] == txs[i + 1];
      }
      forall i, j | 0 <= i < j < |tail| ensures tail[i].hash != tail[j].hash {
        assert tail[i] == txs[i + 1] && tail[j] == txs[j + 1];
      }
    }
  }

  /**
   * All transaction inserts of a block succeed exactly when their hashes are
   * fresh and distinct, and then exactly their rows are added.
   */
  lemma {:induction false} InsertTransactionsSucceed(t: map<Hash, TransactionRow>, txs: seq<Transaction>)
    ensures InsertTransactions(t, txs).1 == None <==> FreshHashes(t, txs)
    ensures FreshHashes(t, txs) ==>
      var t' := InsertTransactions(t, txs).0;
      HoldsRows(t', txs) && t'.Keys == t.Keys + HashesOf(txs)
    decreases |txs|
  {
    if txs != [] {
      var t1 := t[txs[0].hash := TransactionRowOf(txs[0])];
      var tail := txs[1..];
      FreshHashesCons(t, txs);
      if txs[0].hash !in t {
        InsertTransactionsSucceed(t1, tail);
        if FreshHashes(t, txs) {
          HashesOfCons(txs);
          InsertTransactionsExtends(t1, tail);
          var t' := InsertTransactions(t, txs).0;
          forall i | 0 <= i < |txs| ensures txs[i].hash in t' && t'[txs[i].hash] == TransactionRowOf(txs[i]) {
            if i > 0 { assert tail[i - 1] == txs[i]; }
          }
        }
      }
    }
  }

  /**
   * When an insert fails, the rows of the transactions before the clashing
   * one have been inserted, and stay: there is no rollback.
   */
  lemma {:induction false} InsertTransactionsClash(t: map<Hash, TransactionRow>, txs: seq<Transaction>, h: Hash)
    requires InsertTransactions(t, txs).1 == Some(h)
    ensures exists k :: (0 <= k < |txs| && txs[k].hash == h
      && InsertTransactions(t, txs[..k]) == (InsertTransactions(t, txs).0, None)
      && h in InsertTransactions(t, txs).0)
    decreases |txs|
  {
    var r := InsertTransactions(t, txs).0;
    if txs[0].hash in t {
      assert txs[..0] == [];
      assert txs[0].hash == h && InsertTransactions(t, txs[..0]) == (r, None);
    } else {
      var t1 := t[txs[0].hash := TransactionRowOf(txs[0])];
      var tail := txs[1..];
      InsertTransactionsClash(t1, tail, h);
      var k :| 0 <= k < |tail| && tail[k].hash == h
        && InsertTransactions(t1, tail[..k]) == (r, None) && h in r;
      var prefix := txs[..k + 1];
      assert prefix[0] == txs[0] && prefix[1..] == tail[..k];
      assert txs[k + 1].hash == h && InsertTransactions(t, prefix) == (r, None);
    }
  }

  /**
   * A fetched block is fully stored exactly when its hash and its
   * transactions' hashes are all new; then one `blocks` row and one
   * `transactions` row per transaction are added, and nothing else.
   */
  lemma ProcessBlockSucceeds(t: Tables, b: Block)
    ensures ProcessBlock(t, b).1 == None <==> b.hash !in t.blocks && FreshHashes(t.transactions, b.transactions)
    ensures ProcessBlock(t, b).1 == None ==>
      var t' := ProcessBlock(t, b).0;
      && t'.blocks == t.blocks[b.hash := BlockRowOf(b)]
      && HoldsRows(t'.transactions, b.transactions)
      && t'.transactions.Keys == t.transactions.Keys + HashesOf(b.transactions)
      && Extends(t.transactions, t'.transactions)
  {
    InsertTransactionsSucceed(t.transactions, b.transactions);
    InsertTransactionsExtends(t.transactions, b.transactions);
  }

  /** A block without transactions adds exactly its `blocks` row when its hash is new. */
  lemma EmptyBlockAddsOneRow(t: Tables, b: Block)
    requires b.transactions == [] && b.hash !in t.blocks
    ensures ProcessBlock(t, b) == (Tables(t.blocks[b.hash := BlockRowOf(b)], t.transactions), None)
  {
  }

  /**
   * A failing block: a duplicate block hash changes nothing; a duplicate
   * transaction hash leaves the block's row and the rows of the transactions
   * before the clash in place.
   */
  lemma ProcessBlockFails(t: Tables, b: Block)
    requires ProcessBlock(t, b).1.Some?
    ensures ProcessBlock(t, b).1 == Some(DuplicateBlock) <==> b.hash in t.blocks
    ensures ProcessBlock(t, b).1 == Some(DuplicateBlock) ==> ProcessBlock(t, b).0 == t
    ensures ProcessBlock(t, b).1.value.DuplicateTransaction? ==>
      var t' := ProcessBlock(t, b).0;
      var h := ProcessBlock(t, b).1.value.hash;
      && t'.blocks == t.blocks[b.hash := BlockRowOf(b)]
      && exists k :: (0 <= k < |b.transactions| && b.transactions[k].hash == h
        && InsertTransactions(t.transactions, b.transactions[..k]) == (t'.transactions, None))
  {
    if b.hash !in t.blocks {
      var clash := InsertTransactions(t.transactions, b.transactions).1;
      InsertTransactionsClash(t.transactions, b.transactions, clash.value);
    }
  }

  /** One attempt never removes or changes a stored row. */
  lemma AttemptExtends(t: Tables, fetched: Option<Block>)
    ensures TablesExtend(t, Attempt(t, fetched).0)
  {
    if fetched.Some? && fetched.value.hash !in t.blocks {
      InsertTransactionsExtends(t.transactions, fetched.value.transactions);
    }
  }

  /** A run never removes or changes a row that was there before it: no rollback, no overwrite. */
  lemma {:induction false} CrawlExtends(chain: nat -> Option<Block>, startBlock: nat, count: nat, t: Tables)
    ensures TablesExtend(t, Crawl(chain, startBlock, count, t).tables)
  {
    if count > 0 {
      var before := Crawl(chain, startBlock, count - 1, t);
      CrawlExtends(chain, startBlock, count - 1, t);
      AttemptExtends(before.tables, chain(startBlock + count - 1));
    }
  }

  /**
   * Rows written at any point of the walk, including those of a block that
   * failed partway through, survive every later iteration: the tables after
   * `k` iterations are extended by the tables after `count >= k`.
   */
  lemma {:induction false} CrawlPrefixExtends(chain: nat -> Option<Block>, startBlock: nat, k: nat, count: nat, t: Tables)
    ensures k <= count ==>
      TablesExtend(Crawl(chain, startBlock, k, t).tables, Crawl(chain, startBlock, count, t).tables)
  {
    if k < count {
      var before := Crawl(chain, startBlock, count - 1, t);
      CrawlPrefixExtends(chain, startBlock, k, count - 1, t);
      AttemptExtends(before.tables, chain(startBlock + count - 1));
    }
  }

  /** The log line of one height names that height with the attempt's cause, or nothing. */
  lemma InLogLine(n: nat, cause: Option<Cause>, m: nat, c: Cause)
    ensures LogEntry(m, c) in LogLine(n, cause) <==> m == n && cause == Some(c)
  {
  }

  /**
   * Every failure is logged: `(m, c)` is in the log exactly when `m` is a
   * height of the range and its attempt, on the tables the earlier heights
   * left, failed with cause `c`.
   */
  lemma {:induction false} CrawlLogsFailures(chain: nat -> Option<Block>, startBlock: nat, count: nat, t: Tables, m: nat, c: Cause)
    ensures LogEntry(m, c) in Crawl(chain, startBlock, count, t).log
      <==> (startBlock <= m < startBlock + count
        && Attempt(Crawl(chain, startBlock, m - startBlock, t).tables, chain(m)).1 == Some(c))
  {
    if count > 0 {
      var n := startBlock + count - 1;
      var before := Crawl(chain, startBlock, count - 1, t);
      var step := Attempt(before.tables, chain(n));
      CrawlLogsFailures(chain, startBlock, count - 1, t, m, c);
      InLogLine(n, step.1, m, c);
      assert Crawl(chain, startBlock, count, t).log == before.log + LogLine(n, step.1);
      if m == n {
        assert Crawl(chain, startBlock, m - startBlock, t) == before;
      }
    }
  }

  /** Every entry of `log` names a height in `[lo, hi]`, and the heights strictly ascend. */
  predicate AscendingWithin(log: seq<LogEntry>, lo: int, hi: int)
  {
    && (forall i :: 0 <= i < |log| ==> lo <= log[i].blockNumber <= hi)
    && (forall i, j :: 0 <= i < j < |log| ==> log[i].blockNumber < log[j].blockNumber)
  }

  /** The log names heights of the range only, each at most once, in ascending order. */
  lemma {:induction false} CrawlLogAscending(chain: nat -> Option<Block>, startBlock: nat, count: nat, t: Tables)
    ensures AscendingWithin(Crawl(chain, startBlock, count, t).log, startBlock, startBlock + count - 1)
  {
    if count > 0 {
      var n := startBlock + count - 1;
      var before := Crawl(chain, startBlock, count - 1, t);
      CrawlLogAscending(chain, startBlock, count - 1, t);
      var line := LogLine(n, Attempt(before.tables, chain(n)).1);
      var log := Crawl(chain, startBlock, count, t).log;
      assert log == before.log + line;
      forall i | 0 <= i < |log| ensures startBlock <= log[i].blockNumber <= n {
        if i < |before.log| { assert log[i] == before.log[i]; } else { assert log[i] == line[i - |before.log|]; }
      }
      forall i, j | 0 <= i < j < |log| ensures log[i].blockNumber < log[j].blockNumber {
        assert log[i] == before.log[i];
        if j < |before.log| { assert log[j] == before.log[j]; } else { assert log[j] == line[j - |before.log|]; }
      }
    }
  }

  /** A height whose fetch fails is logged as such, and a fetch failure is logged for no other height. */
  lemma {:induction false} CrawlLogsFetchFailures(chain: nat -> Option<Block>, startBlock: nat, count: nat, t: Tables, m: nat)
    ensures LogEntry(m, FetchFailed) in Crawl(chain, startBlock, count, t).log
      <==> startBlock <= m < startBlock + count && chain(m) == None
  {
    if count > 0 {
      var n := startBlock + count - 1;
      var before := Crawl(chain, startBlock, count - 1, t);
      CrawlLogsFetchFailures(chain, startBlock, count - 1, t, m);
      var line := LogLine(n, Attempt(before.tables, chain(n)).1);
      assert Crawl(chain, startBlock, count, t).log == before.log + line;
      assert LogEntry(m, FetchFailed) in line <==> m == n && chain(n) == None;
    }
  }

  /** The block's row and the rows of all its transactions are present in `t`. */
  predicate Stored(t: Tables, b: Block)
  {
    b.hash in t.blocks && t.blocks[b.hash] == BlockRowOf(b) && HoldsRows(t.transactions, b.transactions)
  }

  lemma StoredPersists(t: Tables, t': Tables, b: Block)
    requires Stored(t, b) && TablesExtend(t, t')
    ensures Stored(t', b)
  {
    forall i | 0 <= i < |b.transactions|
      ensures b.transactions[i].hash in t'.transactions
      && t'.transactions[b.transactions[i].hash] == TransactionRowOf(b.transactions[i])
    {
      assert b.transactions[i].hash in t.transactions;
    }
  }

  /** No entry of `log` names height `m`. */
  predicate NotLogged(log: seq<LogEntry>, m: nat)
  {
    forall i :: 0 <= i < |log| ==> log[i].blockNumber != m
  }

  lemma NotLoggedPrefix(log: seq<LogEntry>, more: seq<LogEntry>, m: nat)
    requires NotLogged(log + more, m)
    ensures NotLogged(log, m)
  {
    forall i | 0 <= i < |log| ensures log[i].blockNumber != m {
      assert log[i] == (log + more)[i];
    }
  }

  /**
   * A height that was fetched and not logged has its block row and all its
   * transaction rows in the final tables.
   */
  lemma {:induction false} CrawlStoresUnloggedBlocks(chain: nat -> Option<Block>, startBlock: nat, count: nat, t: Tables, m: nat, b: Block)
    requires startBlock <= m < startBlock + count && chain(m) == Some(b)
    requires NotLogged(Crawl(chain, startBlock, count, t).log, m)
    ensures Stored(Crawl(chain, startBlock, count, t).tables, b)
  {
    var n := startBlock + count - 1;
    var before := Crawl(chain, startBlock, count - 1, t);
    var step := Attempt(before.tables, chain(n));
    var log := Crawl(chain, startBlock, count, t).log;
    assert log == before.log + LogLine(n, step.1);
    assert step.1.Some? ==> log[|before.log|].blockNumber == n;
    if m == n {
      ProcessBlockSucceeds(before.tables, b);
    } else {
      NotLoggedPrefix(before.log, LogLine(n, step.1), m);
      CrawlStoresUnloggedBlocks(chain, startBlock, count - 1, t, m, b);
      AttemptExtends(before.tables, chain(n));
      StoredPersists(before.tables, step.0, b);
    }
  }

  /**
   * Re-running over heights whose blocks are all stored already (or cannot be
   * fetched) changes no row and logs every height, in order, as a fetch
   * failure or a duplicate block.
   */
  lemma {:induction false} RerunChangesNothing(chain: nat -> Option<Block>, startBlock: nat, count: nat, t: Tables)
    requires forall m: nat :: startBlock <= m < startBlock + count && chain(m).Some? ==> chain(m).value.hash in t.blocks
    ensures Crawl(chain, startBlock, count, t).tables == t
    ensures var log := Crawl(chain, startBlock, count, t).log;
      && |log| == count
      && forall i :: 0 <= i < count ==>
        log[i] == LogEntry(startBlock + i, if chain(startBlock + i).None? then FetchFailed else DuplicateBlock)
  {
    if count > 0 {
      RerunChangesNothing(chain, startBlock, count - 1, t);
      var log := Crawl(chain, startBlock, count, t).log;
      var before := Crawl(chain, startBlock, count - 1, t).log;
      assert log == before + [log[count - 1]];
      forall i | 0 <= i < count
        ensures log[i] == LogEntry(startBlock + i, if chain(startBlock + i).None? then FetchFailed else DuplicateBlock)
      {
        if i < count - 1 { assert log[i] == before[i]; }
      }
    }
  }

  /** A one-height range over an empty new block stores exactly that block's row and logs nothing. */
  lemma SingleEmptyBlock(chain: nat -> Option<Block>, n: nat, t: Tables, b: Block)
    requires chain(n) == Some(b) && b.transactions == [] && b.hash !in t.blocks
    ensures Crawl(chain, n, RangeSize(n, n), t) == Run(Tables(t.blocks[b.hash := BlockRowOf(b)], t.transactions), [])
  {
  }

  // ---------------------------------------------------------------------
  // The store and the loop
  // ---------------------------------------------------------------------

  /**
   * The sqlite connection: `blocks` and `transactions` are what the
   * connection sees, uncommitted inserts included; `committed` is what the
   * file holds after the last commit.
   */
  class Database {
    var blocks: map<Hash, BlockRow>
    var transactions: map<Hash, TransactionRow>
    var committed: Tables

    function Contents(): (contents: Tables)
      reads this
    {
      Tables(blocks, transactions)
    }

    /** A new database file, once both `CREATE TABLE IF NOT EXISTS` have run. */
    constructor ()
      ensures Contents() == Tables(map[], map[]) && committed == Contents()
    {
      blocks, transactions := map[], map[];
      committed := Tables(map[], map[]);
    }

    /** `INSERT INTO blocks`: fails, changing nothing, when the hash is already a key. */
    method InsertBlock(hash: Hash, row: BlockRow) returns (ok: bool)
      modifies this
      ensures ok <==> hash !in old(blocks)
      ensures blocks == if ok then old(blocks)[hash := row] else old(blocks)
      ensures transactions == old(transactions) && committed == old(committed)
    {
      ok := hash !in blocks;
      if ok {
        blocks := blocks[hash := row];
      }
    }

    /** `INSERT INTO transactions`: fails, changing nothing, when the hash is already a key. */
    method InsertTransaction(hash: Hash, row: TransactionRow) returns (ok: bool)
      modifies this
      ensures ok <==> hash !in old(transactions)
      ensures transactions == if ok then old(transactions)[hash := row] else old(transactions)
      ensures blocks == old(blocks) && committed == old(committed)
    {
      ok := hash !in transactions;
      if ok {
        transactions := transactions[hash := row];
      }
    }

    /** `conn.commit()`: everything the connection sees becomes durable. */
    method Commit()
      modifies this
      ensures committed == Contents()
      ensures blocks == old(blocks) && transactions == old(transactions)
    {
      committed := Contents();
    }
  }

  /** The requests the walk sends for `count` heights from `startBlock`, in order. */
  function Requests(startBlock: nat, count: nat): (r: seq<string>)
    ensures |r| == count
  {
    if count == 0 then [] else Requests(startBlock, count - 1) + [Hex(startBlock + count - 1)]
  }

  /** The `i`-th request is the encoding of height `startBlock + i`. */
  lemma {:induction false} RequestsAt(startBlock: nat, count: nat)
    ensures forall i :: 0 <= i < count ==> Requests(startBlock, count)[i] == Hex(startBlock + i)
  {
    if count > 0 {
      RequestsAt(startBlock, count - 1);
    }
  }

  /**
   * The node reads the `i`-th request back as height `startBlock + i`: each
   * height of the range is asked for once, in strictly ascending order.
   */
  lemma RequestsDecodeAscending(startBlock: nat, count: nat)
    ensures forall i :: 0 <= i < count ==> ParseQuantity(Requests(startBlock, count)[i]) == Some(startBlock + i)
  {
    RequestsAt(startBlock, count);
    forall i | 0 <= i < count ensures ParseQuantity(Requests(startBlock, count)[i]) == Some(startBlock + i) {
      HexRoundTrip(startBlock + i);
    }
  }

  /**
   * The transaction INSERTs of one block (the inner `for tx in
   * block.transactions`); the first failing insert ends the loop.
   */
  method InsertTransactionRows(db: Database, txs: seq<Transaction>) returns (clash: Option<Hash>)
    modifies db
    ensures (db.transactions, clash) == InsertTransactions(old(db.transactions), txs)
    ensures db.blocks == old(db.blocks) && db.committed == old(db.committed)
  {
    clash := None;
    var i := 0;
    while i < |txs| && clash == None
      invariant 0 <= i <= |txs|
      invariant db.blocks == old(db.blocks) && db.committed == old(db.committed)
      invariant clash == None ==>
        InsertTransactions(old(db.transactions), txs) == InsertTransactions(db.transactions, txs[i..])
      invariant clash != None ==>
        InsertTransactions(old(db.transactions), txs) == (db.transactions, clash)
      decreases |txs| - i, clash == None
    {
      var tx := txs[i];
      var inserted := db.InsertTransaction(tx.hash, TransactionRowOf(tx));
      if inserted {
        i := i + 1;
      } else {
        clash := Some(tx.hash);
      }
    }
    assert clash == None ==> txs[i..] == [];
  }

  /**
   * The body of the `try` for one fetched (or failed) block: the `blocks`
   * INSERT, then the transaction INSERTs; the cause is what the `except`
   * would log.
   */
  method IngestBlock(db: Database, fetched: Option<Block>) returns (cause: Option<Cause>)
    modifies db
    ensures (db.Contents(), cause) == Attempt(old(db.Contents()), fetched)
    ensures db.committed == old(db.committed)
  {
    match fetched {
      case None =>
        cause := Some(FetchFailed);
      case Some(block) =>
        var ok := db.InsertBlock(block.hash, BlockRowOf(block));
        if !ok {
          cause := Some(DuplicateBlock);
        } else {
          var clash := InsertTransactionRows(db, block.transactions);
          cause := if clash.Some? then Some(DuplicateTransaction(clash.value)) else None;
        }
    }
  }

  /**
   * `retrieve_transactions`: the walk over `[startBlock, endBlock]`. Returns
   * the error log, and as a ghost trace the requests sent to the node, in
   * order; the tables
   * end as `Crawl` says and are committed once, after the loop.
   */
  method RetrieveTransactions(db: Database, node: string -> Option<Block>, startBlock: nat, endBlock: int)
    returns (ghost requests: seq<string>, log: seq<LogEntry>)
    modifies db
    ensures Run(db.Contents(), log) == Crawl(ChainOf(node), startBlock, RangeSize(startBlock, endBlock), old(db.Contents()))
    ensures requests == Requests(startBlock, RangeSize(startBlock, endBlock))
    ensures db.committed == db.Contents()
  {
    ghost var initial := Tables(db.blocks, db.transactions);
    ghost var current := initial;
    requests, log := [], [];
    for i := 0 to RangeSize(startBlock, endBlock)
      invariant requests == Requests(startBlock, i)
      invariant db.blocks == current.blocks && db.transactions == current.transactions
      invariant Run(current, log) == Crawl(ChainOf(node), startBlock, i, initial)
    {
      var n := startBlock + i;
      var request := Hex(n);
      assert node(request) == ChainOf(node)(n);
      var cause := IngestBlock(db, node(request));
      current := Tables(db.blocks, db.transactions);
      requests := requests + [request];
      log := log + LogLine(n, cause);
    }
    db.Commit();
  }

  /**
   * The script's entry point after argument parsing: `validate_input`, then
   * `retrieve_transactions`. A rejected input raises before any request or
   * insert; an accepted one runs the whole range.
   */
  method ValidateThenRetrieve(db: Database, node: string -> Option<Block>, endpoint: string, startBlock: int, endBlock: int)
    returns (verdict: Verdict, ghost requests: seq<string>, log: seq<LogEntry>)
    modifies db
    ensures verdict == ValidateInput(endpoint, startBlock, endBlock)
    ensures verdict.Rejected? ==>
      requests == [] && log == [] && db.Contents() == old(db.Contents()) && db.committed == old(db.committed)
    ensures verdict == Accepted ==>
      && 0 <= startBlock <= endBlock
      && Run(db.Contents(), log) == Crawl(ChainOf(node), startBlock, endBlock - startBlock + 1, old(db.Contents()))
      && requests == Requests(startBlock, endBlock - startBlock + 1)
      && db.committed == db.Contents()
  {
    verdict := ValidateInput(endpoint, startBlock, endBlock);
    if verdict.Rejected? {
      requests, log := [], [];
      return;
    }
    requests, log := RetrieveTransactions(db, node, startBlock, endBlock);
  }
}
