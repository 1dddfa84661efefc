# Block-Crawler in Dafny

Block-Crawler is a one-file Python script. It walks a range of Ethereum block
heights `[start_block, end_block]` and asks a JSON-RPC node for each block with
its full transactions. For every block it inserts one row into a `blocks` table
and one row per transaction into a `transactions` table of a sqlite file. Each
failure is logged with its block height, and the walk goes on. Before the walk,
`validate_input` checks the two heights and the shape of the endpoint URL.

This project models that core:

- `validator.dfy` (module `Validator`): `validate_input` as a pure function. It
  returns `Accepted` or `Rejected(e)`, where `e` is one of the three errors the
  script raises, and `Message` gives the script's own text for each error. The
  regular expression `^https?://.*$`, applied with `re.match`, is modelled
  exactly. The scheme is lower-case only. After the scheme, `.` does not match a
  line break, and `$` also matches just before one final `\n`.
- `quantity.dfy` (module `Quantity`): Python's `hex(n)` for a height `n >= 0`
  (`Hex`). `ParseQuantity` is the canonical QUANTITY decoder (the inverse of
  `Hex`). The
  lemmas prove the round trip, injectivity, the canonical form and minimal
  length, and that only canonical strings are read back.
- `crawler.dfy` (module `Crawler`): `retrieve_transactions`.
  - The sqlite connection is the class `Database`. It has one map per table,
    keyed by the `hash` primary key, and a `committed` snapshot of what the file
    holds after `conn.commit()`.
  - An `INSERT` whose key is already present fails and changes nothing.
  - The loop is the method `RetrieveTransactions`. Its inner transaction loop is
    `InsertTransactionRows`, and the body of one `try` is `IngestBlock`.
  - `RetrieveTransactions` is proved equal to `Crawl`, `IngestBlock` to
    `Attempt`, and `InsertTransactionRows` to `InsertTransactions`. `Crawl`
    gives the tables and the error log after the first `count` heights.
  - The node is a function from the request string to an optional block;
    `None` stands for an exception raised while fetching. `ChainOf` reads it by height, so
    `ChainOf(node)(n)` is `node(Hex(n))`.
  - `ValidateThenRetrieve` is the script's entry point: it validates first and
    walks the range only if the input is accepted.

Three facts about the script shape the model:

- The script has no per-block rollback. When an insert fails, the block's row
  and its transaction rows inserted before the failure stay. They survive every
  later iteration, and the single commit after the loop makes them durable
  (`InsertTransactionsClash`, `ProcessBlockFails`, `CrawlPrefixExtends`).
- The script handles a duplicate block or transaction hash like any other
  failure. The height is logged with its cause and the walk moves on
  (`CrawlLogsFailures`, `RerunChangesNothing`).
- The script checks the endpoint's scheme case-sensitively
  (`SchemeIsCaseSensitive`).

## Model

| member | source | states |
|---|---|---|
| Validator.ValidateInput | block-crawler.py:11-19 | accepted iff both heights are non-negative, start <= end and the endpoint matches `^https?://.*$`; each of the three rejections holds exactly under its own condition, with the checks applied in the source's order (negative heights, then order, then URL) |
| Validator.Message | block-crawler.py:15-19 | the script's `ValueError` text for each of the three rejections; no contract of its own, fixed by `RangeBoundaries` for the order error |
| Validator.EndpointMatches | block-crawler.py:18 | whether `re.match(r'^https?://.*$', endpoint)` succeeds: a lower-case `http://` or `https://` prefix, then text with no line break except one final `\n`; no contract of its own, pinned down by `AnyRestAccepted`, `SchemeIsCaseSensitive` and `LineBreaksAfterScheme` |
| Validator.NegativityComesFirst | block-crawler.py:14-17 | a negative height is reported as such whatever the order of the heights or the endpoint |
| Validator.RangeBoundaries | block-crawler.py:16-17 | a one-block range `n..n` is accepted; `n+1..n` is rejected with the message "end_block must be greater than or equal to start_block" |
| Validator.AnyRestAccepted | block-crawler.py:18-19 | `http://` or `https://` followed by any text without a line break passes the URL check |
| Validator.SchemeIsCaseSensitive | block-crawler.py:18-19 | `HTTP://`, `Https://`, `ftp://` and a bare `host:port` are rejected |
| Validator.LineBreaksAfterScheme | block-crawler.py:18-19 | one trailing newline is accepted (Python `$`); a newline followed by more text is rejected |
| Quantity.Hex | block-crawler.py:55 | the request string `hex(block_number)`: `0x` and the base-16 digits of the height; no contract of its own, specified by `HexShape`, `DigitsCanonical`, `DigitsLength`, `HexRoundTrip` and `HexInjective` |
| Quantity.DigitsCanonical | block-crawler.py:55 | the digits of `hex(n)` are lower-case hex digits with no leading zero except for `0` itself, and they are `"0"` iff `n == 0` |
| Quantity.HexShape | block-crawler.py:55 | `hex(n)` is `0x` followed by at least one canonical digit, and it is `0x0` iff `n == 0` |
| Quantity.DigitsLength | block-crawler.py:55 | a positive `n` takes exactly the number of digits `k` with `16^(k-1) <= n < 16^k` |
| Quantity.ValueOfDigits | block-crawler.py:55 | the digits of `hex(n)` read back as `n` |
| Quantity.DigitsOfValue | block-crawler.py:55 | a canonical digit string is the encoding of its own value |
| Quantity.ParseQuantity | block-crawler.py:55 | a string the decoder accepts is the encoding of the value it returns |
| Quantity.ParseRefusesOnlyNonEncodings | block-crawler.py:55 | a string the decoder refuses is the encoding of no height |
| Quantity.HexRoundTrip | block-crawler.py:55 | decoding `hex(n)` gives back `n` |
| Quantity.HexInjective | block-crawler.py:55 | distinct heights give distinct requests |
| Quantity.NonCanonicalRefused | block-crawler.py:55 | upper-case digits, leading zeros, an empty digit string and a missing `0x` are refused |
| Crawler.BlockRowOf | block-crawler.py:58 | the non-key columns of the `blocks` row: number and timestamp; no contract of its own, used by `ProcessBlockSucceeds` and `CrawlStoresUnloggedBlocks` |
| Crawler.TransactionRowOf | block-crawler.py:66 | the non-key columns of a `transactions` row: block hash, block number, sender, receiver and value (in wei); no contract of its own, used by `InsertTransactionsSucceed` and `InsertTransactionRows` |
| Crawler.InsertTransactions | block-crawler.py:62-67 | the reported clashing hash is a key of the table afterwards |
| Crawler.InsertTransactionsExtends | block-crawler.py:62-67 | transaction inserts never remove or overwrite a stored row |
| Crawler.InsertTransactionsSucceed | block-crawler.py:62-67 | all inserts of a block succeed iff the hashes are new and pairwise distinct; then every transaction has its row and the key set grows by exactly those hashes |
| Crawler.InsertTransactionsClash | block-crawler.py:62-73 | on a clash at hash `h`, `h` is the hash of some transaction `k`, and the table holds exactly the rows of transactions `0..k-1` added to the old table: no rollback |
| Crawler.ProcessBlock | block-crawler.py:58-67 | processing a fetched block never reports a fetch failure |
| Crawler.ProcessBlockSucceeds | block-crawler.py:58-67 | a block is stored without error iff its hash and all its transaction hashes are new; then exactly its block row is added, every transaction has its row, and existing rows are kept |
| Crawler.EmptyBlockAddsOneRow | block-crawler.py:58-67 | a new block without transactions adds exactly its `blocks` row and no error |
| Crawler.ProcessBlockFails | block-crawler.py:58-73 | a duplicate block hash changes nothing; a duplicate transaction hash keeps the new block row and the rows of the transactions before the clash |
| Crawler.Attempt | block-crawler.py:53-73 | a fetch failure is reported iff the node returned no block |
| Crawler.AttemptExtends | block-crawler.py:53-73 | one iteration never removes or overwrites a stored row |
| Crawler.LogLine | block-crawler.py:70-73 | the log line of one height: one entry naming the height and the cause when its attempt failed, nothing otherwise; no contract of its own, specified through `CrawlLogsFailures` and `CrawlLogAscending` |
| Crawler.ChainOf | block-crawler.py:55 | the node read by height: `get_block(hex(n))` as the answer to the request `Hex(n)`; no contract of its own, used by `RetrieveTransactions`, which sends exactly those requests |
| Crawler.Crawl | block-crawler.py:52-73 | the tables and the error log after the first `count` iterations of the loop; no contract of its own, specified by `CrawlLogsFailures`, `CrawlPrefixExtends`, `CrawlExtends`, `CrawlStoresUnloggedBlocks`, `CrawlLogAscending` and `RerunChangesNothing` |
| Crawler.RangeSize | block-crawler.py:52 | `range(start, end + 1)` is empty iff `end < start`, and otherwise its last height is `end` |
| Crawler.CrawlExtends | block-crawler.py:52-76 | a whole walk never removes or overwrites a row that existed before it |
| Crawler.CrawlPrefixExtends | block-crawler.py:52-76 | rows written at any height, including the partial rows of a block that failed partway through, are kept with their contents by every later iteration up to the commit |
| Crawler.CrawlLogsFailures | block-crawler.py:52-73 | `(m, c)` is logged iff `m` is in the range and the attempt at `m`, on the tables the earlier heights left, failed with cause `c` (fetch failure, duplicate block or duplicate transaction) |
| Crawler.CrawlLogAscending | block-crawler.py:52-73 | the error log names heights of the range only, in strictly ascending order, so each at most once |
| Crawler.CrawlLogsFetchFailures | block-crawler.py:52-73 | a height is logged as a fetch failure iff it is in the range and the node has no block for it |
| Crawler.CrawlStoresUnloggedBlocks | block-crawler.py:52-67 | a height in the range that was fetched and not logged has its block row and every transaction row in the final tables |
| Crawler.RerunChangesNothing | block-crawler.py:52-73 | re-running over heights whose blocks are all stored already changes no row and logs every height in order, as a fetch failure or a duplicate block |
| Crawler.SingleEmptyBlock | block-crawler.py:52-67 | a one-height range over a new empty block stores exactly its block row and logs nothing |
| Crawler.Requests | block-crawler.py:52-55 | the walk sends one request per height of the range |
| Crawler.RequestsAt | block-crawler.py:52-55 | the `i`-th request is `hex(start + i)` |
| Crawler.RequestsDecodeAscending | block-crawler.py:52-55 | the node reads the `i`-th request as height `start + i`: every height once, ascending |
| Crawler.Database.constructor | block-crawler.py:31-49 | a new database has two empty tables, and nothing is pending |
| Crawler.Database.InsertBlock | block-crawler.py:59 | the insert succeeds iff the hash is not a key yet; on success exactly that row is added, and otherwise nothing changes |
| Crawler.Database.InsertTransaction | block-crawler.py:67 | the same for the `transactions` table |
| Crawler.Database.Commit | block-crawler.py:76 | the committed state becomes what the connection sees, and the tables are unchanged |
| Crawler.InsertTransactionRows | block-crawler.py:62-67 | the inner loop leaves the table and reports the clash exactly as `InsertTransactions` says, and touches nothing else |
| Crawler.IngestBlock | block-crawler.py:53-73 | one `try` body leaves the tables and the logged cause exactly as `Attempt` says, and commits nothing |
| Crawler.RetrieveTransactions | block-crawler.py:26-77 | the walk ends with the tables and the log given by `Crawl` over the range, sends exactly `Requests` over the range (a ghost trace), and commits everything once at the end |
| Crawler.ValidateThenRetrieve | block-crawler.py:92-93 | a rejected input sends no request and changes no row; an accepted one walks the whole range as `RetrieveTransactions` states |

## Left out

- Web3 and its HTTP provider: the node is a parameter, a function from the request string to an optional block. `None` stands for an exception raised inside `get_block` (line 55), such as a timeout or a transport error, which happens before any insert.
- Exceptions raised after the `blocks` insert other than a duplicate key are not modelled. Examples are a transaction missing the `from` or `to` key (line 66) or a store error. In the script they leave the block row and the earlier transaction rows in place and log the height, as a clash does. In the model a fetched `Transaction` always carries its fields, so only duplicate keys fail after the block insert.
- `Crawler.Database.constructor`: the sqlite file, `CREATE TABLE IF NOT EXISTS` and the column types are not modelled. The model starts from empty tables, while the script reopens an existing `db.sqlite3` as it is. The walk's contracts hold for any starting tables.
- The error log's text (`print` and `logging.error` with the exception message): each log entry records the height and a cause (`FetchFailed`, `DuplicateBlock`, `DuplicateTransaction(hash)`), not the message text.
- `tx['value']/10**18`: the model stores the raw integer value in wei, because floating-point division is out of scope.
- `.hex()` on hashes: hashes and addresses are opaque strings that are already rendered.
- The `number` and `blockNumber` columns have TEXT affinity in sqlite; the model keeps them as naturals.
- The `isinstance` checks in `validate_input` (lines 12-13): the heights are Dafny integers, so the non-integer case cannot arise.
- The command-line handling under `__main__` (argument count, `split('-')`, `int()`, and the `sqlite_file` argument, which the script never uses): not modelled. `ValidateThenRetrieve` starts from the parsed heights.
- `conn.close()` and the process exit: no observable effect on the tables.
- `Crawler.RetrieveTransactions`: it requires `start_block >= 0`, which `validate_input` guarantees before the walk runs. `ValidateThenRetrieve` covers the script's real call order.
