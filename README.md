# Provenance ledger of the cold-chain traceability backend

This project models the per-product hash-chained provenance log of the
cold-chain traceability backend (`service/blockchain_service.go`). Each
product SKU has a chain of `BlockchainLog` rows. A row records one event:
record type 1 is product approved, 2 is a logistics update, 3 is a custody
transfer. Each row carries the event's serialized data, its own hash, the
previous row's hash, a height and a creation time.

- `hashing.dfy` (module `Hashing`): `generateHash`, the digest of the plain
  concatenation `data + previousHash + timestamp`. The digest (SHA-256, then
  hex) is a function-typed parameter `h`. Collision freedom is the predicate
  `Injective(h)`, required only by the lemmas that need it.
- `chain.dfy` (module `Chain`): the `Block` row, the checks the verification
  walk makes (`LinkHolds`, `HashMatches`, `ChainValid`), the first failing
  position (`FirstBadFrom`/`FirstBad`), the report (`NotFound`, `Intact`,
  `Broken`), and `VerifyChain`. `VerifyChain` is the source's verification
  loop: a running previous hash, and a `break` at the first failure.
- `ledger.dfy` (module `Ledger`): the class `Ledger`, whose field `chains`
  maps each SKU to its rows. `AddToBlockchain` reads the tail, derives the
  previous hash and height, hashes, and appends one row. `VerifyBlockchain`
  runs the walk on the stored chain. The pure `Replay` builds the chain that
  a sequence of appends produces.
- `tamper.dfy` (module `Tamper`): what verification does and does not detect
  when a stored row is edited after it was written.

The clock, the outcome of the "latest block" query (`queryFails`) and the
outcome of the row insert (`writeOk`) are parameters of `AddToBlockchain`.

Behaviour of the source that the model keeps and proves:
- The tail query treats every error as "no previous block", not only "not
  found" (`result.Error == nil` at service/blockchain_service.go:33). So a
  failed query on a SKU that has rows starts a second first block with height
  1 and an empty previous hash. `QueryFailureBreaksChain` shows that the chain
  then no longer verifies.
- The hash input has no field delimiters. `BoundaryAmbiguity` shows two
  different field triples with equal hashes. `GenesisShiftUndetected` shows
  the same at the level of strings: moving a character from the first row's
  data into its timestamp text goes unseen. Stored timestamps have a fixed
  format, so that particular edit cannot be stored.
- Verification never reads `RecordType` or `BlockHeight`.
  `UncheckedEditInvisible` shows that edits to those fields leave the verdict
  unchanged.
- The rows of a chain are selected by `product_sku`
  (service/blockchain_service.go:73). Editing a row's SKU to one that differs
  under the column's collation therefore takes it out of its chain.
  `SkuEditDetected` shows that verification reports the row after the gap.
  `TailSkuEditUndetected` shows that removing the last row this way goes
  unseen.

Two idealisations:
- Chain order. The source orders a SKU's rows by `created_at`. The model
  keeps them in the stored (append) order.
- Timestamps. The source hashes `time.Now()` at append but recomputes with
  the database-assigned `CreatedAt` at verification. The model stores one
  timestamp per row (`createdAt`, as the text `time.Time.String()` gives) and
  uses it in both places. The cost: `time.Now().String()` carries a monotonic
  clock suffix (`m=+…`) that the stored `CreatedAt` never renders, so in the
  source a freshly appended chain already fails at position 1. `ReplayVerifies`
  and `TwoAppendScenario` hold only for the idealised single timestamp.

## Model

| member | source | states |
|---|---|---|
| Hashing.SameConcatenationSameHash | service/blockchain_service.go:16-20 | the hash is a function of the single concatenated string, so equal concatenations give equal hashes |
| Hashing.BoundaryAmbiguity | service/blockchain_service.go:16-20 | two different (data, previous hash) pairs hash alike for every digest and timestamp: field boundaries are ambiguous |
| Hashing.HashDeterminesData | service/blockchain_service.go:16-20 | under a collision-free digest, with previous hash and timestamp fixed, the hashes are equal iff the data are equal |
| Hashing.HashDeterminesPreviousHash | service/blockchain_service.go:16-20 | under a collision-free digest, with data and timestamp fixed, the hashes are equal iff the previous hashes are equal |
| Hashing.HashDeterminesTimestamp | service/blockchain_service.go:16-20 | under a collision-free digest, with data and previous hash fixed, the hashes are equal iff the timestamps are equal |
| Chain.FirstBadFrom | service/blockchain_service.go:98-124 | none iff every block from `start` on passes its link and hash checks; otherwise the smallest failing position, with all earlier ones passing |
| Chain.FirstBadIsFirstFailure | service/blockchain_service.go:98-124 | a failing position with every earlier one passing is the first failure, and the report names it 1-based |
| Chain.VerifyChain | service/blockchain_service.go:85-146 | not found iff the chain is empty; intact with total = length iff every link and recomputed hash holds; otherwise invalid_block = first failing index + 1, and every earlier block passes |
| Ledger.AppendPreservesWellFormed | service/blockchain_service.go:29-50 | appending the row derived from the tail keeps every link, every hash and the heights 1..n |
| Ledger.ReplayWellFormed | service/blockchain_service.go:23-58 | a chain built only by appends from nothing has one row per append, passes every check, and has heights 1..n |
| Ledger.ReplayVerifies | service/blockchain_service.go:23-124 | a chain built only by appends verifies as intact with one row per append, or not found when nothing was appended |
| Ledger.QueryFailureBreaksChain | service/blockchain_service.go:29-36 | a failed tail query on a well-formed non-empty chain appends a row at height 1 with an empty previous hash, and verification reports that row |
| Ledger.Ledger.AddToBlockchain | service/blockchain_service.go:23-58 | write failure: returns the error and adds nothing; otherwise it appends exactly one row and returns its hash. The row's previous hash and height are empty and 1 with no tail, else the tail's hash and height + 1. Its hash matches its fields. Other SKUs are unchanged, and a well-formed store stays well formed when the tail query succeeds |
| Ledger.Ledger.VerifyBlockchain | service/blockchain_service.go:71-146 | the report of the walk over the SKU's stored rows: not found iff it has none, and intact when the store is well formed |
| Tamper.SamePassesSameReport | service/blockchain_service.go:98-124 | the verdict depends only on which positions pass their checks |
| Tamper.PrefixUnaffected | service/blockchain_service.go:98-124 | replacing row k leaves the checks of every earlier row as they were |
| Tamper.SingleEditDetected | service/blockchain_service.go:98-124 | in a valid chain, under a collision-free digest, changing row k's data, previous hash, hash or timestamp, with the row kept in its place, makes verification report exactly position k + 1 |
| Tamper.TimestampEditMovesRowFirst | service/blockchain_service.go:73-124 | in a valid chain, a timestamp edit that sorts row k (k > 0) to the front of the walk is reported at position 1 |
| Tamper.UncheckedEditInvisible | service/blockchain_service.go:98-124 | editing a row's record type or height never changes the verdict |
| Tamper.SkuEditDetected | service/blockchain_service.go:73-124 | in a valid chain, a row moved out by a SKU edit, not the last and with a hash the next row cannot link past, makes verification report position k + 1 of the shorter chain |
| Tamper.TailSkuEditUndetected | service/blockchain_service.go:73-124 | in a valid chain of two or more rows, moving the last row out by a SKU edit leaves an intact chain one shorter |
| Tamper.BadHashBoundsReport | service/blockchain_service.go:115-121 | a row whose stored hash does not match its fields makes verification fail at that row or earlier |
| Tamper.DataEditBoundsReport | service/blockchain_service.go:115-121 | under a collision-free digest, editing a correctly hashed row's data makes verification fail at that row or earlier, even when earlier rows were edited too |
| Tamper.GenesisShiftUndetected | service/blockchain_service.go:16-20 | at the level of strings, moving the last character of the first row's data into its timestamp text changes the row but leaves a valid chain's intact verdict unchanged |
| Tamper.TwoAppendScenario | service/blockchain_service.go:23-124 | two appends verify as intact with 2 blocks; overwriting the second row's data without rehashing is reported at position 2 |

## Left out

- HTTP handling in `VerifyBlockchain` and `GetBlockchainData` is not modelled: the missing-SKU 400 answer, the 500 answer when the row query fails, and the JSON responses. `GetBlockchainData` itself is not modelled either.
- The gorm/MySQL layer is replaced by an in-memory map. gorm's `ID`, `UpdatedAt` and soft-delete `DeletedAt` columns are not modelled, and no row is ever deleted.
- SHA-256 and hex encoding are the parameter `h`. `time.Time.String()` rendering is not modelled: a timestamp is its rendered text.
- The hash is taken over `time.Now()` but recomputed over `CreatedAt`. The model uses one stored timestamp for both, so it does not capture a mismatch between the two times.
- Ordering by `created_at` is modelled as append order. Ties and clock skew in `created_at` are not modelled.
- Two concurrent appends racing on the same tail are not modelled: appends are sequential.
- `BlockHeight` is an unbounded integer: int64 overflow is not modelled.
- Payloads are opaque strings. The JSON marshalling done by callers is not modelled, and neither are the callers ignoring the returned error.
- `RecordType` is stored as given. The service does not check it, and neither does the model.
- Tamper.GenesisShiftUndetected: holds only for timestamps as free text. The source renders a stored DATETIME in a fixed format that starts with a four-digit year, so the shifted timestamp cannot be stored.
- Tamper.SingleEditDetected: keeps the edited row at its position. In the source a timestamp edit also reorders the rows, because the walk sorts by `created_at`; an edit that moves the row earlier is reported at its new place or before (`Tamper.TimestampEditMovesRowFirst` proves the case of a move to the front).
- SKU matching: the model compares SKUs exactly, as map keys. MySQL matches `product_sku` under the column's collation, which is case-insensitive by default (only `charset=utf8mb4` is set in configs/mysql.go), so in the source SKUs that differ only in letter case share one chain.
- Ledger.Ledger.AddToBlockchain: "other SKUs unchanged" and the per-chain SKU clause of `WellFormedChain` hold in the source only for SKUs that differ under the collation; an append spelled "PAB" extends the chain stored as "Pab" there, but starts a new chain in the model.
