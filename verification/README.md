# Medical-record integrity ledger: a Dafny model

This project models the core of a small medical-record service written in
Python. The service keeps an append-only, hash-chained ledger of patient
events and mirrors each new block to a spreadsheet-backed store (the
"cloud"). It can also check that cloud copy for tampering.

The model has two parts.

- **The ledger** (`blockchain.py`).
  - A `Block` holds eight content fields and a stored `current_hash`. That
    hash is computed once, when the block is built.
  - A `Blockchain` starts with a fixed genesis block and grows only by
    appending at the tail.
  - `is_chain_valid` walks blocks 1..n-1. For each one it checks the
    `prev_hash` link and then the recomputed hash.
- **The handlers' decision logic** (`app.py`).
  - For `POST /add_data`: the required-field check, the `tanggal` default,
    the append, the classification of the mirror's reply and the 201/500
    status rule.
  - For `GET /detect_cloud_tampering`: the local-validity gate, indexing
    both sides by `block_id`, and the difference list with its `tampered`
    verdict.

SHA-256 over `json.dumps(..., sort_keys=True)` is not modelled. Every
ledger operation takes the digest as a parameter `H: Content -> string`, so
each property holds for any digest. The tamper-detection lemmas also
assume `Injective(H)` (no collisions). They state that assumption as a
`requires`.

Files and modules:

| file | module | models |
|---|---|---|
| `wrappers.dfy` | `Wrappers` | `Option` (Python's `None` or a value) |
| `ordered_dict.dfy` | `OrderedDict` | insertion-ordered `dict` assignment |
| `text.dfy` | `Text` | `str.strip()` and `str.isspace()` |
| `ledger.dfy` | `Ledger` | `blockchain.py` |
| `ledger_props.dfy` | `LedgerProps` | invariants and tamper detection of the ledger |
| `add_data.dfy` | `AddData` | the `add_data` handler body |
| `reconcile.dfy` | `Reconcile` | the `detect_cloud_tampering` handler body |
| `reconcile_props.dfy` | `ReconcileProps` | what the difference list contains |

Three behaviours of the code that a reader might not expect, all modelled
as written:

- **Comparing `tanggal`.** Every compared field, `tanggal` included, is
  compared as a raw string, with no timezone normalisation
  (app.py:208-211).
- **Mirror replies that are JSON but not an object.** A 200 reply whose
  JSON is not an object counts as a successful sync, like an unparsable
  body, because `js.get` then raises inside the same `try` that catches
  parse failures (app.py:96-104; `AddData.Accepted`).
- **Deleting blocks.** `is_chain_valid` compares only neighbours and checks
  neither block ids nor the block at index 0. Dropping blocks from the tail
  (`LedgerProps.TruncationUndetected`) or from the head, the genesis block
  included (`LedgerProps.HeadDeletionUndetected`), goes unnoticed. Only
  deleting a block strictly inside the chain is caught, given a
  collision-free digest (`LedgerProps.DeletionDetected`).
- **Inserting blocks.** Inserting a block strictly inside a well-formed
  chain is caught, given a collision-free digest
  (`LedgerProps.InsertionDetected`). A block put in front of the chain with
  stored hash "0" (`LedgerProps.HeadInsertionUndetected`), or a sealed block
  linked to the tail, whatever its `block_id`
  (`LedgerProps.TailForgeryUndetected`), goes unnoticed.

## Model

| member | source | states |
|---|---|---|
| `Ledger.NewBlock` | blockchain.py:8-27 | The built block carries exactly the given eight content fields. Its stored hash equals the digest of those eight fields and nothing else. |
| `Ledger.ToDict` | blockchain.py:29-40 | The dictionary holds `block_id` and exactly the eight string keys. Each key maps to the block's value for that field. |
| `Ledger.ToDictInjective` | blockchain.py:29-40 | The dictionary loses nothing: two blocks with equal dictionaries are equal. |
| `Ledger.CalculateHashCoversContent` | blockchain.py:42-57 | The recomputed digest depends on the eight content fields only: blocks with equal content get the same digest, and the stored hash never affects it. With a collision-free digest, two blocks get the same digest iff their content is equal. |
| `Ledger.GenesisBlock` | blockchain.py:72-82 | The genesis block has id 0, `prev_hash` "0", the sentinels GENESIS / GENESIS_CLINIC / GENESIS_BLOCK / "-" / "-", and the clock reading as `tanggal`. It is sealed with the digest of that content. |
| `Ledger.CreateGenesisBlock` | blockchain.py:65-83 | On a non-empty chain nothing changes. On an empty chain the result is exactly the genesis block. |
| `Ledger.NewBlockchain` | blockchain.py:61-63 | A new chain has length 1. Its only block is the genesis block, and its ids equal their positions. |
| `Ledger.AddBlock` | blockchain.py:85-115 | The chain grows by exactly one block and every earlier block is unchanged. The new tail is the returned block. Its id is the old tail's id + 1 and its `prev_hash` is the old tail's stored hash. It carries the caller's six fields and is sealed. |
| `Ledger.ToListOfDicts` | blockchain.py:117-118 | One dictionary per block, in chain order, each the block's `to_dict`. |
| `Ledger.VerifyFrom` | blockchain.py:127-138 | From index i on, the result is Valid iff every block passes the link check and the hash check. Otherwise it is the first failing block's report: `PrevHashMismatch` if its link is broken, else `HashMismatch`, naming that block's id. |
| `Ledger.IsChainValid` | blockchain.py:120-140 | Valid iff every block at index 1..n-1 passes both checks; the empty chain is valid. Otherwise it reports the first failing block, link before hash. Index 0 is never checked. |
| `LedgerProps.Build` | blockchain.py:61-115 | The chain after the constructor and k appends has k+1 blocks and starts with the genesis block. |
| `LedgerProps.AddBlockPreservesValid` | blockchain.py:100-115 | Appending to a valid chain gives a valid chain. |
| `LedgerProps.AddBlockPreservesIds` | blockchain.py:74-114 | Appending keeps block ids equal to positions 0..n-1. |
| `LedgerProps.BuildWellFormed` | blockchain.py:61-140 | Every chain built by the constructor and any sequence of appends has contiguous ids and only sealed blocks, and `is_chain_valid` returns Valid for it. Block i+1 carries the i-th appended entry. |
| `LedgerProps.TamperedContentDetected` | blockchain.py:131-138 | In a valid chain, suppose block i ≥ 1 gets different content, keeps its `prev_hash` and keeps its old stored hash. If the digest is injective, `is_chain_valid` reports `HashMismatch` at that block. |
| `LedgerProps.TamperedFieldDetected` | blockchain.py:131-138 | The same for changing one named field other than `prev_hash` and `current_hash`. |
| `LedgerProps.PrevHashTamperDetected` | blockchain.py:131-133 | Rewriting the `prev_hash` of block i ≥ 1 in a valid chain gives `PrevHashMismatch` at that block, whatever the digest. |
| `LedgerProps.StoredHashTamperDetected` | blockchain.py:131-138 | Overwriting the stored hash of block i ≥ 1 in a valid chain keeps its link check passing and gives `HashMismatch` at that block, whatever the digest. |
| `LedgerProps.DistinctHashes` | blockchain.py:42-57 | In a well-formed chain with an injective digest, blocks at different positions store different hashes. |
| `LedgerProps.DeletionDetected` | blockchain.py:127-133 | In a well-formed chain with a collision-free digest, removing a block that is neither the genesis block nor the tail gives `PrevHashMismatch` at the block that followed it. |
| `LedgerProps.SwapDetected` | blockchain.py:127-133 | In a well-formed chain with a collision-free digest, exchanging two blocks after the genesis block gives `PrevHashMismatch` at the earlier position. |
| `LedgerProps.InsertionDetected` | blockchain.py:127-138 | In a well-formed chain with a collision-free digest, inserting any block at a position i with 1 ≤ i < n is never reported valid; at position 1 this needs the genesis block's stored hash to differ from "0". |
| `LedgerProps.HeadInsertionUndetected` | blockchain.py:127-140 | Putting any block with stored hash "0" in front of a well-formed chain leaves it reported valid. |
| `LedgerProps.TailForgeryUndetected` | blockchain.py:127-140 | Appending to a valid chain any sealed block whose `prev_hash` is the tail's stored hash leaves it reported valid, whatever its `block_id`. |
| `LedgerProps.TruncationUndetected` | blockchain.py:127-140 | Every prefix of a valid chain is reported valid. |
| `LedgerProps.HeadDeletionUndetected` | blockchain.py:127-140 | Every suffix of a valid chain is reported valid, so removing the genesis block or any run of blocks at the head goes unnoticed. |
| `LedgerProps.GenesisContentUnchecked` | blockchain.py:127-129 | Replacing the genesis block with any block that stores the same hash does not change the verdict. |
| `LedgerProps.FirstFailureIndex` | blockchain.py:127-138 | An invalid chain has a first failing block, at some index ≥ 1. |
| `Text.Strip` | app.py:58 | `s.strip()` is a slice of `s` with only whitespace cut from either end. It is empty iff every character of `s` is whitespace; otherwise it starts and ends with a non-whitespace character. |
| `AddData.FirstUnfilled` | app.py:49-59 | Scanning the listed fields from position i: no result iff every one is present, not null and not blank. Otherwise the result is the position of the first field that fails, and every field before it (from i) passes. |
| `AddData.ResolveTanggal` | app.py:67-69 | A present, non-null, non-empty `tanggal` passes through unchanged and unstripped. Any other `tanggal` is replaced by the clock reading. |
| `AddData.ClassifySync` | app.py:84-109 | The sync succeeded iff the reply is HTTP 200 and its body is not a JSON object whose `status` differs from "success". Exactly one of success and a captured error holds. The reply's status and text are kept when there was a reply. |
| `AddData.SyncStatusIs500IffFailed` | app.py:84-120 | For every mirror outcome the status is 201 or 500, and it is 500 exactly when the sync did not succeed. |
| `AddData.AddRecord` | app.py:49-121 | For a JSON object body: a missing, null or blank required field gives 400 naming the first such field, in the order patient_id, clinic_name, diagnosis, treatment, doctor, and leaves the chain unchanged. Otherwise the block is appended whatever the sync outcome. It carries the request's fields and the resolved `tanggal`, and the response holds its dictionary and the sync classification. |
| `AddData.HandleAddData` | app.py:42-121 | A non-JSON or `null` body gives 415. A number or boolean body, or an array or string containing "patient_id", raises. Any other array or string gives 400 naming `patient_id`. An object is handled as `AddRecord` says. Only an object body with every required field filled changes the chain. The status is 500 iff the handler raised or the sync failed. |
| `OrderedDict.Put` | app.py:183 | Assigning to a key already present keeps its place in the iteration order and replaces its value. A new key goes to the end of the order. |
| `Reconcile.ChainMap` | app.py:174-175 | Indexing the local dictionaries gives an insertion-ordered dictionary whose order lists each key once. |
| `Reconcile.CloudMap` | app.py:177-183 | Indexing the mirror rows gives an insertion-ordered dictionary whose order lists each key once. |
| `Reconcile.DetectCloudTampering` | app.py:148-236 | An invalid local chain gives 400 with the verification failure and no comparison. A valid chain whose dump was not received and parsed gives 500. Otherwise the answer is 200 and the report holds the difference list against the dump, and `tampered` is true iff that list is non-empty. |
| `ReconcileProps.ChainMapKeys` | app.py:174-175 | The local index holds exactly the local block ids. |
| `ReconcileProps.ChainMapLastWins` | app.py:174-175 | Each local id maps to the last dictionary carrying it. |
| `ReconcileProps.CloudMapKeys` | app.py:177-183 | The mirror index holds exactly the ids that parse. Rows whose `block_id` does not parse are ignored. |
| `ReconcileProps.CloudMapLastWins` | app.py:177-183 | For a repeated id the later row wins. |
| `ReconcileProps.FieldMismatchesMembers` | app.py:202-218 | The field loop reports exactly the compared fields whose string values differ, with both values. A missing member reads as "". |
| `ReconcileProps.BlockFindingsMembers` | app.py:188-218 | For one local block: nothing for id 0; exactly `missing_in_cloud` if the mirror lacks the id; otherwise exactly the field mismatches. |
| `ReconcileProps.LocalFindingsMembers` | app.py:188-218 | The first loop reports exactly the expected `missing_in_cloud` and `data_mismatch` findings for the ids it walks, and never `extra_in_cloud`. |
| `ReconcileProps.ExtraFindingsMembers` | app.py:220-227 | The second loop reports exactly the mirror ids that are neither local nor 0. |
| `ReconcileProps.FieldMismatchesDistinct` | app.py:202-218 | The field loop never reports the same field twice. |
| `ReconcileProps.BlockFindingsDistinct` | app.py:188-218 | The findings for one block never repeat a (kind, id, field). |
| `ReconcileProps.LocalFindingsDistinct` | app.py:188-218 | The first loop never repeats a (kind, id, field). |
| `ReconcileProps.ExtraFindingsDistinct` | app.py:220-227 | The second loop never repeats an id. |
| `ReconcileProps.DifferencesMembers` | app.py:185-227 | The list holds exactly the expected findings. That is a `missing_in_cloud` for each local id ≠ 0 absent from the mirror, a `data_mismatch` for each differing field of a local id ≠ 0 present in the mirror, and an `extra_in_cloud` for each mirror id ≠ 0 absent locally. Block id 0 never occurs. |
| `ReconcileProps.DifferencesDistinct` | app.py:185-227 | No (kind, id, field) occurs twice in the list, so each expected finding occurs exactly once. |
| `ReconcileProps.MissingBlockReportedOnce` | app.py:193-200 | A local id ≠ 0 that no row parses to is reported as `missing_in_cloud`. It is the only finding for that id, so there are no field findings for it. |
| `ReconcileProps.ExtraBlockReported` | app.py:220-227 | A parsed mirror id that is neither local nor 0 is reported as `extra_in_cloud`, and it is the only finding for that id. |
| `ReconcileProps.FieldDifferenceReported` | app.py:202-218 | For a local block and the mirror row indexed under the same id ≠ 0, a field gets a `data_mismatch` iff its values differ. There is then exactly one, carrying both values. |
| `ReconcileProps.MirrorIndexesAlike` | app.py:174-183 | Indexing a faithful mirror gives the same ids in the same order with the same field values as indexing the local dictionaries. |
| `ReconcileProps.MirrorHasNoDifferences` | app.py:185-229 | A mirror whose rows equal the local dictionaries yields an empty difference list. |
| `ReconcileProps.FaithfulMirrorNotTampered` | app.py:148-236 | A valid chain checked against a faithful mirror dump is reported with `tampered = false` and no differences. |

## Left out

- The Flask layer (routing, `jsonify`, `request.get_json`, `app.run`, the
  `/`, `/get_chain` and `/verify_chain` endpoints) is framework I/O. The
  handler bodies are modelled as functions of already-decoded values. The
  framework's 500 answer to an uncaught exception is taken as given.
- `requests.post` and `requests.get`, their timeouts and `resp.json()` are
  network I/O. Their outcomes are parameters (`AddData.PostOutcome`,
  `Reconcile.FetchOutcome`).
- SHA-256 and the byte encoding of `json.dumps` are library calls. They
  are the parameter `H`. Collision-freedom is assumed only where a lemma
  says `requires Injective(H)`.
- `datetime.now()` is a clock. Its formatted reading is the parameter
  `now`.
- `config.py` (the mirror's URLs) is not part of this model. It is
  configuration only.
- Python's `int()` on a row's `block_id` is abstracted to `Option<int>`.
  The model does not decide which texts or numbers parse, nor that `int()`
  truncates floats.
- `Reconcile.DetectCloudTampering`: a dump row whose `block_id` decodes to an
  infinite float (JSON `1e999` or `Infinity`) makes `int()` at app.py:180
  raise `OverflowError`, which the `except (TypeError, ValueError)` does not
  catch, so the handler fails with 500. `CloudRow` cannot express such a
  row, and the 200 promised for every parsed dump does not cover it.
- JSON values other than `null` are represented by their `str()` text
  (`AddData.Value`, `Reconcile.CloudRow`). So a non-string request field
  reaches the block as that text, not as the original JSON value whose
  encoding the digest would see. Falsy non-string values of `tanggal` such
  as `0` or `false` are not represented.
- A mirror dump that parses to something other than a list of objects
  makes the handler raise outside its `try`, except `{}` and `""`: the loop
  over rows (app.py:178) runs zero times on them, so they behave like an
  empty dump (`Some([])`). The raising cases are not represented: a parsed
  dump is always a sequence of rows.
- The default `prev_hash=""` of `Block.__init__` (blockchain.py:17) is not
  modelled: `Ledger.NewBlock` always takes all eight content fields. No
  caller in `blockchain.py` or `app.py` omits it.
- The human-readable messages and the 415/400/500 response bodies are
  reduced to typed results (`NotJson`, `MissingField`, `Raised`, `PrevHashMismatch`,
  `HashMismatch`, `FetchFailed`, the `Finding` constructors).
- Concurrent requests against the shared module-level chain are not
  modelled. Each handler is one atomic step from one chain to the next.
- `Ledger.GetLastBlock` requires a non-empty chain, as Python's
  `chain[-1]` does. Every chain reachable through the constructor is
  non-empty.
