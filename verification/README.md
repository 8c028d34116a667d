# Hash-linked land-record ledger, modelled in Dafny

The system keeps an append-only chain of land (originally patient) records in
memory. Each record commits to its timestamp, name, uid, age, land description
and the previous record's hash. The first record, the genesis record, links to
a sentinel of 64 `'0'` characters. The chain can be searched by uid or by
index, summarised as statistics, scanned for integrity and cleared.

The model is functional. The ledger is a `seq<Record>` value, every operation
is a pure function of it (the integrity scan also has a loop method), and the
digest is a parameter `h: string -> string`. Everything proved therefore holds
for any digest function. All fields are held in their string forms, because
both hashing and uid comparison work on those forms.

Modules:

- `Wrappers`: `Option` and `Result`.
- `Chain`: `Record`, hashing, the previous-hash link, `Append` and the chain
  invariants `ValidChain`.
- `Verification`: the integrity scan, written once as a function (`Verify`)
  and once as the system's loop (`VerifyChain`), plus the tamper-detection
  results.
- `Queries`: first record by uid, history by uid, record by index, and
  statistics.
- `Service`: the form and JSON add paths with their validation, clearing, and
  the invariant that every reachable ledger verifies clean.

Two points worth knowing:

- Only the form path rejects empty values (app.py:62). The JSON path checks
  only that the four keys are present (app.py:231-234), so it accepts empty
  strings (`Service.ApiAddRecord`).
- Overwriting a stored hash in a valid ledger produces an exact report: a
  hash mismatch at that record, a broken linkage at the next one when it
  exists, and nothing else (`Verification.TamperedHashDetected`).

## Model

| member | source | states |
|---|---|---|
| Chain.ZeroHash | app.py:32 | The genesis sentinel is exactly 64 characters, each `'0'`. |
| Chain.CalculateHash | app.py:21-24 | The recomputed digest is `h` over timestamp, name, uid, age, land and previous hash, joined in that order with no separators. Overwriting the stored `hash` field never changes it. |
| Chain.PreviousHash | app.py:26-32 | The link for a new record is the stored hash of the current last record, or the 64-character all-zero sentinel when the ledger is empty. |
| Chain.NewRecord | app.py:11-32 | The new record keeps the given fields. Its previous hash is the sentinel on an empty ledger and the stored hash of the last record otherwise. Its hash is `h` over timestamp, name, uid, age, land and previous hash, concatenated in that order with no separators. Recomputing the hash from the stored fields gives the stored hash. |
| Chain.Append | app.py:66-69 | The length grows by exactly one. Earlier records are unchanged. The built record sits at index `len-1`. A ledger that satisfies the chain invariants still satisfies them after the append. |
| Verification.IssuesUpToSound | app.py:152-185 | Every issue reported while scanning records `0..n-1` has an index below n, carries that record's uid, and names a check that really fails on it. |
| Verification.IssuesUpToComplete | app.py:152-185 | Every check that fails on one of the records `0..n-1` is reported while scanning them, so the scan does not stop at the first issue. |
| Verification.IssuesUpToOrdered | app.py:152-185 | Issues from scanning records `0..n-1` are in strictly increasing (index, check) order: hash mismatch, then linkage, then genesis within one index. |
| Verification.Verify | app.py:149-191 | `is_valid` holds iff the issue list is empty. `total_blocks` equals the length. Issues are in increasing index order, and within one index in the order hash, linkage, genesis. An issue is listed iff it is a genuine defect. Linkage issues only occur at i>0 and genesis issues only at i=0. |
| Verification.VerifyChain | app.py:149-191 | The loop, with its separate `is_valid` flag and issue appends, yields exactly the report `Verify` describes. |
| Verification.ValidIffChainInvariants | app.py:149-191 | A ledger verifies as valid iff every stored hash equals its recomputed hash, every non-genesis record links to its predecessor's stored hash, and the genesis record links to the sentinel. |
| Verification.ValidChainScansEmpty | app.py:152-185 | On a ledger that satisfies the chain invariants, scanning any prefix finds no issue. |
| Verification.ValidChainVerifiesClean | app.py:187-191 | A ledger satisfying the chain invariants yields `is_valid = true`, `total_blocks = len`, and no issues. |
| Verification.ReplacementReport | app.py:156-176 | Replace one record of a valid ledger while keeping its link field. The report is then exactly a hash mismatch at that index (when the new record disagrees with its own digest), followed by a broken linkage at the next index (when its stored hash is not what the successor links to). |
| Verification.TamperedHashDetected | app.py:156-176 | Overwrite record k's stored hash with any other value. The report is then invalid. It lists a hash mismatch at k and, if record k+1 exists, a broken linkage at k+1, and nothing else. |
| Verification.TamperedFieldsDetected | app.py:156-164 | Edit record k's content fields while keeping its stored hashes, so that the digest of the new fields differs from the stored hash. The report is then exactly one hash mismatch at k. |
| Verification.BoundaryShiftUndetected | app.py:23 | The hash input has no separators, so moving characters between a record's name and uid keeps its digest. Such an edit of a valid ledger verifies clean. |
| Queries.FirstIndex | app.py:87-91 | Returns the lowest index from the starting point whose uid matches. Returns none iff no record from there on matches. |
| Queries.GetRecord | app.py:81-91 | An absent or empty query is a validation error. A usable query succeeds iff some record has that uid, and otherwise is not-found. On success the result is the lowest-index record with that uid. |
| Queries.MatchIndices | app.py:114-117 | The matching indices, strictly increasing. They are in range, carry the uid, and include every matching index. |
| Queries.GetHistory | app.py:108-122 | An absent or empty query is a validation error. A usable query succeeds iff some record has that uid, and otherwise is not-found. On success the result is the non-empty list of records at the matching indices, in ledger order. Every element carries the uid, and every matching record is included. |
| Queries.GetByIndex | app.py:212-216 | Lookup succeeds iff `0 <= index < len`, and then yields the record at that index. Otherwise the result is not-found. |
| Queries.Uids | app.py:132 | A string is in the uid set iff some record carries it. The set is no larger than the ledger. |
| Queries.GetStats | app.py:132-139 | `total_blocks` and `latest_block` both equal the length. `unique_uids` is the size of the set of uid strings (see `Uids`), so it is at most the length and positive iff the ledger is non-empty. The genesis and latest records are the first and last elements, and are absent iff the ledger is empty. |
| Queries.RecordIsHistoryHead | app.py:83-122 | The first-record lookup and the history lookup succeed and fail together, with the same error. On success, the first record is the head of the history. |
| Queries.AppendExtendsHistory | app.py:114-117 | After an append, a uid's history is its old history, extended by the new record when the uids match. |
| Queries.AppendKeepsFirstRecord | app.py:87-91 | Once a uid has a first record, appends never change it. A uid not found so far gets the appended record as its first when the uids match. |
| Queries.AppendIndexLookup | app.py:244-248 | After an append, the new record is at the reported index `len-1`. Every other index yields what it did before. |
| Queries.AppendStats | app.py:132-139 | After an append there is one more block. The distinct-uid count grows by one iff the uid is new. The genesis record is unchanged unless the ledger was empty. The latest record is the new one. |
| Service.AddRecord | app.py:56-69 | A form add fails iff some field is empty, and then with the fields-required validation error. Otherwise it appends a record with the given fields, linked to the previous last record and carrying its own correct digest, and it preserves the chain invariants. |
| Service.FirstMissing | app.py:231-234 | Returns none iff every required key is present. Otherwise it returns the first required key, in checking order, that is absent. |
| Service.ApiAddRecord | app.py:225-250 | An empty body is refused with the no-data error. A body lacking a required key is refused with a missing-field error naming the first absent key, in the order name, age, land, uid. The add succeeds iff the body is non-empty and has all four keys. On success the reported index is the old length, and the record stored there has the given values (empty strings accepted), the right link and its own correct digest. |
| Service.Step | app.py:62-69 | A clear empties the ledger, as app.py:202 does. A form or JSON add appends exactly one record iff the request is accepted: the ledger is then exactly the one the accepted add builds from the request's fields. A refused request leaves the ledger unchanged, so earlier records are never touched. Every request keeps the chain invariants. |
| Service.RunPreservesValid | app.py:18-32 | Any sequence of adds and clears keeps the chain invariants. |
| Service.ReachableVerifiesClean | app.py:146-191 | Every ledger reached from the empty one by adds and clears verifies with `is_valid = true`, `total_blocks = len` and an empty issue list. |
| Service.AppendOnlyWithoutClear | app.py:69 | Without a clear, the starting ledger stays a prefix of every later ledger, so no record is ever changed or removed. |
| Service.ClearResets | app.py:198-203 | After a clear, from any state (even a tampered one), the scan is valid over zero blocks and the statistics are all empty. Clearing again changes nothing. |
| Service.ScenarioUids | app.py:132 | A three-record ledger with uids X, Y, X counts two distinct uids. |
| Service.LookupScenario | app.py:87-122 | With uids X, Y, X, looking up X returns record 0. The history of X is records 0 and 2, in that order. An absent uid is not found. Two distinct uids are counted. |
| Service.ThreeRecordScenario | app.py:132-191 | Three form adds with uids X, Y, X, starting from the empty ledger, give three blocks, two distinct uids and a clean scan. |

## Left out

- SHA-256 and its hex encoding: the digest is the parameter `h`. Nothing assumes collision resistance, and nothing claims that editing a field changes the digest. `TamperedFieldsDetected` takes the digest change as a premise.
- `datetime.now()`: the timestamp is an opaque string argument. Its `str()` and ISO-8601 renderings (`to_dict`, `api_get_blockchain`) are not modelled, because they are presentation.
- Flask routing, request parsing, templates, redirects, HTTP status codes and message strings: error outcomes are the `Failure` datatype instead.
- The `except Exception` paths that return 500. The model's JSON input is an object whose values are strings free of lone surrogates, and inputs outside that domain have no counterpart. Three such inputs are not modelled. A missing form key raises `KeyError`. A non-string JSON `name` or `land` makes the concatenation at app.py:23 raise `TypeError`. A value holding an escaped lone surrogate such as `"\ud800"` makes `encode()` at app.py:24 raise `UnicodeEncodeError`, and Dafny's `char` cannot hold a surrogate. In each case the source answers 500 and appends nothing.
- JSON bodies that are not objects: a falsy one (`null`, `[]`, `""`, `0`, `false`) gets the same no-data refusal as the empty object, which the model covers (app.py:227-228). A non-empty list or string is tested with `in` by membership or substring (app.py:233), so one lacking `"name"` gets the missing-field refusal. These bodies are not modelled, because the model's body type is a map.
- Service.ApiAddRecord: "succeeds iff the body is non-empty and has all four keys" holds only in the domain above. A surrogate-bearing value would make the source fail with 500 instead.
- JSON values are modelled by their string forms. The uid and age go through `str()` in hashing and comparison, so this is exact for them. For name and land, only string values are accepted by the source.
- The global mutable list, and concurrent access from request threads: the ledger is an explicit value passed to and returned from each operation. Verification is a pure function, so it cannot change the ledger.
- `view_blockchain` and `api_get_blockchain` return the whole ledger unchanged and are not modelled separately.
- The commented-out sample data and `app.run`.
