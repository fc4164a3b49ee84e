# Offline redemption processor — verified model

This project models the core of the offline batch verifier of the
challenge-bypass token scheme (`tools/offline-processor/src/main.rs`). The
program reads a `;`-delimited file of token redemption records, checks each
record's credential against a table of issuer signing keys, and writes the
correlation fields `id,payment_id,timestamp` of every record to a success
ledger or to a failure ledger.

The model has six modules: `Wrappers` holds the Option and Result datatypes
the others use, and the remaining five follow the parts of that program:

- `Escaping`: the two chained `replace` passes that unescape the credential
  column before its JSON is parsed, and the matching encoder.
- `KeyTable`: building the issuer key table from the raw key strings. The
  first key that does not decode aborts the build. Each key is stored under
  the public key id derived from it, and a later key with the same id
  replaces an earlier one.
- `Verification`: the record types and the job a worker runs on one record.
  The job copies the correlation fields and looks up the issuer. It rejects
  a record whose issuer is unknown, and otherwise passes the record exactly
  when the signature verifies.
- `Collector`: the loop that drains `num_jobs` results and appends each
  line to one of the two ledgers, with lemmas about the ledgers' contents.
- `Batch`: the dispatch loop that counts jobs, the channel as an arbitrary
  arrival order, and the whole run from key table to ledgers.

Cryptography is kept abstract. Decoding a signing key, encoding its public
key and verifying a signature are function parameters (`decode`,
`publicKeyOf`, `verify`), and the signing key type is a type parameter `K`.
The thread pool and the channel only decide the order in which results
reach the collector. That order is a parameter (`schedule`), and the
ledger contents are proved the same, as multisets, for every order.

The credential column escapes the comma, not the outer `;` delimiter
(`tools/offline-processor/src/main.rs:95`); the escapes are `\,` and `\\`.

## Model

| member | source | states |
|---|---|---|
| `Escaping.Replace` | tools/offline-processor/src/main.rs:64 | `str::replace` with a non-empty pattern, left to right and non-overlapping. The result is no longer than the input when the replacement is no longer than the pattern. A string that does not contain the pattern's first character comes back unchanged. |
| `Escaping.Unescape` | tools/offline-processor/src/main.rs:64 | The two passes in the source's order (comma pass, then backslash pass). The output is never longer than the input. A column without a backslash is returned unchanged. |
| `Escaping.UnescapeCommasOfEscapeCommas` | tools/offline-processor/src/main.rs:64 | The decoder's `\,` to `,` pass undoes "prefix every comma with a backslash" for every string, including strings that hold backslashes. |
| `Escaping.CollapseOfDoubled` | tools/offline-processor/src/main.rs:64 | The decoder's `\\` to `\` pass undoes "double every backslash". |
| `Escaping.UnescapeEscape` | tools/offline-processor/src/main.rs:57-66 | Round trip: unescaping the encoded column gives back the original text exactly, commas and backslashes included. |
| `Escaping.EscapeInjective` | tools/offline-processor/src/main.rs:64 | Two different columns never share an encoding, so the decoder can tell them apart. |
| `KeyTable.BuildKeyTable` | tools/offline-processor/src/main.rs:78-86 | The build succeeds iff every key decodes. On failure it names the first key that did not decode, every key before it decodes, and no table exists. Every entry is stored under the public key id derived from its own key. |
| `KeyTable.KeyTableContents` | tools/offline-processor/src/main.rs:81-85 | A successful table has exactly the derived ids of the supplied keys as its keys, never a raw input string. Under each id it holds the last supplied key that derives that id. |
| `Verification.Correlation` | tools/offline-processor/src/main.rs:109-113 | The `OutRecord` a worker builds holds the record's id, payment id and timestamp, copied unchanged. |
| `Verification.Check` | tools/offline-processor/src/main.rs:115-132 | A public key missing from the table gives "unknown issuer", whatever the signature. A present key gives "verified" iff `verify(issuer, t, payload, signature)` holds, and "signature mismatch" otherwise. The verdict reads only the credential column, so it cannot depend on id, payment id or timestamp. |
| `Verification.RunJob` | tools/offline-processor/src/main.rs:108-134 | The job's result carries id, payment id and timestamp copied unchanged. It is a pass iff the issuer is present and the signature verifies. |
| `Collector.LedgerLine` | tools/offline-processor/src/main.rs:144 | The line is the three correlation fields joined by commas, followed by a newline: its length is the fields' lengths plus three, a comma follows the id and the payment id, and it ends in `\n`. When a line can be read back is stated by `Collector.LedgerLineInjective`. |
| `Collector.Collect` | tools/offline-processor/src/main.rs:143-149 | After draining the first `num_jobs` arrivals, the success ledger holds the lines of the passed results and the failure ledger those of the failed results, each in arrival order. |
| `Collector.RoutedToOne` | tools/offline-processor/src/main.rs:145-147 | The `match` on a result sends its line to exactly one of the two ledgers: the ledger for its own outcome receives exactly its line and the other ledger receives nothing, so a passed result's line goes to the success ledger and a failed one's to the failure ledger. |
| `Collector.AllLinesAt` | tools/offline-processor/src/main.rs:144 | Position `i` of the list of all result lines is the `id,payment_id,timestamp` line of the `i`-th result. |
| `Collector.LedgersPartition` | tools/offline-processor/src/main.rs:143-148 | The two ledgers together hold every result's line exactly once: the sizes add up to the number of results, and the multiset union equals the multiset of all lines. |
| `Collector.LedgerLineDestination` | tools/offline-processor/src/main.rs:145-147 | Each result's line is in the ledger that matches its outcome. |
| `Collector.LedgerLineOrigin` | tools/offline-processor/src/main.rs:145-147 | A line is in a ledger only if some result with that ledger's outcome carries it. |
| `Collector.LedgerAppend` | tools/offline-processor/src/main.rs:143-148 | Results collected one batch after another give each ledger's lines one batch after another. |
| `Collector.LedgerOrderIndependent` | tools/offline-processor/src/main.rs:143-148 | Two arrival orders of the same results give each ledger the same multiset of lines. |
| `Collector.LedgerLineInjective` | tools/offline-processor/src/main.rs:144 | If id and payment id hold no comma, equal `id,payment_id,timestamp` lines come from equal correlation fields, so a line identifies its record. |
| `Batch.Jobs` | tools/offline-processor/src/main.rs:102-135 | One job result per input record, in submission order, each being that record's job. |
| `Batch.Dispatch` | tools/offline-processor/src/main.rs:101-136 | `num_jobs` ends equal to the number of input records, and one job per record has been submitted. |
| `Batch.Arrivals` | tools/offline-processor/src/main.rs:143 | Under any schedule, the channel delivers every pending result exactly once: the arrivals are a permutation of the results. |
| `Batch.EveryOrderIsScheduled` | tools/offline-processor/src/main.rs:143 | Every rearrangement of the pending results is the arrival order of a schedule, which the lemma returns, so the schedules cover every order in which the channel can deliver. |
| `Batch.RunBatch` | tools/offline-processor/src/main.rs:101-149 | For every schedule, and so for every arrival order (`Batch.EveryOrderIsScheduled`), `num_jobs` is the number of records and the ledger sizes add up to it. Each ledger's multiset of lines equals the one obtained in submission order. Both ledgers together hold, as a multiset, exactly one line per input record (`Batch.JobLinesAreRecordLines` gives record `i`'s line). |
| `Batch.ProcessRedemptions` | tools/offline-processor/src/main.rs:78-153 | The run fails iff some issuer key does not decode, and then no ledger is produced and the error is the key table's, naming the first key that did not decode. Otherwise the ledgers are those of `RunBatch` over the table built from the keys, and together they hold exactly one line per input record. |
| `Batch.JobLinesAreRecordLines` | tools/offline-processor/src/main.rs:109-113 | The `i`-th job line is the `i`-th input record's id, payment id and timestamp, copied unchanged and joined as at line 144. |
| `Batch.IssuerByDerivedId` | tools/offline-processor/src/main.rs:116-118 | With the table built from the supplied keys, a record's issuer is found iff its public key string equals a derived id. The record then passes iff the signature verifies under the last key with that id. |
| `Batch.RecordRouted` | tools/offline-processor/src/main.rs:143-148 | Every input record's `id,payment_id,timestamp` line lands in the ledger its verdict selects. |
| `Batch.ThreeRecordScenario` | tools/offline-processor/src/main.rs:78-149 | One issuer key and three records: one valid, one with a tampered payload, one with an unknown issuer. The success ledger holds exactly the valid record's line. The failure ledger holds exactly the other two lines. |

## Left out

- Thread pool, `mpsc` channel and the `OnceCell` global `KEYS` (lines 18, 87, 98-99, 104-107, 133-134): no threads are modelled. Their only effect on the ledgers, the arrival order, is the `schedule` parameter.
- A worker that panics never sends its result, and the collector then waits forever, because `main` still holds the original sender (lines 99, 108, 143). `Collect` requires at least `num_jobs` arrivals, which is exactly when the loop terminates. Runs that hang are not modelled.
- Record decoding: the CSV reader, serde deserialization of a line and the JSON parse of the unescaped column (lines 65, 95, 102). The model takes already-decoded records. A malformed line, which panics a worker via `line.expect` (line 108), is not modelled; the unescape that runs before the JSON parse is modelled.
- Cryptography (lines 82-83, 120-127): base64 key decoding, public key encoding, token rederivation, verification key derivation and the HMAC-SHA512 check come from a library that is not part of this model. They are the parameters `decode`, `publicKeyOf` and `verify`. `verify` stands for the whole chain at lines 120-127, including the payload's UTF-8 bytes.
- `Escaping.Replace`: requires a non-empty pattern, because `str::replace` with an empty pattern inserts the replacement between characters and the source never uses one (both patterns at line 64 are two-character literals).
- `KeyTable.BuildKeyTable`: the source's error is a context message ("Failed to decode all issuer keys") wrapping the library's error. The model's error carries the index of the first key that failed to decode instead.
- `value: f64` of the credential column (line 37): a float that the verdict never reads; it is not a field of the model's `CredentialColumn`.
- File I/O: opening the input, creating the `.success` and `.error` files, `LineWriter` and its write errors (lines 89-94, 140-141, 146-147), and the progress messages (lines 138, 151). The ledgers are sequences of lines.
- `Batch.RunBatch`: states the ledgers as multisets. The exact line order depends on the schedule and is stated by `Collect`.
- Command-line parsing via `structopt` (lines 21-30).
- `tools/cbp-dump-processor/src/main.rs`: a pass-through that appends a derived public key to each CSV row; it is not part of this model.
