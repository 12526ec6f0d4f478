# Extraction cache, batch orchestration and document session state — a Dafny model

This project models three pieces of the document pipeline:

- **Batch structured extraction** (`genai_blueprint/hackathon/cli_commands/commands_baml.py`).
  `ProcessingStats` holds four counters and an ordered error log, and builds an error report from it.
  `BamlStructuredProcessor.abatch_analyze_documents` works in three steps:
  1. It probes a key-value store under each document id (the file stem), unless the run is forced.
  2. It sends each remaining document to an extraction service.
  3. It settles each outcome. A failure is logged, and the loop goes on. A success gets its `document_id`, joins the results, is counted and is saved.

  `analyze_document` runs a one-document batch. The command's pre-filter skips files whose stem is already stored.
- **The document session-state machine** (`.../hackathon/core/session_state.py`). It is a string-keyed dictionary. It has a reset of eight keys, a re-seed that runs only when the file's digest changes, and truthiness predicates and getters.
- **Cache-key derivation** (`.../hackathon/core/hash_utils.py`). Keys are an MD5 hexdigest of raw bytes, of UTF-8 text, or of two texts joined by `|`.

Modules: `Wrappers` (Option, Result, Outcome), `Hashing`, `DocumentSession`, `BamlStats`, `BamlBatch`, `BamlProcessor`.

- `BamlBatch` states in pure functions what one batch call computes: `ProbeCache`, `ExtractAll`, `SettleAll` and, composing them, `RunBatch`. Its lemmas prove what those functions guarantee.
- `BamlProcessor` holds the classes. Their `while` loops are proved to compute exactly those functions.
- `DocumentSession.SessionState` and `BamlStats.ProcessingStats` are classes whose methods update their fields in place, as the source does.

Outside services are parameters:
- The extraction service, the rebuild of the record (`model_cls(**result_dict)`) and the store write are fields of `Services`.
  - The extraction returns a record or raises.
  - The rebuild validates the dump and builds a new record from it, or raises.
  - The store write returns nothing or raises.
  - A raise becomes its message.
- The record class is looked up by name among generated types that are not part of this model. Whether a rebuilt record keeps the stamped `document_id` depends on that class: an undeclared extra key may be dropped. So the stamped-id lemmas hold only when the record class keeps `document_id`. That condition is the hypothesis `KeepsDocumentId`, and only those lemmas assume it.
- MD5 is a parameter of type `seq<Byte> -> HexDigest`. The subset type `HexDigest` (32 lower-case hex characters) states its shape.
  - No function from all byte strings to 32 hex characters is injective, so the model never assumes that MD5 is.
  - A lemma that needs two keys to differ assumes, through `NoCollision`, that MD5 does not collide on the two encodings at hand.
- UTF-8 encoding is a parameter of type `string -> seq<Byte>`.

**Assumption about pairing.** The source collects extraction results in completion order (`asyncio.as_completed`). It then pairs them with `remaining_ids` by position. The model assumes that result *i* belongs to `remaining_ids[i]`. The source does not guarantee this: when documents finish out of order, results and errors can be filed under the wrong id.

The code is not the content-fingerprint-keyed design one might expect. The model follows the code:
- The store is keyed by document id, that is the file stem, not by a content fingerprint.
- Two files with the same stem share a key. Both are extracted and returned, and the later save wins (`SettleAllLastSaveWins`, `RepeatedIdKeepsLastSave`).
- A failed document does not appear in the returned list at all. It only adds an entry to the error log. There is no per-document "Failed" outcome.
- The rebuild of the record and the store write both sit inside the success branch's `try`. A record whose save fails has already been appended and counted, and it also logs an error.
- `kvstore_id or KV_STORE_ID` means the processor never has an empty store name. The "no store" branches are modelled anyway (`Probes`, `Persists`).
- The analysis key joins its inputs with `|` without escaping. So pairs whose joined strings coincide share a key, whatever MD5 is (`SeparatorInContentCollides`). Pairs without `|` in the first input have different joined strings (`JoinInjectiveWithoutSeparator`). With an injective encoder and no MD5 collision on the two encodings, ("ab","c") and ("a","bc") get different keys (`ShiftedSplitDoesNotCollide`).
- `initialize_document_processing` compares digests only. A file with the same bytes under another name leaves the state, including the stored name, untouched.

## Model

| member | source | states |
|---|---|---|
| `Hashing.JoinForAnalysis` | genai_blueprint/webapp/pages/demos/hackathon/core/hash_utils.py:19 | the joined text is the first input, one `|`, the second input |
| `Hashing.GetFileHash` | genai_blueprint/webapp/pages/demos/hackathon/core/hash_utils.py:7-9 | the file key of some bytes is a 32-character lower-case hex string |
| `Hashing.GetContentHash` | genai_blueprint/webapp/pages/demos/hackathon/core/hash_utils.py:12-14 | the content key of a text is the file key of its UTF-8 encoding |
| `Hashing.GetAnalysisHash` | genai_blueprint/webapp/pages/demos/hackathon/core/hash_utils.py:17-20 | the analysis key of two texts is the file key of the UTF-8 encoding of `a + "|" + b` |
| `Hashing.KeysAreHexDigests` | genai_blueprint/webapp/pages/demos/hackathon/core/hash_utils.py:7-14 | every file, content and analysis key is a 32-character lower-case hex string |
| `Hashing.ContentHashIsFileHashOfEncoding` | genai_blueprint/webapp/pages/demos/hackathon/core/hash_utils.py:12-14 | a content key is the file key of the UTF-8 encoding |
| `Hashing.AnalysisHashIsContentHashOfJoin` | genai_blueprint/webapp/pages/demos/hackathon/core/hash_utils.py:17-20 | an analysis key is the content key (and the file key of the encoding) of `a + "|" + b` |
| `Hashing.HashesAreDeterministic` | genai_blueprint/webapp/pages/demos/hackathon/core/hash_utils.py:7-20 | equal inputs give equal keys for all three functions |
| `Hashing.EqualJoinsCollide` | genai_blueprint/webapp/pages/demos/hackathon/core/hash_utils.py:17-20 | pairs with equal joined strings get the same analysis key, whatever MD5 is |
| `Hashing.SeparatorInContentCollides` | genai_blueprint/webapp/pages/demos/hackathon/core/hash_utils.py:19 | ("a\|b","c") and ("a","b\|c") are different pairs with the same analysis key |
| `Hashing.JoinInjectiveWithoutSeparator` | genai_blueprint/webapp/pages/demos/hackathon/core/hash_utils.py:19 | when neither first input holds `|`, equal joined strings mean equal pairs |
| `Hashing.AnalysisKeysAgreeIffJoinsAgree` | genai_blueprint/webapp/pages/demos/hackathon/core/hash_utils.py:17-20 | with an injective encoder and no MD5 collision on the two encodings, analysis keys agree if and only if the joined strings agree |
| `Hashing.AnalysisKeysSeparateClean` | genai_blueprint/webapp/pages/demos/hackathon/core/hash_utils.py:17-20 | with an injective encoder, no MD5 collision on the two encodings and no `|` in the first inputs, keys agree if and only if the pairs are equal |
| `Hashing.ShiftedSplitDoesNotCollide` | genai_blueprint/webapp/pages/demos/hackathon/core/hash_utils.py:17-20 | with an injective encoder and no MD5 collision on the two encodings, ("ab","c") and ("a","bc") get different analysis keys |
| `DocumentSession.KeysToResetAreDocumentKeys` | genai_blueprint/webapp/pages/demos/hackathon/core/session_state.py:12-16 | the list the reset walks holds exactly the eight document keys |
| `DocumentSession.ResetDocumentKeys` | genai_blueprint/webapp/pages/demos/hackathon/core/session_state.py:10-19 | after a reset the keys are the old keys minus the eight document keys, and every remaining value is unchanged |
| `DocumentSession.SessionState.ResetDocumentState` | genai_blueprint/webapp/pages/demos/hackathon/core/session_state.py:10-19 | the deletion loop leaves exactly the state `ResetDocumentKeys` describes |
| `DocumentSession.InitializedState` | genai_blueprint/webapp/pages/demos/hackathon/core/session_state.py:22-43 | same stored digest: state untouched. New digest: the new hash, name, bytes and type are stored, `ocr_in_progress` is true, the five result keys are absent, and every other key keeps its value |
| `DocumentSession.SessionState.InitializeDocumentProcessing` | genai_blueprint/webapp/pages/demos/hackathon/core/session_state.py:22-43 | returns the file hash of the bytes and leaves exactly the state `InitializedState` describes |
| `DocumentSession.IsCurrentFile` | genai_blueprint/webapp/pages/demos/hackathon/core/session_state.py:31 | true exactly when `current_file_hash` is stored and equals the new digest |
| `DocumentSession.IsOcrComplete` | genai_blueprint/webapp/pages/demos/hackathon/core/session_state.py:46-48 | true exactly when `ocr_complete` is present and truthy |
| `DocumentSession.Truthy` | genai_blueprint/webapp/pages/demos/hackathon/core/session_state.py:46-58 | Python's `bool`: false exactly for None, False, 0, the empty string, bytes, list and dictionary |
| `DocumentSession.IsExtractionComplete` | genai_blueprint/webapp/pages/demos/hackathon/core/session_state.py:51-53 | true exactly when `extracted_info` is present and truthy |
| `DocumentSession.IsAnalysisComplete` | genai_blueprint/webapp/pages/demos/hackathon/core/session_state.py:56-58 | true exactly when `resumed_content` is present and truthy |
| `DocumentSession.GetMarkdownContent` | genai_blueprint/webapp/pages/demos/hackathon/core/session_state.py:61-63 | the stored `markdown_content`, or `None` when absent |
| `DocumentSession.GetExtractedInfo` | genai_blueprint/webapp/pages/demos/hackathon/core/session_state.py:66-68 | the stored `extracted_info`, or `None` when absent |
| `DocumentSession.GetContractSummary` | genai_blueprint/webapp/pages/demos/hackathon/core/session_state.py:71-73 | the stored `resumed_content`, or `None` when absent |
| `DocumentSession.GetKcpAnalysis` | genai_blueprint/webapp/pages/demos/hackathon/core/session_state.py:76-78 | the stored `kcp_analysis`, or `None` when absent |
| `DocumentSession.ResetKeepsFileIdentity` | genai_blueprint/webapp/pages/demos/hackathon/core/session_state.py:12-19 | a reset removes every listed key and keeps `current_file_name`, `current_file_hash` and `uploaded_file` |
| `DocumentSession.ResetIsIdempotent` | genai_blueprint/webapp/pages/demos/hackathon/core/session_state.py:17-19 | resetting twice gives the state of resetting once |
| `DocumentSession.InitializeTwiceIsInitializeOnce` | genai_blueprint/webapp/pages/demos/hackathon/core/session_state.py:28-43 | initialising again with the same bytes, under any file name, changes nothing |
| `DocumentSession.NewFileStartsUnprocessed` | genai_blueprint/webapp/pages/demos/hackathon/core/session_state.py:31-78 | right after a new file, no stage is complete, every getter returns `None` and the file is current |
| `DocumentSession.CompletionMatchesGetters` | genai_blueprint/webapp/pages/demos/hackathon/core/session_state.py:46-78 | extraction and analysis completion are the truthiness of the `extracted_info` and `resumed_content` getters; OCR is not complete while `ocr_complete` is absent |
| `BamlStats.ProcessingStats.constructor` | genai_blueprint/hackathon/cli_commands/commands_baml.py:57-63 | all four counters are 0 and the error log is empty |
| `BamlStats.ProcessingStats.AddError` | genai_blueprint/hackathon/cli_commands/commands_baml.py:65-68 | `errors` grows by one, one entry is appended last, and the other counters are unchanged |
| `BamlStats.ProcessingStats.CreateErrorTable` | genai_blueprint/hackathon/cli_commands/commands_baml.py:92-107 | no table exactly when the log is empty. Otherwise the table holds the last min(n,10) entries in log order, plus one "... and n−10 more errors" row when n > 10 |
| `BamlStats.EntryRow` | genai_blueprint/hackathon/cli_commands/commands_baml.py:101-102 | the row of one logged error shows its file and its message |
| `BamlStats.OverflowRow` | genai_blueprint/hackathon/cli_commands/commands_baml.py:104-105 | the overflow row reads "..." and "and <digits> more errors", and the digits read back as the number of errors left out |
| `BamlStats.NatToDecimal` | genai_blueprint/hackathon/cli_commands/commands_baml.py:105 | the count in the overflow row is a non-empty string of decimal digits, with no leading zero |
| `BamlStats.DecimalParsesBack` | genai_blueprint/hackathon/cli_commands/commands_baml.py:105 | reading the rendered digits back as a decimal number gives the count itself |
| `BamlBatch.LoadFrom` | genai_blueprint/hackathon/cli_commands/commands_baml.py:134 | a record comes back exactly when the key is stored, and it is the stored one |
| `BamlBatch.WithDocumentId` | genai_blueprint/hackathon/cli_commands/commands_baml.py:188-189 | the dump with `document_id` set to the given id and every other field kept |
| `BamlBatch.ProbeCache` | genai_blueprint/hackathon/cli_commands/commands_baml.py:133-142 | the remaining ids and texts have equal length, and hits plus remaining equal the input count |
| `BamlBatch.Plan` | genai_blueprint/hackathon/cli_commands/commands_baml.py:130-145 | the remaining ids and texts have equal length, and hits plus remaining equal the input count. Without the probe there are no hits and every id and text remains, in order |
| `BamlBatch.PositionsAreTheMatchingIndices` | genai_blueprint/hackathon/cli_commands/commands_baml.py:133-142 | the cached (or uncached) positions are exactly those whose id is (or is not) in the store, in increasing order |
| `BamlBatch.ProbeHitsAreCachedInputs` | genai_blueprint/hackathon/cli_commands/commands_baml.py:133-139 | hit k is the stored record of the k-th cached input position |
| `BamlBatch.ProbeMissesAreUncachedInputs` | genai_blueprint/hackathon/cli_commands/commands_baml.py:140-142 | remaining id k and text k are the id and text of the k-th uncached input position |
| `BamlBatch.ProbeSplitsInputs` | genai_blueprint/hackathon/cli_commands/commands_baml.py:133-142 | each input position lands in exactly one of hits or remaining; both keep input order; remaining ids and texts stay aligned |
| `BamlBatch.ProbeAllCached` | genai_blueprint/hackathon/cli_commands/commands_baml.py:133-139 | when every id is cached, nothing remains and hit i is the stored record of input i |
| `BamlBatch.ProbeNothingCached` | genai_blueprint/hackathon/cli_commands/commands_baml.py:140-142 | when no id is cached, there are no hits and all ids and texts remain, in order |
| `BamlBatch.ExtractAll` | genai_blueprint/hackathon/cli_commands/commands_baml.py:154-176 | one outcome per remaining text; outcome i is the extraction of text i |
| `BamlBatch.SettleOneEffect` | genai_blueprint/hackathon/cli_commands/commands_baml.py:179-203 | settling one document appends its rebuilt record, if accepted, and counts it. It logs the extraction, rebuild or save error under its id. It writes the record under its id exactly when it was saved |
| `BamlBatch.SettleAll` | genai_blueprint/hackathon/cli_commands/commands_baml.py:179-203 | the settling loop never drops earlier results or errors; its exact contents are `SettleAllContents` |
| `BamlBatch.SettleAllContents` | genai_blueprint/hackathon/cli_commands/commands_baml.py:179-203 | settling appends exactly the accepted records (`AcceptedRecords`), counts each, and appends exactly the logged errors (`LoggedErrors`), all in dispatch order |
| `BamlBatch.SettledEntriesCarryTheirIds` | genai_blueprint/hackathon/cli_commands/commands_baml.py:179-203 | counts: there are at most as many records as settled documents, and at least as many records and errors together. Every error is filed under a settled id |
| `BamlBatch.EverySettledDocumentShowsUp` | genai_blueprint/hackathon/cli_commands/commands_baml.py:179-203 | every settled document shows up: an accepted one with its rebuilt record among the results, any other with an error filed under its id |
| `BamlBatch.AcceptedRecordsCarryTheirIds` | genai_blueprint/hackathon/cli_commands/commands_baml.py:186-192 | when the rebuild keeps the stamped id, every accepted record is the rebuilt record of one accepted document and carries that document's own id |
| `BamlBatch.SettleAllStore` | genai_blueprint/hackathon/cli_commands/commands_baml.py:196-198 | the store gains exactly the saved ids, every other key is unchanged, and nothing is written when no store is named |
| `BamlBatch.SettleAllLastSaveWins` | genai_blueprint/hackathon/cli_commands/commands_baml.py:186-198 | after settling, each key holds the record of the last document saved under it, or keeps its old entry (or absence) when none was |
| `BamlBatch.LastSaveAbsentIffNeverSaved` | genai_blueprint/hackathon/cli_commands/commands_baml.py:196-198 | no last save exists for a key exactly when no occurrence of the key was saved |
| `BamlBatch.LastSaveIsLastSavedOccurrence` | genai_blueprint/hackathon/cli_commands/commands_baml.py:196-198 | a last save is the rebuilt record of a saved occurrence of the key, and no later occurrence was saved |
| `BamlBatch.SettleAllIgnoresStore` | genai_blueprint/hackathon/cli_commands/commands_baml.py:179-203 | results, success count and error log of settling do not depend on the store's contents |
| `BamlBatch.SettleAllKeepsStoreStamped` | genai_blueprint/hackathon/cli_commands/commands_baml.py:186-198 | when the rebuild keeps the stamped id, settling writes only records whose `document_id` is their key, so a store whose entries carry their keys keeps that property |
| `BamlBatch.BypassReadsNothing` | genai_blueprint/hackathon/cli_commands/commands_baml.py:143-145 | without the probe there are no hits, every text is sent in input order, and the outcome is the same for any store contents |
| `BamlBatch.RunBatch` | genai_blueprint/hackathon/cli_commands/commands_baml.py:122-205 | the hit count is the number of hits, the dispatched texts are the remaining ones, and the results are the hits followed by one record per success |
| `BamlBatch.AnalyzeResult` | genai_blueprint/hackathon/cli_commands/commands_baml.py:222-225 | success exactly when the batch returned a record; the value is the first record, and the failure reads "Failed to process document: " and the id |
| `BamlBatch.AllCachedExtractsNothing` | genai_blueprint/hackathon/cli_commands/commands_baml.py:147-148 | when every id is cached, nothing is extracted, nothing changes, and the result is the cached records in input order |
| `BamlBatch.ResultIsHitsThenSuccesses` | genai_blueprint/hackathon/cli_commands/commands_baml.py:179-205 | the result is exactly the hits followed by the accepted records in dispatch order, the success count is their number, and the error log is exactly the logged errors |
| `BamlBatch.PlanRemainingAreInputs` | genai_blueprint/hackathon/cli_commands/commands_baml.py:140-145 | every id left for extraction is an input id |
| `BamlBatch.RunBatchKeepsStoreStamped` | genai_blueprint/hackathon/cli_commands/commands_baml.py:133-198 | when the rebuild keeps the stamped id, a store whose records carry their keys keeps that property, and every returned record carries an input id |
| `BamlBatch.ReturnedRecordsAnswerTheirDocuments` | genai_blueprint/hackathon/cli_commands/commands_baml.py:131-198 | under the same two conditions, hit k is the stored record of the k-th cached input and carries that input's id. Every later record is the rebuilt extraction of one input document and carries that document's id |
| `BamlBatch.RunBatchStoresSavedInputs` | genai_blueprint/hackathon/cli_commands/commands_baml.py:131-198 | after a probing, saving run, an input id is in the store if it was cached or its record was saved |
| `BamlBatch.RerunIsAllCacheHits` | genai_blueprint/hackathon/cli_commands/commands_baml.py:131-198 | after a run in which every uncached document was saved, a rerun extracts nothing, logs nothing and returns the stored records in input order |
| `BamlBatch.FailuresAreNotPersisted` | genai_blueprint/hackathon/cli_commands/commands_baml.py:179-184 | an id under which no document is accepted keeps its store entry, or stays absent |
| `BamlBatch.SingleDocumentBatch` | genai_blueprint/hackathon/cli_commands/commands_baml.py:131-205 | a one-document batch returns a record exactly when the id is cached and probed, or extraction and rebuild succeed. The record is the cached one or the rebuilt one |
| `BamlBatch.AnalyzeDocumentOutcome` | genai_blueprint/hackathon/cli_commands/commands_baml.py:207-225 | `analyze_document` succeeds exactly when the one-document batch returns a record. When the store's entries carry their keys and the rebuild keeps the stamped id, the record carries the document's id. Otherwise it fails with "Failed to process document: id" |
| `BamlBatch.OneFailureInThree` | genai_blueprint/hackathon/cli_commands/commands_baml.py:179-203 | documents a, b, c with b failing: two stamped records, stored under a and c, and one error under b |
| `BamlBatch.RepeatedIdKeepsLastSave` | genai_blueprint/hackathon/cli_commands/commands_baml.py:186-198 | two documents under one id: both stamped records are returned and counted, and the store holds the second record |
| `BamlProcessor.KvStore.LoadObject` | genai_blueprint/hackathon/cli_commands/commands_baml.py:134 | returns the record stored under the key, or none |
| `BamlProcessor.KvStore.SaveObject` | genai_blueprint/hackathon/cli_commands/commands_baml.py:197-198 | a completed write stores the record under the key. A failed write changes nothing and returns its message |
| `BamlProcessor.BamlStructuredProcessor.constructor` | genai_blueprint/hackathon/cli_commands/commands_baml.py:116-120 | the store name is the given one, or "file" when none or an empty one is given. Fresh statistics are zero |
| `BamlProcessor.BamlStructuredProcessor.ProbeStore` | genai_blueprint/hackathon/cli_commands/commands_baml.py:130-142 | the probe loop returns exactly `ProbeCache`'s split, and `cache_hits` grows by the number of hits |
| `BamlProcessor.DispatchAll` | genai_blueprint/hackathon/cli_commands/commands_baml.py:154-176 | one extraction per remaining text; result k is the extraction of text k |
| `BamlProcessor.BamlStructuredProcessor.SettleResults` | genai_blueprint/hackathon/cli_commands/commands_baml.py:179-203 | the settling loop produces exactly `SettleAll`'s results, counters, error log and store |
| `BamlProcessor.BamlStructuredProcessor.SettleDocument` | genai_blueprint/hackathon/cli_commands/commands_baml.py:180-203 | one pass of the settling loop: the results gain the document's records, `files_processed` counts them, the error log gains its errors, and the store changes exactly when it was saved; other counters are unchanged |
| `BamlProcessor.BamlStructuredProcessor.AbatchAnalyzeDocuments` | genai_blueprint/hackathon/cli_commands/commands_baml.py:122-205 | returns `RunBatch`'s results and dispatched texts. Counters, error log and store change exactly as `RunBatch` says |
| `BamlProcessor.BamlStructuredProcessor.AnalyzeDocument` | genai_blueprint/hackathon/cli_commands/commands_baml.py:207-225 | returns the first record of the one-document batch, or an error naming the document |
| `BamlProcessor.FilterUnprocessed` | genai_blueprint/hackathon/cli_commands/commands_baml.py:359-371 | keeps, in order, exactly the files whose stem has no stored record |
| `BamlProcessor.PrepareExtraction` | genai_blueprint/hackathon/cli_commands/commands_baml.py:355-371 | the processor uses store "file" and counts every discovered file. The pending files are all of them when forced, else the uncached ones |
| `BamlProcessor.MarkdownStem` | genai_blueprint/hackathon/cli_commands/commands_baml.py:365 | the document id of `base.md` is `base` for every non-empty base name, dots included |
| `BamlProcessor.Stem` | genai_blueprint/hackathon/cli_commands/commands_baml.py:365 | the stem is a prefix of the name, non-empty for a non-empty name, and when shorter it stops at a dot that is neither first nor last |
| `BamlProcessor.StemCutsAtLastDot` | genai_blueprint/hackathon/cli_commands/commands_baml.py:365 | a cut falls at the last dot, and a name whose last dot is neither first nor last is always cut there |
| `BamlProcessor.UncachedIsFilter` | genai_blueprint/hackathon/cli_commands/commands_baml.py:362-371 | the kept files are exactly the given files with an uncached stem, and all of them when none is cached |
| `BamlProcessor.UncachedStep` | genai_blueprint/hackathon/cli_commands/commands_baml.py:364-368 | when the filter of all files but the last keeps exactly the uncached ones, so does the filter of the whole list: the last file is kept exactly when its stem is not stored |
| `BamlProcessor.UncachedMembers` | genai_blueprint/hackathon/cli_commands/commands_baml.py:362-371 | the kept files are no more than the given ones, and are exactly those whose stem is not stored |
| `BamlProcessor.UncachedKeepsAll` | genai_blueprint/hackathon/cli_commands/commands_baml.py:362-371 | when no stem is stored, the filter keeps every file, in order |
| `BamlProcessor.PrefilterLeavesNothingCached` | genai_blueprint/hackathon/cli_commands/commands_baml.py:359-371 | after the pre-filter, the processor's own probe finds no hit and sends every document on |

## Left out

- Concurrency. `asyncio.as_completed`, the event loop and the `nest_asyncio` fallback in `analyze_document`, with its `RuntimeError` path, are left out. Dispatch is a sequential loop, with the pairing assumption stated above.
- `BamlProcessor.BamlStructuredProcessor.AbatchAnalyzeDocuments`: requires equally long id and text lists. The source's `zip(..., strict=True)` raises part-way through a loop when they differ, and its callers never let that happen.
- Rich console output and progress bars are left out. So are `get_elapsed_time`, `create_summary_table`, `display_final_summary` and the start time: they are presentation, wall-clock time and floating point.
- The extraction client, the validation of a rebuilt record and the store's own I/O are left out. They are external services, given as `Services` parameters.
- The source checks `load_object`'s result for truthiness. A returned record is always true, so the model treats "present" as a hit.
- File reading in `process_files` is left out, because it is file I/O. So are file discovery by glob and the early returns of the command when nothing is found.
- The lookup of the model class by name with `getattr` is left out. It is reflection over generated types that are not part of this model.
- `format_file_size` is left out, because it is floating-point formatting.
- The Streamlit cache decorators and their TTLs (`core/cache_manager.py`), `file_handler.py`, OCR, the pages and the renderers are left out. They live inside the UI framework or call outside services.
- MD5 and UTF-8 encoding are not implemented. They are parameters.
- `content.encode('utf-8')` raises `UnicodeEncodeError` on a lone surrogate. A Dafny `string` cannot hold one, so the model has no such error path.
- How pydantic coerces field values and treats extra keys is left to the `construct` parameter. The stamped-id lemmas assume `KeepsDocumentId` for it.
- The LangSmith script and the quick test are left out. They only check environment variables and make network calls.
