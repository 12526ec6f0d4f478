/**
 * The structured-extraction command's objects: the key-value store the
 * records are cached in, the processor whose batch method probes the store,
 * sends the remaining documents to the extraction service and settles each
 * outcome, and the command's filter that skips files already cached.
 */
module BamlProcessor {
  import opened Wrappers
  import opened BamlStats
  import opened BamlBatch

  /** The store name used when the caller names none (`KV_STORE_ID`). */
  const DefaultKvStoreId: string := "file"

  /** The key-value store of extracted records, keyed by document id. */
  class KvStore {
    var entries: Store

    constructor (initial: Store)
      ensures entries == initial
    {
      entries := initial;
    }

    /** `load_object`: the record stored under the key, if any. */
    method LoadObject(key: string) returns (cached: Option<Artifact>)
      ensures cached == LoadFrom(entries, key)
    {
      if key in entries {
        cached := Some(entries[key]);
      } else {
        cached := None;
      }
    }

    /** `save_object_to_kvstore`: the write `io` either completes, storing the record, or raises. */
    method SaveObject(key: string, value: Artifact, io: (string, Artifact) -> Outcome<string>) returns (outcome: Outcome<string>)
      modifies this
      ensures outcome == io(key, value)
      ensures entries == if outcome.Pass? then old(entries)[key := value] else old(entries)
    {
      outcome := io(key, value);
      if outcome.Pass? {
        entries := entries[key := value];
      }
    }
  }

  /** The statistics and the store, as one value to compare before and after a call. */
  datatype RunView = RunView(
    filesDiscovered: nat,
    filesProcessed: nat,
    cacheHits: nat,
    errors: nat,
    errorDetails: seq<ErrorEntry>,
    store: Store)

  /** The view after a batch call whose effects are `r`. */
  function After(v: RunView, r: BatchRun): RunView {
    v.(filesProcessed := v.filesProcessed + r.processed,
       cacheHits := v.cacheHits + r.cacheHits,
       errors := v.errors + |r.errorLog|,
       errorDetails := v.errorDetails + r.errorLog,
       store := r.store)
  }

  class BamlStructuredProcessor {
    const kvstoreId: string
    const force: bool
    const stats: ProcessingStats
    const kv: KvStore

    ghost predicate Valid()
      reads this, stats
    {
      stats.Valid()
    }

    ghost function View(): RunView
      reads this, stats, kv
    {
      RunView(stats.filesDiscovered, stats.filesProcessed, stats.cacheHits, stats.errors, stats.errorDetails, kv.entries)
    }

    /** Whether the batch probes the store before extracting. */
    predicate Probes()
      reads this
    {
      kvstoreId != "" && !force
    }

    /** Whether the batch writes accepted records to the store. */
    predicate Persists()
      reads this
    {
      kvstoreId != ""
    }

    /** `BamlStructuredProcessor(model_cls, kvstore_id, force)`; `kvstore_id or KV_STORE_ID` picks the store. */
    constructor (kvstoreId: Option<string>, force: bool, kv: KvStore)
      ensures Valid() && fresh(stats)
      ensures this.kvstoreId == (if kvstoreId.Some? && kvstoreId.value != "" then kvstoreId.value else DefaultKvStoreId)
      ensures this.force == force && this.kv == kv
      ensures stats.filesDiscovered == 0 && stats.filesProcessed == 0 && stats.cacheHits == 0
      ensures stats.errors == 0 && stats.errorDetails == []
    {
      this.kvstoreId := if kvstoreId.Some? && kvstoreId.value != "" then kvstoreId.value else DefaultKvStoreId;
      this.force := force;
      this.kv := kv;
      stats := new ProcessingStats();
    }

    /** The probe loop: each document is answered from the store or kept for extraction; hits are counted. */
    method ProbeStore(documentIds: seq<string>, markdownContents: seq<string>)
      returns (hits: seq<Artifact>, remainingIds: seq<string>, remainingContents: seq<string>)
      requires Valid()
      requires |documentIds| == |markdownContents|
      modifies stats
      ensures Valid()
      ensures Probe(hits, remainingIds, remainingContents) == ProbeCache(kv.entries, documentIds, markdownContents)
      ensures stats.cacheHits == old(stats.cacheHits) + |hits|
      ensures stats.filesDiscovered == old(stats.filesDiscovered) && stats.filesProcessed == old(stats.filesProcessed)
      ensures stats.errors == old(stats.errors) && stats.errorDetails == old(stats.errorDetails)
    {
      hits, remainingIds, remainingContents := [], [], [];
      var i := 0;
      while i < |documentIds|
        invariant 0 <= i <= |documentIds|
        invariant Probe(hits, remainingIds, remainingContents) == ProbeCache(kv.entries, documentIds[..i], markdownContents[..i])
        invariant stats.cacheHits == old(stats.cacheHits) + |hits|
        invariant stats.filesDiscovered == old(stats.filesDiscovered) && stats.filesProcessed == old(stats.filesProcessed)
        invariant stats.errors == old(stats.errors) && stats.errorDetails == old(stats.errorDetails)
      {
        assert documentIds[..i + 1][..i] == documentIds[..i];
        assert markdownContents[..i + 1][..i] == markdownContents[..i];
        var cachedDoc := kv.LoadObject(documentIds[i]);
        if cachedDoc.Some? {
          hits := hits + [cachedDoc.value];
          stats.cacheHits := stats.cacheHits + 1;
        } else {
          remainingIds := remainingIds + [documentIds[i]];
          remainingContents := remainingContents + [markdownContents[i]];
        }
        i := i + 1;
      }
      assert documentIds[..i] == documentIds && markdownContents[..i] == markdownContents;
    }

    /**
     * The settling loop: a failed extraction or rebuild logs an error under
     * the id; a rebuilt record is kept, counted and saved, and a failed save
     * logs an error too.
     */
    method SettleResults(docs: seq<Artifact>, remainingIds: seq<string>, results: seq<Result<Artifact, string>>, svc: Services)
      returns (analyzedDocs: seq<Artifact>)
      requires Valid()
      requires |remainingIds| == |results|
      modifies stats, kv
      ensures Valid()
      ensures var t := SettleAll(Tally(docs, 0, [], old(kv.entries)), remainingIds, results, svc, Persists());
        && analyzedDocs == t.docs && kv.entries == t.store
        && stats.filesProcessed == old(stats.filesProcessed) + t.processed
        && stats.errorDetails == old(stats.errorDetails) + t.errorLog
        && stats.errors == old(stats.errors) + |t.errorLog|
      ensures stats.cacheHits == old(stats.cacheHits) && stats.filesDiscovered == old(stats.filesDiscovered)
    {
      ghost var start := Tally(docs, 0, [], kv.entries);
      analyzedDocs := docs;
      var j := 0;
      while j < |remainingIds|
        invariant 0 <= j <= |remainingIds|
        invariant stats.Valid()
        invariant var t := SettleAll(start, remainingIds[..j], results[..j], svc, Persists());
          && analyzedDocs == t.docs && kv.entries == t.store
          && stats.filesProcessed == old(stats.filesProcessed) + t.processed
          && stats.errorDetails == old(stats.errorDetails) + t.errorLog
        invariant stats.cacheHits == old(stats.cacheHits) && stats.filesDiscovered == old(stats.filesDiscovered)
      {
        assert remainingIds[..j + 1][..j] == remainingIds[..j];
        assert results[..j + 1][..j] == results[..j];
        ghost var before := SettleAll(start, remainingIds[..j], results[..j], svc, Persists());
        SettleOneEffect(before, remainingIds[j], results[j], svc, Persists());
        analyzedDocs := SettleDocument(analyzedDocs, remainingIds[j], results[j], svc);
        j := j + 1;
      }
      assert remainingIds[..j] == remainingIds && results[..j] == results;
    }

    /**
     * One pass of the settling loop: a failed extraction or rebuild logs an
     * error under the id; a rebuilt record is kept, counted and, when a store
     * is named, saved, and a failed save logs an error too.
     */
    method SettleDocument(analyzedDocs: seq<Artifact>, docId: string, result: Result<Artifact, string>, svc: Services)
      returns (docsOut: seq<Artifact>)
      requires Valid()
      modifies stats, kv
      ensures Valid()
      ensures docsOut == analyzedDocs + RecordsOf(svc, docId, result)
      ensures stats.filesProcessed == old(stats.filesProcessed) + |RecordsOf(svc, docId, result)|
      ensures stats.errorDetails == old(stats.errorDetails) + ErrorsOf(svc, Persists(), docId, result)
      ensures kv.entries == if Saved(svc, Persists(), docId, result) then old(kv.entries)[docId := Record(svc, docId, result)] else old(kv.entries)
      ensures stats.cacheHits == old(stats.cacheHits) && stats.filesDiscovered == old(stats.filesDiscovered)
    {
      docsOut := analyzedDocs;
      if result.Failure? {
        stats.AddError(docId, result.error);
      } else {
        var resultDict := WithDocumentId(result.value, docId);
        var built := svc.construct(resultDict);
        if built.Failure? {
          stats.AddError(docId, built.error);
        } else {
          var resultWithId := built.value;
          docsOut := docsOut + [resultWithId];
          stats.filesProcessed := stats.filesProcessed + 1;
          if kvstoreId != "" {
            var saved := kv.SaveObject(docId, resultWithId, svc.persist);
            if saved.Fail? {
              stats.AddError(docId, saved.error);
            }
          }
        }
      }
    }

    /**
     * `abatch_analyze_documents`: returns the records (cache hits, then
     * accepted extractions) and updates the statistics and the store exactly
     * as `RunBatch` says. `dispatched` is the texts sent for extraction.
     */
    method AbatchAnalyzeDocuments(documentIds: seq<string>, markdownContents: seq<string>, svc: Services)
      returns (analyzedDocs: seq<Artifact>, ghost dispatched: seq<string>)
      requires Valid()
      requires |documentIds| == |markdownContents|
      modifies stats, kv
      ensures Valid()
      ensures var r := RunBatch(old(kv.entries), documentIds, markdownContents, Probes(), Persists(), svc);
        && analyzedDocs == r.docs && dispatched == r.dispatched
        && View() == After(old(View()), r)
    {
      var remainingIds: seq<string>;
      var remainingContents: seq<string>;
      if kvstoreId != "" && !force {
        analyzedDocs, remainingIds, remainingContents := ProbeStore(documentIds, markdownContents);
      } else {
        analyzedDocs, remainingIds, remainingContents := [], documentIds, markdownContents;
      }
      if remainingIds == [] {
        dispatched := [];
        return;
      }
      var results := DispatchAll(svc, remainingContents);
      dispatched := remainingContents;
      analyzedDocs := SettleResults(analyzedDocs, remainingIds, results, svc);
    }

    /** `analyze_document`: the first record of a one-document batch, or an error naming the document. */
    method AnalyzeDocument(documentId: string, markdown: string, svc: Services) returns (r: Result<Artifact, string>)
      requires Valid()
      modifies stats, kv
      ensures Valid()
      ensures var b := RunBatch(old(kv.entries), [documentId], [markdown], Probes(), Persists(), svc);
        && r == AnalyzeResult(b, documentId)
        && View() == After(old(View()), b)
    {
      var results, _ := AbatchAnalyzeDocuments([documentId], [markdown], svc);
      if results != [] {
        r := Success(results[0]);
      } else {
        r := Failure("Failed to process document: " + documentId);
      }
    }
  }

  /**
   * The dispatch: one extraction per remaining text, collected in submission
   * order, so result k belongs to text k.
   */
  method DispatchAll(svc: Services, remainingContents: seq<string>) returns (results: seq<Result<Artifact, string>>)
    ensures results == ExtractAll(svc, remainingContents)
  {
    results := [];
    var k := 0;
    while k < |remainingContents|
      invariant 0 <= k <= |remainingContents|
      invariant |results| == k
      invariant forall m :: 0 <= m < k ==> results[m] == svc.extract(remainingContents[m])
    {
      results := results + [svc.extract(remainingContents[k])];
      k := k + 1;
    }
  }

  // ---------------------------------------------------------------------------
  // The command's pre-filter

  /** A discovered Markdown file: its directory and its final path component. */
  datatype MdFile = MdFile(directory: string, name: string)

  /** `name.rfind('.')`: the last position of a dot, or -1. */
  function LastDot(name: string): (i: int)
    ensures -1 <= i < |name|
    ensures i >= 0 ==> name[i] == '.'
    ensures forall k :: i < k < |name| ==> name[k] != '.'
    decreases |name|
  {
    if name == [] then -1
    else if name[|name| - 1] == '.' then |name| - 1
    else LastDot(name[..|name| - 1])
  }

  /** `PurePath.stem`: the final component without its last suffix (a leading or trailing dot is no suffix). */
  function Stem(name: string): (r: string)
    ensures |r| <= |name| && r == name[..|r|]
    ensures name != [] ==> r != []
    ensures r != name ==> 0 < |r| < |name| - 1 && name[|r|] == '.'
  {
    var i := LastDot(name);
    if 0 < i < |name| - 1 then name[..i] else name
  }

  /**
   * The stem cuts at the last dot, and a last dot that is neither first nor
   * last is always cut.
   */
  lemma StemCutsAtLastDot(name: string)
    ensures Stem(name) != name ==> forall k :: |Stem(name)| < k < |name| ==> name[k] != '.'
    ensures forall i :: 0 < i < |name| - 1 && name[i] == '.' && (forall k :: i < k < |name| ==> name[k] != '.') ==>
      Stem(name) == name[..i]
  {
    forall i | 0 < i < |name| - 1 && name[i] == '.' && (forall k :: i < k < |name| ==> name[k] != '.')
      ensures Stem(name) == name[..i]
    {
      assert LastDot(name) == i;
    }
  }

  /** The files, in order, whose stem has no record in the store. */
  function Uncached(store: Store, files: seq<MdFile>): seq<MdFile>
    decreases |files|
  {
    if files == [] then []
    else
      var n := |files| - 1;
      Uncached(store, files[..n]) + (if Stem(files[n].name) in store then [] else [files[n]])
  }

  /** The command's loop that keeps the files whose stem is not cached yet. */
  method FilterUnprocessed(kv: KvStore, mdFiles: seq<MdFile>) returns (unprocessed: seq<MdFile>)
    ensures unprocessed == Uncached(kv.entries, mdFiles)
    ensures forall f :: f in unprocessed <==> f in mdFiles && Stem(f.name) !in kv.entries
  {
    unprocessed := [];
    var i := 0;
    while i < |mdFiles|
      invariant 0 <= i <= |mdFiles|
      invariant unprocessed == Uncached(kv.entries, mdFiles[..i])
      invariant forall f :: f in unprocessed <==> f in mdFiles[..i] && Stem(f.name) !in kv.entries
    {
      assert mdFiles[..i + 1][..i] == mdFiles[..i];
      assert mdFiles[..i + 1] == mdFiles[..i] + [mdFiles[i]];
      var key := Stem(mdFiles[i].name);
      var cachedDoc := kv.LoadObject(key);
      if cachedDoc.None? {
        unprocessed := unprocessed + [mdFiles[i]];
      }
      i := i + 1;
    }
    assert mdFiles[..i] == mdFiles;
  }

  /**
   * The command from building the processor to deciding what to process:
   * the processor counts every discovered file, and unless the run is forced
   * only files whose stem is not cached are kept.
   */
  method PrepareExtraction(kv: KvStore, mdFiles: seq<MdFile>, force: bool)
    returns (processor: BamlStructuredProcessor, pending: seq<MdFile>)
    ensures fresh(processor.stats) && processor.Valid()
    ensures processor.kvstoreId == DefaultKvStoreId && processor.force == force && processor.kv == kv
    ensures processor.stats.filesDiscovered == |mdFiles|
    ensures processor.stats.filesProcessed == 0 && processor.stats.cacheHits == 0 && processor.stats.errorDetails == []
    ensures pending == if force then mdFiles else Uncached(kv.entries, mdFiles)
  {
    processor := new BamlStructuredProcessor(Some(DefaultKvStoreId), force, kv);
    processor.stats.filesDiscovered := |mdFiles|;
    pending := mdFiles;
    if !force {
      pending := FilterUnprocessed(kv, mdFiles);
    }
  }

  /** The stem of `base.md` is the base name, dots and all: `report.v2.md` has stem `report.v2`. */
  lemma MarkdownStem(base: string)
    requires base != []
    ensures Stem(base + ".md") == base
  {
    var name := base + ".md";
    assert name[..|name| - 1] == base + ".m";
    assert name[..|name| - 2] == base + ".";
    assert LastDot(base + ".") == |base|;
    assert LastDot(name) == LastDot(base + ".m") == LastDot(base + ".");
    assert name[..|base|] == base;
  }

  /**
   * After the pre-filter the processor's own probe finds nothing: every
   * document of the filtered files goes to extraction, in order.
   */
  lemma {:induction false} PrefilterLeavesNothingCached(store: Store, files: seq<MdFile>, contents: seq<string>)
    requires |files| == |contents|
    requires forall f :: f in files ==> Stem(f.name) !in store
    ensures var ids := seq(|files|, i requires 0 <= i < |files| => Stem(files[i].name));
      ProbeCache(store, ids, contents) == Probe([], ids, contents)
  {
    var ids := seq(|files|, i requires 0 <= i < |files| => Stem(files[i].name));
    forall i | 0 <= i < |ids| ensures ids[i] !in store {
      assert files[i] in files;
    }
    ProbeNothingCached(store, ids, contents);
  }

  /** The files kept by the pre-filter are exactly the given files whose stem is not cached, in order. */
  lemma UncachedIsFilter(store: Store, files: seq<MdFile>)
    ensures var u := Uncached(store, files);
      && |u| <= |files|
      && (forall f :: f in u <==> f in files && Stem(f.name) !in store)
      && ((forall f :: f in files ==> Stem(f.name) !in store) ==> u == files)
  {
    UncachedMembers(store, files);
    if forall f :: f in files ==> Stem(f.name) !in store {
      forall i | 0 <= i < |files| ensures Stem(files[i].name) !in store {
        assert files[i] in files;
      }
      UncachedKeepsAll(store, files);
    }
  }

  /** The kept files are at most the given ones, and exactly those whose stem is not cached. */
  lemma {:induction false} UncachedMembers(store: Store, files: seq<MdFile>)
    ensures |Uncached(store, files)| <= |files|
    ensures forall f :: f in Uncached(store, files) <==> f in files && Stem(f.name) !in store
    decreases |files|
  {
    if files != [] {
      var n := |files| - 1;
      UncachedMembers(store, files[..n]);
      UncachedStep(store, files);
    }
  }

  /** When no stem is cached, the filter keeps every file, in order. */
  lemma {:induction false} UncachedKeepsAll(store: Store, files: seq<MdFile>)
    requires forall i :: 0 <= i < |files| ==> Stem(files[i].name) !in store
    ensures Uncached(store, files) == files
    decreases |files|
  {
    if files != [] {
      var n := |files| - 1;
      UncachedKeepsAll(store, files[..n]);
      assert Stem(files[n].name) !in store;
      assert files[..n] + [files[n]] == files;
    }
  }

  /** One step of the filter: the last file is kept exactly when its stem is not cached. */
  lemma UncachedStep(store: Store, files: seq<MdFile>)
    requires files != []
    requires var front := Uncached(store, files[..|files| - 1]);
      forall f :: f in front <==> f in files[..|files| - 1] && Stem(f.name) !in store
    ensures forall f :: f in Uncached(store, files) <==> f in files && Stem(f.name) !in store
  {
    var n := |files| - 1;
    assert files[..n] + [files[n]] == files;
    var u := Uncached(store, files);
    assert u == Uncached(store, files[..n]) + (if Stem(files[n].name) in store then [] else [files[n]]);
    forall f ensures f in u <==> f in files && Stem(f.name) !in store {
      assert f in files <==> f in files[..n] || f == files[n];
    }
  }
}
