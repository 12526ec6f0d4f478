/**
 * What one call of the batch extractor computes, as functions of its inputs:
 * the cache probe, the dispatch of the remaining documents to the extraction
 * service, and the settling of each outcome into results, statistics and the
 * key-value store. The processor class's methods are proved to compute
 * exactly these, and the lemmas below state what they guarantee.
 *
 * Dispatch is sequential: result i of the extraction phase is taken to belong
 * to the i-th remaining document. The code collects results in completion
 * order and then pairs them with the remaining ids by position, which only
 * agrees with this model when completion order equals submission order.
 */
module BamlBatch {
  import opened Wrappers
  import opened BamlStats

  /** An extracted record: its `document_id` field and its other fields. */
  datatype Artifact = Artifact(documentId: Option<string>, fields: map<string, string>)

  /** The contents of the key-value store, keyed by document id. */
  type Store = map<string, Artifact>

  /** `load_object`: the stored artifact, if any. */
  function LoadFrom(store: Store, key: string): (r: Option<Artifact>)
    ensures r.Some? <==> key in store
    ensures r.Some? ==> r.value == store[key]
  {
    if key in store then Some(store[key]) else None
  }

  /** The dump `model_dump()` of an extracted record with `document_id` overwritten. */
  function WithDocumentId(a: Artifact, id: string): (r: Artifact)
    ensures r.documentId == Some(id) && r.fields == a.fields
  {
    a.(documentId := Some(id))
  }

  /**
   * The outside services, each of which may raise; a raise becomes its message.
   *  - extract: the extraction service on one document's text;
   *  - construct: `model_cls(**result_dict)`, which validates a dump and builds
   *    a new record from it, or raises;
   *  - persist: writing a record to the store under a key, which returns
   *    nothing or raises.
   */
  datatype Services = Services(
    extract: string -> Result<Artifact, string>,
    construct: Artifact -> Result<Artifact, string>,
    persist: (string, Artifact) -> Outcome<string>)

  /** The record class declares `document_id`, so a record built from a dump keeps the dump's id. */
  ghost predicate KeepsDocumentId(svc: Services) {
    forall a :: svc.construct(a).Success? ==> svc.construct(a).value.documentId == a.documentId
  }

  /** Every stored artifact carries the key it is stored under. */
  ghost predicate StoreStamped(store: Store) {
    forall k :: k in store ==> store[k].documentId == Some(k)
  }

  // ---------------------------------------------------------------------------
  // The cache probe

  /** The split made by the cache probe: cached artifacts, and the ids and texts still to extract. */
  datatype Probe = Probe(hits: seq<Artifact>, remainingIds: seq<string>, remainingContents: seq<string>)

  /** The probe loop over the documents, in input order. */
  function ProbeCache(store: Store, ids: seq<string>, contents: seq<string>): (p: Probe)
    requires |ids| == |contents|
    ensures |p.remainingIds| == |p.remainingContents|
    ensures |p.hits| + |p.remainingIds| == |ids|
    decreases |ids|
  {
    if ids == [] then
      Probe([], [], [])
    else
      var n := |ids| - 1;
      var p := ProbeCache(store, ids[..n], contents[..n]);
      if ids[n] in store then
        p.(hits := p.hits + [store[ids[n]]])
      else
        p.(remainingIds := p.remainingIds + [ids[n]], remainingContents := p.remainingContents + [contents[n]])
  }

  /** The split, or everything still to extract when the probe is skipped. */
  function Plan(store: Store, ids: seq<string>, contents: seq<string>, probe: bool): (p: Probe)
    requires |ids| == |contents|
    ensures |p.remainingIds| == |p.remainingContents|
    ensures |p.hits| + |p.remainingIds| == |ids|
    ensures !probe ==> p.hits == [] && p.remainingIds == ids && p.remainingContents == contents
  {
    if probe then ProbeCache(store, ids, contents) else Probe([], ids, contents)
  }

  /** The input positions, in increasing order, whose id is cached (`cached`) or not (`!cached`). */
  function Positions(store: Store, ids: seq<string>, cached: bool): seq<nat>
    decreases |ids|
  {
    if ids == [] then []
    else
      var n := |ids| - 1;
      Positions(store, ids[..n], cached) + (if (ids[n] in store) == cached then [n] else [])
  }

  // ---------------------------------------------------------------------------
  // Dispatch and settling

  /** One extraction per remaining text; result i belongs to text i. */
  function ExtractAll(svc: Services, contents: seq<string>): (r: seq<Result<Artifact, string>>)
    ensures |r| == |contents|
    ensures forall i :: 0 <= i < |contents| ==> r[i] == svc.extract(contents[i])
  {
    seq(|contents|, i requires 0 <= i < |contents| => svc.extract(contents[i]))
  }

  /** What the settling loop has accumulated: results, successes, logged errors, store. */
  datatype Tally = Tally(docs: seq<Artifact>, processed: nat, errorLog: seq<ErrorEntry>, store: Store)

  /** The extraction and the rebuild of the stamped dump both succeeded, so the document joins the results. */
  predicate Accepted(svc: Services, id: string, result: Result<Artifact, string>) {
    result.Success? && svc.construct(WithDocumentId(result.value, id)).Success?
  }

  /** The record an accepted document joins the results with. */
  function Record(svc: Services, id: string, result: Result<Artifact, string>): Artifact
    requires Accepted(svc, id, result)
  {
    svc.construct(WithDocumentId(result.value, id)).value
  }

  /** The document joined the results and was also written to the store. */
  predicate Saved(svc: Services, persistOn: bool, id: string, result: Result<Artifact, string>) {
    Accepted(svc, id, result) && persistOn && svc.persist(id, Record(svc, id, result)).Pass?
  }

  /** The records one settled document adds to the results: its record when accepted, none otherwise. */
  function RecordsOf(svc: Services, id: string, result: Result<Artifact, string>): seq<Artifact> {
    if Accepted(svc, id, result) then [Record(svc, id, result)] else []
  }

  /**
   * The errors one settled document logs, each under its id with the failing
   * step's message: the extraction's, the rebuild's, or the save's.
   */
  function ErrorsOf(svc: Services, persistOn: bool, id: string, result: Result<Artifact, string>): seq<ErrorEntry> {
    if result.Failure? then [ErrorEntry(id, result.error)]
    else if svc.construct(WithDocumentId(result.value, id)).Failure? then
      [ErrorEntry(id, svc.construct(WithDocumentId(result.value, id)).error)]
    else if persistOn && svc.persist(id, Record(svc, id, result)).Fail? then
      [ErrorEntry(id, svc.persist(id, Record(svc, id, result)).error)]
    else []
  }

  /** The records of the accepted documents, in dispatch order. */
  function AcceptedRecords(svc: Services, ids: seq<string>, results: seq<Result<Artifact, string>>): seq<Artifact>
    requires |ids| == |results|
    decreases |ids|
  {
    if ids == [] then []
    else
      var n := |ids| - 1;
      AcceptedRecords(svc, ids[..n], results[..n]) + RecordsOf(svc, ids[n], results[n])
  }

  /** The errors of the settled documents, in dispatch order. */
  function LoggedErrors(svc: Services, persistOn: bool, ids: seq<string>, results: seq<Result<Artifact, string>>): seq<ErrorEntry>
    requires |ids| == |results|
    decreases |ids|
  {
    if ids == [] then []
    else
      var n := |ids| - 1;
      LoggedErrors(svc, persistOn, ids[..n], results[..n]) + ErrorsOf(svc, persistOn, ids[n], results[n])
  }

  /** A settled document shows up: its record among `recs` when accepted, an error filed under its id otherwise. */
  predicate ShowsUp(svc: Services, id: string, result: Result<Artifact, string>, recs: seq<Artifact>, errs: seq<ErrorEntry>) {
    && (Accepted(svc, id, result) ==> Record(svc, id, result) in recs)
    && (!Accepted(svc, id, result) ==> exists k :: 0 <= k < |errs| && errs[k].file == id)
  }

  /** `a` is the rebuilt record of one accepted document of the batch, and carries that document's own id. */
  predicate AnswersDocument(svc: Services, ids: seq<string>, results: seq<Result<Artifact, string>>, a: Artifact)
    requires |ids| == |results|
  {
    exists i :: 0 <= i < |ids| && Accepted(svc, ids[i], results[i]) && a == Record(svc, ids[i], results[i]) && a.documentId == Some(ids[i])
  }

  /** `a` is the rebuilt extraction of input document j, and carries j's own id. */
  predicate RebuiltRecordOf(svc: Services, ids: seq<string>, contents: seq<string>, a: Artifact)
    requires |ids| == |contents|
  {
    exists j :: 0 <= j < |ids| && Accepted(svc, ids[j], svc.extract(contents[j]))
      && a == Record(svc, ids[j], svc.extract(contents[j])) && a.documentId == Some(ids[j])
  }

  /** Settle one outcome: log a failure under the id, or keep, count and save the rebuilt record. */
  function SettleOne(t: Tally, id: string, result: Result<Artifact, string>, svc: Services, persistOn: bool): (r: Tally)
  {
    match result
    case Failure(msg) => t.(errorLog := t.errorLog + [ErrorEntry(id, msg)])
    case Success(a) =>
      match svc.construct(WithDocumentId(a, id))
      case Failure(msg) => t.(errorLog := t.errorLog + [ErrorEntry(id, msg)])
      case Success(record) =>
        var kept := t.(docs := t.docs + [record], processed := t.processed + 1);
        if !persistOn then kept
        else
          match svc.persist(id, record)
          case Pass => kept.(store := kept.store[id := record])
          case Fail(msg) => kept.(errorLog := kept.errorLog + [ErrorEntry(id, msg)])
  }

  /** The settling loop: outcome i settled under id i, in order. */
  function SettleAll(t: Tally, ids: seq<string>, results: seq<Result<Artifact, string>>, svc: Services, persistOn: bool): (r: Tally)
    requires |ids| == |results|
    ensures |r.docs| >= |t.docs| && |r.errorLog| >= |t.errorLog|
    decreases |ids|
  {
    if ids == [] then t
    else
      var n := |ids| - 1;
      SettleOne(SettleAll(t, ids[..n], results[..n], svc, persistOn), ids[n], results[n], svc, persistOn)
  }

  /** The ids whose record was written to the store. */
  function SavedKeys(svc: Services, persistOn: bool, ids: seq<string>, results: seq<Result<Artifact, string>>): set<string>
    requires |ids| == |results|
  {
    set i | 0 <= i < |ids| && Saved(svc, persistOn, ids[i], results[i]) :: ids[i]
  }

  /** The record of the last document saved under `key`, if any. */
  function LastSave(svc: Services, persistOn: bool, ids: seq<string>, results: seq<Result<Artifact, string>>, key: string): Option<Artifact>
    requires |ids| == |results|
    decreases |ids|
  {
    if ids == [] then None
    else
      var n := |ids| - 1;
      if ids[n] == key && Saved(svc, persistOn, ids[n], results[n]) then Some(Record(svc, ids[n], results[n]))
      else LastSave(svc, persistOn, ids[..n], results[..n], key)
  }

  // ---------------------------------------------------------------------------
  // The whole batch

  /**
   * Everything one batch call produces: the results, the texts sent for
   * extraction, and the increments of the statistics and the store.
   */
  datatype BatchRun = BatchRun(
    docs: seq<Artifact>,
    dispatched: seq<string>,
    cacheHits: nat,
    processed: nat,
    errorLog: seq<ErrorEntry>,
    store: Store)

  /**
   * `abatch_analyze_documents`. `probe` is "a store is named and the run is
   * not forced"; `persistOn` is "a store is named".
   */
  function RunBatch(store: Store, ids: seq<string>, contents: seq<string>, probe: bool, persistOn: bool, svc: Services): (r: BatchRun)
    requires |ids| == |contents|
    ensures r.cacheHits == |Plan(store, ids, contents, probe).hits|
    ensures r.dispatched == Plan(store, ids, contents, probe).remainingContents
    ensures |r.docs| == r.cacheHits + r.processed
    ensures r.docs[..r.cacheHits] == Plan(store, ids, contents, probe).hits
  {
    var p := Plan(store, ids, contents, probe);
    if p.remainingIds == [] then
      BatchRun(p.hits, [], |p.hits|, 0, [], store)
    else
      var t := SettleAll(Tally(p.hits, 0, [], store), p.remainingIds, ExtractAll(svc, p.remainingContents), svc, persistOn);
      SettleAllContents(Tally(p.hits, 0, [], store), p.remainingIds, ExtractAll(svc, p.remainingContents), svc, persistOn);
      BatchRun(t.docs, p.remainingContents, |p.hits|, t.processed, t.errorLog, t.store)
  }

  /** `analyze_document`'s answer from the batch it runs on one document. */
  function AnalyzeResult(run: BatchRun, documentId: string): (r: Result<Artifact, string>)
    ensures r.Success? <==> run.docs != []
    ensures r.Success? ==> r.value == run.docs[0]
    ensures r.Failure? ==> r.error == "Failed to process document: " + documentId
  {
    if run.docs != [] then Success(run.docs[0]) else Failure("Failed to process document: " + documentId)
  }

  // ---------------------------------------------------------------------------
  // Lemmas: the probe

  /** `Positions` lists exactly the matching input positions, in increasing order. */
  lemma {:induction false} PositionsAreTheMatchingIndices(store: Store, ids: seq<string>, cached: bool)
    ensures var ps := Positions(store, ids, cached);
      && (forall k :: 0 <= k < |ps| ==> ps[k] < |ids| && (ids[ps[k]] in store) == cached)
      && (forall k, l :: 0 <= k < l < |ps| ==> ps[k] < ps[l])
      && (forall i :: 0 <= i < |ids| ==> (i in ps <==> (ids[i] in store) == cached))
    decreases |ids|
  {
    if ids != [] {
      var n := |ids| - 1;
      PositionsAreTheMatchingIndices(store, ids[..n], cached);
      var ps := Positions(store, ids, cached);
      var front := Positions(store, ids[..n], cached);
      assert ps == front + (if (ids[n] in store) == cached then [n] else []);
      assert forall i :: 0 <= i < n ==> ids[..n][i] == ids[i];
      forall k | 0 <= k < |ps|
        ensures ps[k] < |ids| && (ids[ps[k]] in store) == cached
      {
        if k < |front| {
          assert ps[k] == front[k];
        }
      }
      forall k, l | 0 <= k < l < |ps|
        ensures ps[k] < ps[l]
      {
        assert ps[k] == front[k];
        if l < |front| {
          assert ps[l] == front[l];
        }
      }
      forall i | 0 <= i < |ids|
        ensures i in ps <==> (ids[i] in store) == cached
      {
        if i < n {
          assert ids[..n][i] == ids[i];
          assert i in front <==> i in ps;
        }
      }
    }
  }

  /** Each cache hit is the stored record of a cached input position, in input order. */
  lemma {:induction false} ProbeHitsAreCachedInputs(store: Store, ids: seq<string>, contents: seq<string>)
    requires |ids| == |contents|
    ensures var p := ProbeCache(store, ids, contents);
      var hit := Positions(store, ids, true);
      && |p.hits| == |hit|
      && forall k :: 0 <= k < |hit| ==> hit[k] < |ids| && ids[hit[k]] in store && p.hits[k] == store[ids[hit[k]]]
    decreases |ids|
  {
    PositionsAreTheMatchingIndices(store, ids, true);
    if ids != [] {
      var n := |ids| - 1;
      ProbeHitsAreCachedInputs(store, ids[..n], contents[..n]);
      PositionsAreTheMatchingIndices(store, ids[..n], true);
      var front := ProbeCache(store, ids[..n], contents[..n]);
      var hitFront := Positions(store, ids[..n], true);
      assert forall k :: 0 <= k < |hitFront| ==> ids[..n][hitFront[k]] == ids[hitFront[k]];
    }
  }

  /** Each remaining id and text is the id and text of one input position, aligned and in input order. */
  lemma {:induction false} ProbeMissesAreUncachedInputs(store: Store, ids: seq<string>, contents: seq<string>)
    requires |ids| == |contents|
    ensures var p := ProbeCache(store, ids, contents);
      var miss := Positions(store, ids, false);
      && |p.remainingIds| == |miss|
      && forall k :: 0 <= k < |miss| ==>
           miss[k] < |ids| && p.remainingIds[k] == ids[miss[k]] && p.remainingContents[k] == contents[miss[k]]
    decreases |ids|
  {
    PositionsAreTheMatchingIndices(store, ids, false);
    if ids != [] {
      var n := |ids| - 1;
      ProbeMissesAreUncachedInputs(store, ids[..n], contents[..n]);
      PositionsAreTheMatchingIndices(store, ids[..n], false);
      var p := ProbeCache(store, ids, contents);
      var front := ProbeCache(store, ids[..n], contents[..n]);
      var miss := Positions(store, ids, false);
      var missFront := Positions(store, ids[..n], false);
      assert miss == missFront + (if ids[n] !in store then [n] else []);
      if ids[n] in store {
        assert p.remainingIds == front.remainingIds && p.remainingContents == front.remainingContents;
      } else {
        assert p.remainingIds == front.remainingIds + [ids[n]] && p.remainingContents == front.remainingContents + [contents[n]];
      }
      forall k | 0 <= k < |miss|
        ensures miss[k] < |ids| && p.remainingIds[k] == ids[miss[k]] && p.remainingContents[k] == contents[miss[k]]
      {
        if k < |missFront| {
          assert miss[k] == missFront[k];
          assert ids[..n][missFront[k]] == ids[missFront[k]] && contents[..n][missFront[k]] == contents[missFront[k]];
        }
      }
    }
  }

  /**
   * The probe puts input position i among the hits exactly when its id is
   * cached and among the remaining documents exactly when it is not; both
   * keep input order, and the remaining ids and texts stay aligned.
   */
  lemma ProbeSplitsInputs(store: Store, ids: seq<string>, contents: seq<string>)
    requires |ids| == |contents|
    ensures var p := ProbeCache(store, ids, contents);
      var hit := Positions(store, ids, true);
      var miss := Positions(store, ids, false);
      && |p.hits| == |hit| && |p.remainingIds| == |miss| && |p.remainingContents| == |miss|
      && (forall i :: 0 <= i < |ids| ==> (i in hit <==> ids[i] in store) && (i in miss <==> ids[i] !in store))
      && (forall k, l :: 0 <= k < l < |hit| ==> hit[k] < hit[l])
      && (forall k, l :: 0 <= k < l < |miss| ==> miss[k] < miss[l])
      && (forall k :: 0 <= k < |hit| ==> hit[k] < |ids| && ids[hit[k]] in store && p.hits[k] == store[ids[hit[k]]])
      && (forall k :: 0 <= k < |miss| ==>
            miss[k] < |ids| && ids[miss[k]] !in store
            && p.remainingIds[k] == ids[miss[k]] && p.remainingContents[k] == contents[miss[k]])
  {
    PositionsAreTheMatchingIndices(store, ids, true);
    PositionsAreTheMatchingIndices(store, ids, false);
    ProbeHitsAreCachedInputs(store, ids, contents);
    ProbeMissesAreUncachedInputs(store, ids, contents);
  }

  /** When every id is cached the probe answers everything from the store, in input order. */
  lemma {:induction false} ProbeAllCached(store: Store, ids: seq<string>, contents: seq<string>)
    requires |ids| == |contents|
    requires forall i :: 0 <= i < |ids| ==> ids[i] in store
    ensures var p := ProbeCache(store, ids, contents);
      p.remainingIds == [] && p.remainingContents == []
      && |p.hits| == |ids| && forall i :: 0 <= i < |ids| ==> p.hits[i] == store[ids[i]]
    decreases |ids|
  {
    if ids != [] {
      var n := |ids| - 1;
      assert forall i :: 0 <= i < n ==> ids[..n][i] == ids[i];
      ProbeAllCached(store, ids[..n], contents[..n]);
    }
  }

  /** When no id is cached the probe sends every document on, in input order. */
  lemma {:induction false} ProbeNothingCached(store: Store, ids: seq<string>, contents: seq<string>)
    requires |ids| == |contents|
    requires forall i :: 0 <= i < |ids| ==> ids[i] !in store
    ensures ProbeCache(store, ids, contents) == Probe([], ids, contents)
    decreases |ids|
  {
    if ids != [] {
      var n := |ids| - 1;
      ProbeNothingCached(store, ids[..n], contents[..n]);
      assert ids[n] !in store;
      assert ids[..n] + [ids[n]] == ids;
      assert contents[..n] + [contents[n]] == contents;
    }
  }


  // ---------------------------------------------------------------------------
  // Lemmas: settling

  /**
   * Settling one document adds its record, if accepted, to the results and
   * counts it, logs its error, if any, and writes its record under its id
   * exactly when it was saved.
   */
  lemma SettleOneEffect(t: Tally, id: string, result: Result<Artifact, string>, svc: Services, persistOn: bool)
    ensures var r := SettleOne(t, id, result, svc, persistOn);
      && r.docs == t.docs + RecordsOf(svc, id, result)
      && r.processed == t.processed + |RecordsOf(svc, id, result)|
      && r.errorLog == t.errorLog + ErrorsOf(svc, persistOn, id, result)
      && r.store == if Saved(svc, persistOn, id, result) then t.store[id := Record(svc, id, result)] else t.store
  {
  }

  /**
   * Settling appends the accepted documents' records to the results and
   * counts each, and appends each failed document's error to the log, both in
   * dispatch order.
   */
  lemma {:induction false} SettleAllContents(t: Tally, ids: seq<string>, results: seq<Result<Artifact, string>>, svc: Services, persistOn: bool)
    requires |ids| == |results|
    ensures var t' := SettleAll(t, ids, results, svc, persistOn);
      && t'.docs == t.docs + AcceptedRecords(svc, ids, results)
      && t'.processed == t.processed + |AcceptedRecords(svc, ids, results)|
      && t'.errorLog == t.errorLog + LoggedErrors(svc, persistOn, ids, results)
    decreases |ids|
  {
    if ids != [] {
      var n := |ids| - 1;
      SettleAllContents(t, ids[..n], results[..n], svc, persistOn);
      var front := SettleAll(t, ids[..n], results[..n], svc, persistOn);
      assert SettleAll(t, ids, results, svc, persistOn) == SettleOne(front, ids[n], results[n], svc, persistOn);
      SettleOneEffect(front, ids[n], results[n], svc, persistOn);
      assert AcceptedRecords(svc, ids, results) == AcceptedRecords(svc, ids[..n], results[..n]) + RecordsOf(svc, ids[n], results[n]);
      assert LoggedErrors(svc, persistOn, ids, results)
        == LoggedErrors(svc, persistOn, ids[..n], results[..n]) + ErrorsOf(svc, persistOn, ids[n], results[n]);
    }
  }

  /**
   * Each settled document adds at most one record and shows up at least once,
   * among the records or the errors, and every error is filed under a
   * settled id.
   */
  lemma {:induction false} SettledEntriesCarryTheirIds(svc: Services, persistOn: bool, ids: seq<string>, results: seq<Result<Artifact, string>>)
    requires |ids| == |results|
    ensures var recs, errs := AcceptedRecords(svc, ids, results), LoggedErrors(svc, persistOn, ids, results);
      && |recs| <= |ids| <= |recs| + |errs|
      && forall k :: 0 <= k < |errs| ==> errs[k].file in ids
    decreases |ids|
  {
    if ids != [] {
      var n := |ids| - 1;
      SettledEntriesCarryTheirIds(svc, persistOn, ids[..n], results[..n]);
      var errs := LoggedErrors(svc, persistOn, ids, results);
      var frontErrs := LoggedErrors(svc, persistOn, ids[..n], results[..n]);
      assert errs == frontErrs + ErrorsOf(svc, persistOn, ids[n], results[n]);
      forall k | 0 <= k < |errs| ensures errs[k].file in ids {
        if k < |frontErrs| {
          assert errs[k] == frontErrs[k];
          assert frontErrs[k].file in ids[..n];
        }
      }
    }
  }

  /**
   * Every settled document shows up: an accepted one with its record among
   * the results, any other with an error filed under its id.
   */
  lemma {:induction false} EverySettledDocumentShowsUp(svc: Services, persistOn: bool, ids: seq<string>, results: seq<Result<Artifact, string>>)
    requires |ids| == |results|
    ensures forall i :: 0 <= i < |ids| ==>
      ShowsUp(svc, ids[i], results[i], AcceptedRecords(svc, ids, results), LoggedErrors(svc, persistOn, ids, results))
    decreases |ids|
  {
    if ids != [] {
      var n := |ids| - 1;
      EverySettledDocumentShowsUp(svc, persistOn, ids[..n], results[..n]);
      var recs, errs := AcceptedRecords(svc, ids, results), LoggedErrors(svc, persistOn, ids, results);
      var frontRecs, frontErrs := AcceptedRecords(svc, ids[..n], results[..n]), LoggedErrors(svc, persistOn, ids[..n], results[..n]);
      assert recs == frontRecs + RecordsOf(svc, ids[n], results[n]);
      assert errs == frontErrs + ErrorsOf(svc, persistOn, ids[n], results[n]);
      forall i | 0 <= i < |ids| ensures ShowsUp(svc, ids[i], results[i], recs, errs) {
        if i < n {
          assert ids[..n][i] == ids[i] && results[..n][i] == results[i];
          assert ShowsUp(svc, ids[i], results[i], frontRecs, frontErrs);
          if !Accepted(svc, ids[i], results[i]) {
            var k :| 0 <= k < |frontErrs| && frontErrs[k].file == ids[i];
            assert errs[k] == frontErrs[k];
          }
        } else if !Accepted(svc, ids[n], results[n]) {
          assert errs[|frontErrs|].file == ids[n];
        }
      }
    }
  }

  /**
   * When the rebuild keeps the stamped id, every accepted record is the
   * rebuilt record of one accepted document and carries that document's own id.
   */
  lemma {:induction false} AcceptedRecordsCarryTheirIds(svc: Services, ids: seq<string>, results: seq<Result<Artifact, string>>)
    requires |ids| == |results|
    requires KeepsDocumentId(svc)
    ensures forall k :: 0 <= k < |AcceptedRecords(svc, ids, results)| ==>
      AnswersDocument(svc, ids, results, AcceptedRecords(svc, ids, results)[k])
    ensures forall k :: 0 <= k < |AcceptedRecords(svc, ids, results)| ==>
      AcceptedRecords(svc, ids, results)[k].documentId.Some? && AcceptedRecords(svc, ids, results)[k].documentId.value in ids
    decreases |ids|
  {
    var recs := AcceptedRecords(svc, ids, results);
    if ids != [] {
      var n := |ids| - 1;
      AcceptedRecordsCarryTheirIds(svc, ids[..n], results[..n]);
      var frontRecs := AcceptedRecords(svc, ids[..n], results[..n]);
      assert recs == frontRecs + RecordsOf(svc, ids[n], results[n]);
      forall k | 0 <= k < |recs| ensures AnswersDocument(svc, ids, results, recs[k]) {
        if k < |frontRecs| {
          assert recs[k] == frontRecs[k];
          assert AnswersDocument(svc, ids[..n], results[..n], frontRecs[k]);
          var i :| 0 <= i < n && Accepted(svc, ids[..n][i], results[..n][i])
            && frontRecs[k] == Record(svc, ids[..n][i], results[..n][i]) && frontRecs[k].documentId == Some(ids[..n][i]);
          assert ids[..n][i] == ids[i] && results[..n][i] == results[i];
        } else {
          var stamped := WithDocumentId(results[n].value, ids[n]);
          assert svc.construct(stamped).Success? ==> svc.construct(stamped).value.documentId == stamped.documentId;
          assert recs[k] == Record(svc, ids[n], results[n]);
        }
      }
    }
    forall k | 0 <= k < |recs| ensures recs[k].documentId.Some? && recs[k].documentId.value in ids {
      var i :| 0 <= i < |ids| && Accepted(svc, ids[i], results[i]) && recs[k] == Record(svc, ids[i], results[i]) && recs[k].documentId == Some(ids[i]);
    }
  }

  /**
   * Settling only ever adds to the store: exactly the saved ids gain an
   * entry, every other key keeps what it had, and nothing is written when no
   * store is named.
   */
  lemma {:induction false} SettleAllStore(t: Tally, ids: seq<string>, results: seq<Result<Artifact, string>>, svc: Services, persistOn: bool)
    requires |ids| == |results|
    ensures var t' := SettleAll(t, ids, results, svc, persistOn);
      && t'.store.Keys == t.store.Keys + SavedKeys(svc, persistOn, ids, results)
      && (forall k :: k !in SavedKeys(svc, persistOn, ids, results) ==> LoadFrom(t'.store, k) == LoadFrom(t.store, k))
      && (!persistOn ==> t'.store == t.store)
    decreases |ids|
  {
    if ids != [] {
      var n := |ids| - 1;
      SettleAllStore(t, ids[..n], results[..n], svc, persistOn);
      SettleOneEffect(SettleAll(t, ids[..n], results[..n], svc, persistOn), ids[n], results[n], svc, persistOn);
      var front := SavedKeys(svc, persistOn, ids[..n], results[..n]);
      var all := SavedKeys(svc, persistOn, ids, results);
      assert forall i :: 0 <= i < n ==> ids[..n][i] == ids[i] && results[..n][i] == results[i];
      assert all == front + (if Saved(svc, persistOn, ids[n], results[n]) then {ids[n]} else {}) by {
        forall x | x in all ensures x in front + (if Saved(svc, persistOn, ids[n], results[n]) then {ids[n]} else {}) {
          var i :| 0 <= i < |ids| && Saved(svc, persistOn, ids[i], results[i]) && ids[i] == x;
          if i < n {
            assert ids[..n][i] == x && Saved(svc, persistOn, ids[..n][i], results[..n][i]);
          }
        }
      }
    }
  }

  /**
   * After settling, a key holds the record of the last document saved under
   * it, and keeps its old entry (or its absence) when none was. Two files with
   * the same stem are both saved under it, and the later write wins.
   */
  lemma {:induction false} SettleAllLastSaveWins(t: Tally, ids: seq<string>, results: seq<Result<Artifact, string>>, svc: Services, persistOn: bool)
    requires |ids| == |results|
    ensures var t' := SettleAll(t, ids, results, svc, persistOn);
      forall key :: LoadFrom(t'.store, key) ==
        if LastSave(svc, persistOn, ids, results, key).Some? then LastSave(svc, persistOn, ids, results, key)
        else LoadFrom(t.store, key)
    decreases |ids|
  {
    if ids != [] {
      var n := |ids| - 1;
      SettleAllLastSaveWins(t, ids[..n], results[..n], svc, persistOn);
    }
  }

  /** `LastSave` is absent exactly when no occurrence of the key was saved. */
  lemma {:induction false} LastSaveAbsentIffNeverSaved(svc: Services, persistOn: bool, ids: seq<string>, results: seq<Result<Artifact, string>>, key: string)
    requires |ids| == |results|
    ensures LastSave(svc, persistOn, ids, results, key).None? <==>
      forall i :: 0 <= i < |ids| && ids[i] == key ==> !Saved(svc, persistOn, key, results[i])
    decreases |ids|
  {
    if ids != [] {
      var n := |ids| - 1;
      LastSaveAbsentIffNeverSaved(svc, persistOn, ids[..n], results[..n], key);
      assert forall i :: 0 <= i < n ==> ids[..n][i] == ids[i] && results[..n][i] == results[i];
    }
  }

  /**
   * When present, `LastSave` is the record of a saved occurrence of the key
   * after which no occurrence of the key was saved.
   */
  lemma {:induction false} LastSaveIsLastSavedOccurrence(svc: Services, persistOn: bool, ids: seq<string>, results: seq<Result<Artifact, string>>, key: string)
      returns (i: nat)
    requires |ids| == |results|
    requires LastSave(svc, persistOn, ids, results, key).Some?
    ensures i < |ids| && ids[i] == key && Saved(svc, persistOn, key, results[i])
    ensures LastSave(svc, persistOn, ids, results, key).value == Record(svc, key, results[i])
    ensures forall j :: i < j < |ids| && ids[j] == key ==> !Saved(svc, persistOn, key, results[j])
    decreases |ids|
  {
    var n := |ids| - 1;
    if ids[n] == key && Saved(svc, persistOn, ids[n], results[n]) {
      i := n;
    } else {
      i := LastSaveIsLastSavedOccurrence(svc, persistOn, ids[..n], results[..n], key);
      assert ids[..n][i] == ids[i] && results[..n][i] == results[i];
      assert forall j :: i < j < n ==> ids[..n][j] == ids[j] && results[..n][j] == results[j];
    }
  }

  /** Whether a store's content is read does not change results, successes or errors of settling. */
  lemma {:induction false} SettleAllIgnoresStore(t1: Tally, t2: Tally, ids: seq<string>, results: seq<Result<Artifact, string>>, svc: Services, persistOn: bool)
    requires |ids| == |results|
    requires t1.docs == t2.docs && t1.processed == t2.processed && t1.errorLog == t2.errorLog
    ensures var a, b := SettleAll(t1, ids, results, svc, persistOn), SettleAll(t2, ids, results, svc, persistOn);
      a.docs == b.docs && a.processed == b.processed && a.errorLog == b.errorLog
    decreases |ids|
  {
    if ids != [] {
      var n := |ids| - 1;
      SettleAllIgnoresStore(t1, t2, ids[..n], results[..n], svc, persistOn);
    }
  }

  /**
   * When the rebuild keeps the stamped id, settling writes only records that
   * carry their key, so a store whose entries carry their keys keeps that property.
   */
  lemma {:induction false} SettleAllKeepsStoreStamped(t: Tally, ids: seq<string>, results: seq<Result<Artifact, string>>, svc: Services, persistOn: bool)
    requires |ids| == |results|
    requires StoreStamped(t.store) && KeepsDocumentId(svc)
    ensures StoreStamped(SettleAll(t, ids, results, svc, persistOn).store)
    decreases |ids|
  {
    if ids != [] {
      var n := |ids| - 1;
      SettleAllKeepsStoreStamped(t, ids[..n], results[..n], svc, persistOn);
      if Saved(svc, persistOn, ids[n], results[n]) {
        var stamped := WithDocumentId(results[n].value, ids[n]);
        assert svc.construct(stamped).Success? ==> svc.construct(stamped).value.documentId == stamped.documentId;
      }
    }
  }

  // ---------------------------------------------------------------------------
  // Lemmas: the batch

  /**
   * Skipping the probe (a forced run, or no store named): no hit is counted,
   * every text goes to extraction in input order, and the results, successes
   * and errors are the same whatever the store holds.
   */
  lemma BypassReadsNothing(store1: Store, store2: Store, ids: seq<string>, contents: seq<string>, persistOn: bool, svc: Services)
    requires |ids| == |contents|
    ensures var r1, r2 := RunBatch(store1, ids, contents, false, persistOn, svc), RunBatch(store2, ids, contents, false, persistOn, svc);
      && Plan(store1, ids, contents, false).remainingIds == ids
      && r1.cacheHits == 0 && r1.dispatched == contents
      && r1.docs == r2.docs && r1.processed == r2.processed && r1.errorLog == r2.errorLog
  {
    if ids != [] {
      SettleAllIgnoresStore(Tally([], 0, [], store1), Tally([], 0, [], store2), ids, ExtractAll(svc, contents), svc, persistOn);
    }
  }

  /** When every id is cached nothing is extracted and the result is the cached records in input order. */
  lemma AllCachedExtractsNothing(store: Store, ids: seq<string>, contents: seq<string>, persistOn: bool, svc: Services)
    requires |ids| == |contents|
    requires forall i :: 0 <= i < |ids| ==> ids[i] in store
    ensures var r := RunBatch(store, ids, contents, true, persistOn, svc);
      && r.dispatched == [] && r.store == store && r.processed == 0 && r.errorLog == []
      && r.cacheHits == |ids|
      && |r.docs| == |ids| && forall i :: 0 <= i < |ids| ==> r.docs[i] == store[ids[i]]
  {
    ProbeAllCached(store, ids, contents);
  }

  /**
   * The result is the cache hits followed by the records of the accepted
   * documents in dispatch order; each success is counted, and the error log
   * holds each failed document's error under its own id, in dispatch order.
   */
  lemma ResultIsHitsThenSuccesses(store: Store, ids: seq<string>, contents: seq<string>, probe: bool, persistOn: bool, svc: Services)
    requires |ids| == |contents|
    ensures var p := Plan(store, ids, contents, probe);
      var results := ExtractAll(svc, p.remainingContents);
      var r := RunBatch(store, ids, contents, probe, persistOn, svc);
      && r.docs == p.hits + AcceptedRecords(svc, p.remainingIds, results)
      && r.processed == |AcceptedRecords(svc, p.remainingIds, results)|
      && r.errorLog == LoggedErrors(svc, persistOn, p.remainingIds, results)
  {
    var p := Plan(store, ids, contents, probe);
    if p.remainingIds != [] {
      SettleAllContents(Tally(p.hits, 0, [], store), p.remainingIds, ExtractAll(svc, p.remainingContents), svc, persistOn);
    }
  }

  /** Every id left after the probe is an input id. */
  lemma PlanRemainingAreInputs(store: Store, ids: seq<string>, contents: seq<string>, probe: bool)
    requires |ids| == |contents|
    ensures forall x :: x in Plan(store, ids, contents, probe).remainingIds ==> x in ids
  {
    if probe {
      ProbeSplitsInputs(store, ids, contents);
      var p := ProbeCache(store, ids, contents);
      var miss := Positions(store, ids, false);
      forall x | x in p.remainingIds ensures x in ids {
        var k :| 0 <= k < |p.remainingIds| && p.remainingIds[k] == x;
        assert ids[miss[k]] == x;
      }
    }
  }

  /**
   * Starting from a store whose entries carry their keys, and with a rebuild
   * that keeps the stamped id, the store keeps that property and every
   * returned record carries the id of one of the input documents.
   */
  lemma RunBatchKeepsStoreStamped(store: Store, ids: seq<string>, contents: seq<string>, probe: bool, persistOn: bool, svc: Services)
    requires |ids| == |contents|
    requires StoreStamped(store) && KeepsDocumentId(svc)
    ensures var r := RunBatch(store, ids, contents, probe, persistOn, svc);
      && StoreStamped(r.store)
      && forall k :: 0 <= k < |r.docs| ==> r.docs[k].documentId.Some? && r.docs[k].documentId.value in ids
  {
    var p := Plan(store, ids, contents, probe);
    var r := RunBatch(store, ids, contents, probe, persistOn, svc);
    var results := ExtractAll(svc, p.remainingContents);
    var recs := AcceptedRecords(svc, p.remainingIds, results);
    ResultIsHitsThenSuccesses(store, ids, contents, probe, persistOn, svc);
    PlanRemainingAreInputs(store, ids, contents, probe);
    AcceptedRecordsCarryTheirIds(svc, p.remainingIds, results);
    if p.remainingIds != [] {
      SettleAllKeepsStoreStamped(Tally(p.hits, 0, [], store), p.remainingIds, results, svc, persistOn);
    }
    if probe {
      ProbeSplitsInputs(store, ids, contents);
    }
    forall k | 0 <= k < |r.docs|
      ensures r.docs[k].documentId.Some? && r.docs[k].documentId.value in ids
    {
      if k < |p.hits| {
        assert r.docs[k] == p.hits[k];
        var hit := Positions(store, ids, true);
        assert p.hits[k] == store[ids[hit[k]]];
      } else {
        assert r.docs[k] == recs[k - |p.hits|];
      }
    }
  }

  /**
   * Starting from a store whose entries carry their keys, and with a rebuild
   * that keeps the stamped id, every returned record carries the id of the
   * document it answers: hit k is the stored record of the k-th cached input
   * and carries that input's id, and every later record is the rebuilt
   * extraction of one input document and carries that document's id.
   */
  lemma ReturnedRecordsAnswerTheirDocuments(store: Store, ids: seq<string>, contents: seq<string>, probe: bool, persistOn: bool, svc: Services)
    requires |ids| == |contents|
    requires StoreStamped(store) && KeepsDocumentId(svc)
    ensures var r := RunBatch(store, ids, contents, probe, persistOn, svc);
      probe ==>
        && |Positions(store, ids, true)| == r.cacheHits
        && forall k :: 0 <= k < r.cacheHits ==> Positions(store, ids, true)[k] < |ids| && ids[Positions(store, ids, true)[k]] in store
    ensures var r := RunBatch(store, ids, contents, probe, persistOn, svc);
      probe ==> forall k :: 0 <= k < r.cacheHits ==>
        && r.docs[k] == store[ids[Positions(store, ids, true)[k]]]
        && r.docs[k].documentId == Some(ids[Positions(store, ids, true)[k]])
    ensures var r := RunBatch(store, ids, contents, probe, persistOn, svc);
      forall k :: r.cacheHits <= k < |r.docs| ==> RebuiltRecordOf(svc, ids, contents, r.docs[k])
  {
    var p := Plan(store, ids, contents, probe);
    var r := RunBatch(store, ids, contents, probe, persistOn, svc);
    var results := ExtractAll(svc, p.remainingContents);
    var recs := AcceptedRecords(svc, p.remainingIds, results);
    ResultIsHitsThenSuccesses(store, ids, contents, probe, persistOn, svc);
    AcceptedRecordsCarryTheirIds(svc, p.remainingIds, results);
    if probe {
      ProbeHitsAreCachedInputs(store, ids, contents);
      ProbeMissesAreUncachedInputs(store, ids, contents);
    }
    forall k | r.cacheHits <= k < |r.docs| ensures RebuiltRecordOf(svc, ids, contents, r.docs[k]) {
      var a := recs[k - r.cacheHits];
      assert r.docs[k] == a;
      assert AnswersDocument(svc, p.remainingIds, results, a);
      var i :| 0 <= i < |p.remainingIds| && Accepted(svc, p.remainingIds[i], results[i])
        && a == Record(svc, p.remainingIds[i], results[i]) && a.documentId == Some(p.remainingIds[i]);
      var j := if probe then Positions(store, ids, false)[i] else i;
      assert j < |ids| && ids[j] == p.remainingIds[i] && contents[j] == p.remainingContents[i];
      assert results[i] == svc.extract(contents[j]);
    }
  }

  /** Which input ids end up in the store after a probing, saving run. */
  lemma RunBatchStoresSavedInputs(store: Store, ids: seq<string>, contents: seq<string>, svc: Services, i: int)
    requires |ids| == |contents| && 0 <= i < |ids|
    requires ids[i] in store || Saved(svc, true, ids[i], svc.extract(contents[i]))
    ensures ids[i] in RunBatch(store, ids, contents, true, true, svc).store
  {
    var p := ProbeCache(store, ids, contents);
    if p.remainingIds != [] {
      var results := ExtractAll(svc, p.remainingContents);
      SettleAllStore(Tally(p.hits, 0, [], store), p.remainingIds, results, svc, true);
      if ids[i] !in store {
        ProbeSplitsInputs(store, ids, contents);
        PositionsAreTheMatchingIndices(store, ids, false);
        var miss := Positions(store, ids, false);
        var k :| 0 <= k < |miss| && miss[k] == i;
        assert p.remainingIds[k] == ids[i] && results[k] == svc.extract(contents[i]);
        assert ids[i] in SavedKeys(svc, true, p.remainingIds, results);
      }
    } else if ids[i] !in store {
      ProbeSplitsInputs(store, ids, contents);
      PositionsAreTheMatchingIndices(store, ids, false);
      assert false;
    }
  }

  /**
   * Re-running a batch after a run in which every uncached document was
   * extracted, accepted and saved finds every document in the store: nothing
   * is extracted, nothing fails, and the result is the stored records in
   * input order.
   */
  lemma RerunIsAllCacheHits(store: Store, ids: seq<string>, contents: seq<string>, svc: Services, svc2: Services)
    requires |ids| == |contents|
    requires forall i :: 0 <= i < |ids| && ids[i] !in store ==> Saved(svc, true, ids[i], svc.extract(contents[i]))
    ensures var r1 := RunBatch(store, ids, contents, true, true, svc);
      var r2 := RunBatch(r1.store, ids, contents, true, true, svc2);
      && (forall i :: 0 <= i < |ids| ==> ids[i] in r1.store)
      && r2.dispatched == [] && r2.store == r1.store && r2.errorLog == [] && r2.processed == 0
      && |r2.docs| == |ids| && forall i :: 0 <= i < |ids| ==> r2.docs[i] == r1.store[ids[i]]
  {
    var r1 := RunBatch(store, ids, contents, true, true, svc);
    forall i | 0 <= i < |ids| ensures ids[i] in r1.store {
      RunBatchStoresSavedInputs(store, ids, contents, svc, i);
    }
    AllCachedExtractsNothing(r1.store, ids, contents, true, svc2);
  }

  /**
   * A document whose id no document of the batch gets accepted under is never
   * written: its store entry (or its absence) survives the run.
   */
  lemma FailuresAreNotPersisted(store: Store, ids: seq<string>, contents: seq<string>, probe: bool, persistOn: bool, svc: Services, key: string)
    requires |ids| == |contents|
    requires forall j :: 0 <= j < |ids| && ids[j] == key ==> !Accepted(svc, key, svc.extract(contents[j]))
    ensures LoadFrom(RunBatch(store, ids, contents, probe, persistOn, svc).store, key) == LoadFrom(store, key)
  {
    var p := Plan(store, ids, contents, probe);
    if p.remainingIds != [] {
      var results := ExtractAll(svc, p.remainingContents);
      SettleAllStore(Tally(p.hits, 0, [], store), p.remainingIds, results, svc, persistOn);
      if key in SavedKeys(svc, persistOn, p.remainingIds, results) {
        var k :| 0 <= k < |p.remainingIds| && Saved(svc, persistOn, p.remainingIds[k], results[k]) && p.remainingIds[k] == key;
        if probe {
          ProbeSplitsInputs(store, ids, contents);
        }
        assert false;
      }
    }
  }

  /**
   * A one-document batch yields a record exactly when the id is cached (and
   * probed) or its extraction and rebuild succeed; the record is the cached
   * one or the freshly rebuilt one.
   */
  lemma SingleDocumentBatch(store: Store, id: string, markdown: string, probe: bool, persistOn: bool, svc: Services)
    ensures var r := RunBatch(store, [id], [markdown], probe, persistOn, svc);
      && (r.docs != [] <==> (probe && id in store) || Accepted(svc, id, svc.extract(markdown)))
      && (probe && id in store ==> r.docs == [store[id]] && r.dispatched == [])
      && (!(probe && id in store) ==> r.dispatched == [markdown])
      && (!(probe && id in store) && Accepted(svc, id, svc.extract(markdown)) ==>
            r.docs == [Record(svc, id, svc.extract(markdown))])
  {
    assert [id][..0] == [] && [markdown][..0] == [];
    var p := Plan(store, [id], [markdown], probe);
    if !(probe && id in store) {
      assert p.remainingIds == [id] && p.remainingContents == [markdown];
      var results := ExtractAll(svc, [markdown]);
      assert results == [svc.extract(markdown)] && results[..0] == [];
      var t0 := Tally([], 0, [], store);
      assert SettleAll(t0, [id], results, svc, persistOn) == SettleOne(t0, id, svc.extract(markdown), svc, persistOn);
    }
  }

  /**
   * `analyze_document` returns the batch's first record, and otherwise fails
   * with a message naming the document. The record carries the document's id
   * when the store's entries carry their keys and the rebuild keeps the
   * stamped id.
   */
  lemma AnalyzeDocumentOutcome(store: Store, id: string, markdown: string, probe: bool, persistOn: bool, svc: Services)
    ensures var a := AnalyzeResult(RunBatch(store, [id], [markdown], probe, persistOn, svc), id);
      && (a.Success? <==> (probe && id in store) || Accepted(svc, id, svc.extract(markdown)))
      && (a.Success? && StoreStamped(store) && KeepsDocumentId(svc) ==> a.value.documentId == Some(id))
      && (a.Failure? ==> a.error == "Failed to process document: " + id)
  {
    SingleDocumentBatch(store, id, markdown, probe, persistOn, svc);
    if StoreStamped(store) && KeepsDocumentId(svc) {
      RunBatchKeepsStoreStamped(store, [id], [markdown], probe, persistOn, svc);
    }
  }

  /** An extraction service that fails on one text and returns an empty record otherwise. */
  function FailingOn(bad: string): Services {
    Services(
      text => if text == bad then Failure("extraction failed") else Success(Artifact(None, map[])),
      a => Success(a),
      (k, a) => Pass)
  }

  /**
   * Three uncached documents, the second of which fails to extract: two
   * records come back and are stored under their ids, one error is logged
   * under the failed id, and nothing is stored for it.
   */
  lemma OneFailureInThree()
    ensures var r := RunBatch(map[], ["a", "b", "c"], ["text-A", "text-B", "text-C"], true, true, FailingOn("text-B"));
      && r.cacheHits == 0 && r.processed == 2
      && r.errorLog == [ErrorEntry("b", "extraction failed")]
      && r.docs == [Artifact(Some("a"), map[]), Artifact(Some("c"), map[])]
      && r.store == map["a" := Artifact(Some("a"), map[]), "c" := Artifact(Some("c"), map[])]
  {
    var ids, texts := ["a", "b", "c"], ["text-A", "text-B", "text-C"];
    var svc := FailingOn("text-B");
    ProbeNothingCached(map[], ids, texts);
    var results := ExtractAll(svc, texts);
    assert results == [Success(Artifact(None, map[])), Failure("extraction failed"), Success(Artifact(None, map[]))];
    assert ids[..2] == ["a", "b"] && ids[..2][..1] == ["a"] && ids[..2][..1][..0] == [];
    assert results[..2][..1][..0] == [];
    var none := Artifact(None, map[]);
    var t0 := Tally([], 0, [], map[]);
    var t1 := Tally([Artifact(Some("a"), map[])], 1, [], map["a" := Artifact(Some("a"), map[])]);
    var t2 := t1.(errorLog := [ErrorEntry("b", "extraction failed")]);
    assert SettleAll(t0, ids[..2][..1], results[..2][..1], svc, true) == SettleOne(t0, "a", Success(none), svc, true) == t1;
    assert SettleAll(t0, ids[..2], results[..2], svc, true) == SettleOne(t1, "b", Failure("extraction failed"), svc, true) == t2;
    assert SettleAll(t0, ids, results, svc, true) == SettleOne(t2, "c", Success(none), svc, true);
  }

  /** An extraction service that records the text it was given; rebuild and store writes always succeed. */
  function Echo(): Services {
    Services(
      text => Success(Artifact(None, map["text" := text])),
      a => Success(a),
      (k, a) => Pass)
  }

  /**
   * Two files with the same stem give the id "a" twice: both are extracted
   * and returned, both are saved under "a", and the store keeps the second.
   */
  lemma RepeatedIdKeepsLastSave()
    ensures var r := RunBatch(map[], ["a", "a"], ["one", "two"], true, true, Echo());
      && r.docs == [Artifact(Some("a"), map["text" := "one"]), Artifact(Some("a"), map["text" := "two"])]
      && r.store == map["a" := Artifact(Some("a"), map["text" := "two"])]
      && r.errorLog == [] && r.processed == 2
  {
    var ids, texts := ["a", "a"], ["one", "two"];
    var svc := Echo();
    ProbeNothingCached(map[], ids, texts);
    var results := ExtractAll(svc, texts);
    var one, two := Artifact(None, map["text" := "one"]), Artifact(None, map["text" := "two"]);
    assert results == [Success(one), Success(two)];
    assert ids[..1] == ["a"] && ids[..1][..0] == [] && results[..1][..0] == [];
    var t0 := Tally([], 0, [], map[]);
    var t1 := Tally([WithDocumentId(one, "a")], 1, [], map["a" := WithDocumentId(one, "a")]);
    assert SettleAll(t0, ids[..1], results[..1], svc, true) == SettleOne(t0, "a", Success(one), svc, true) == t1;
    assert SettleAll(t0, ids, results, svc, true) == SettleOne(t1, "a", Success(two), svc, true);
  }
}
