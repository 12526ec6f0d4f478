/**
 * The document session-state machine of the contract-review web page: a
 * string-keyed dictionary (the UI framework's per-session store) that holds
 * the uploaded file and the results of each processing stage.
 */
module DocumentSession {
  import opened Hashing

  /** The Python values the session stores, with just enough structure for `bool(...)`. */
  datatype Value =
    | VNone
    | VBool(b: bool)
    | VInt(i: int)
    | VStr(s: string)
    | VBytes(data: seq<Byte>)
    | VList(items: seq<Value>)
    | VDict(fields: map<string, Value>)
    | VObject  // any other object, which Python treats as true

  /** Python truthiness: `bool(v)`. */
  predicate Truthy(v: Value): (r: bool)
    ensures !r <==> v == VNone || v == VBool(false) || v == VInt(0) || v == VStr("")
                    || v == VBytes([]) || v == VList([]) || v == VDict(map[])
  {
    match v
    case VNone => false
    case VBool(b) => b
    case VInt(i) => i != 0
    case VStr(s) => s != ""
    case VBytes(data) => data != []
    case VList(items) => items != []
    case VDict(fields) => fields != map[]
    case VObject => true
  }

  type SessionMap = map<string, Value>

  const CurrentFileName := "current_file_name"
  const CurrentFileHash := "current_file_hash"
  const CurrentFileBytes := "current_file_bytes"
  const CurrentFileType := "current_file_type"
  const OcrInProgress := "ocr_in_progress"
  const OcrComplete := "ocr_complete"
  const MarkdownContent := "markdown_content"
  const ExtractedInfo := "extracted_info"
  const ResumedContent := "resumed_content"
  const KcpAnalysis := "kcp_analysis"
  const UploadedFileKey := "uploaded_file"

  /** The keys `reset_document_state` deletes, in the order it deletes them. */
  const KeysToReset: seq<string> := [
    OcrComplete, MarkdownContent, ExtractedInfo,
    ResumedContent, KcpAnalysis, OcrInProgress,
    CurrentFileBytes, CurrentFileType
  ]

  const DocumentKeys: set<string> := {
    OcrComplete, MarkdownContent, ExtractedInfo,
    ResumedContent, KcpAnalysis, OcrInProgress,
    CurrentFileBytes, CurrentFileType
  }

  /** The list that the reset loop walks holds exactly the document keys. */
  lemma KeysToResetAreDocumentKeys()
    ensures (set j | 0 <= j < |KeysToReset| :: KeysToReset[j]) == DocumentKeys
  {
    var listed := set j | 0 <= j < |KeysToReset| :: KeysToReset[j];
    assert KeysToReset[0] in listed && KeysToReset[1] in listed && KeysToReset[2] in listed && KeysToReset[3] in listed;
    assert KeysToReset[4] in listed && KeysToReset[5] in listed && KeysToReset[6] in listed && KeysToReset[7] in listed;
  }

  /** The upload widget's file: its name and its MIME type. */
  datatype UploadedFile = UploadedFile(name: string, mimeType: string)

  /** `st.session_state.get(key)`: the stored value, or `None` when the key is absent. */
  function Get(state: SessionMap, key: string): Value {
    if key in state then state[key] else VNone
  }

  /** The state after `reset_document_state`: the eight document keys are gone, nothing else moves. */
  function ResetDocumentKeys(state: SessionMap): (r: SessionMap)
    ensures r.Keys == state.Keys - DocumentKeys
    ensures forall k :: k in r ==> r[k] == state[k]
  {
    state - DocumentKeys
  }

  /** Whether the stored file hash is already `fileHash` (the check at the top of initialisation). */
  predicate IsCurrentFile(state: SessionMap, fileHash: string): (r: bool)
    ensures r <==> CurrentFileHash in state && state[CurrentFileHash] == VStr(fileHash)
  {
    Get(state, CurrentFileHash) == VStr(fileHash)
  }

  /** The state after `initialize_document_processing` for a file whose digest is `fileHash`. */
  function InitializedState(state: SessionMap, fileBytes: seq<Byte>, file: UploadedFile, fileHash: string): (r: SessionMap)
    ensures IsCurrentFile(state, fileHash) ==> r == state
    ensures !IsCurrentFile(state, fileHash) ==>
      && r.Keys == state.Keys - DocumentKeys + {CurrentFileName, CurrentFileHash, CurrentFileBytes, CurrentFileType, OcrInProgress}
      && r[CurrentFileHash] == VStr(fileHash)
      && r[CurrentFileName] == VStr(file.name)
      && r[CurrentFileBytes] == VBytes(fileBytes)
      && r[CurrentFileType] == VStr(file.mimeType)
      && r[OcrInProgress] == VBool(true)
      && OcrComplete !in r && MarkdownContent !in r && ExtractedInfo !in r
      && ResumedContent !in r && KcpAnalysis !in r
      && forall k :: k in state && k !in DocumentKeys && k != CurrentFileName && k != CurrentFileHash ==> k in r && r[k] == state[k]
  {
    if IsCurrentFile(state, fileHash) then
      state
    else
      var named := state[CurrentFileName := VStr(file.name)][CurrentFileHash := VStr(fileHash)];
      ResetDocumentKeys(named)[CurrentFileBytes := VBytes(fileBytes)][CurrentFileType := VStr(file.mimeType)][OcrInProgress := VBool(true)]
  }

  /** `is_ocr_complete` */
  function IsOcrComplete(state: SessionMap): (r: bool)
    ensures r <==> OcrComplete in state && Truthy(state[OcrComplete])
  {
    Truthy(Get(state, OcrComplete))
  }

  /** `is_extraction_complete` */
  function IsExtractionComplete(state: SessionMap): (r: bool)
    ensures r <==> ExtractedInfo in state && Truthy(state[ExtractedInfo])
  {
    Truthy(Get(state, ExtractedInfo))
  }

  /** `is_analysis_complete` */
  function IsAnalysisComplete(state: SessionMap): (r: bool)
    ensures r <==> ResumedContent in state && Truthy(state[ResumedContent])
  {
    Truthy(Get(state, ResumedContent))
  }

  /** `get_markdown_content` */
  function GetMarkdownContent(state: SessionMap): (r: Value)
    ensures MarkdownContent in state ==> r == state[MarkdownContent]
    ensures MarkdownContent !in state ==> r == VNone
  {
    Get(state, MarkdownContent)
  }

  /** `get_extracted_info` */
  function GetExtractedInfo(state: SessionMap): (r: Value)
    ensures ExtractedInfo in state ==> r == state[ExtractedInfo]
    ensures ExtractedInfo !in state ==> r == VNone
  {
    Get(state, ExtractedInfo)
  }

  /** `get_contract_summary` */
  function GetContractSummary(state: SessionMap): (r: Value)
    ensures ResumedContent in state ==> r == state[ResumedContent]
    ensures ResumedContent !in state ==> r == VNone
  {
    Get(state, ResumedContent)
  }

  /** `get_kcp_analysis` */
  function GetKcpAnalysis(state: SessionMap): (r: Value)
    ensures KcpAnalysis in state ==> r == state[KcpAnalysis]
    ensures KcpAnalysis !in state ==> r == VNone
  {
    Get(state, KcpAnalysis)
  }

  /** The session store, updated in place by the page's handlers. */
  class SessionState {
    var entries: SessionMap

    constructor (initial: SessionMap)
      ensures entries == initial
    {
      entries := initial;
    }

    /** `reset_document_state`: delete each listed key that is present. */
    method ResetDocumentState()
      modifies this
      ensures entries == ResetDocumentKeys(old(entries))
    {
      var i := 0;
      while i < |KeysToReset|
        invariant 0 <= i <= |KeysToReset|
        invariant entries == old(entries) - set j | 0 <= j < i :: KeysToReset[j]
      {
        var key := KeysToReset[i];
        if key in entries {
          entries := entries - {key};
        }
        i := i + 1;
      }
      KeysToResetAreDocumentKeys();
    }

    /** `initialize_document_processing`: re-seed the state when the file's digest changed; return the digest. */
    method InitializeDocumentProcessing(md5: Md5, fileBytes: seq<Byte>, uploadedFile: UploadedFile) returns (fileHash: HexDigest)
      modifies this
      ensures fileHash == GetFileHash(md5, fileBytes)
      ensures entries == InitializedState(old(entries), fileBytes, uploadedFile, fileHash)
    {
      fileHash := GetFileHash(md5, fileBytes);
      if Get(entries, CurrentFileHash) != VStr(fileHash) {
        entries := entries[CurrentFileName := VStr(uploadedFile.name)];
        entries := entries[CurrentFileHash := VStr(fileHash)];
        ResetDocumentState();
        entries := entries[CurrentFileBytes := VBytes(fileBytes)];
        entries := entries[CurrentFileType := VStr(uploadedFile.mimeType)];
        entries := entries[OcrInProgress := VBool(true)];
      }
    }
  }

  /** Resetting keeps the file identity and the uploaded file, and removes every listed key. */
  lemma ResetKeepsFileIdentity(state: SessionMap)
    ensures forall k :: k in KeysToReset ==> k !in ResetDocumentKeys(state)
    ensures forall k :: k in [CurrentFileName, CurrentFileHash, UploadedFileKey] ==>
      Get(ResetDocumentKeys(state), k) == Get(state, k)
  {
  }

  /** Resetting twice leaves the state that resetting once leaves. */
  lemma ResetIsIdempotent(state: SessionMap)
    ensures ResetDocumentKeys(ResetDocumentKeys(state)) == ResetDocumentKeys(state)
  {
  }

  /** Initialising again with the same bytes changes nothing, and returns the same digest. */
  lemma InitializeTwiceIsInitializeOnce(md5: Md5, state: SessionMap, fileBytes: seq<Byte>, file: UploadedFile, other: UploadedFile)
    ensures var h := GetFileHash(md5, fileBytes);
      var once := InitializedState(state, fileBytes, file, h);
      InitializedState(once, fileBytes, other, GetFileHash(md5, fileBytes)) == once
  {
    var h := GetFileHash(md5, fileBytes);
    var once := InitializedState(state, fileBytes, file, h);
    assert IsCurrentFile(once, h);
  }

  /** Right after a new file is initialised no stage is complete and every stage result reads as `None`. */
  lemma NewFileStartsUnprocessed(state: SessionMap, fileBytes: seq<Byte>, file: UploadedFile, fileHash: string)
    requires !IsCurrentFile(state, fileHash)
    ensures var r := InitializedState(state, fileBytes, file, fileHash);
      && !IsOcrComplete(r) && !IsExtractionComplete(r) && !IsAnalysisComplete(r)
      && GetMarkdownContent(r) == VNone && GetExtractedInfo(r) == VNone
      && GetContractSummary(r) == VNone && GetKcpAnalysis(r) == VNone
      && IsCurrentFile(r, fileHash)
  {
  }

  /** A completion predicate is the truthiness of what the matching getter returns. */
  lemma CompletionMatchesGetters(state: SessionMap)
    ensures IsExtractionComplete(state) == Truthy(GetExtractedInfo(state))
    ensures IsAnalysisComplete(state) == Truthy(GetContractSummary(state))
    ensures !IsOcrComplete(state) <== OcrComplete !in state
  {
  }
}
