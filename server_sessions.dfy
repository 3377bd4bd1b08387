/**
 * The signing server's two handlers and the table that links them.
 *
 * `prepare_pdf` has pyhanko reserve the signature space and compute the document digest, names the
 * session with the hex of sixteen random bytes and stores the prepared digest, the output buffer and
 * a temporary directory under that id in `tbs_documents`. `embed_signature_in_previous_prepered_document`
 * checks the request, looks the id up, decodes the uploaded `.p7s`, checks its size and has pyhanko
 * splice the signature in; its `finally` block removes the entry on every path that found it.
 *
 * As written, the early returns (incomplete request, wrong extension, unknown id) also run that
 * `finally` block before `temp_dir` is bound, so it raises `UnboundLocalError` and Flask answers 500
 * instead of the intended 400 or 404. `EmbedSignatureAsWritten` models that code; `EmbedSignature` is
 * the corrected handler, which the lemmas about the session table use.
 */
module SigningServer {
  import opened Wrappers
  import opened Text
  import opened HexCodec
  import opened Collaborators
  import ServerCms

  /** Largest accepted `.p7s` upload, in raw bytes; the same number of bytes is reserved in the PDF. */
  const MaxSignatureFileSize: nat := 16384

  const PdfSuffix: string := ".pdf"
  const P7sSuffix: string := ".p7s"

  const NoFileMessage: string := "Nenhum arquivo enviado"
  const NotPdfMessage: string := "Arquivo deve ser um PDF"
  const PrepareErrorPrefix: string := "Erro ao preparar o documento: "
  const IncompleteMessage: string :=
    "Dados incompletos: doc_id e arquivo de assinatura (.p7s) s\U{e3}o obrigat\U{f3}rios"
  const NotP7sMessage: string := "O arquivo de assinatura deve ter extens\U{e3}o .p7s"
  const NotFoundMessage: string := "Documento n\U{e3}o encontrado"
  const TooLargeMessage: string := "Arquivo .p7s excede o tamanho reservado (16384 bytes)"
  const EmbedErrorPrefix: string := "Erro ao incorporar a assinatura: "

  /** An uploaded file: its client-side name and its raw bytes. */
  datatype Upload = Upload(filename: string, content: seq<byte>)

  /** One `tbs_documents` value: the prepared digest, the output buffer and the temporary directory. */
  datatype TbsEntry = TbsEntry(prepDigest: PreparedDigest, output: OutputBuffer, tempDir: string)

  type Store = map<string, TbsEntry>

  /** What pyhanko's preparation yields for an uploaded PDF: the prepared digest and the output buffer. */
  type PrepareDoc = seq<byte> -> Result<(PreparedDigest, OutputBuffer), string>

  // ---------------------------------------------------------------- prepare

  datatype PrepareResponse =
    | Prepared(docId: string, hash: string)         // 200 {'doc_id', 'hash'}
    | PrepareRejected(status: int, error: string)   // 400 or 500 {'error'}

  /**
   * The steps of `prepare_pdf` before the insertion: the entry to store, or the response that ends
   * the request. A failure of the library or of `mkdtemp` is caught by the handler's `except` (500).
   */
  function PrepareSteps(file: Option<Upload>, prepareDoc: PrepareDoc, mkdtemp: Result<string, string>)
    : (r: Result<TbsEntry, PrepareResponse>)
    ensures r.Success? <==>
      && file.Some? && EndsWith(file.value.filename, PdfSuffix)
      && prepareDoc(file.value.content).Success? && mkdtemp.Success?
    ensures file.None? ==> r == Failure(PrepareRejected(400, NoFileMessage))
    ensures file.Some? && !EndsWith(file.value.filename, PdfSuffix) ==> r == Failure(PrepareRejected(400, NotPdfMessage))
    ensures file.Some? && EndsWith(file.value.filename, PdfSuffix) && prepareDoc(file.value.content).Failure? ==>
      r == Failure(PrepareRejected(500, PrepareErrorPrefix + prepareDoc(file.value.content).error))
    ensures file.Some? && EndsWith(file.value.filename, PdfSuffix) && prepareDoc(file.value.content).Success? &&
            mkdtemp.Failure? ==>
      r == Failure(PrepareRejected(500, PrepareErrorPrefix + mkdtemp.error))
    ensures r.Success? ==>
      r.value == TbsEntry(prepareDoc(file.value.content).value.0, prepareDoc(file.value.content).value.1, mkdtemp.value)
  {
    if file.None? then Failure(PrepareRejected(400, NoFileMessage))
    else if !EndsWith(file.value.filename, PdfSuffix) then Failure(PrepareRejected(400, NotPdfMessage))
    else
      match prepareDoc(file.value.content)
      case Failure(e) => Failure(PrepareRejected(500, PrepareErrorPrefix + e))
      case Success(prepared) =>
        match mkdtemp
        case Failure(e) => Failure(PrepareRejected(500, PrepareErrorPrefix + e))
        case Success(dir) => Success(TbsEntry(prepared.0, prepared.1, dir))
  }

  /** The response of `prepare_pdf`: on success the session id is the hex of the sixteen random bytes. */
  function PrepareResult(file: Option<Upload>, prepareDoc: PrepareDoc, random: seq<byte>, mkdtemp: Result<string, string>)
    : (r: PrepareResponse)
    requires |random| == 16
    ensures r.Prepared? <==> PrepareSteps(file, prepareDoc, mkdtemp).Success?
    ensures !r.Prepared? ==> r == PrepareSteps(file, prepareDoc, mkdtemp).error
    ensures r.Prepared? ==> |r.docId| == 32 && IsLowerHex(r.docId) && UnHex(r.docId) == random
    ensures r.Prepared? ==>
      var digest := PrepareSteps(file, prepareDoc, mkdtemp).value.prepDigest.documentDigest;
      |r.hash| == 2 * |digest| && IsLowerHex(r.hash) && UnHex(r.hash) == digest
  {
    match PrepareSteps(file, prepareDoc, mkdtemp)
    case Failure(response) => response
    case Success(entry) =>
      UnHexHex(random);
      UnHexHex(entry.prepDigest.documentDigest);
      Prepared(Hex(random), Hex(entry.prepDigest.documentDigest))
  }

  /** The table after `prepare_pdf`: the new entry stored under the new id, or the table as it was. */
  function StoreAfterPrepare(store: Store, file: Option<Upload>, prepareDoc: PrepareDoc, random: seq<byte>,
                             mkdtemp: Result<string, string>): (s: Store)
    requires |random| == 16
    ensures PrepareSteps(file, prepareDoc, mkdtemp).Failure? ==> s == store
  {
    match PrepareSteps(file, prepareDoc, mkdtemp)
    case Failure(_) => store
    case Success(entry) => store[Hex(random) := entry]
  }

  // ---------------------------------------------------------------- embed

  datatype EmbedRequest = EmbedRequest(docId: Option<string>, signature: Option<Upload>)

  /** How an embed request ends; `Status` gives the HTTP status of each. */
  datatype EmbedOutcome =
    | Signed(pdf: seq<byte>)              // the signed document, returned base64-encoded
    | IncompleteRequest                   // no doc_id or no signature file
    | NotP7s                              // the signature file name does not end in .p7s
    | DocumentNotFound                    // no prepared document under doc_id
    | SignatureRejected(message: string)  // ValueError while decoding: UTF-8, base64 or ContentInfo
    | SignatureTooLarge                   // the raw upload exceeds the reserved size
    | FinishRejected(message: string)     // finish_signing raised a ValueError
    | FinishFailed(message: string)       // finish_signing raised any other exception
    | CleanupCrashed                      // the finally block raised: temp_dir was never bound

  function Status(o: EmbedOutcome): int
  {
    match o
    case Signed(_) => 200
    case IncompleteRequest | NotP7s | SignatureRejected(_) | SignatureTooLarge | FinishRejected(_) => 400
    case DocumentNotFound => 404
    case FinishFailed(_) | CleanupCrashed => 500
  }

  /** The `'error'` field of the JSON answer; the crash answer is Flask's own page and has none. */
  function ErrorMessage(o: EmbedOutcome): string
    requires !o.Signed? && !o.CleanupCrashed?
  {
    match o
    case IncompleteRequest => IncompleteMessage
    case NotP7s => NotP7sMessage
    case DocumentNotFound => NotFoundMessage
    case SignatureRejected(m) => m
    case SignatureTooLarge => TooLargeMessage
    case FinishRejected(m) => m
    case FinishFailed(m) => EmbedErrorPrefix + m
  }

  /** The request passes the form checks and names a prepared document, so its entry is read. */
  predicate Admitted(store: Store, req: EmbedRequest)
  {
    && req.docId.Some? && req.signature.Some?
    && EndsWith(req.signature.value.filename, P7sSuffix)
    && req.docId.value in store
  }

  /**
   * The upload decoded as UTF-8 text and then by the server's CMS decoder; a failed UTF-8 decoding is
   * a `ValueError` too.
   */
  function DecodeUpload<C>(content: seq<byte>, lib: Library<C>): Result<C, string>
  {
    match lib.utf8Decode(content)
    case Failure(e) => Failure(e)
    case Success(text) => ServerCms.CmsDecode(text, lib)
  }

  /** What `finish_signing`'s outcome becomes in the handler's `except` clauses. */
  function FinishOutcome(r: Result<seq<byte>, PyError>): EmbedOutcome
  {
    match r
    case Success(pdf) => Signed(pdf)
    case Failure(e) => if e.isValueError then FinishRejected(e.message) else FinishFailed(e.message)
  }

  /**
   * The handler once the entry is found: decode, then check the size, then finish. Decoding comes
   * first, the limit applies to the raw upload, and `finish_signing` is reached only past both checks.
   */
  function EmbedFound<C>(entry: TbsEntry, content: seq<byte>, lib: Library<C>): (o: EmbedOutcome)
    ensures DecodeUpload(content, lib).Failure? ==> o == SignatureRejected(DecodeUpload(content, lib).error)
    ensures o == SignatureTooLarge <==> DecodeUpload(content, lib).Success? && |content| > MaxSignatureFileSize
    ensures (o.Signed? || o.FinishRejected? || o.FinishFailed?) <==>
      DecodeUpload(content, lib).Success? && |content| <= MaxSignatureFileSize
    ensures o.Signed? ==>
      lib.finishSigning(entry.prepDigest, entry.output, DecodeUpload(content, lib).value) == Success(o.pdf)
    ensures DecodeUpload(content, lib).Success? && |content| <= MaxSignatureFileSize ==>
      var f := lib.finishSigning(entry.prepDigest, entry.output, DecodeUpload(content, lib).value);
      && (f.Success? ==> o == Signed(f.value))
      && (f.Failure? && f.error.isValueError ==> o == FinishRejected(f.error.message))
      && (f.Failure? && !f.error.isValueError ==> o == FinishFailed(f.error.message))
    ensures o.FinishFailed? ==> ErrorMessage(o) == EmbedErrorPrefix + o.message
    ensures Status(o) in {200, 400, 500}
    ensures Status(o) == 500 <==>
      && DecodeUpload(content, lib).Success? && |content| <= MaxSignatureFileSize
      && var f := lib.finishSigning(entry.prepDigest, entry.output, DecodeUpload(content, lib).value);
         f.Failure? && !f.error.isValueError
  {
    match DecodeUpload(content, lib)
    case Failure(e) => SignatureRejected(e)
    case Success(info) =>
      if |content| > MaxSignatureFileSize then SignatureTooLarge
      else FinishOutcome(lib.finishSigning(entry.prepDigest, entry.output, info))
  }

  /** The corrected handler's outcome: the early checks answer 400 or 404, as their `return`s intend. */
  function EmbedResult<C>(store: Store, req: EmbedRequest, lib: Library<C>): (o: EmbedOutcome)
    ensures req.docId.None? || req.signature.None? ==> o == IncompleteRequest
    ensures req.docId.Some? && req.signature.Some? && !EndsWith(req.signature.value.filename, P7sSuffix) ==>
      o == NotP7s
    ensures req.docId.Some? && req.signature.Some? && EndsWith(req.signature.value.filename, P7sSuffix) ==>
      (o == DocumentNotFound <==> req.docId.value !in store)
    ensures Admitted(store, req) ==>
      o == EmbedFound(store[req.docId.value], req.signature.value.content, lib)
  {
    if req.docId.None? || req.signature.None? then IncompleteRequest
    else if !EndsWith(req.signature.value.filename, P7sSuffix) then NotP7s
    else if req.docId.value !in store then DocumentNotFound
    else EmbedFound(store[req.docId.value], req.signature.value.content, lib)
  }

  /** The handler as written: every early return is replaced by the crash of the `finally` block. */
  function EmbedResultAsWritten<C>(store: Store, req: EmbedRequest, lib: Library<C>): (o: EmbedOutcome)
    ensures !Admitted(store, req) ==> o == CleanupCrashed
    ensures Admitted(store, req) ==> o == EmbedResult(store, req, lib)
  {
    if Admitted(store, req) then EmbedResult(store, req, lib) else CleanupCrashed
  }

  /**
   * The table after an embed request: the entry is deleted on every path that found it, whatever the
   * outcome, and nothing else changes.
   */
  function StoreAfterEmbed(store: Store, req: EmbedRequest): (s: Store)
    ensures forall k :: k in s ==> k in store && s[k] == store[k]
    ensures Admitted(store, req) ==> s.Keys == store.Keys - {req.docId.value}
    ensures !Admitted(store, req) ==> s == store
  {
    if Admitted(store, req) then store - {req.docId.value} else store
  }

  // ---------------------------------------------------------------- the server

  /** The module-level state of the server: `tbs_documents`, shared by both handlers. */
  class Server {
    var tbsDocuments: Store

    constructor ()
      ensures tbsDocuments == map[]
    {
      tbsDocuments := map[];
    }

    /**
     * `prepare_pdf`. `prepareDoc` stands for pyhanko's preparation of the uploaded PDF, `random` for
     * `os.urandom(16)` and `mkdtemp` for the outcome of `tempfile.mkdtemp()`.
     */
    method PreparePdf(file: Option<Upload>, prepareDoc: PrepareDoc, random: seq<byte>, mkdtemp: Result<string, string>)
      returns (r: PrepareResponse)
      requires |random| == 16
      modifies this
      ensures r == PrepareResult(file, prepareDoc, random, mkdtemp)
      ensures tbsDocuments == StoreAfterPrepare(old(tbsDocuments), file, prepareDoc, random, mkdtemp)
    {
      if file.None? {
        return PrepareRejected(400, NoFileMessage);
      }
      if !EndsWith(file.value.filename, PdfSuffix) {
        return PrepareRejected(400, NotPdfMessage);
      }
      var prepared := prepareDoc(file.value.content);
      if prepared.Failure? {
        return PrepareRejected(500, PrepareErrorPrefix + prepared.error);
      }
      var (prepDigest, output) := prepared.value;
      var docId := Hex(random);
      if mkdtemp.Failure? {
        return PrepareRejected(500, PrepareErrorPrefix + mkdtemp.error);
      }
      tbsDocuments := tbsDocuments[docId := TbsEntry(prepDigest, output, mkdtemp.value)];
      r := Prepared(docId, Hex(prepDigest.documentDigest));
    }

    /**
     * The `try` block of the embed handler. `bound` is the id whose `temp_dir` has been read from the
     * table, which is what the `finally` block needs; it is `None` on the early returns.
     */
    method TryEmbed<C>(req: EmbedRequest, lib: Library<C>) returns (outcome: EmbedOutcome, bound: Option<string>)
      ensures bound.Some? <==> Admitted(tbsDocuments, req)
      ensures bound.Some? ==> bound.value == req.docId.value
      ensures outcome == EmbedResult(tbsDocuments, req, lib)
    {
      bound := None;
      if req.docId.None? || req.signature.None? {
        return IncompleteRequest, None;
      }
      var docId := req.docId.value;
      var signatureFile := req.signature.value;
      if !EndsWith(signatureFile.filename, P7sSuffix) {
        return NotP7s, None;
      }
      if docId !in tbsDocuments {
        return DocumentNotFound, None;
      }
      var entry := tbsDocuments[docId];
      bound := Some(docId);
      outcome := EmbedFound(entry, signatureFile.content, lib);
    }

    /** `embed_signature_in_previous_prepered_document` as written. */
    method EmbedSignatureAsWritten<C>(req: EmbedRequest, lib: Library<C>) returns (r: EmbedOutcome)
      modifies this
      ensures r == EmbedResultAsWritten(old(tbsDocuments), req, lib)
      ensures tbsDocuments == StoreAfterEmbed(old(tbsDocuments), req)
    {
      var outcome, bound := TryEmbed(req, lib);
      // the cleanup reads the still-unbound temporary directory and raises, discarding the pending answer
      if bound.None? {
        return CleanupCrashed;
      }
      tbsDocuments := tbsDocuments - {bound.value};
      r := outcome;
    }

    /** The embed handler with its cleanup guarded, so that the early returns answer as intended. */
    method EmbedSignature<C>(req: EmbedRequest, lib: Library<C>) returns (r: EmbedOutcome)
      modifies this
      ensures r == EmbedResult(old(tbsDocuments), req, lib)
      ensures tbsDocuments == StoreAfterEmbed(old(tbsDocuments), req)
    {
      var outcome, bound := TryEmbed(req, lib);
      if bound.Some? {
        tbsDocuments := tbsDocuments - {bound.value};
      }
      r := outcome;
    }
  }

  // ---------------------------------------------------------------- lemmas

  /**
   * A successful prepare adds exactly one entry, under the new 32-digit id, holding the prepared
   * digest, the buffer and the temporary directory; every other entry is unchanged.
   */
  lemma PrepareAddsOneEntry(store: Store, file: Option<Upload>, prepareDoc: PrepareDoc, random: seq<byte>,
                            mkdtemp: Result<string, string>)
    requires |random| == 16
    requires file.Some? && EndsWith(file.value.filename, PdfSuffix)
    requires prepareDoc(file.value.content).Success? && mkdtemp.Success?
    ensures var id := PrepareResult(file, prepareDoc, random, mkdtemp).docId;
            var s := StoreAfterPrepare(store, file, prepareDoc, random, mkdtemp);
            && s.Keys == store.Keys + {id}
            && s[id] == TbsEntry(prepareDoc(file.value.content).value.0, prepareDoc(file.value.content).value.1,
                                 mkdtemp.value)
            && forall k :: k in store && k != id ==> s[k] == store[k]
  {
  }

  /** Sessions named by different random draws never collide. */
  lemma DistinctDrawsDistinctIds(file: Option<Upload>, prepareDoc: PrepareDoc, mkdtemp: Result<string, string>,
                                 random1: seq<byte>, random2: seq<byte>)
    requires |random1| == 16 && |random2| == 16 && random1 != random2
    requires file.Some? && EndsWith(file.value.filename, PdfSuffix)
    requires prepareDoc(file.value.content).Success? && mkdtemp.Success?
    ensures PrepareResult(file, prepareDoc, random1, mkdtemp).docId
         != PrepareResult(file, prepareDoc, random2, mkdtemp).docId
  {
    if PrepareResult(file, prepareDoc, random1, mkdtemp).docId == PrepareResult(file, prepareDoc, random2, mkdtemp).docId {
      HexInjective(random1, random2);
    }
  }

  /** After a successful prepare, an embed request for the returned id reaches the stored entry. */
  lemma PrepareThenEmbed<C>(store: Store, file: Option<Upload>, prepareDoc: PrepareDoc, random: seq<byte>,
                            mkdtemp: Result<string, string>, signature: Upload, lib: Library<C>)
    requires |random| == 16
    requires file.Some? && EndsWith(file.value.filename, PdfSuffix)
    requires prepareDoc(file.value.content).Success? && mkdtemp.Success?
    requires EndsWith(signature.filename, P7sSuffix)
    ensures var id := PrepareResult(file, prepareDoc, random, mkdtemp).docId;
            var s := StoreAfterPrepare(store, file, prepareDoc, random, mkdtemp);
            var req := EmbedRequest(Some(id), Some(signature));
            && Admitted(s, req)
            && EmbedResult(s, req, lib) == EmbedFound(PrepareSteps(file, prepareDoc, mkdtemp).value, signature.content, lib)
            && StoreAfterEmbed(s, req) == s - {id}
  {
  }

  /**
   * Single use: once a request has found its entry, whatever its outcome, a second request for the
   * same id is not admitted. A `.p7s` request then gets the not-found answer from the corrected
   * handler, and the crash of the cleanup code from the handler as written.
   */
  lemma SecondEmbedNotFound<C>(store: Store, first: EmbedRequest, second: EmbedRequest, lib: Library<C>)
    requires Admitted(store, first)
    requires second.docId == first.docId
    ensures !Admitted(StoreAfterEmbed(store, first), second)
    ensures second.signature.Some? && EndsWith(second.signature.value.filename, P7sSuffix) ==>
      && EmbedResult(StoreAfterEmbed(store, first), second, lib) == DocumentNotFound
      && EmbedResultAsWritten(StoreAfterEmbed(store, first), second, lib) == CleanupCrashed
  {
  }

  /**
   * The defect: on every early return (incomplete form, wrong extension, unknown id) the corrected
   * handler answers 400 or 404 with its own message and keeps the table, while the code as written
   * answers 500 because its `finally` block raises.
   */
  lemma EarlyReturnsCrashAsWritten<C>(store: Store, req: EmbedRequest, lib: Library<C>)
    requires !Admitted(store, req)
    ensures var o := EmbedResult(store, req, lib);
      && (req.docId.None? || req.signature.None? ==> Status(o) == 400 && ErrorMessage(o) == IncompleteMessage)
      && (req.docId.Some? && req.signature.Some? && !EndsWith(req.signature.value.filename, P7sSuffix) ==>
            Status(o) == 400 && ErrorMessage(o) == NotP7sMessage)
      && (req.docId.Some? && req.signature.Some? && EndsWith(req.signature.value.filename, P7sSuffix) ==>
            Status(o) == 404 && ErrorMessage(o) == NotFoundMessage)
    ensures Status(EmbedResultAsWritten(store, req, lib)) == 500
    ensures StoreAfterEmbed(store, req) == store
  {
  }

  /** The size limit is inclusive: a decodable upload of exactly 16384 bytes passes, one of 16385 does not. */
  lemma SizeBoundary<C>(entry: TbsEntry, content: seq<byte>, lib: Library<C>)
    requires DecodeUpload(content, lib).Success?
    ensures |content| == 16384 ==> EmbedFound(entry, content, lib) != SignatureTooLarge
    ensures |content| == 16385 ==> EmbedFound(entry, content, lib) == SignatureTooLarge
  {
  }
}
