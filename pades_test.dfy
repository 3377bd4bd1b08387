/**
 * The command-line signing script's decoder and embedding step.
 *
 * Its `cmsDecode` reads the `.p7s` file; when the bytes start with five dashes it decodes them as
 * UTF-8, drops the lines that start with five dashes, joins the rest and base64-decodes the result;
 * other bytes are passed to the loader as they are. Unlike the server's decoder it rewrites no
 * marker and keeps spaces and carriage returns. Every failure becomes one `ValueError` with a fixed
 * prefix. `embed_signature` decodes first, then checks the raw file size, then has pyhanko finish.
 */
module PadesSigningTest {
  import opened Wrappers
  import opened Text
  import opened HexCodec
  import opened Armor
  import opened Collaborators

  /** Largest accepted `.p7s` file, in raw bytes. */
  const MaxSignatureFileSize: nat := 16384

  const DecodeErrorPrefix: string := "Erro ao decodificar a assinatura CMS: "
  const TooLargeMessage: string := "Arquivo .p7s excede o tamanho reservado (16384 bytes)"

  /** `b'-----'`: five bytes 0x2D, the UTF-8 encoding of five dashes. */
  const DashBytes: seq<byte> := [0x2D, 0x2D, 0x2D, 0x2D, 0x2D]

  /** The bytes handed to `ContentInfo.load`: the file itself, or the base64 decoding of its PEM body. */
  function CmsBytes<C>(data: seq<byte>, lib: Library<C>): Result<seq<byte>, string>
  {
    if StartsWith(data, DashBytes) then
      match lib.utf8Decode(data)
      case Failure(e) => Failure(e)
      case Success(text) => lib.b64Decode(PemBody(text))
    else Success(data)
  }

  /**
   * `cmsDecode(cms_file_path)`, with the file's contents (or the `str` of the error that reading it
   * raised) given as `file`.
   */
  function CmsDecode<C>(file: Result<seq<byte>, string>, lib: Library<C>): (r: Result<C, string>)
    ensures r.Failure? ==> StartsWith(r.error, DecodeErrorPrefix)
    ensures r.Success? ==> file.Success?
    ensures file.Failure? ==> r == Failure(DecodeErrorPrefix + file.error)
    // a file that does not start with five dashes goes to the loader as it is
    ensures file.Success? && !StartsWith(file.value, DashBytes) ==>
      var load := lib.loadContentInfo(file.value);
      && (load.Success? ==> r == Success(load.value))
      && (load.Failure? ==> r == Failure(DecodeErrorPrefix + load.error))
    // an armored file is decoded as UTF-8, reduced to its PEM body, base64-decoded and then loaded
    ensures file.Success? && StartsWith(file.value, DashBytes) ==>
      var text := lib.utf8Decode(file.value);
      && (text.Failure? ==> r == Failure(DecodeErrorPrefix + text.error))
      && (text.Success? ==>
            var der := lib.b64Decode(PemBody(text.value));
            && (der.Failure? ==> r == Failure(DecodeErrorPrefix + der.error))
            && (der.Success? && lib.loadContentInfo(der.value).Success? ==>
                  r == Success(lib.loadContentInfo(der.value).value))
            && (der.Success? && lib.loadContentInfo(der.value).Failure? ==>
                  r == Failure(DecodeErrorPrefix + lib.loadContentInfo(der.value).error)))
  {
    match file
    case Failure(e) => Failure(DecodeErrorPrefix + e)
    case Success(data) =>
      match CmsBytes(data, lib)
      case Failure(e) => Failure(DecodeErrorPrefix + e)
      case Success(der) =>
        match lib.loadContentInfo(der)
        case Failure(e) => Failure(DecodeErrorPrefix + e)
        case Success(info) => Success(info)
  }

  /** Why `embed_signature` raised. */
  datatype EmbedError =
    | DecodeFailed(message: string)   // the ValueError of cmsDecode
    | TooLarge                        // the size check's ValueError
    | FinishRaised(error: PyError)    // whatever finish_signing raised, re-raised as it is

  /** The exception the caller sees. */
  function AsPyError(e: EmbedError): PyError
  {
    match e
    case DecodeFailed(m) => PyError(true, m)
    case TooLarge => PyError(true, TooLargeMessage)
    case FinishRaised(err) => err
  }

  /**
   * `embed_signature(prep_digest, output, signature_path, output_path)`: the signed document written
   * to `output_path`, or the exception raised. Both reads of the signature file see `file`.
   */
  function EmbedSignature<C>(prepDigest: PreparedDigest, output: OutputBuffer, file: Result<seq<byte>, string>,
                             lib: Library<C>): (r: Result<seq<byte>, EmbedError>)
    ensures CmsDecode(file, lib).Failure? ==> r == Failure(DecodeFailed(CmsDecode(file, lib).error))
    ensures CmsDecode(file, lib).Success? ==> (r == Failure(TooLarge) <==> |file.value| > MaxSignatureFileSize)
    ensures (r.Success? || r.error.FinishRaised?) <==>
      CmsDecode(file, lib).Success? && |file.value| <= MaxSignatureFileSize
    ensures r.Success? ==> lib.finishSigning(prepDigest, output, CmsDecode(file, lib).value) == Success(r.value)
    ensures r.Failure? && r.error.FinishRaised? ==>
      lib.finishSigning(prepDigest, output, CmsDecode(file, lib).value) == Failure(r.error.error)
    ensures r.Failure? ==> AsPyError(r.error).isValueError || r.error.FinishRaised?
  {
    match CmsDecode(file, lib)
    case Failure(e) => Failure(DecodeFailed(e))
    case Success(info) =>
      if |file.value| > MaxSignatureFileSize then Failure(TooLarge)
      else
        match lib.finishSigning(prepDigest, output, info)
        case Failure(err) => Failure(FinishRaised(err))
        case Success(pdf) => Success(pdf)
  }

  // ---------------------------------------------------------------- lemmas

  /** The size limit is inclusive: a decodable file of exactly 16384 bytes passes, one of 16385 does not. */
  lemma SizeBoundary<C>(prepDigest: PreparedDigest, output: OutputBuffer, data: seq<byte>, lib: Library<C>)
    requires CmsDecode(Success(data), lib).Success?
    ensures |data| == 16384 ==> EmbedSignature(prepDigest, output, Success(data), lib) != Failure(TooLarge)
    ensures |data| == 16385 ==> EmbedSignature(prepDigest, output, Success(data), lib) == Failure(TooLarge)
  {
  }

  /** Two delimiter lines yield an empty body, whatever follows the dashes on them. */
  lemma DelimiterLinesOnly(a: string, b: string)
    requires '\n' !in a && '\n' !in b && IsArmorLine(a) && IsArmorLine(b)
    ensures PemBody(a + "\n" + b) == ""
  {
    PemBodyAppendLine(a, b);
    PemBodyOfLine(a);
    PemBodyOfLine(b);
  }

  /**
   * Base64 text written on the same line as the BEGIN marker is dropped with the marker line here,
   * while the server's decoder keeps it.
   */
  lemma OneLineArmorLosesBody(body: string)
    requires '\n' !in body
    ensures PemBody(BeginCms + body + "\n" + EndCms) == ""
  {
    CmsMarkersAreArmorLines();
    ArmorLineExtends(BeginCms, body);
    assert '\n' !in BeginCms + body;
    DelimiterLinesOnly(BeginCms + body, EndCms);
  }
}
