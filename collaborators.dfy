/**
 * The code the repository calls but does not contain: Python's UTF-8 decoder, `base64.b64decode`,
 * asn1crypto's `cms.ContentInfo.load` and pyhanko's `PdfTBSDocument.finish_signing`. They are
 * uninterpreted: the model takes them as functions and assumes nothing about what they compute.
 */
module Collaborators {
  import opened Wrappers
  import opened HexCodec

  /** An exception raised by a collaborator: whether it is a `ValueError` (or a subclass), and `str(e)`. */
  datatype PyError = PyError(isValueError: bool, message: string)

  /** The prepared digest pyhanko returns from `digest_doc_for_signing`; only its document digest is read. */
  datatype PreparedDigest = PreparedDigest(documentDigest: seq<byte>)

  /** The in-memory PDF output buffer that holds the prepared document until the signature is spliced in. */
  datatype OutputBuffer = OutputBuffer(bytes: seq<byte>)

  /**
   * The foreign calls, with `C` standing for asn1crypto's `ContentInfo`. A `Failure` carries `str(e)`
   * of the exception the call raised.
   */
  datatype Library<!C> = Library(
    utf8Decode: seq<byte> -> Result<string, string>,
    b64Decode: string -> Result<seq<byte>, string>,
    loadContentInfo: seq<byte> -> Result<C, string>,
    finishSigning: (PreparedDigest, OutputBuffer, C) -> Result<seq<byte>, PyError>)
}
