# AuthSign signing service: CMS armor handling and signing sessions

This project models the parts of the AuthSign PAdES signing service that the repository implements
itself. The cryptographic and PDF work is done by pyhanko and asn1crypto. Those calls are treated as
opaque functions that can succeed or fail.

- **CMS armor normalisation.** The server's `cmsDecode` turns an uploaded `.p7s` signature, given as
  text, into base64 text. It rewrites the `-----BEGIN CMS-----` and `-----END CMS-----` markers into
  PKCS7 markers followed by a line feed. It then splits the text into lines, drops every line that
  starts with five dashes, joins the remaining lines and removes spaces and carriage returns. The
  command-line script's `cmsDecode` strips armor only when the file starts with five dashes. It does
  not rewrite markers, and it keeps spaces and carriage returns.
- **Signing sessions.** `prepare_pdf` stores the prepared digest, the output buffer and a temporary
  directory in the process-wide `tbs_documents` table. The entry's key is the hex of sixteen random
  bytes. The embed handler removes that entry in its `finally` block.
- **Embed request checks.** The checks run in this order:
  1. the form fields are present;
  2. the signature file name ends in `.p7s`;
  3. the id is in the table;
  4. the upload decodes as UTF-8 and as CMS;
  5. the raw upload is at most 16384 bytes;
  6. pyhanko's `finish_signing` is called.

  The script's `embed_signature` likewise decodes first, then checks the size, then finishes.

Modules:

| module | file |
|---|---|
| `Wrappers` (`Option`, `Result`) | wrappers.dfy |
| `Text` (Python's `split`, `join`, `replace`, `startswith`/`endswith`) | text.dfy |
| `HexCodec` (`bytes.hex()` and its inverse) | hex.dfy |
| `Collaborators` (the opaque library calls) | collaborators.dfy |
| `Armor` (the CMS markers and the delimiter-line filter both decoders share) | armor.dfy |
| `ServerCms` (the server's `cmsDecode`) | server_cms.dfy |
| `SigningServer` (the session table and both handlers) | server_sessions.dfy |
| `PadesSigningTest` (the script's decoder and embedding step) | pades_test.dfy |

The handlers change the module-level table, so they are methods of the class `SigningServer.Server`.
Its field `tbsDocuments` is a map. Each method is proved against a pure function of the old table
(`PrepareResult`, `StoreAfterPrepare`, `EmbedResult`, `EmbedResultAsWritten`, `StoreAfterEmbed`). The lemmas state the
session lifecycle in terms of those functions.

The CMS decoders are pure functions. The library calls they make come in as the fields of a
`Collaborators.Library` value:
- UTF-8 decoding;
- `base64.b64decode`;
- `ContentInfo.load`;
- `finish_signing`.

Three behaviours of the code shape the model:
- Sessions never expire. An entry whose embed request never arrives stays in the table for the life
  of the process.
- The size limit applies to the raw upload, the still-armored text. It is checked only after the
  upload decoded successfully.
- The early returns of the embed handler crash in its cleanup code, so they answer 500 and not their
  intended 400 or 404 (see Findings).

## Model

| member | source | states |
|---|---|---|
| Text.Split | pdf_sigining_server.py:26 | `str.split(sep)` always yields at least one piece, and no piece contains the separator |
| Text.JoinSplit | pdf_sigining_server.py:26 | joining the pieces of `split` with the separator gives back the text: splitting loses and reorders nothing |
| Text.SplitAtSeparator | pdf_sigining_server.py:26 | the pieces of `x + sep + y` are the pieces of `x` followed by the pieces of `y` |
| Text.Remove | pdf_sigining_server.py:28 | the removed character no longer occurs, and every remaining character comes from the input |
| Text.Replace | pdf_sigining_server.py:23-28 | `str.replace` for a non-empty pattern, left to right and without overlap; it has no contract of its own and is described by `ReplaceByEmptyIsRemove`, `ReplaceAbsent`, `ReplaceAcrossSeparator`, `ReplaceAtStart` and `ReplaceAfterPrefix` |
| Text.ReplaceByEmptyIsRemove | pdf_sigining_server.py:28 | `replace(c, '')` removes exactly the occurrences of `c` and keeps everything else in order |
| Text.ReplaceAbsent | pdf_sigining_server.py:23-24 | `replace` leaves a text in which the pattern does not occur unchanged |
| Text.ReplaceAcrossSeparator | pdf_sigining_server.py:23-24 | a character outside the pattern splits the text for `replace`: both sides are rewritten independently |
| Text.ReplaceAtStart | pdf_sigining_server.py:23 | an occurrence at the start is replaced, and the rest is rewritten on its own |
| Text.ReplaceAfterPrefix | pdf_sigining_server.py:23 | when no occurrence starts inside a prefix, `replace` copies the prefix and rewrites only what follows |
| HexCodec.Hex | pdf_sigining_server.py:107 | `bytes.hex()` yields two lower-case hexadecimal digits per byte |
| HexCodec.UnHexHex | pdf_sigining_server.py:107 | reading the hex rendering back gives the original bytes |
| HexCodec.HexInjective | pdf_sigining_server.py:107 | distinct byte strings have distinct hex renderings |
| Armor.JoinUnarmored | pdf_sigining_server.py:27 | every character of the joined result comes from one of the lines |
| Armor.JoinUnarmoredAppend | pdf_sigining_server.py:27 | the filter-and-join works line by line: the result for `a + b` is the result for `a` followed by the result for `b` |
| Armor.PemBody | pades_signing_test.py:30-31 | the joined body of an armored text holds no line feed |
| Armor.PemBodyAppendLine | pades_signing_test.py:30-31 | two consecutive lines contribute their bodies in order, with nothing between them |
| Armor.PemBodyOfLine | pades_signing_test.py:30-31 | a line starting with five dashes contributes nothing; any other line contributes all its characters, spaces and carriage returns included |
| ServerCms.RewriteMarkers | pdf_sigining_server.py:23-24 | the two marker rewrites; no contract of its own, described by `RewriteMarkersAppendLine`, `RewriteMarkersAfterBegin`, `RewriteMarkersOfEnd` and `RewriteMarkersAfterEnd` |
| ServerCms.StripBlanks | pdf_sigining_server.py:28 | the two chained `replace` calls remove exactly the spaces and carriage returns |
| ServerCms.Base64Text | pdf_sigining_server.py:23-28 | the normalised text holds no line feed, space or carriage return |
| ServerCms.CmsDecode | pdf_sigining_server.py:20-38 | succeeds exactly when base64 decoding and loading both succeed, with the loaded value; a base64 failure is the base64 prefix followed by the decoder's message, and a load failure is the load prefix followed by the loader's message |
| ServerCms.RewriteMarkersAppendLine | pdf_sigining_server.py:23-24 | the marker rewrite does not cross line feeds: it rewrites each line on its own |
| ServerCms.StripBlanksAppend | pdf_sigining_server.py:28 | stripping blanks distributes over concatenation |
| ServerCms.Base64TextAppendLine | pdf_sigining_server.py:23-28 | the lines are normalised independently and concatenated in their original order, with no separator |
| ServerCms.Base64TextOfLine | pdf_sigining_server.py:26-28 | a line without CMS markers contributes nothing if it starts with five dashes, and otherwise all its characters except spaces and carriage returns |
| ServerCms.RewriteMarkersAfterBegin | pdf_sigining_server.py:23 | a leading `-----BEGIN CMS-----` becomes `-----BEGIN PKCS7-----` followed by a line feed |
| ServerCms.Base64TextAfterBeginMarker | pdf_sigining_server.py:23-28 | a BEGIN CMS marker contributes nothing, and the text after it on the same line is kept |
| ServerCms.RewriteMarkersOfEnd | pdf_sigining_server.py:24 | `-----END CMS-----` becomes `-----END PKCS7-----` followed by a line feed |
| ServerCms.Base64TextOfEndMarker | pdf_sigining_server.py:24-28 | an END CMS marker contributes nothing |
| ServerCms.RewriteMarkersAfterEnd | pdf_sigining_server.py:23-24 | a leading `-----END CMS-----` becomes `-----END PKCS7-----` followed by a line feed, provided the text after it does not start with `B` or `-` |
| ServerCms.Base64TextAfterEndMarker | pdf_sigining_server.py:23-28 | an END CMS marker contributes nothing, and the text after it on the same line is kept, under the same condition on that text |
| ServerCms.Base64TextOfOneLineArmor | pdf_sigining_server.py:23-28 | for any body free of blanks, line feeds and markers that does not start with five dashes: with the BEGIN marker before it on its line and the END marker on the next line, normalisation yields exactly the body |
| SigningServer.PrepareSteps | pdf_sigining_server.py:45-126 | an entry is stored exactly when a `.pdf` was uploaded, pyhanko prepared it and a temporary directory was created, and it holds exactly their results; no file answers 400 with its message; a name not ending in `.pdf` answers 400 with its message; a failure of the library or of `mkdtemp` answers 500 with the prepare-error prefix followed by that failure's message |
| SigningServer.PrepareResult | pdf_sigining_server.py:106-126 | the answer is a success exactly when the steps succeed, and otherwise it is the rejection the steps produced; the id is 32 lower-case hex digits that read back as the random bytes; the hash has two lower-case hex digits per digest byte and reads back as the document digest |
| SigningServer.StoreAfterPrepare | pdf_sigining_server.py:113-118 | a failed prepare leaves the table unchanged |
| SigningServer.DecodeUpload | pdf_sigining_server.py:154-155 | UTF-8 decoding of the upload followed by the server's `cmsDecode`; no contract of its own, described through `EmbedFound`, whose clauses are stated in terms of it |
| SigningServer.FinishOutcome | pdf_sigining_server.py:160-177 | how `finish_signing`'s result reaches the client; no contract of its own, described by the finish clause of `EmbedFound`: success gives the signed document (200), a `ValueError` gives its own message (400), and any other exception gives the embed-error prefix followed by its message (500) |
| SigningServer.EmbedFound | pdf_sigining_server.py:153-177 | once the entry is found: decode failures give 400 with the decode message; the size check applies only to decodable uploads and rejects raw sizes above 16384; finish is reached exactly when both checks pass; then a successful finish answers 200 with the signed document, a `ValueError` answers 400 with its message, and any other exception answers 500 with the embed-error prefix followed by its message |
| SigningServer.EmbedResult | pdf_sigining_server.py:133-177 | the corrected handler checks in order: a missing `doc_id` or file gives the incomplete-request answer, whatever the file name; a name not ending in `.p7s` gives the extension answer; for a `.p7s` file the answer is not-found exactly when the id is unknown; past the lookup it behaves as `EmbedFound` on the stored entry |
| SigningServer.EmbedResultAsWritten | pdf_sigining_server.py:133-181 | the handler as written ends with the crash of its `finally` block on every early return, and otherwise agrees with the corrected handler |
| SigningServer.StoreAfterEmbed | pdf_sigining_server.py:144-181 | the found entry is deleted whatever the outcome; nothing else changes, and a request rejected before the lookup leaves the table as it was |
| SigningServer.Server.constructor | pdf_sigining_server.py:18 | the table starts empty |
| SigningServer.Server.PreparePdf | pdf_sigining_server.py:41-126 | answers as `PrepareResult`, and the new table is the old one with at most the new entry added |
| SigningServer.Server.TryEmbed | pdf_sigining_server.py:132-177 | `temp_dir` is bound exactly when the request passed the form checks and named a stored id; the outcome is the corrected handler's |
| SigningServer.Server.EmbedSignatureAsWritten | pdf_sigining_server.py:129-181 | the handler as written: the answer is `EmbedResultAsWritten` and the table is `StoreAfterEmbed` of the old one |
| SigningServer.Server.EmbedSignature | pdf_sigining_server.py:129-181 | the corrected handler: the answer is `EmbedResult` and the table is `StoreAfterEmbed` of the old one |
| SigningServer.PrepareAddsOneEntry | pdf_sigining_server.py:107-118 | a successful prepare adds exactly one entry under the new id, holding the digest, the buffer and the directory, and leaves every other entry unchanged |
| SigningServer.DistinctDrawsDistinctIds | pdf_sigining_server.py:107 | different random draws give different session ids |
| SigningServer.PrepareThenEmbed | pdf_sigining_server.py:114-181 | after a successful prepare, a `.p7s` embed for the returned id reaches the stored entry and then deletes it |
| SigningServer.SecondEmbedNotFound | pdf_sigining_server.py:144-181 | a session is used once: after a request found the entry, whatever its outcome, a second request for the same id is not admitted; for a `.p7s` file the corrected handler answers 404, while the code as written crashes in its cleanup and answers 500 |
| SigningServer.EarlyReturnsCrashAsWritten | pdf_sigining_server.py:133-181 | on every early return the corrected handler keeps the table and answers with its own status and message: 400 for an incomplete form, 400 for a wrong extension, 404 for an unknown id; the code as written answers 500 |
| SigningServer.SizeBoundary | pdf_sigining_server.py:154-157 | a decodable upload of exactly 16384 raw bytes passes the size check, and one of 16385 fails it |
| PadesSigningTest.CmsBytes | pades_signing_test.py:28-32 | the bytes handed to the loader: the file itself, or the base64 decoding of its PEM body when it starts with five dashes; no contract of its own, described by the clauses of `CmsDecode` |
| PadesSigningTest.CmsDecode | pades_signing_test.py:21-36 | a file not starting with five dashes goes to the loader unchanged; an armored file goes through UTF-8 decoding, the PEM body, base64 decoding and the loader; it succeeds with the loaded value exactly when every step succeeds, and each failure (the read, UTF-8, base64 or the loader) is the fixed decode prefix followed by that step's own message |
| PadesSigningTest.EmbedSignature | pades_signing_test.py:225-263 | decoding comes first, so an undecodable file fails with the decode error whatever its size; a decodable file is rejected as too large exactly when its raw size exceeds 16384; finish is reached exactly when both checks pass, and its result or exception is passed on |
| PadesSigningTest.SizeBoundary | pades_signing_test.py:234-238 | a decodable file of exactly 16384 bytes passes the size check, and one of 16385 fails it |
| PadesSigningTest.DelimiterLinesOnly | pades_signing_test.py:30-31 | two delimiter lines give an empty body, whatever follows the dashes on them |
| PadesSigningTest.OneLineArmorLosesBody | pades_signing_test.py:28-31 | unlike the server, the script drops any text written on the BEGIN marker's line: with the END marker on the next line the body is empty |

## Left out

- pyhanko's document preparation is a parameter of `PreparePdf` that returns the prepared digest and the output buffer, or an error message. It is not modelled: the signature field, QR stamp, `/Contents` placeholder, `/ByteRange` and document digest computation.
- pyhanko's `finish_signing` is an opaque field of `Collaborators.Library`. The bytes it returns stand for the output buffer read back after the call. The splicing itself and the `output.seek` calls are not modelled.
- `base64.b64decode`, asn1crypto's `ContentInfo.load` and UTF-8 decoding are opaque partial functions. The CMS object is a type parameter.
- `os.urandom(16)` is a parameter holding the sixteen bytes. The outcome of `tempfile.mkdtemp()` is a parameter.
- `shutil.rmtree` runs with `ignore_errors=True`, so it has no effect the model can see. The temporary directory is only recorded in the entry.
- Flask routing and `request.files`/`request.form` access become an `EmbedRequest` or `Option<Upload>` value. JSON answers and the base64 encoding of the signed PDF in the response become outcome tags with their status codes.
- `print` logging in both files is not modelled.
- Concurrent requests sharing `tbs_documents` under a threaded server are not modelled. Each handler runs as one atomic step.
- Session expiry is not modelled, because the code has none.
- The script's `prepare_pdf`, `extract_cms_info`, `inspect_object` and `main` are left out. They are the library-driven preparation, debug printing of ASN.1 objects and the driver.
- The script's file reads and writes are left out. Both reads of the signature file are modelled as seeing the same bytes. A read failure is an input. Writing the signed PDF to `output_path` is not modelled.
- ServerCms.RewriteMarkersAfterEnd and ServerCms.Base64TextAfterEndMarker: nothing is stated when the text after the END marker starts with `B` or `-`. The BEGIN rewrite runs first and can then match across the marker's trailing dashes, as in `-----END CMS-----BEGIN CMS-----`.
- A Flask upload whose file name is `None` is not modelled. File names are always strings here.

## Findings

| source | as written | input that shows it | evidently intended | confidence | as-written member | corrected member |
|---|---|---|---|---|---|---|
| pdf_sigining_server.py:133-181 | The early `return`s at lines 135, 142 and 145 still run the `finally` block. That block calls `shutil.rmtree(temp_dir, ...)` before `temp_dir` is bound at line 151, so it raises `UnboundLocalError` and the request ends with status 500 | an embed request whose `doc_id` is not in `tbs_documents`, with a file named `x.p7s`; or a request without `doc_id`; or a file not ending in `.p7s` | the JSON answers of those returns: 400 or 404, with the table unchanged | high; not executed | SigningServer.Server.EmbedSignatureAsWritten, with SigningServer.EarlyReturnsCrashAsWritten | SigningServer.Server.EmbedSignature |
