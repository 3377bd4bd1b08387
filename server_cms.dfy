/**
 * The signing server's `cmsDecode`: it normalises an uploaded CMS signature, given as text, into
 * the base64 body, decodes that body and loads it as a CMS `ContentInfo`.
 *
 * Normalisation rewrites the `-----BEGIN CMS-----` / `-----END CMS-----` markers to PKCS7 markers
 * that end in a line feed, splits the text into lines, drops the lines that start with five dashes,
 * joins the rest with no separator and removes every space and carriage return.
 */
module ServerCms {
  import opened Wrappers
  import opened Text
  import opened Armor
  import opened Collaborators

  const BeginPkcs7: string := "-----BEGIN PKCS7-----"
  const EndPkcs7: string := "-----END PKCS7-----"

  /** Message prefix of the `ValueError` raised when `b64decode` fails. */
  const Base64ErrorPrefix: string := "Erro ao decodificar a assinatura CMS: "
  /** Message prefix of the `ValueError` raised when `ContentInfo.load` fails. */
  const LoadErrorPrefix: string := "Erro ao carregar o conte\U{fa}do CMS decodificado: "

  /** The two chained `replace` calls: each CMS marker becomes the PKCS7 marker followed by a line feed. */
  function RewriteMarkers(s: string): string
  {
    Replace(Replace(s, BeginCms, BeginPkcs7 + "\n"), EndCms, EndPkcs7 + "\n")
  }

  /** The text with every space removed and then every carriage return. */
  function StripBlanks(s: string): (r: string)
    ensures r == Remove(Remove(s, ' '), '\r')
  {
    ReplaceByEmptyIsRemove(s, ' ');
    ReplaceByEmptyIsRemove(Replace(s, " ", ""), '\r');
    Replace(Replace(s, " ", ""), "\r", "")
  }

  /** The text handed to `base64.b64decode`: it holds no line feed, space or carriage return. */
  function Base64Text(s: string): (r: string)
    ensures '\n' !in r && ' ' !in r && '\r' !in r
  {
    var body := PemBody(RewriteMarkers(s));
    var r := StripBlanks(body);
    assert forall c :: c in r ==> c in body;
    r
  }

  /**
   * `cmsDecode`: base64-decode the normalised text, then load the bytes as a `ContentInfo`.
   * Each failing step is reported as a `ValueError` with that step's own fixed prefix.
   */
  function CmsDecode<C>(s: string, lib: Library<C>): (r: Result<C, string>)
    ensures r.Success? <==>
      lib.b64Decode(Base64Text(s)).Success? && lib.loadContentInfo(lib.b64Decode(Base64Text(s)).value).Success?
    ensures r.Success? ==> r.value == lib.loadContentInfo(lib.b64Decode(Base64Text(s)).value).value
    ensures r.Failure? && lib.b64Decode(Base64Text(s)).Failure? ==>
      r.error == Base64ErrorPrefix + lib.b64Decode(Base64Text(s)).error
    ensures r.Failure? && lib.b64Decode(Base64Text(s)).Success? ==>
      r.error == LoadErrorPrefix + lib.loadContentInfo(lib.b64Decode(Base64Text(s)).value).error
  {
    match lib.b64Decode(Base64Text(s))
    case Failure(e) => Failure(Base64ErrorPrefix + e)
    case Success(der) =>
      match lib.loadContentInfo(der)
      case Failure(e) => Failure(LoadErrorPrefix + e)
      case Success(info) => Success(info)
  }

  // ---------------------------------------------------------------- lemmas

  lemma RewriteMarkersAppendLine(a: string, b: string)
    ensures RewriteMarkers(a + "\n" + b) == RewriteMarkers(a) + "\n" + RewriteMarkers(b)
  {
    var r1 := BeginPkcs7 + "\n";
    var r2 := EndPkcs7 + "\n";
    assert a + "\n" + b == a + ['\n'] + b;
    ReplaceAcrossSeparator(a, '\n', b, BeginCms, r1);
    var x, y := Replace(a, BeginCms, r1), Replace(b, BeginCms, r1);
    assert x + "\n" + y == x + ['\n'] + y;
    ReplaceAcrossSeparator(x, '\n', y, EndCms, r2);
  }

  lemma StripBlanksAppend(a: string, b: string)
    ensures StripBlanks(a + b) == StripBlanks(a) + StripBlanks(b)
  {
    RemoveAppend(a, b, ' ');
    RemoveAppend(Remove(a, ' '), Remove(b, ' '), '\r');
  }

  /**
   * Lines are normalised independently and concatenated in their original order, with nothing
   * between them.
   */
  lemma Base64TextAppendLine(a: string, b: string)
    ensures Base64Text(a + "\n" + b) == Base64Text(a) + Base64Text(b)
  {
    RewriteMarkersAppendLine(a, b);
    PemBodyAppendLine(RewriteMarkers(a), RewriteMarkers(b));
    StripBlanksAppend(PemBody(RewriteMarkers(a)), PemBody(RewriteMarkers(b)));
  }

  /**
   * A line without CMS markers contributes nothing when it starts with five dashes, and otherwise
   * all of its characters except spaces and carriage returns.
   */
  lemma Base64TextOfLine(line: string)
    requires '\n' !in line && !Contains(line, BeginCms) && !Contains(line, EndCms)
    ensures Base64Text(line) == if IsArmorLine(line) then "" else Remove(Remove(line, ' '), '\r')
  {
    ReplaceAbsent(line, BeginCms, BeginPkcs7 + "\n");
    ReplaceAbsent(line, EndCms, EndPkcs7 + "\n");
    PemBodyOfLine(line);
  }

  lemma EndCmsNotInBeginPkcs7()
    ensures !Contains(BeginPkcs7, EndCms)
  {
    forall i | 0 <= i <= |BeginPkcs7|
      ensures !StartsWith(BeginPkcs7[i..], EndCms)
    {
      EndCmsNotAt(i);
    }
  }

  lemma EndCmsNotAt(i: nat)
    requires i <= |BeginPkcs7|
    ensures !StartsWith(BeginPkcs7[i..], EndCms)
  {
    var s := BeginPkcs7;
    if i == 0 {
      assert s[i..][5] == 'B' != EndCms[5];
    } else if i <= 4 {
      assert s[i..][4] != '-';
    }
  }

  lemma PkcsMarkersAreArmorLines()
    ensures '\n' !in BeginPkcs7 && IsArmorLine(BeginPkcs7)
    ensures '\n' !in EndPkcs7 && IsArmorLine(EndPkcs7)
  {
  }

  lemma RewriteMarkersAfterBegin(t: string)
    ensures RewriteMarkers(BeginCms + t) == BeginPkcs7 + "\n" + RewriteMarkers(t)
  {
    var r1, r2 := BeginPkcs7 + "\n", EndPkcs7 + "\n";
    ReplaceAtStart(BeginCms, t, r1);
    var x := Replace(t, BeginCms, r1);
    assert r1 + x == BeginPkcs7 + ['\n'] + x;
    ReplaceAcrossSeparator(BeginPkcs7, '\n', x, EndCms, r2);
    EndCmsNotInBeginPkcs7();
    ReplaceAbsent(BeginPkcs7, EndCms, r2);
  }

  /**
   * A `-----BEGIN CMS-----` marker contributes nothing, and the text after it on the same line is
   * kept: the marker is rewritten to a delimiter line of its own.
   */
  lemma Base64TextAfterBeginMarker(t: string)
    ensures Base64Text(BeginCms + t) == Base64Text(t)
  {
    var rest := RewriteMarkers(t);
    RewriteMarkersAfterBegin(t);
    PkcsMarkersAreArmorLines();
    PemBodyAppendLine(BeginPkcs7, rest);
    PemBodyOfLine(BeginPkcs7);
    assert PemBody(RewriteMarkers(BeginCms + t)) == PemBody(rest);
  }

  lemma RewriteMarkersOfEnd()
    ensures RewriteMarkers(EndCms) == EndPkcs7 + "\n" + ""
  {
    var r2 := EndPkcs7 + "\n";
    ReplaceShort(EndCms, BeginCms, BeginPkcs7 + "\n");
    assert EndCms == EndCms + "";
    ReplaceAtStart(EndCms, "", r2);
  }

  /**
   * What may follow an END CMS marker without the BEGIN rewrite, which runs first, finding a
   * `-----BEGIN CMS-----` that overlaps the marker's trailing dashes.
   */
  predicate NoBeginOverlap(t: string)
  {
    t == [] || (t[0] != 'B' && t[0] != '-')
  }

  lemma BeginCmsNotInEnd(t: string, i: nat)
    requires i < |EndCms| && NoBeginOverlap(t)
    ensures !StartsWith((EndCms + t)[i..], BeginCms)
  {
    var x := (EndCms + t)[i..];
    if |x| >= |BeginCms| {
      if i == 0 {
        assert x[5] == 'E' != BeginCms[5];
      } else if i <= 4 {
        assert x[4] == EndCms[i + 4] != '-';
      } else if i <= 11 {
        assert x[0] == EndCms[i] != '-';
      } else {
        assert x[17 - i] == t[0] != BeginCms[17 - i];
      }
    }
  }

  lemma RewriteMarkersAfterEnd(t: string)
    requires NoBeginOverlap(t)
    ensures RewriteMarkers(EndCms + t) == EndPkcs7 + "\n" + RewriteMarkers(t)
  {
    var r1, r2 := BeginPkcs7 + "\n", EndPkcs7 + "\n";
    forall i | 0 <= i < |EndCms|
      ensures !StartsWith((EndCms + t)[i..], BeginCms)
    {
      BeginCmsNotInEnd(t, i);
    }
    ReplaceAfterPrefix(EndCms, t, BeginCms, r1);
    ReplaceAtStart(EndCms, Replace(t, BeginCms, r1), r2);
  }

  /**
   * An `-----END CMS-----` marker contributes nothing, and the text after it on the same line is kept,
   * unless that text begins where the BEGIN rewrite could claim the marker's dashes.
   */
  lemma Base64TextAfterEndMarker(t: string)
    requires NoBeginOverlap(t)
    ensures Base64Text(EndCms + t) == Base64Text(t)
  {
    var rest := RewriteMarkers(t);
    RewriteMarkersAfterEnd(t);
    PkcsMarkersAreArmorLines();
    PemBodyAppendLine(EndPkcs7, rest);
    PemBodyOfLine(EndPkcs7);
    assert PemBody(RewriteMarkers(EndCms + t)) == PemBody(rest);
  }

  /** A `-----END CMS-----` marker alone contributes nothing. */
  lemma Base64TextOfEndMarker()
    ensures Base64Text(EndCms) == ""
  {
    RewriteMarkersOfEnd();
    PkcsMarkersAreArmorLines();
    PemBodyAppendLine(EndPkcs7, "");
    PemBodyOfLine(EndPkcs7);
    PemBodyOfLine("");
    assert PemBody(RewriteMarkers(EndCms)) == "";
  }

  /**
   * Base64 text written on the same line as the BEGIN marker, followed by the END marker on the
   * next line, survives normalisation whole.
   */
  lemma Base64TextOfOneLineArmor(body: string)
    requires '\n' !in body && ' ' !in body && '\r' !in body && !IsArmorLine(body)
    requires !Contains(body, BeginCms) && !Contains(body, EndCms)
    ensures Base64Text(BeginCms + body + "\n" + EndCms) == body
  {
    assert BeginCms + body + "\n" + EndCms == BeginCms + (body + "\n" + EndCms);
    Base64TextAfterBeginMarker(body + "\n" + EndCms);
    Base64TextAppendLine(body, EndCms);
    Base64TextOfLine(body);
    RemoveAbsent(body, ' ');
    RemoveAbsent(body, '\r');
    Base64TextOfEndMarker();
  }
}
