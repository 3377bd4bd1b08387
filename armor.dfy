/**
 * The armor-line filter both CMS decoders share: split a text on line feeds, drop every line that
 * starts with five dashes, and join what is left with no separator.
 */
module Armor {
  import opened Text

  const Dashes: string := "-----"

  /** The markers of a CMS signature in PEM form. */
  const BeginCms: string := "-----BEGIN CMS-----"
  const EndCms: string := "-----END CMS-----"

  /** A delimiter line such as `-----BEGIN PKCS7-----`: any line that starts with five dashes. */
  predicate IsArmorLine(line: string)
  {
    StartsWith(line, Dashes)
  }

  /** The lines that are not delimiter lines, concatenated in order with nothing between them. */
  function JoinUnarmored(lines: seq<string>): (r: string)
    ensures forall c :: c in r ==> exists k :: 0 <= k < |lines| && c in lines[k]
  {
    if lines == [] then ""
    else
      var rest := JoinUnarmored(lines[1..]);
      assert forall c :: c in rest ==> exists k :: 0 <= k < |lines[1..]| && c in lines[1..][k];
      (if IsArmorLine(lines[0]) then "" else lines[0]) + rest
  }

  /** The body of an armored text: its non-delimiter lines joined in order. */
  function PemBody(text: string): (r: string)
    ensures '\n' !in r
  {
    JoinUnarmored(Split(text, '\n'))
  }

  lemma {:induction false} JoinUnarmoredAppend(a: seq<string>, b: seq<string>)
    ensures JoinUnarmored(a + b) == JoinUnarmored(a) + JoinUnarmored(b)
  {
    if a == [] {
      assert a + b == b;
    } else {
      assert (a + b)[0] == a[0] && (a + b)[1..] == a[1..] + b;
      JoinUnarmoredAppend(a[1..], b);
    }
  }

  /** Lines are handled one by one: the body of `a` and `b` on consecutive lines is the body of `a` then that of `b`. */
  lemma PemBodyAppendLine(a: string, b: string)
    ensures PemBody(a + "\n" + b) == PemBody(a) + PemBody(b)
  {
    calc {
      PemBody(a + "\n" + b);
      { assert a + "\n" + b == a + ['\n'] + b; }
      JoinUnarmored(Split(a + ['\n'] + b, '\n'));
      { SplitAtSeparator(a, '\n', b); }
      JoinUnarmored(Split(a, '\n') + Split(b, '\n'));
      { JoinUnarmoredAppend(Split(a, '\n'), Split(b, '\n')); }
      PemBody(a) + PemBody(b);
    }
  }

  /** A single line contributes nothing when it is a delimiter line, and all of its characters otherwise. */
  lemma PemBodyOfLine(line: string)
    requires '\n' !in line
    ensures PemBody(line) == if IsArmorLine(line) then "" else line
  {
    SplitNoSeparator(line, '\n');
    assert [line][1..] == [];
    var kept := if IsArmorLine(line) then "" else line;
    assert JoinUnarmored([line]) == kept + JoinUnarmored([]);
    assert kept + "" == kept;
  }

  lemma CmsMarkersAreArmorLines()
    ensures '\n' !in BeginCms && IsArmorLine(BeginCms)
    ensures '\n' !in EndCms && IsArmorLine(EndCms)
  {
  }

  /** Whatever follows the five dashes, the line stays a delimiter line. */
  lemma ArmorLineExtends(line: string, more: string)
    requires IsArmorLine(line)
    ensures IsArmorLine(line + more)
  {
    assert (line + more)[..|Dashes|] == line[..|Dashes|];
  }
}
