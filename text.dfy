/**
 * The Python string operations the armor-stripping code is built from:
 * `startswith`, `endswith`, `split(sep)`, `sep.join` and `replace(old, new)`.
 * Each is given its Python meaning on sequences.
 */
module Text {

  /** `s.startswith(p)`. */
  predicate StartsWith<T(==)>(s: seq<T>, p: seq<T>)
  {
    |p| <= |s| && s[..|p|] == p
  }

  /** `s.endswith(p)`. */
  predicate EndsWith<T(==)>(s: seq<T>, p: seq<T>)
  {
    |p| <= |s| && s[|s| - |p|..] == p
  }

  /** `p in s` for a non-empty `p`: some suffix of `s` starts with `p`. */
  predicate Contains<T(==)>(s: seq<T>, p: seq<T>)
  {
    exists i :: 0 <= i <= |s| && StartsWith(s[i..], p)
  }

  /** `s.split(sep)`: the pieces between separators; always at least one piece. */
  function Split<T(==)>(s: seq<T>, sep: T): (parts: seq<seq<T>>)
    ensures |parts| >= 1
    ensures forall k :: 0 <= k < |parts| ==> sep !in parts[k]
  {
    if s == [] then [[]]
    else
      var rest := Split(s[1..], sep);
      if s[0] == sep then [[]] + rest
      else [[s[0]] + rest[0]] + rest[1..]
  }

  /** `sep.join(parts)` for a one-element separator. */
  function Join<T>(parts: seq<seq<T>>, sep: T): seq<T>
    requires |parts| >= 1
  {
    if |parts| == 1 then parts[0] else parts[0] + [sep] + Join(parts[1..], sep)
  }

  /** `s.replace(pat, rep)` for a non-empty `pat`: occurrences are replaced left to right, without overlap. */
  function Replace<T(==)>(s: seq<T>, pat: seq<T>, rep: seq<T>): seq<T>
    requires |pat| > 0
    decreases |s|
  {
    if |s| < |pat| then s
    else if s[..|pat|] == pat then rep + Replace(s[|pat|..], pat, rep)
    else [s[0]] + Replace(s[1..], pat, rep)
  }

  /** Every element of `s` except those equal to `c`, in order. */
  function Remove<T(==)>(s: seq<T>, c: T): (r: seq<T>)
    ensures c !in r
    ensures forall x :: x in r ==> x in s
  {
    if s == [] then [] else (if s[0] == c then [] else [s[0]]) + Remove(s[1..], c)
  }

  // ---------------------------------------------------------------- lemmas

  /** Splitting and joining on the same separator are inverse: nothing is lost or reordered. */
  lemma {:induction false} JoinSplit<T>(s: seq<T>, sep: T)
    ensures Join(Split(s, sep), sep) == s
  {
    if s != [] {
      var rest := Split(s[1..], sep);
      JoinSplit(s[1..], sep);
      if s[0] == sep {
        assert Split(s, sep) == [[]] + rest;
        calc {
          Join(Split(s, sep), sep);
          [] + [sep] + Join(rest, sep);
          [s[0]] + s[1..];
        }
      } else if |rest| == 1 {
        assert Join(Split(s, sep), sep) == [s[0]] + rest[0];
      } else {
        var parts := Split(s, sep);
        assert parts[1..] == rest[1..];
        calc {
          Join(parts, sep);
          [s[0]] + rest[0] + [sep] + Join(rest[1..], sep);
          [s[0]] + Join(rest, sep);
        }
      }
    }
  }

  /** A text free of the separator is a single piece. */
  lemma {:induction false} SplitNoSeparator<T>(s: seq<T>, sep: T)
    requires sep !in s
    ensures Split(s, sep) == [s]
  {
    if s != [] {
      SplitNoSeparator(s[1..], sep);
      assert [s[0]] + s[1..] == s;
    }
  }

  /** Splitting `x + [sep] + y` gives the pieces of `x` followed by the pieces of `y`. */
  lemma {:induction false} SplitAtSeparator<T>(x: seq<T>, sep: T, y: seq<T>)
    ensures Split(x + [sep] + y, sep) == Split(x, sep) + Split(y, sep)
  {
    if x == [] {
      assert x + [sep] + y == [sep] + y;
      SplitCons(sep, y, sep);
    } else {
      SplitAtSeparator(x[1..], sep, y);
      SplitAtSeparatorStep(x[0], x[1..], sep, y);
      assert x + [sep] + y == [x[0]] + (x[1..] + [sep] + y);
      assert x == [x[0]] + x[1..];
    }
  }

  /** The inductive step of `SplitAtSeparator`: one more element in front of `x`. */
  lemma SplitAtSeparatorStep<T>(c: T, x: seq<T>, sep: T, y: seq<T>)
    requires Split(x + [sep] + y, sep) == Split(x, sep) + Split(y, sep)
    ensures Split([c] + (x + [sep] + y), sep) == Split([c] + x, sep) + Split(y, sep)
  {
    SplitCons(c, x + [sep] + y, sep);
    SplitCons(c, x, sep);
    ConsPieces(c, sep, Split(x, sep), Split(y, sep));
  }

  /** Adding an element in front of the pieces `px + py` only touches `px`. */
  lemma ConsPieces<T>(c: T, sep: T, px: seq<seq<T>>, py: seq<seq<T>>)
    requires |px| >= 1
    ensures var r := px + py;
      (if c == sep then [[]] + r else [[c] + r[0]] + r[1..]) ==
      (if c == sep then [[]] + px else [[c] + px[0]] + px[1..]) + py
  {
    var r := px + py;
    assert r[0] == px[0] && r[1..] == px[1..] + py;
  }

  /** One step of `split`: the first element either closes an empty piece or opens the first piece. */
  lemma SplitCons<T>(c: T, t: seq<T>, sep: T)
    ensures Split([c] + t, sep) ==
      if c == sep then [[]] + Split(t, sep) else [[c] + Split(t, sep)[0]] + Split(t, sep)[1..]
  {
    assert ([c] + t)[0] == c && ([c] + t)[1..] == t;
  }

  lemma {:induction false} RemoveAppend<T>(a: seq<T>, b: seq<T>, c: T)
    ensures Remove(a + b, c) == Remove(a, c) + Remove(b, c)
  {
    if a == [] {
      assert a + b == b;
    } else {
      assert (a + b)[0] == a[0] && (a + b)[1..] == a[1..] + b;
      RemoveAppend(a[1..], b, c);
    }
  }

  lemma {:induction false} RemoveAbsent<T>(s: seq<T>, c: T)
    requires c !in s
    ensures Remove(s, c) == s
  {
    if s != [] {
      RemoveAbsent(s[1..], c);
      assert [s[0]] + s[1..] == s;
    }
  }

  /** `s.replace(c, '')` for a one-element `c` removes exactly the occurrences of `c`. */
  lemma {:induction false} ReplaceByEmptyIsRemove<T>(s: seq<T>, c: T)
    ensures Replace(s, [c], []) == Remove(s, c)
  {
    if s != [] {
      ReplaceByEmptyIsRemove(s[1..], c);
      assert s[..1] == [s[0]];
    }
  }

  /** A text in which `pat` does not occur is left unchanged by `replace`. */
  lemma {:induction false} ReplaceAbsent<T>(s: seq<T>, pat: seq<T>, rep: seq<T>)
    requires |pat| > 0 && !Contains(s, pat)
    ensures Replace(s, pat, rep) == s
  {
    if |s| >= |pat| {
      assert s[0..] == s;
      assert !StartsWith(s[0..], pat);
      assert !Contains(s[1..], pat) by {
        forall i | 0 <= i <= |s[1..]|
          ensures !StartsWith(s[1..][i..], pat)
        {
          assert s[1..][i..] == s[i + 1..];
        }
      }
      ReplaceAbsent(s[1..], pat, rep);
    }
  }

  /**
   * An element that is not part of `pat` separates the text for `replace`: no occurrence can
   * straddle it, so both sides are rewritten independently.
   */
  lemma {:induction false} ReplaceAcrossSeparator<T>(a: seq<T>, c: T, b: seq<T>, pat: seq<T>, rep: seq<T>)
    requires |pat| > 0 && c !in pat
    ensures Replace(a + [c] + b, pat, rep) == Replace(a, pat, rep) + [c] + Replace(b, pat, rep)
    decreases |a|
  {
    var s := a + [c] + b;
    var n := |pat|;
    if |s| < n {
      ReplaceShort(a, pat, rep);
      ReplaceShort(b, pat, rep);
    } else if |a| >= n && a[..n] == pat {
      assert s[..n] == a[..n];
      assert s[n..] == a[n..] + [c] + b;
      ReplaceAcrossSeparator(a[n..], c, b, pat, rep);
    } else {
      // no occurrence of pat starts at 0: either it differs inside a, or it would cover c
      if |a| < n {
        assert s[..n][|a|] == c;
      } else {
        assert s[..n] == a[..n];
      }
      assert s[..n] != pat;
      if a == [] {
        assert s[1..] == b;
      } else {
        assert s[1..] == a[1..] + [c] + b;
        ReplaceAcrossSeparator(a[1..], c, b, pat, rep);
        if |a| < n {
          ReplaceShort(a, pat, rep);
          ReplaceShort(a[1..], pat, rep);
        }
      }
    }
  }

  /** An occurrence at the very start is replaced, and the rest is rewritten on its own. */
  lemma ReplaceAtStart<T>(pat: seq<T>, t: seq<T>, rep: seq<T>)
    requires |pat| > 0
    ensures Replace(pat + t, pat, rep) == rep + Replace(t, pat, rep)
  {
    var s := pat + t;
    assert s[..|pat|] == pat && s[|pat|..] == t;
  }

  /**
   * When no occurrence of `pat` starts inside the prefix `u`, `replace` copies `u` and rewrites only
   * what follows it.
   */
  lemma {:induction false} ReplaceAfterPrefix<T>(u: seq<T>, t: seq<T>, pat: seq<T>, rep: seq<T>)
    requires |pat| > 0
    requires forall i :: 0 <= i < |u| ==> !StartsWith((u + t)[i..], pat)
    ensures Replace(u + t, pat, rep) == u + Replace(t, pat, rep)
    decreases |u|
  {
    var s := u + t;
    if u == [] {
      assert s == t;
    } else {
      assert s[0..] == s;
      assert !StartsWith(s[0..], pat);
      if |s| < |pat| {
        ReplaceShort(t, pat, rep);
      } else {
        assert s[1..] == u[1..] + t;
        forall i | 0 <= i < |u[1..]|
          ensures !StartsWith((u[1..] + t)[i..], pat)
        {
          assert (u[1..] + t)[i..] == s[i + 1..];
        }
        ReplaceAfterPrefix(u[1..], t, pat, rep);
        assert [s[0]] + (u[1..] + Replace(t, pat, rep)) == u + Replace(t, pat, rep);
      }
    }
  }

  lemma ReplaceShort<T>(s: seq<T>, pat: seq<T>, rep: seq<T>)
    requires 0 < |pat| && |s| < |pat|
    ensures Replace(s, pat, rep) == s
  {
  }
}
