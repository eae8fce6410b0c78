/** The JavaScript string built-ins the formatter relies on, on `seq<char>`:
    `replace` with a global literal pattern, `trim`, `Array.prototype.join`,
    `repeat` and `startsWith`. */
module JsString {

  /** `s.startsWith(p)` */
  predicate StartsWith(s: string, p: string) {
    |p| <= |s| && s[..|p|] == p
  }

  /** `s.replace(/pat/g, rep)` for a pattern that matches only the literal `pat`:
      occurrences are found left to right and never overlap. */
  function ReplaceAll(s: string, pat: string, rep: string): string
    requires |pat| > 0
    decreases |s|
  {
    if |s| == 0 then []
    else if StartsWith(s, pat) then rep + ReplaceAll(s[|pat|..], pat, rep)
    else [s[0]] + ReplaceAll(s[1..], pat, rep)
  }

  /** Replacing a single character by text that does not contain it removes it entirely. */
  lemma {:induction false} ReplaceAllRemovesChar(s: string, c: char, rep: string)
    requires c !in rep
    ensures c !in ReplaceAll(s, [c], rep)
    decreases |s|
  {
    if |s| > 0 {
      if StartsWith(s, [c]) {
        ReplaceAllRemovesChar(s[1..], c, rep);
      } else {
        assert s[0] != c;
        ReplaceAllRemovesChar(s[1..], c, rep);
      }
    }
  }

  /** Where the pattern does not start, the first character is copied. */
  lemma ReplaceAllCopiesHead(s: string, pat: string, rep: string)
    requires |pat| > 0 && |s| > 0 && s[0] != pat[0]
    ensures ReplaceAll(s, pat, rep) == [s[0]] + ReplaceAll(s[1..], pat, rep)
  {
    assert !StartsWith(s, pat) by {
      if |pat| <= |s| { assert s[..|pat|][0] == s[0]; }
    }
  }

  /** A prefix that does not contain the pattern's first character passes through unchanged. */
  lemma {:induction false} ReplaceAllSkipsPrefix(x: string, rest: string, pat: string, rep: string)
    requires |pat| > 0 && pat[0] !in x
    ensures ReplaceAll(x + rest, pat, rep) == x + ReplaceAll(rest, pat, rep)
    decreases |x|
  {
    if |x| == 0 {
      assert x + rest == rest;
    } else {
      var s := x + rest;
      var t := x[1..];
      assert s[0] == x[0];
      ReplaceAllCopiesHead(s, pat, rep);
      assert s[1..] == t + rest;
      ReplaceAllSkipsPrefix(t, rest, pat, rep);
      assert x == [x[0]] + t;
    }
  }

  /** Text without the pattern's first character is left unchanged. */
  lemma ReplaceAllIdentity(s: string, pat: string, rep: string)
    requires |pat| > 0 && pat[0] !in s
    ensures ReplaceAll(s, pat, rep) == s
  {
    ReplaceAllSkipsPrefix(s, [], pat, rep);
    assert s + [] == s;
  }

  /** A chunk that disagrees with the pattern at some position `i` and whose tail does not
      contain the pattern's first character passes through unchanged. */
  lemma ReplaceAllSkipsChunk(x: string, rest: string, pat: string, rep: string, i: nat)
    requires |pat| > 0 && i < |x| && i < |pat| && x[i] != pat[i] && pat[0] !in x[1..]
    ensures ReplaceAll(x + rest, pat, rep) == x + ReplaceAll(rest, pat, rep)
  {
    var s := x + rest;
    var t := x[1..];
    assert s[i] == x[i];
    assert !StartsWith(s, pat) by {
      if |pat| <= |s| { assert s[..|pat|][i] == s[i]; }
    }
    assert s[1..] == t + rest;
    ReplaceAllSkipsPrefix(t, rest, pat, rep);
    assert x == [x[0]] + t;
  }

  /** An occurrence of the pattern at the front is replaced. */
  lemma ReplaceAllMatchesChunk(rest: string, pat: string, rep: string)
    requires |pat| > 0
    ensures ReplaceAll(pat + rest, pat, rep) == rep + ReplaceAll(rest, pat, rep)
  {
    var s := pat + rest;
    assert s[..|pat|] == pat;
    assert s[|pat|..] == rest;
  }

  /** `parts.join(sep)` */
  function Join(parts: seq<string>, sep: string): string
  {
    if |parts| == 0 then []
    else if |parts| == 1 then parts[0]
    else parts[0] + sep + Join(parts[1..], sep)
  }

  /** Joining two lists of parts is joining each and separating the two results. */
  lemma {:induction false} JoinConcat(p: seq<string>, q: seq<string>, sep: string)
    ensures Join(p + q, sep) == Join(p, sep) + (if p != [] && q != [] then sep else []) + Join(q, sep)
  {
    if |p| > 1 {
      assert (p + q)[1..] == p[1..] + q;
      JoinConcat(p[1..], q, sep);
    } else if |p| == 1 && q != [] {
      assert (p + q)[1..] == q;
    } else if |p| == 0 {
      assert p + q == q;
    } else {
      assert p + q == p;
    }
  }

  /** A character in none of the parts and not in the separator is not in the result. */
  lemma {:induction false} JoinAvoids(parts: seq<string>, sep: string, c: char)
    requires c !in sep && forall i :: 0 <= i < |parts| ==> c !in parts[i]
    ensures c !in Join(parts, sep)
  {
    if |parts| > 1 {
      JoinAvoids(parts[1..], sep, c);
    }
  }

  /** `s.repeat(n)` */
  function Repeat(s: string, n: nat): (r: string)
    ensures |r| == n * |s|
    ensures forall c :: c in r ==> c in s
  {
    if n == 0 then [] else s + Repeat(s, n - 1)
  }

  /** The code points `String.prototype.trim` removes: the ECMAScript WhiteSpace
      (tab, vertical tab, form feed, space, no-break space, byte order mark and the
      space separators of category Zs) and LineTerminator (LF, CR, U+2028, U+2029)
      productions. */
  const TrimmedChars: set<char> := {
    '\t', '\n', '\U{000B}', '\U{000C}', '\r', ' ', '\U{00A0}', '\U{1680}',
    '\U{2000}', '\U{2001}', '\U{2002}', '\U{2003}', '\U{2004}', '\U{2005}',
    '\U{2006}', '\U{2007}', '\U{2008}', '\U{2009}', '\U{200A}',
    '\U{2028}', '\U{2029}', '\U{202F}', '\U{205F}', '\U{3000}', '\U{FEFF}'
  }

  predicate IsWhitespace(c: char) {
    c in TrimmedChars
  }

  /** Every character of `s` is whitespace (in particular, the empty string). */
  predicate IsBlank(s: string) {
    forall i :: 0 <= i < |s| ==> IsWhitespace(s[i])
  }

  function TrimStart(s: string): (r: string)
    ensures |r| <= |s| && r == s[|s| - |r|..]
    ensures IsBlank(s[..|s| - |r|])
    ensures r == [] || !IsWhitespace(r[0])
  {
    if |s| > 0 && IsWhitespace(s[0]) then TrimStart(s[1..]) else s
  }

  function TrimEnd(s: string): (r: string)
    ensures |r| <= |s| && r == s[..|r|]
    ensures IsBlank(s[|r|..])
    ensures r == [] || !IsWhitespace(r[|r| - 1])
  {
    if |s| > 0 && IsWhitespace(s[|s| - 1]) then TrimEnd(s[..|s| - 1]) else s
  }

  /** `s.trim()`: the text without its leading and trailing whitespace. It is empty
      exactly when `s` is blank, and otherwise neither begins nor ends with whitespace. */
  function Trim(s: string): (r: string)
    ensures r == [] <==> IsBlank(s)
    ensures r == [] || (!IsWhitespace(r[0]) && !IsWhitespace(r[|r| - 1]))
  {
    var t := TrimStart(s);
    var r := TrimEnd(t);
    assert r == [] ==> IsBlank(s) by {
      if r == [] {
        var k := |s| - |t|;
        assert IsBlank(s[..k]) && IsBlank(t);
        assert s == s[..k] + t;
      }
    }
    r
  }

  /** `s` is leading whitespace, then `s.trim()`, then trailing whitespace. */
  lemma TrimSurroundings(s: string) returns (k: nat)
    ensures k + |Trim(s)| <= |s| && Trim(s) == s[k..k + |Trim(s)|]
    ensures IsBlank(s[..k]) && IsBlank(s[k + |Trim(s)|..])
  {
    var t := TrimStart(s);
    var r := TrimEnd(t);
    k := |s| - |t|;
    assert r == s[k..k + |r|];
    assert s[k + |r|..] == t[|r|..];
  }
}
