/** Entity escaping of attribute values and text content (`escapeXML` in
    mbg-format-scd.js) and the unescaping that undoes it. */
module XmlEscape {
  import opened JsString

  /** The five reserved characters, in the order `escapeXML` substitutes them ... */
  const Specials: string := "&<>\"'"
  /** ... and the entity that replaces each. */
  const Entities: seq<string> := ["&amp;", "&lt;", "&gt;", "&quot;", "&apos;"]

  /** `escapeXML`: five global replacements, `&` first so that the ampersands
      introduced by the later ones are not escaped again. */
  function EscapeXML(s: string): string {
    ReplaceAll(ReplaceAll(ReplaceAll(ReplaceAll(ReplaceAll(
      s, "&", "&amp;"), "<", "&lt;"), ">", "&gt;"), "\"", "&quot;"), "'", "&apos;")
  }

  /** The five replacements of `escapeXML` undone in reverse order, `&amp;` last. */
  function UnescapeXML(s: string): string {
    ReplaceAll(ReplaceAll(ReplaceAll(ReplaceAll(ReplaceAll(
      s, "&apos;", "'"), "&quot;", "\""), "&gt;", ">"), "&lt;", "<"), "&amp;", "&")
  }

  /** Reference definition: each reserved character is written as its entity and
      every other character is kept. */
  function EscapeChar(c: char): string {
    match c
    case '&' => "&amp;"
    case '<' => "&lt;"
    case '>' => "&gt;"
    case '"' => "&quot;"
    case '\'' => "&apos;"
    case _ => [c]
  }

  function Escaped(s: string): string {
    if s == [] then [] else EscapeChar(s[0]) + Escaped(s[1..])
  }

  /** Position of a reserved character in `Specials`, 5 for any other character. */
  function SpecialIndex(c: char): (j: nat)
    ensures j <= 5
    ensures j < 5 <==> c in Specials
    ensures j < 5 ==> Specials[j] == c && Entities[j] == EscapeChar(c)
  {
    if c == '&' then 0 else if c == '<' then 1 else if c == '>' then 2
    else if c == '"' then 3 else if c == '\'' then 4 else 5
  }

  /** The text after the first `k` of the five replacement steps. */
  function EscapeCharUpTo(c: char, k: nat): string {
    if SpecialIndex(c) < k then EscapeChar(c) else [c]
  }

  function EscapedUpTo(s: string, k: nat): string {
    if s == [] then [] else EscapeCharUpTo(s[0], k) + EscapedUpTo(s[1..], k)
  }

  lemma {:induction false} EscapedUpToFive(s: string)
    ensures EscapedUpTo(s, 5) == Escaped(s)
  {
    if s != [] {
      EscapedUpToFive(s[1..]);
      EscapeCharUpToFive(s[0]);
    }
  }

  /** After all five steps every character is written as `EscapeChar` writes it. */
  lemma EscapeCharUpToFive(c: char)
    ensures EscapeCharUpTo(c, 5) == EscapeChar(c)
  {
    if SpecialIndex(c) == 5 {
      assert c != '&' && c != '<' && c != '>' && c != '"' && c != '\'';
    }
  }

  lemma {:induction false} EscapedUpToZero(s: string)
    ensures EscapedUpTo(s, 0) == s
  {
    if s != [] {
      EscapedUpToZero(s[1..]);
      assert s == [s[0]] + s[1..];
    }
  }

  /** Facts about the entity table that the step lemmas use. */
  lemma EntityShape(j: nat)
    requires j < 5
    ensures |Entities[j]| >= 4 && Entities[j][0] == '&'
    ensures forall c :: c in Specials ==> c !in Entities[j][1..]
  {
  }

  /** Two different entities disagree at a position inside both. */
  lemma EntitiesDiffer(j: nat, k: nat) returns (i: nat)
    requires j < 5 && k < 5 && j != k
    ensures i < |Entities[j]| && i < |Entities[k]| && Entities[j][i] != Entities[k][i]
  {
    i := if (j == 0 && k == 4) || (j == 4 && k == 0) then 2 else 1;
  }

  /** Replacement step `k` of `escapeXML` turns the text after `k` steps into the
      text after `k + 1` steps. */
  lemma {:induction false} EscapeStep(s: string, k: nat)
    requires k < 5
    ensures ReplaceAll(EscapedUpTo(s, k), [Specials[k]], Entities[k]) == EscapedUpTo(s, k + 1)
  {
    var pat := [Specials[k]];
    if s != [] {
      var c := s[0];
      var x := EscapeCharUpTo(c, k);
      var rest := EscapedUpTo(s[1..], k);
      assert EscapedUpTo(s, k) == x + rest;
      EscapeStep(s[1..], k);
      var j := SpecialIndex(c);
      if j == k {
        assert x == pat;
        ReplaceAllMatchesChunk(rest, pat, Entities[k]);
      } else if j < k {
        EntityShape(j);
        assert x == Entities[j];
        assert Specials[k] in Specials;
        ReplaceAllSkipsChunk(x, rest, pat, Entities[k], 0);
      } else {
        assert x == [c] && c != Specials[k];
        ReplaceAllSkipsChunk(x, rest, pat, Entities[k], 0);
      }
    }
  }

  /** Unescaping step `k` (counted from the end of the chain) undoes escaping step `k`. */
  lemma {:induction false} UnescapeStep(s: string, k: nat)
    requires k < 5
    ensures ReplaceAll(EscapedUpTo(s, k + 1), Entities[k], [Specials[k]]) == EscapedUpTo(s, k)
  {
    var pat := Entities[k];
    if s != [] {
      var c := s[0];
      var x := EscapeCharUpTo(c, k + 1);
      var rest := EscapedUpTo(s[1..], k + 1);
      assert EscapedUpTo(s, k + 1) == x + rest;
      UnescapeStep(s[1..], k);
      EntityShape(k);
      var j := SpecialIndex(c);
      if j == k {
        assert x == pat;
        ReplaceAllMatchesChunk(rest, pat, [Specials[k]]);
      } else if j < k {
        EntityShape(j);
        assert x == Entities[j];
        assert '&' in Specials;
        var i := EntitiesDiffer(j, k);
        ReplaceAllSkipsChunk(x, rest, pat, [Specials[k]], i);
      } else {
        assert x == [c] && c != '&';
        ReplaceAllSkipsChunk(x, rest, pat, [Specials[k]], 0);
      }
    }
  }

  /** `escapeXML` is the character-by-character substitution of `Escaped`. */
  lemma EscapeXMLIsEscaped(s: string)
    ensures EscapeXML(s) == Escaped(s)
  {
    EscapedUpToZero(s);
    EscapeStep(s, 0);
    EscapeStep(s, 1);
    EscapeStep(s, 2);
    EscapeStep(s, 3);
    EscapeStep(s, 4);
    EscapedUpToFive(s);
  }

  /** Unescaping in reverse order gives back exactly the original text. */
  lemma UnescapeEscape(s: string)
    ensures UnescapeXML(EscapeXML(s)) == s
  {
    assert Entities == ["&amp;", "&lt;", "&gt;", "&quot;", "&apos;"];
    assert [Specials[0]] == "&" && [Specials[1]] == "<" && [Specials[2]] == ">";
    assert [Specials[3]] == "\"" && [Specials[4]] == "'";
    var e5 := EscapeXML(s);
    assert e5 == EscapedUpTo(s, 5) by { EscapeXMLIsEscaped(s); EscapedUpToFive(s); }
    var e4 := ReplaceAll(e5, "&apos;", "'");
    assert e4 == EscapedUpTo(s, 4) by { UnescapeStep(s, 4); }
    var e3 := ReplaceAll(e4, "&quot;", "\"");
    assert e3 == EscapedUpTo(s, 3) by { UnescapeStep(s, 3); }
    var e2 := ReplaceAll(e3, "&gt;", ">");
    assert e2 == EscapedUpTo(s, 2) by { UnescapeStep(s, 2); }
    var e1 := ReplaceAll(e2, "&lt;", "<");
    assert e1 == EscapedUpTo(s, 1) by { UnescapeStep(s, 1); }
    var e0 := ReplaceAll(e1, "&amp;", "&");
    assert e0 == s by { UnescapeStep(s, 0); EscapedUpToZero(s); }
  }

  /** Text without reserved characters is not changed by escaping. */
  lemma {:induction false} EscapeIdentity(s: string)
    requires forall c :: c in Specials ==> c !in s
    ensures EscapeXML(s) == s
  {
    EscapeXMLIsEscaped(s);
    EscapedIdentity(s);
  }

  lemma {:induction false} EscapedIdentity(s: string)
    requires forall c :: c in Specials ==> c !in s
    ensures Escaped(s) == s
  {
    if s != [] {
      assert s[0] !in Specials;
      EscapedIdentity(s[1..]);
      assert s == [s[0]] + s[1..];
    }
  }

  /** `&` at position `i` of `t` begins one of the five entities. */
  predicate EntityAt(t: string, i: nat)
    requires i < |t|
  {
    exists j :: 0 <= j < |Entities| && StartsWith(t[i..], Entities[j])
  }

  /** Every ampersand in `t` begins an entity. */
  predicate AmpersandsStartEntities(t: string) {
    forall i :: 0 <= i < |t| && t[i] == '&' ==> EntityAt(t, i)
  }

  lemma AmpersandsConcat(a: string, b: string)
    requires AmpersandsStartEntities(a) && AmpersandsStartEntities(b)
    ensures AmpersandsStartEntities(a + b)
  {
    var t := a + b;
    forall i | 0 <= i < |t| && t[i] == '&' ensures EntityAt(t, i) {
      if i < |a| {
        assert a[i] == '&';
        var j :| 0 <= j < |Entities| && StartsWith(a[i..], Entities[j]);
        assert t[i..] == a[i..] + b;
        assert t[i..][..|Entities[j]|] == a[i..][..|Entities[j]|];
      } else {
        assert b[i - |a|] == '&';
        var j :| 0 <= j < |Entities| && StartsWith(b[i - |a|..], Entities[j]);
        assert t[i..] == b[i - |a|..];
      }
    }
  }

  lemma EscapeCharAmpersands(c: char)
    ensures AmpersandsStartEntities(EscapeChar(c))
  {
    var e := EscapeChar(c);
    var j := SpecialIndex(c);
    if j < 5 {
      EntityShape(j);
      forall i | 0 <= i < |e| && e[i] == '&' ensures EntityAt(e, i) {
        assert i == 0;
        assert e[0..] == e;
      }
    }
  }

  /** A single escaped character is never a raw `<`, `>`, `"` or `'`. */
  lemma EscapeCharNoRaw(c: char)
    ensures '<' !in EscapeChar(c) && '>' !in EscapeChar(c) && '"' !in EscapeChar(c) && '\'' !in EscapeChar(c)
  {
    var j := SpecialIndex(c);
    if j < 5 {
      EntityShape(j);
      assert EscapeChar(c) == [EscapeChar(c)[0]] + EscapeChar(c)[1..];
    }
  }

  /** Escaped text contains no raw `<`, `>`, `"` or `'`. */
  lemma {:induction false} EscapedNoRaw(s: string)
    ensures '<' !in Escaped(s) && '>' !in Escaped(s) && '"' !in Escaped(s) && '\'' !in Escaped(s)
  {
    if s != [] {
      EscapedNoRaw(s[1..]);
      EscapeCharNoRaw(s[0]);
    }
  }

  /** Every `&` in escaped text begins one of the five entities. */
  lemma {:induction false} EscapedAmpersands(s: string)
    ensures AmpersandsStartEntities(Escaped(s))
  {
    if s != [] {
      EscapedAmpersands(s[1..]);
      EscapeCharAmpersands(s[0]);
      AmpersandsConcat(EscapeChar(s[0]), Escaped(s[1..]));
    }
  }

  lemma EscapeXMLIsSafe(s: string)
    ensures '<' !in EscapeXML(s) && '>' !in EscapeXML(s) && '"' !in EscapeXML(s) && '\'' !in EscapeXML(s)
    ensures AmpersandsStartEntities(EscapeXML(s))
  {
    EscapeXMLIsEscaped(s);
    EscapedNoRaw(s);
    EscapedAmpersands(s);
  }

  /** Escaping introduces no line break. */
  lemma EscapeKeepsNewlineOut(s: string)
    requires '\n' !in s
    ensures '\n' !in EscapeXML(s)
  {
    EscapeXMLIsEscaped(s);
    EscapedKeepsNewlineOut(s);
  }

  lemma {:induction false} EscapedKeepsNewlineOut(s: string)
    requires '\n' !in s
    ensures '\n' !in Escaped(s)
  {
    if s != [] {
      assert s[0] in s;
      EscapedKeepsNewlineOut(s[1..]);
    }
  }

  /** Escaping text that starts with a non-whitespace character gives text that does too. */
  lemma EscapeKeepsFirstNonWhitespace(t: string)
    requires t != [] && !IsWhitespace(t[0])
    ensures |EscapeXML(t)| > 0 && !IsWhitespace(EscapeXML(t)[0])
  {
    EscapeXMLIsEscaped(t);
    var e := EscapeChar(t[0]);
    assert Escaped(t) == e + Escaped(t[1..]);
    assert e[0] == '&' || e[0] == t[0];
    assert !IsWhitespace('&');
    assert Escaped(t)[0] == e[0];
  }
}
