/** Line-ending normalisation of CDATA content (`normalizeCDATA` in mbg-format-scd.js). */
module CdataText {
  import opened JsString

  /** `normalizeCDATA`: every CRLF becomes LF, then every remaining CR becomes LF. */
  function NormalizeCDATA(content: string): (r: string)
    ensures '\r' !in r
  {
    var lf := ReplaceAll(content, "\r\n", "\n");
    ReplaceAllRemovesChar(lf, '\r', "\n");
    ReplaceAll(lf, "\r", "\n")
  }

  /** Reference definition, one character at a time: a CR together with the LF that
      follows it, or a lone CR, is written as one LF; every other character is kept. */
  function NormalizedLineEnds(s: string): string {
    if s == [] then []
    else if s[0] == '\r' then
      "\n" + NormalizedLineEnds(if |s| > 1 && s[1] == '\n' then s[2..] else s[1..])
    else [s[0]] + NormalizedLineEnds(s[1..])
  }

  /** The two global replacements of `normalizeCDATA` perform exactly the
      one-pass normalisation. */
  lemma {:induction false} NormalizeCDATAIsNormalizedLineEnds(s: string)
    ensures NormalizeCDATA(s) == NormalizedLineEnds(s)
    decreases |s|
  {
    if s != [] && s[0] == '\r' && |s| > 1 && s[1] == '\n' {
      var tail := s[2..];
      NormalizeCDATAIsNormalizedLineEnds(tail);
      assert s == "\r\n" + tail;
      ReplaceAllMatchesChunk(tail, "\r\n", "\n");
      ReplaceAllSkipsPrefix("\n", ReplaceAll(tail, "\r\n", "\n"), "\r", "\n");
    } else if s != [] && s[0] == '\r' {
      var tail := s[1..];
      NormalizeCDATAIsNormalizedLineEnds(tail);
      assert !StartsWith(s, "\r\n");
      ReplaceAllMatchesChunk(ReplaceAll(tail, "\r\n", "\n"), "\r", "\n");
    } else if s != [] {
      var tail := s[1..];
      NormalizeCDATAIsNormalizedLineEnds(tail);
      ReplaceAllCopiesHead(s, "\r\n", "\n");
      ReplaceAllSkipsChunk([s[0]], ReplaceAll(tail, "\r\n", "\n"), "\r", "\n", 0);
    }
  }

  /** Content without a CR is not changed. */
  lemma NormalizeCDATAIdentity(s: string)
    requires '\r' !in s
    ensures NormalizeCDATA(s) == s
  {
    var lf := ReplaceAll(s, "\r\n", "\n");
    ReplaceAllIdentity(s, "\r\n", "\n");
    ReplaceAllIdentity(lf, "\r", "\n");
  }

  /** Normalising twice is the same as normalising once. */
  lemma NormalizeCDATAIdempotent(s: string)
    ensures NormalizeCDATA(NormalizeCDATA(s)) == NormalizeCDATA(s)
  {
    NormalizeCDATAIdentity(NormalizeCDATA(s));
  }

  /** Normalisation keeps every character other than CR and LF, in order; it only
      rewrites line endings. */
  lemma {:induction false} NormalizeKeepsOtherChars(s: string)
    ensures WithoutLineEnds(NormalizedLineEnds(s)) == WithoutLineEnds(s)
    decreases |s|
  {
    if s != [] && s[0] == '\r' && |s| > 1 && s[1] == '\n' {
      NormalizeKeepsOtherChars(s[2..]);
      assert s[1..][1..] == s[2..];
    } else if s != [] {
      NormalizeKeepsOtherChars(s[1..]);
    }
  }

  function WithoutLineEnds(s: string): string {
    if s == [] then []
    else (if s[0] == '\r' || s[0] == '\n' then [] else [s[0]]) + WithoutLineEnds(s[1..])
  }
}
