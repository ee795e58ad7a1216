/**
 * The PHP string built-ins the autoloader relies on (rtrim, ltrim, strtok,
 * str_replace with a one-character search), over strings as sequences of
 * characters. A trim "mask" is a string whose characters are the ones to trim.
 */
module PhpStrings {
  import opened Wrappers

  /** The mask of PHP's trim family reads `a..z` as a character range; a mask without
      ".." is just the set of its characters. */
  predicate NoRangeSyntax(mask: string) {
    forall i | 0 <= i < |mask| - 1 :: mask[i] == '.' ==> mask[i + 1] != '.'
  }

  predicate StartsWith(s: string, prefix: string) {
    |prefix| <= |s| && s[..|prefix|] == prefix
  }

  predicate EndsWith(s: string, suffix: string) {
    |suffix| <= |s| && s[|s| - |suffix|..] == suffix
  }

  /** ltrim($s, $mask): the longest suffix of `s` obtained by dropping leading mask characters. */
  function LTrim(s: string, mask: string): (r: string)
    ensures |r| <= |s| && r == s[|s| - |r|..]
    ensures forall i | 0 <= i < |s| - |r| :: s[i] in mask
    ensures r == [] || r[0] !in mask
  {
    if s != [] && s[0] in mask then LTrim(s[1..], mask) else s
  }

  /** rtrim($s, $mask): the longest prefix of `s` obtained by dropping trailing mask characters. */
  function RTrim(s: string, mask: string): (r: string)
    ensures |r| <= |s| && r == s[..|r|]
    ensures forall i | |r| <= i < |s| :: s[i] in mask
    ensures r == [] || r[|r| - 1] !in mask
  {
    if s != [] && s[|s| - 1] in mask then RTrim(s[..|s| - 1], mask) else s
  }

  /** The longest prefix of `s` that does not contain `d`. */
  function SpanUntil(s: string, d: char): (r: string)
    ensures |r| <= |s| && r == s[..|r|]
    ensures d !in r
    ensures |r| == |s| || s[|r|] == d
  {
    if s == [] || s[0] == d then [] else [s[0]] + SpanUntil(s[1..], d)
  }

  /** The first call strtok($s, $d): skip leading delimiters, then take the maximal
      run of non-delimiters; None stands for PHP's `false` when there is no token. */
  function StrTok(s: string, d: char): (r: Option<string>)
    ensures r.None? <==> forall i | 0 <= i < |s| :: s[i] == d
    ensures r.Some? ==>
      var u := LTrim(s, [d]);
      && |r.value| > 0
      && d !in r.value
      && |r.value| <= |u|
      && r.value == u[..|r.value|]
      && (|r.value| == |u| || u[|r.value|] == d)
  {
    var u := LTrim(s, [d]);
    if u == [] then None else Some(SpanUntil(u, d))
  }

  /** str_replace($from, $to, $s) for one-character search and replacement strings. */
  function ReplaceChar(s: string, from: char, to: char): (r: string)
    ensures |r| == |s|
    ensures forall i | 0 <= i < |s| :: r[i] == (if s[i] == from then to else s[i])
  {
    if s == [] then [] else [if s[0] == from then to else s[0]] + ReplaceChar(s[1..], from, to)
  }

  /** Trailing mask characters appended to `s` are all trimmed again. */
  lemma {:induction false} RTrimIgnoresMaskSuffix(s: string, tail: string, mask: string)
    requires forall i | 0 <= i < |tail| :: tail[i] in mask
    ensures RTrim(s + tail, mask) == RTrim(s, mask)
  {
    if tail == [] {
      assert s + tail == s;
    } else {
      var shorter := tail[..|tail| - 1];
      assert (s + tail)[..|s + tail| - 1] == s + shorter;
      RTrimIgnoresMaskSuffix(s, shorter, mask);
    }
  }

  /** A string whose last character is not in the mask is its own rtrim. */
  lemma RTrimFixed(s: string, mask: string)
    requires s == [] || s[|s| - 1] !in mask
    ensures RTrim(s, mask) == s
  {
  }

  /** ltrim removes a leading run of mask characters exactly when what follows it
      does not start with one. */
  lemma {:induction false} LTrimDropsMaskedPrefix(x: string, y: string, mask: string)
    requires forall i | 0 <= i < |x| :: x[i] in mask
    requires y == [] || y[0] !in mask
    ensures LTrim(x + y, mask) == y
  {
    if x == [] {
      assert x + y == y;
    } else {
      assert (x + y)[0] == x[0];
      assert (x + y)[1..] == x[1..] + y;
      LTrimDropsMaskedPrefix(x[1..], y, mask);
    }
  }

  /** The span before the first `d` of `x + [d] + y` is `x` when `x` has no `d`. */
  lemma {:induction false} SpanUntilStopsAtDelimiter(x: string, d: char, y: string)
    requires d !in x
    ensures SpanUntil(x + [d] + y, d) == x
  {
    if x == [] {
      assert x + [d] + y == [d] + y;
    } else {
      assert (x + [d] + y)[0] == x[0];
      assert (x + [d] + y)[1..] == x[1..] + [d] + y;
      SpanUntilStopsAtDelimiter(x[1..], d, y);
    }
  }

  /** strtok gives back a leading segment followed by the delimiter. */
  lemma StrTokOfSegment(segment: string, d: char, rest: string)
    requires segment != [] && d !in segment
    ensures StrTok(segment + [d] + rest, d) == Some(segment)
  {
    var s := segment + [d] + rest;
    assert s[0] == segment[0];
    assert LTrim(s, [d]) == s;
    SpanUntilStopsAtDelimiter(segment, d, rest);
  }

  /** str_replace works piecewise over a concatenation. */
  lemma {:induction false} ReplaceCharConcat(a: string, b: string, from: char, to: char)
    ensures ReplaceChar(a + b, from, to) == ReplaceChar(a, from, to) + ReplaceChar(b, from, to)
  {
    var r, ra, rb := ReplaceChar(a + b, from, to), ReplaceChar(a, from, to), ReplaceChar(b, from, to);
    assert |r| == |ra + rb|;
    forall i | 0 <= i < |r|
      ensures r[i] == (ra + rb)[i]
    {
      if i < |a| {
        assert (a + b)[i] == a[i];
      } else {
        assert (a + b)[i] == b[i - |a|];
      }
    }
  }

  /** A string without the searched character is left as it is. */
  lemma ReplaceCharAbsent(s: string, from: char, to: char)
    requires from !in s
    ensures ReplaceChar(s, from, to) == s
  {
    var r := ReplaceChar(s, from, to);
    assert forall i | 0 <= i < |s| :: r[i] == s[i];
  }

  /** Replacing the one separator between two separator-free segments. */
  lemma ReplaceCharBetween(a: string, b: string, from: char, to: char)
    requires from !in a && from !in b
    ensures ReplaceChar(a + [from] + b, from, to) == a + [to] + b
  {
    ReplaceCharConcat(a + [from], b, from, to);
    ReplaceCharConcat(a, [from], from, to);
    ReplaceCharAbsent(a, from, to);
    ReplaceCharAbsent(b, from, to);
  }

  /** Appending `suffix` gives a string that ends with it and holds only characters
      of the two parts. */
  lemma AppendShape(s: string, suffix: string, c: char)
    requires c !in s && c !in suffix
    ensures EndsWith(s + suffix, suffix)
    ensures c !in s + suffix
  {
    assert (s + suffix)[|s|..] == suffix;
  }

  /** Prepending `base` gives a string that starts with it and continues with `s`. */
  lemma PrependShape(base: string, s: string, suffix: string)
    requires EndsWith(s, suffix)
    ensures StartsWith(base + s, base) && (base + s)[|base|..] == s
    ensures EndsWith(base + s, suffix)
  {
    assert (base + s)[..|base|] == base;
    assert (base + s)[|base|..] == s;
    assert (base + s)[|base + s| - |suffix|..] == s[|s| - |suffix|..];
  }

  /** A leading mask character is dropped by ltrim like any other. */
  lemma LTrimSkipsMaskChar(c: char, s: string, mask: string)
    requires c in mask
    ensures LTrim([c] + s, mask) == LTrim(s, mask)
  {
    assert ([c] + s)[1..] == s;
  }
}
