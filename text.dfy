/**
  The string primitives the scripts lean on: `str.strip()`, `str.lower()`,
  substring search, the regex classes `\s` and `\w`, `"sep".join(...)` and
  the decimal rendering of an integer in an f-string.
 */
module Text {

  /** `str.isspace()` for one character, which is also what `\s` and `strip()` use. */
  predicate IsSpace(c: char)
  {
    c == ' ' || ('\t' <= c <= '\r') || ('\U{1C}' <= c <= '\U{1F}') || c == '\U{85}' || c == '\U{A0}' ||
    c == '\U{1680}' || ('\U{2000}' <= c <= '\U{200A}') || c == '\U{2028}' || c == '\U{2029}' ||
    c == '\U{202F}' || c == '\U{205F}' || c == '\U{3000}'
  }

  /** Every character of `s` from `lo` up to `hi` is whitespace. */
  ghost predicate SpaceRange(s: string, lo: int, hi: int)
    requires 0 <= lo && hi <= |s|
  {
    forall i :: lo <= i < hi ==> IsSpace(s[i])
  }

  /** The index of the first non-space at or after `i`. */
  function LeadEnd(s: string, i: nat): (r: nat)
    requires i <= |s|
    ensures i <= r <= |s|
    decreases |s| - i
  {
    if i < |s| && IsSpace(s[i]) then LeadEnd(s, i + 1) else i
  }

  /** Everything skipped is whitespace, and the scan stops at a non-space or at the end. */
  lemma {:induction false} LeadEndSpec(s: string, i: nat)
    requires i <= |s|
    ensures SpaceRange(s, i, LeadEnd(s, i)) && (LeadEnd(s, i) == |s| || !IsSpace(s[LeadEnd(s, i)]))
    decreases |s| - i
  {
    if i < |s| && IsSpace(s[i]) {
      LeadEndSpec(s, i + 1);
    }
  }

  /** The index just past the last non-space before `j`, going no lower than `lo`. */
  function TrailStart(s: string, lo: nat, j: nat): (r: nat)
    requires lo <= j <= |s|
    ensures lo <= r <= j
    decreases j
  {
    if j > lo && IsSpace(s[j - 1]) then TrailStart(s, lo, j - 1) else j
  }

  /** Everything skipped is whitespace, and the scan stops after a non-space or at `lo`. */
  lemma {:induction false} TrailStartSpec(s: string, lo: nat, j: nat)
    requires lo <= j <= |s|
    ensures SpaceRange(s, TrailStart(s, lo, j), j) && (TrailStart(s, lo, j) == lo || !IsSpace(s[TrailStart(s, lo, j) - 1]))
    decreases j
  {
    if j > lo && IsSpace(s[j - 1]) {
      TrailStartSpec(s, lo, j - 1);
    }
  }

  /** `s.strip()`: `s` with its leading and trailing whitespace removed. */
  function Strip(s: string): string
  {
    var a := LeadEnd(s, 0);
    s[a..TrailStart(s, a, |s|)]
  }

  /**
    What `strip()` promises: the result is a contiguous piece of `s`, everything cut off
    is whitespace, and the result neither starts nor ends with whitespace.
   */
  lemma StripSpec(s: string)
    ensures exists a: nat :: a + |Strip(s)| <= |s| && Strip(s) == s[a..a + |Strip(s)|] &&
                             SpaceRange(s, 0, a) && SpaceRange(s, a + |Strip(s)|, |s|)
    ensures Strip(s) == [] || (!IsSpace(Strip(s)[0]) && !IsSpace(Strip(s)[|Strip(s)| - 1]))
  {
    var a := LeadEnd(s, 0);
    var b := TrailStart(s, a, |s|);
    LeadEndSpec(s, 0);
    TrailStartSpec(s, a, |s|);
    assert b > a ==> !IsSpace(s[a]);
    assert Strip(s) == s[a..b];
  }

  /**
    Strip is determined by its contract: if `s` is whitespace, then a piece without
    outer whitespace, then whitespace, `strip()` returns that piece.
   */
  lemma StripCut(s: string, a: nat, n: nat)
    requires a + n <= |s| && SpaceRange(s, 0, a) && SpaceRange(s, a + n, |s|)
    requires n == 0 || (!IsSpace(s[a]) && !IsSpace(s[a + n - 1]))
    ensures Strip(s) == s[a..a + n]
  {
    var r := Strip(s);
    StripSpec(s);
    var b: nat :| b + |r| <= |s| && r == s[b..b + |r|] && SpaceRange(s, 0, b) && SpaceRange(s, b + |r|, |s|);
    if n != 0 {
      if r == [] {
        assert false;
      }
      assert r[0] == s[b] && r[|r| - 1] == s[b + |r| - 1];
      assert b == a;
      assert b + |r| == a + n;
    }
  }

  /**
    `str.lower()` on one character: ASCII and Latin-1 capitals map to their small
    letters, every other character is left alone.
   */
  function LowerChar(c: char): char
  {
    if 'A' <= c <= 'Z' || ('\U{C0}' <= c <= '\U{DE}' && c != '\U{D7}') then (c as int + 32) as char else c
  }

  function Lower(s: string): (r: string)
    ensures |r| == |s| && forall i :: 0 <= i < |s| ==> r[i] == LowerChar(s[i])
  {
    if s == [] then [] else [LowerChar(s[0])] + Lower(s[1..])
  }

  /** Lower-casing never turns a space into a non-space or back. */
  lemma LowerCharSpace(c: char)
    ensures IsSpace(LowerChar(c)) <==> IsSpace(c)
  {
  }

  lemma LowerSpaceRange(s: string, lo: nat, hi: nat)
    requires lo <= hi <= |s| && SpaceRange(s, lo, hi)
    ensures SpaceRange(Lower(s), lo, hi)
  {
    forall i | lo <= i < hi ensures IsSpace(Lower(s)[i]) {
      LowerCharSpace(s[i]);
    }
  }

  lemma {:induction false} LowerSlice(s: string, lo: nat, hi: nat)
    requires lo <= hi <= |s|
    ensures Lower(s)[lo..hi] == Lower(s[lo..hi])
  {
    var a, b := Lower(s)[lo..hi], Lower(s[lo..hi]);
    assert |a| == |b|;
    forall i | 0 <= i < |a| ensures a[i] == b[i] {
      assert a[i] == LowerChar(s[lo + i]);
    }
  }

  /** Where `Strip(s)` sits inside `s`. */
  lemma StripOffset(s: string) returns (a: nat)
    ensures a + |Strip(s)| <= |s| && Strip(s) == s[a..a + |Strip(s)|]
    ensures SpaceRange(s, 0, a) && SpaceRange(s, a + |Strip(s)|, |s|)
    ensures |Strip(s)| == 0 || (!IsSpace(s[a]) && !IsSpace(s[a + |Strip(s)| - 1]))
  {
    a := LeadEnd(s, 0);
    var b := TrailStart(s, a, |s|);
    LeadEndSpec(s, 0);
    TrailStartSpec(s, a, |s|);
    assert Strip(s) == s[a..b];
  }

  /** `strip()` and `lower()` commute, since lower-casing keeps whitespace in place. */
  lemma StripLowerCommute(s: string)
    ensures Strip(Lower(s)) == Lower(Strip(s))
  {
    var t := Strip(s);
    var a := StripOffset(s);
    var n := |t|;
    var l := Lower(s);
    assert Strip(l) == l[a..a + n] by {
      LowerSpaceRange(s, 0, a);
      LowerSpaceRange(s, a + n, |s|);
      if n != 0 {
        LowerCharSpace(s[a]);
        LowerCharSpace(s[a + n - 1]);
      }
      StripCut(l, a, n);
    }
    assert l[a..a + n] == Lower(t) by {
      LowerSlice(s, a, a + n);
    }
  }

  /** Lower-casing twice is lower-casing once. */
  lemma LowerIdempotent(s: string)
    ensures Lower(Lower(s)) == Lower(s)
  {
    forall i | 0 <= i < |s| ensures Lower(Lower(s))[i] == Lower(s)[i] {
      var c := s[i];
      assert LowerChar(LowerChar(c)) == LowerChar(c);
    }
  }

  /** Whitespace added around a string does not change what `strip()` returns. */
  lemma StripSurrounding(pre: string, s: string, post: string)
    requires SpaceRange(pre, 0, |pre|) && SpaceRange(post, 0, |post|)
    ensures Strip(pre + s + post) == Strip(s)
  {
    var t := Strip(s);
    var o := StripOffset(s);
    var w := pre + s + post;
    var a, n := |pre| + o, |t|;
    assert w[a..a + n] == t by {
      assert w[a..a + n] == s[o..o + n];
    }
    assert SpaceRange(w, 0, a) by {
      forall i | 0 <= i < a ensures IsSpace(w[i]) {
        if i < |pre| {
          assert w[i] == pre[i];
        } else {
          assert w[i] == s[i - |pre|];
        }
      }
    }
    assert SpaceRange(w, a + n, |w|) by {
      forall i | a + n <= i < |w| ensures IsSpace(w[i]) {
        if i < |pre| + |s| {
          assert w[i] == s[i - |pre|];
        } else {
          assert w[i] == post[i - |pre| - |s|];
        }
      }
    }
    assert n == 0 || (!IsSpace(w[a]) && !IsSpace(w[a + n - 1])) by {
      if n != 0 {
        assert w[a] == s[o] && w[a + n - 1] == s[o + n - 1];
      }
    }
    StripCut(w, a, n);
  }

  /** `needle` occurs in `hay` starting at index `i`. */
  predicate OccursAt(hay: string, needle: string, i: nat)
  {
    i + |needle| <= |hay| && hay[i..i + |needle|] == needle
  }

  /** `needle in hay[i:]`, scanning start positions from `i` on. */
  function ContainsFrom(hay: string, needle: string, i: nat): (r: bool)
    ensures r <==> exists j :: i <= j && OccursAt(hay, needle, j)
    decreases |hay| - i
  {
    if i + |needle| > |hay| then false
    else OccursAt(hay, needle, i) || ContainsFrom(hay, needle, i + 1)
  }

  /** An occurrence stays an occurrence, shifted, when text is put before the haystack. */
  lemma OccursAfterPrefix(pre: string, hay: string, needle: string, j: nat)
    requires OccursAt(hay, needle, j)
    ensures OccursAt(pre + hay, needle, |pre| + j)
  {
    assert (pre + hay)[|pre| + j..|pre| + j + |needle|] == hay[j..j + |needle|];
  }

  /** An occurrence stays where it is when text is put after the haystack. */
  lemma OccursBeforeSuffix(hay: string, post: string, needle: string, j: nat)
    requires OccursAt(hay, needle, j)
    ensures OccursAt(hay + post, needle, j)
  {
    assert (hay + post)[j..j + |needle|] == hay[j..j + |needle|];
  }

  /** `s.endswith(suffix)`. */
  predicate EndsWith(s: string, suffix: string)
  {
    |suffix| <= |s| && s[|s| - |suffix|..] == suffix
  }

  /** A concatenation ends with its last part. */
  lemma EndsWithLast(a: string, b: string)
    ensures EndsWith(a + b, b)
  {
    assert (a + b)[|a|..] == b;
  }

  /** `needle in hay` for strings. */
  function Contains(hay: string, needle: string): (r: bool)
    ensures r <==> exists j :: OccursAt(hay, needle, j)
  {
    ContainsFrom(hay, needle, 0)
  }

  /** A needle with a character that the haystack lacks is not in the haystack. */
  lemma MissingCharNotContained(hay: string, needle: string, c: char)
    requires c in needle && c !in hay
    ensures !Contains(hay, needle)
  {
    var k :| 0 <= k < |needle| && needle[k] == c;
    forall j: nat ensures !OccursAt(hay, needle, j) {
      if j + |needle| <= |hay| {
        assert hay[j..j + |needle|][k] == hay[j + k];
        assert hay[j + k] in hay;
      }
    }
  }

  /** A small ASCII letter is in `Lower(s)` only if it or its capital is in `s`. */
  lemma LowerMissing(s: string, c: char)
    requires 'a' <= c <= 'z' && c !in s && ((c as int - 32) as char) !in s
    ensures c !in Lower(s)
  {
    forall i | 0 <= i < |s| ensures Lower(s)[i] != c {
      assert s[i] in s;
    }
  }

  /** Lower-casing keeps an occurrence of a needle that lower-casing leaves alone. */
  lemma LowerKeepsOccurrence(hay: string, needle: string, j: nat)
    requires OccursAt(hay, needle, j)
    requires forall i :: 0 <= i < |needle| ==> LowerChar(needle[i]) == needle[i]
    ensures OccursAt(Lower(hay), needle, j) && Contains(Lower(hay), needle)
  {
    var l := Lower(hay);
    forall i | 0 <= i < |needle| ensures l[j + i] == needle[i] {
      assert hay[j + i] == hay[j..j + |needle|][i];
    }
    assert l[j..j + |needle|] == needle;
  }

  /** The regex class `[A-Z]` (no IGNORECASE): ASCII capitals only. */
  predicate IsAsciiUpper(c: char)
  {
    'A' <= c <= 'Z'
  }

  /**
    The regex class `\w` on str patterns: letters, digits and the underscore; here the
    ASCII and Latin-1 such characters (including the Latin-1 superscript digits and fractions).
   */
  predicate IsWordChar(c: char)
  {
    ('a' <= c <= 'z') || ('A' <= c <= 'Z') || ('0' <= c <= '9') || c == '_' ||
    c == '\U{AA}' || c == '\U{B2}' || c == '\U{B3}' || c == '\U{B5}' || c == '\U{B9}' || c == '\U{BA}' ||
    ('\U{BC}' <= c <= '\U{BE}') || ('\U{C0}' <= c <= '\U{FF}' && c != '\U{D7}' && c != '\U{F7}')
  }

  /** `sep.join(parts)`. */
  function Join(parts: seq<string>, sep: string): string
  {
    if parts == [] then ""
    else if |parts| == 1 then parts[0]
    else Join(parts[..|parts| - 1], sep) + sep + parts[|parts| - 1]
  }

  /** Every part of a join occurs in it, at the position returned. */
  lemma {:induction false} JoinHasPart(parts: seq<string>, sep: string, i: nat) returns (j: nat)
    requires i < |parts|
    ensures OccursAt(Join(parts, sep), parts[i], j)
  {
    if |parts| == 1 {
      j := 0;
      assert parts[0][0..|parts[0]|] == parts[0];
    } else {
      var n := |parts| - 1;
      var p := parts[..n];
      var front := Join(p, sep) + sep;
      assert Join(parts, sep) == front + parts[n];
      if i == n {
        j := |front|;
        assert (front + parts[n])[j..j + |parts[n]|] == parts[n];
      } else {
        j := JoinHasPart(p, sep, i);
        assert p[i] == parts[i];
        OccursBeforeSuffix(Join(p, sep), sep + parts[n], parts[i], j);
        assert Join(p, sep) + (sep + parts[n]) == Join(parts, sep);
      }
    }
  }

  function DigitChar(d: nat): char
    requires d < 10
  {
    ('0' as int + d) as char
  }

  /** `str(n)` for a natural number. */
  function NatToString(n: nat): (r: string)
    ensures |r| >= 1 && forall i :: 0 <= i < |r| ==> '0' <= r[i] <= '9'
  {
    if n < 10 then [DigitChar(n)] else NatToString(n / 10) + [DigitChar(n % 10)]
  }

  /** `str(i)` (and `f"{i}"`) for an integer of either sign. */
  function IntToString(i: int): string
  {
    if i < 0 then "-" + NatToString(-i) else NatToString(i)
  }

  /** Reading a string of decimal digits back, the inverse that `NatToString` is checked against. */
  function DigitsValue(s: string): nat
    requires forall i :: 0 <= i < |s| ==> '0' <= s[i] <= '9'
  {
    if s == [] then 0 else DigitsValue(s[..|s| - 1]) * 10 + (s[|s| - 1] as int - '0' as int)
  }

  lemma {:induction false} NatToStringRoundTrip(n: nat)
    ensures DigitsValue(NatToString(n)) == n
  {
    if n >= 10 {
      NatToStringRoundTrip(n / 10);
      var s := NatToString(n);
      assert s[..|s| - 1] == NatToString(n / 10);
    }
  }
}
