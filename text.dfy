/** Character classes and the handful of Kotlin/Java string operations the
    app relies on: trim, isBlank, indexOf, lastIndexOf, startsWith,
    endsWith, joinToString and ASCII case folding. */
module Text {

  /** Kotlin's Char.isWhitespace on the JVM: Java's isWhitespace or
      isSpaceChar. This is what Kotlin's trim() and isBlank() test. */
  predicate IsWhitespace(c: char)
  {
    || ('\t' <= c <= '\r')
    || ('\U{1C}' <= c <= ' ')
    || c == '\U{A0}' || c == '\U{1680}'
    || ('\U{2000}' <= c <= '\U{200A}')
    || c == '\U{2028}' || c == '\U{2029}' || c == '\U{202F}' || c == '\U{205F}' || c == '\U{3000}'
  }

  /** The `\s` class of a java.util.regex pattern without UNICODE_CHARACTER_CLASS. */
  predicate IsRegexSpace(c: char)
  {
    c == ' ' || ('\t' <= c <= '\r')
  }

  predicate IsDigit(c: char)
  {
    '0' <= c <= '9'
  }

  predicate AllWhitespace(s: string)
  {
    forall i :: 0 <= i < |s| ==> IsWhitespace(s[i])
  }

  /** Kotlin's CharSequence.isBlank(). */
  predicate IsBlank(s: string)
  {
    AllWhitespace(s)
  }

  /** Case folding of a `(?i)` pattern without UNICODE_CASE: only the
      ASCII letters A-Z are folded. */
  function LowerAscii(c: char): (r: char)
    ensures 'A' <= c <= 'Z' ==> 'a' <= r <= 'z' && r as int == c as int + 32
    ensures !('A' <= c <= 'Z') ==> r == c
  {
    if 'A' <= c <= 'Z' then (c as int + 32) as char else c
  }

  /** The lower-case literal `lit` occurs at position i of s, compared the
      way a `(?i)` pattern compares it. */
  predicate MatchesIgnoreCaseAt(s: string, i: nat, lit: string)
  {
    i + |lit| <= |s| && forall k :: 0 <= k < |lit| ==> LowerAscii(s[i + k]) == lit[k]
  }

  predicate StartsWith(s: string, p: string)
  {
    |p| <= |s| && s[..|p|] == p
  }

  predicate EndsWith(s: string, p: string)
  {
    |p| <= |s| && s[|s| - |p|..] == p
  }

  /** p occurs in s starting at index k. */
  predicate OccursAt(s: string, p: string, k: nat)
  {
    k + |p| <= |s| && s[k..k + |p|] == p
  }

  /** The first index at or after i that does not hold whitespace, or |s|. */
  function TrimStartIndex(s: string, i: nat): (a: nat)
    requires i <= |s|
    decreases |s| - i
    ensures i <= a <= |s|
    ensures forall k :: i <= k < a ==> IsWhitespace(s[k])
    ensures a < |s| ==> !IsWhitespace(s[a])
  {
    if i < |s| && IsWhitespace(s[i]) then TrimStartIndex(s, i + 1) else i
  }

  /** The end of s[lo..hi] once its trailing whitespace is dropped. */
  function TrimEndIndex(s: string, lo: nat, hi: nat): (b: nat)
    requires lo <= hi <= |s|
    decreases hi - lo
    ensures lo <= b <= hi
    ensures forall k :: b <= k < hi ==> IsWhitespace(s[k])
    ensures b > lo ==> !IsWhitespace(s[b - 1])
  {
    if lo < hi && IsWhitespace(s[hi - 1]) then TrimEndIndex(s, lo, hi - 1) else hi
  }

  /** Kotlin's trim(): s without its leading and trailing whitespace, that
      is, the slice of s that neither starts nor ends with whitespace and
      leaves only whitespace on either side. */
  function Trim(s: string): (r: string)
    ensures |r| <= |s|
    ensures var a := TrimStartIndex(s, 0);
            && a + |r| <= |s| && r == s[a..a + |r|]
            && (forall k :: 0 <= k < a ==> IsWhitespace(s[k]))
            && (forall k :: a + |r| <= k < |s| ==> IsWhitespace(s[k]))
    ensures r == [] || (!IsWhitespace(r[0]) && !IsWhitespace(r[|r| - 1]))
  {
    var a := TrimStartIndex(s, 0);
    s[a..TrimEndIndex(s, a, |s|)]
  }

  /** Trimming a text whose core neither starts nor ends with whitespace,
      padded on both sides by whitespace, gives back the core. */
  lemma TrimPadded(pre: string, core: string, post: string)
    requires AllWhitespace(pre) && AllWhitespace(post)
    requires core == [] || (!IsWhitespace(core[0]) && !IsWhitespace(core[|core| - 1]))
    ensures Trim(pre + core + post) == core
  {
    var s := pre + core + post;
    var a := TrimStartIndex(s, 0);
    if core == [] {
      assert forall k :: 0 <= k < |s| ==> IsWhitespace(s[k]) by {
        forall k | 0 <= k < |s| ensures IsWhitespace(s[k]) {
          if k < |pre| { assert s[k] == pre[k]; } else { assert s[k] == post[k - |pre|]; }
        }
      }
    } else {
      assert s[|pre|] == core[0];
      assert forall k :: 0 <= k < |pre| ==> s[k] == pre[k];
      assert a == |pre|;
      var b := TrimEndIndex(s, a, |s|);
      assert s[|pre| + |core| - 1] == core[|core| - 1];
      assert forall k :: |pre| + |core| <= k < |s| ==> s[k] == post[k - |pre| - |core|];
      assert b == |pre| + |core|;
      assert s[a..b] == core;
    }
  }

  /** A blank text trims to the empty string, and only a blank one does. */
  lemma BlankTrimsToEmpty(s: string)
    ensures IsBlank(s) <==> Trim(s) == []
  {
    if Trim(s) == [] {
      var a := TrimStartIndex(s, 0);
      assert forall k :: 0 <= k < |s| ==> IsWhitespace(s[k]);
    }
  }

  /** Trimming keeps no character the text did not have. */
  lemma TrimKeeps(s: string, c: char)
    requires c !in s
    ensures c !in Trim(s)
  {
    var a := TrimStartIndex(s, 0);
    var r := Trim(s);
    forall k | 0 <= k < |r| ensures r[k] != c {
      assert r[k] == s[a + k];
    }
  }

  /** Kotlin's indexOf(p, from) on a String: the first occurrence of p at or
      after `from`, or None (Kotlin's -1). */
  function IndexOfFrom(s: string, p: string, from: nat): (r: Option<nat>)
    decreases |s| - from
    ensures r.Some? ==> from <= r.value && OccursAt(s, p, r.value)
    ensures r.Some? ==> forall k: nat :: from <= k < r.value ==> !OccursAt(s, p, k)
    ensures r.None? ==> forall k: nat :: from <= k ==> !OccursAt(s, p, k)
  {
    if from + |p| > |s| then None
    else if s[from..from + |p|] == p then Some(from)
    else IndexOfFrom(s, p, from + 1)
  }

  function IndexOf(s: string, p: string): (r: Option<nat>)
    ensures r.Some? ==> OccursAt(s, p, r.value) && forall k: nat :: k < r.value ==> !OccursAt(s, p, k)
    ensures r.None? ==> forall k: nat :: !OccursAt(s, p, k)
  {
    IndexOfFrom(s, p, 0)
  }

  /** Kotlin's lastIndexOf(c): the last index holding c, or None. */
  function LastIndexOf(s: string, c: char): (r: Option<nat>)
    ensures r.Some? ==> r.value < |s| && s[r.value] == c
                        && forall k :: r.value < k < |s| ==> s[k] != c
    ensures r.None? ==> forall k :: 0 <= k < |s| ==> s[k] != c
  {
    if s == [] then None
    else if s[|s| - 1] == c then Some(|s| - 1)
    else LastIndexOf(s[..|s| - 1], c)
  }

  /** Kotlin's substringBefore(p): the text before the first p, or the
      whole text when p does not occur. */
  function SubstringBefore(s: string, p: string): (r: string)
    ensures StartsWith(s, r)
    ensures IndexOf(s, p).Some? ==> OccursAt(s, p, |r|)
    ensures forall k: nat :: k < |r| ==> !OccursAt(s, p, k)
    ensures IndexOf(s, p).None? ==> r == s
  {
    match IndexOf(s, p)
    case Some(k) => s[..k]
    case None => s
  }

  /** Kotlin's joinToString(sep). */
  function Join(parts: seq<string>, sep: string): (r: string)
    ensures parts == [] ==> r == []
    ensures |parts| == 1 ==> r == parts[0]
    ensures |parts| >= 1 ==> StartsWith(r, parts[0])
  {
    if parts == [] then []
    else if |parts| == 1 then parts[0]
    else parts[0] + sep + Join(parts[1..], sep)
  }

  /** Appending one part to a non-empty list appends the separator and the
      part to the joined text: joinToString writes its parts in list order. */
  lemma {:induction false} JoinSnoc(parts: seq<string>, sep: string, last: string)
    requires parts != []
    ensures Join(parts + [last], sep) == Join(parts, sep) + sep + last
  {
    if |parts| == 1 {
      assert (parts + [last])[1..] == [last];
    } else {
      assert (parts + [last])[1..] == parts[1..] + [last];
      JoinSnoc(parts[1..], sep, last);
    }
  }

  datatype Option<+T> = None | Some(value: T)
}
