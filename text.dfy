/** Character classes and string helpers the validators rely on: the
    whitespace set shared by JavaScript's `String.prototype.trim` and the
    regular-expression class `\s`, ASCII letters, `trim` itself, and the
    UTF-16 length that `String.prototype.length` reports. */
module Text {

  /** ECMAScript WhiteSpace and LineTerminator code points, as inclusive
      ranges: the set that `trim()` strips and that `\s` matches. */
  const WhitespaceRanges: seq<(char, char)> := [
    ('\t', '\r'),                 // tab, line feed, vertical tab, form feed, carriage return
    (' ', ' '), ('\U{00A0}', '\U{00A0}'), ('\U{1680}', '\U{1680}'),
    ('\U{2000}', '\U{200A}'),
    ('\U{2028}', '\U{2029}'),     // line and paragraph separators
    ('\U{202F}', '\U{202F}'), ('\U{205F}', '\U{205F}'), ('\U{3000}', '\U{3000}'),
    ('\U{FEFF}', '\U{FEFF}')      // byte order mark
  ]

  /** `c` lies in one of the inclusive ranges `rs`. */
  predicate InRanges(c: char, rs: seq<(char, char)>) {
    rs != [] && (rs[0].0 <= c <= rs[0].1 || InRanges(c, rs[1..]))
  }

  /** `InRanges` is membership in the union of the ranges. */
  lemma {:induction false} InRangesExists(c: char, rs: seq<(char, char)>)
    ensures InRanges(c, rs) <==> exists j :: 0 <= j < |rs| && rs[j].0 <= c <= rs[j].1
  {
    if rs != [] {
      InRangesExists(c, rs[1..]);
      assert forall j :: 1 <= j < |rs| ==> rs[j] == rs[1..][j - 1];
    }
  }

  predicate IsWhitespace(c: char): (r: bool)
    ensures r <==> exists j :: 0 <= j < |WhitespaceRanges| && WhitespaceRanges[j].0 <= c <= WhitespaceRanges[j].1
  {
    InRangesExists(c, WhitespaceRanges);
    InRanges(c, WhitespaceRanges)
  }

  /** The regular-expression class `[a-zA-Z]`. */
  predicate IsAsciiLetter(c: char) {
    'a' <= c <= 'z' || 'A' <= c <= 'Z'
  }

  /** The two classes the name pattern combines do not overlap. */
  lemma LetterIsNotWhitespace(c: char)
    requires IsAsciiLetter(c)
    ensures !IsWhitespace(c)
  {
    InRangesExists(c, WhitespaceRanges);
  }

  lemma SpaceIsWhitespace()
    ensures IsWhitespace(' ')
  {
    InRangesExists(' ', WhitespaceRanges);
  }

  predicate AllWhitespace(s: string) {
    forall i :: 0 <= i < |s| ==> IsWhitespace(s[i])
  }

  /** A concatenation is all whitespace exactly when each of its parts is. */
  lemma AllWhitespaceSplit(a: string, b: string, c: string)
    ensures AllWhitespace(a + b + c) <==> AllWhitespace(a) && AllWhitespace(b) && AllWhitespace(c)
  {
    var s := a + b + c;
    if AllWhitespace(s) {
      assert forall i :: 0 <= i < |a| ==> a[i] == s[i];
      assert forall i :: 0 <= i < |b| ==> b[i] == s[|a| + i];
      assert forall i :: 0 <= i < |c| ==> c[i] == s[|a| + |b| + i];
    }
    if AllWhitespace(a) && AllWhitespace(b) && AllWhitespace(c) {
      forall i | 0 <= i < |s| ensures IsWhitespace(s[i]) {
        if i < |a| {
          assert s[i] == a[i];
        } else if i < |a| + |b| {
          assert s[i] == b[i - |a|];
        } else {
          assert s[i] == c[i - |a| - |b|];
        }
      }
    }
  }

  /** The first index at or after `i` that does not hold whitespace, or
      `|s|` when there is none. */
  function SkipLeading(s: string, i: nat): (k: nat)
    requires i <= |s|
    ensures i <= k <= |s|
    ensures forall j :: i <= j < k ==> IsWhitespace(s[j])
    ensures k < |s| ==> !IsWhitespace(s[k])
    decreases |s| - i
  {
    if i < |s| && IsWhitespace(s[i]) then SkipLeading(s, i + 1) else i
  }

  /** The least `e` in `lo..j` such that `s[e..j]` is all whitespace. */
  function SkipTrailing(s: string, lo: nat, j: nat): (e: nat)
    requires lo <= j <= |s|
    ensures lo <= e <= j
    ensures forall m :: e <= m < j ==> IsWhitespace(s[m])
    ensures lo < e ==> !IsWhitespace(s[e - 1])
  {
    if lo < j && IsWhitespace(s[j - 1]) then SkipTrailing(s, lo, j - 1) else j
  }

  /** `s.trim()`: `s` without its leading and trailing whitespace. The result
      neither starts nor ends with whitespace, and it is empty exactly when
      `s` is all whitespace. */
  function Trim(s: string): (r: string)
    ensures |r| <= |s|
    ensures r != [] ==> !IsWhitespace(r[0]) && !IsWhitespace(r[|r| - 1])
    ensures r == [] <==> AllWhitespace(s)
  {
    var k := SkipLeading(s, 0);
    var e := SkipTrailing(s, k, |s|);
    assert k < |s| ==> !AllWhitespace(s);
    s[k..e]
  }

  /** Trim is determined by the shape it promises: whatever all-whitespace
      padding surrounds a string that neither starts nor ends with
      whitespace, trimming returns exactly that string. As every string has
      such a decomposition, this fixes `Trim` on every input. */
  lemma {:induction false} TrimPadded(pre: string, mid: string, post: string)
    requires AllWhitespace(pre) && AllWhitespace(post)
    requires mid != [] ==> !IsWhitespace(mid[0]) && !IsWhitespace(mid[|mid| - 1])
    ensures Trim(pre + mid + post) == mid
  {
    var s := pre + mid + post;
    if mid == [] {
      AllWhitespaceSplit(pre, mid, post);
    } else {
      var last := |pre| + |mid|;
      assert forall j :: 0 <= j < |pre| ==> s[j] == pre[j];
      assert s[|pre|] == mid[0];
      var k := SkipLeading(s, 0);
      assert k == |pre|;
      assert s[last - 1] == mid[|mid| - 1];
      assert forall m :: last <= m < |s| ==> s[m] == post[m - last];
      var e := SkipTrailing(s, k, |s|);
      assert e == last;
      assert s[k..e] == mid;
    }
  }

  /** Trim removes only padding: the input is the result with some
      all-whitespace prefix and suffix around it. */
  lemma TrimStripsPadding(s: string)
    ensures exists pre, post :: AllWhitespace(pre) && AllWhitespace(post) && s == pre + Trim(s) + post
  {
    var k := SkipLeading(s, 0);
    var e := SkipTrailing(s, k, |s|);
    assert Trim(s) == s[k..e];
    assert AllWhitespace(s[..k]);
    assert AllWhitespace(s[e..]);
    assert s == s[..k] + s[k..e] + s[e..];
  }

  /** Trimming twice is trimming once. */
  lemma TrimIdempotent(s: string)
    ensures Trim(Trim(s)) == Trim(s)
  {
    var r := Trim(s);
    assert r == [] + r + [];
    TrimPadded([], r, []);
  }

  /** Length of `s` in UTF-16 code units, as JavaScript's `length` reports
      it: a code point above U+FFFF takes a surrogate pair. */
  function Utf16Length(s: string): (n: nat)
    ensures |s| <= n <= 2 * |s|
    ensures n == |s| <==> forall i :: 0 <= i < |s| ==> s[i] as int < 0x1_0000
  {
    if s == [] then 0
    else
      var rest := Utf16Length(s[1..]);
      assert forall i :: 1 <= i < |s| ==> s[i] == s[1..][i - 1];
      (if s[0] as int < 0x1_0000 then 1 else 2) + rest
  }
}
