/**
 * The cache key of a text: the text lower-cased, then stripped of
 * whitespace at both ends (Python's `text.lower().strip()`).
 */
module KeyNormalizer {

  /** Python's `str.isspace` for one character: the ASCII controls TAB, LF,
      VT, FF, CR and the separators 0x1C-0x1F, SPACE, NEL, NO-BREAK SPACE and
      the Unicode space and line/paragraph separators. `str.strip()` with no
      argument removes exactly these. */
  predicate IsSpace(c: char) {
    var n := c as int;
    n == 0x20 || 0x09 <= n <= 0x0D || 0x1C <= n <= 0x1F || n == 0x85 || n == 0xA0
    || n == 0x1680 || 0x2000 <= n <= 0x200A || n == 0x2028 || n == 0x2029
    || n == 0x202F || n == 0x205F || n == 0x3000
  }

  predicate IsUpper(c: char) {
    'A' <= c <= 'Z'
  }

  predicate AllSpace(s: string) {
    forall i :: 0 <= i < |s| ==> IsSpace(s[i])
  }

  const UPPER_LETTERS: string := "ABCDEFGHIJKLMNOPQRSTUVWXYZ"
  const LOWER_LETTERS: string := "abcdefghijklmnopqrstuvwxyz"

  /** Lower-casing of one character (ASCII letters only): the k-th upper-case
      letter becomes the k-th lower-case letter. */
  function LowerChar(c: char): (d: char)
    ensures !IsUpper(d)
    ensures forall k :: 0 <= k < 26 && c == UPPER_LETTERS[k] ==> d == LOWER_LETTERS[k]
    ensures IsSpace(d) == IsSpace(c)
    ensures !IsUpper(c) ==> d == c
  {
    if IsUpper(c) then (c as int - 'A' as int + 'a' as int) as char else c
  }

  /** `str.lower()`: every letter in lower case, everything else as it was. */
  function Lower(s: string): (r: string)
    ensures |r| == |s| && NoUpper(r)
    ensures forall i :: 0 <= i < |s| ==> IsSpace(r[i]) == IsSpace(s[i])
    ensures forall i :: 0 <= i < |s| && !IsUpper(s[i]) ==> r[i] == s[i]
    ensures forall i, k :: 0 <= i < |s| && 0 <= k < 26 && s[i] == UPPER_LETTERS[k] ==> r[i] == LOWER_LETTERS[k]
  {
    seq(|s|, i requires 0 <= i < |s| => LowerChar(s[i]))
  }

  /** `str.lstrip()`: the longest suffix of s that does not start with whitespace. */
  function StripLeft(s: string): (r: string)
    ensures |r| <= |s| && r == s[|s| - |r|..]
    ensures AllSpace(s[..|s| - |r|])
    ensures r == [] || !IsSpace(r[0])
    decreases |s|
  {
    if |s| > 0 && IsSpace(s[0]) then StripLeft(s[1..]) else s
  }

  /** `str.rstrip()`: the longest prefix of s that does not end with whitespace. */
  function StripRight(s: string): (r: string)
    ensures |r| <= |s| && r == s[..|r|]
    ensures AllSpace(s[|r|..])
    ensures r == [] || !IsSpace(r[|r| - 1])
    decreases |s|
  {
    if |s| > 0 && IsSpace(s[|s| - 1]) then StripRight(s[..|s| - 1]) else s
  }

  /** Neither starts nor ends with whitespace. */
  predicate Trimmed(s: string) {
    s == [] || (!IsSpace(s[0]) && !IsSpace(s[|s| - 1]))
  }

  predicate NoUpper(s: string) {
    forall i :: 0 <= i < |s| ==> !IsUpper(s[i])
  }

  /** `str.strip()`. */
  function Strip(s: string): (r: string)
    ensures Trimmed(r)
  {
    StripRight(StripLeft(s))
  }

  /** The cache key of a text (main.py line 88). The key never starts or ends
      with whitespace and holds no upper-case letter. */
  function Normalize(text: string): (key: string)
    ensures Trimmed(key) && NoUpper(key)
  {
    Strip(Lower(text))
  }

  /** Lower-casing a text without upper-case letters changes nothing. */
  lemma LowerNoUpper(s: string)
    requires NoUpper(s)
    ensures Lower(s) == s
  {
    assert forall i :: 0 <= i < |s| ==> Lower(s)[i] == s[i];
  }

  /** Stripping a text that neither starts nor ends with whitespace changes nothing. */
  lemma StripTrimmed(s: string)
    requires Trimmed(s)
    ensures Strip(s) == s
  {
    assert StripLeft(s) == s;
  }

  /** Normalising a key again gives the same key. */
  lemma NormalizeIdempotent(text: string)
    ensures Normalize(Normalize(text)) == Normalize(text)
  {
    var key := Normalize(text);
    LowerNoUpper(key);
    StripTrimmed(key);
    assert Normalize(key) == Strip(Lower(key));
  }

  /** r is s with some whitespace removed at each end. */
  predicate SurroundedBySpace(r: string, s: string) {
    exists a, b :: 0 <= a <= b <= |s| && r == s[a..b] && AllSpace(s[..a]) && AllSpace(s[b..])
  }

  /** `str.strip()` removes whitespace at both ends and nothing else: the
      result is a slice of the text whose surroundings are all whitespace. With
      Strip's own ensures (the slice is trimmed) this fixes the result. */
  lemma StripRemovesSurroundingSpace(s: string)
    ensures SurroundedBySpace(Strip(s), s)
  {
    var left := StripLeft(s);
    var a := |s| - |left|;
    var b := a + |StripRight(left)|;
    assert Strip(s) == s[a..b];
    assert s[b..] == left[|StripRight(left)|..];
  }

  /** The key is the lower-cased text with the whitespace at both ends removed. */
  lemma NormalizeIsLowerStripped(text: string)
    ensures SurroundedBySpace(Normalize(text), Lower(text))
  {
    StripRemovesSurroundingSpace(Lower(text));
  }

  /** Leading whitespace is invisible to StripLeft. */
  lemma {:induction false} StripLeftSpaces(pre: string, s: string)
    requires AllSpace(pre)
    ensures StripLeft(pre + s) == StripLeft(s)
    decreases |pre|
  {
    if pre != [] {
      assert (pre + s)[0] == pre[0];
      assert (pre + s)[1..] == pre[1..] + s;
      StripLeftSpaces(pre[1..], s);
    } else {
      assert pre + s == s;
    }
  }

  /** Trailing whitespace is invisible to StripRight. */
  lemma {:induction false} StripRightSpaces(s: string, post: string)
    requires AllSpace(post)
    ensures StripRight(s + post) == StripRight(s)
    decreases |post|
  {
    if post != [] {
      var t := s + post;
      assert t[|t| - 1] == post[|post| - 1];
      assert t[..|t| - 1] == s + post[..|post| - 1];
      StripRightSpaces(s, post[..|post| - 1]);
    } else {
      assert s + post == s;
    }
  }

  /** StripLeft only removes characters at the front, so trailing text stays. */
  lemma {:induction false} StripLeftAppend(s: string, post: string)
    requires StripLeft(s) != []
    ensures StripLeft(s + post) == StripLeft(s) + post
    decreases |s|
  {
    if IsSpace(s[0]) {
      assert (s + post)[1..] == s[1..] + post;
      StripLeftAppend(s[1..], post);
    }
  }

  lemma LowerAppend(a: string, b: string)
    ensures Lower(a + b) == Lower(a) + Lower(b)
  {
  }

  /** Whitespace added around a text does not change its key. */
  lemma NormalizeIgnoresSurroundingSpace(pre: string, text: string, post: string)
    requires AllSpace(pre) && AllSpace(post)
    ensures Normalize(pre + text + post) == Normalize(text)
  {
    var lp, lt, lq := Lower(pre), Lower(text), Lower(post);
    LowerAppend(pre, text);
    LowerAppend(pre + text, post);
    assert AllSpace(lp) && AllSpace(lq);
    assert Lower(pre + text + post) == lp + (lt + lq);
    StripLeftSpaces(lp, lt + lq);
    if StripLeft(lt) != [] {
      StripLeftAppend(lt, lq);
      StripRightSpaces(StripLeft(lt), lq);
    } else {
      var k := |lt| - |StripLeft(lt)|;
      assert AllSpace(lt) by { assert lt[..k] == lt; }
      StripLeftSpaces(lt, lq);
      StripLeftSpaces(lq, []);
      assert lq + [] == lq;
    }
  }

  /** A trimmed lower-case core surrounded by whitespace has that core as its key. */
  lemma NormalizeTrimmedCore(pre: string, core: string, post: string)
    requires AllSpace(pre) && AllSpace(post) && Trimmed(core) && NoUpper(core)
    ensures Normalize(pre + core + post) == core
  {
    NormalizeIgnoresSurroundingSpace(pre, core, post);
    LowerNoUpper(core);
    StripTrimmed(core);
  }

  /** Two characters that are equal, or the same letter in upper and lower case. */
  predicate SameLetter(c: char, d: char) {
    c == d ||
    exists k :: 0 <= k < 26 &&
      ((c == UPPER_LETTERS[k] && d == LOWER_LETTERS[k]) || (c == LOWER_LETTERS[k] && d == UPPER_LETTERS[k]))
  }

  /** Two texts that differ only in the case of their letters. */
  predicate SameUpToCase(s: string, t: string) {
    |s| == |t| && forall i :: 0 <= i < |s| ==> SameLetter(s[i], t[i])
  }

  /** Texts that differ only in letter case have the same key. */
  lemma NormalizeIgnoresCase(s: string, t: string)
    requires SameUpToCase(s, t)
    ensures Normalize(s) == Normalize(t)
  {
    assert Lower(s) == Lower(t);
  }

  /** Texts that differ only in letter case and surrounding whitespace have
      the same key. */
  lemma NormalizeVariants(text: string, variant: string, pre: string, post: string)
    requires AllSpace(pre) && AllSpace(post)
    requires SameUpToCase(text, variant)
    ensures Normalize(pre + variant + post) == Normalize(text)
  {
    NormalizeIgnoresSurroundingSpace(pre, variant, post);
    NormalizeIgnoresCase(text, variant);
  }
}
