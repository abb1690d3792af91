/**
 * The string operations the repository's filters use: `char.IsWhiteSpace`,
 * `string.IsNullOrWhiteSpace`, `Trim`, `ToLowerInvariant` and ordinal `Contains`.
 * Lower-casing covers ASCII letters only; white space is .NET's full set.
 */
module Text {
  import opened Wrappers

  /** The characters .NET's `char.IsWhiteSpace` accepts: the controls 9-13, the space, and the Unicode separators. */
  predicate IsWhiteSpace(c: char)
    ensures IsWhiteSpace(c) ==> !IsUpper(c) && !('a' <= c <= 'z') && !('0' <= c <= '9')
  {
    c == ' ' || '\t' <= c <= '\r' || (c as int >= 0x85 && IsUnicodeSpace(c as int))
  }

  /** The white space above the Latin-1 controls: NEL, NBSP and the Unicode categories Zs, Zl and Zp. */
  predicate IsUnicodeSpace(n: int) {
    n == 0x85 || n == 0xA0 || n == 0x1680 || 0x2000 <= n <= 0x200A
    || n == 0x2028 || n == 0x2029 || n == 0x202F || n == 0x205F || n == 0x3000
  }

  predicate AllWhiteSpace(s: string) {
    forall i :: 0 <= i < |s| ==> IsWhiteSpace(s[i])
  }

  /** `string.IsNullOrWhiteSpace`: null, empty, or white space only. */
  predicate IsNullOrWhiteSpace(s: Option<string>)
    ensures IsNullOrWhiteSpace(s) <==> s.None? || Trim(s.value) == []
  {
    s.None? || AllWhiteSpace(s.value)
  }

  predicate IsUpper(c: char) {
    'A' <= c <= 'Z'
  }

  function ToLowerChar(c: char): (r: char)
    ensures !IsUpper(r)
    ensures IsUpper(c) ==> r as int == c as int + 32
    ensures !IsUpper(c) ==> r == c
    ensures IsWhiteSpace(r) <==> IsWhiteSpace(c)
  {
    if IsUpper(c) then (c as int + 32) as char else c
  }

  /** `ToLowerInvariant`, restricted to the ASCII letters. */
  function ToLower(s: string): (r: string)
    ensures |r| == |s|
    ensures forall i :: 0 <= i < |s| ==> r[i] == ToLowerChar(s[i])
    ensures forall i :: 0 <= i < |r| ==> !IsUpper(r[i])
  {
    seq(|s|, i requires 0 <= i < |s| => ToLowerChar(s[i]))
  }

  /** Lower-casing a string a second time changes nothing. */
  lemma ToLowerIdempotent(s: string)
    ensures ToLower(ToLower(s)) == ToLower(s)
  {
    var t := ToLower(s);
    assert forall i :: 0 <= i < |t| ==> ToLower(t)[i] == t[i];
  }

  /** The first index at or after `i` that does not hold white space (`|s|` if none does). */
  function SkipWhiteSpace(s: string, i: nat): (k: nat)
    requires i <= |s|
    ensures i <= k <= |s|
    ensures forall j :: i <= j < k ==> IsWhiteSpace(s[j])
    ensures k == |s| || !IsWhiteSpace(s[k])
    decreases |s| - i
  {
    if i < |s| && IsWhiteSpace(s[i]) then SkipWhiteSpace(s, i + 1) else i
  }

  /** Scanning down from `j` to `lo`: the end of the text after dropping the white space before `j`. */
  function SkipWhiteSpaceBack(s: string, lo: nat, j: nat): (k: nat)
    requires lo <= j <= |s|
    ensures lo <= k <= j
    ensures forall m :: k <= m < j ==> IsWhiteSpace(s[m])
    ensures k == lo || !IsWhiteSpace(s[k - 1])
    decreases j
  {
    if lo < j && IsWhiteSpace(s[j - 1]) then SkipWhiteSpaceBack(s, lo, j - 1) else j
  }

  /** `r` sits at offset `i` of `s` with nothing but white space around it. */
  predicate PaddedAt(s: string, r: string, i: int) {
    0 <= i && i + |r| <= |s| && s[i..i + |r|] == r
    && (forall k :: 0 <= k < i ==> IsWhiteSpace(s[k]))
    && (forall k :: i + |r| <= k < |s| ==> IsWhiteSpace(s[k]))
  }

  /** `Trim`: the string without its leading and trailing white space. */
  function Trim(s: string): (r: string)
    ensures exists i :: PaddedAt(s, r, i)
    ensures r == [] || (!IsWhiteSpace(r[0]) && !IsWhiteSpace(r[|r| - 1]))
    ensures r == [] <==> AllWhiteSpace(s)
  {
    var start := SkipWhiteSpace(s, 0);
    var end := SkipWhiteSpaceBack(s, start, |s|);
    assert PaddedAt(s, s[start..end], start);
    s[start..end]
  }

  /** Two non-empty strings without white space at their ends that are both padded into `s` are the same. */
  lemma PaddedUnique(s: string, r: string, i: int, t: string, j: int)
    requires PaddedAt(s, r, i) && PaddedAt(s, t, j) && r != [] && t != []
    requires !IsWhiteSpace(r[0]) && !IsWhiteSpace(r[|r| - 1])
    requires !IsWhiteSpace(t[0]) && !IsWhiteSpace(t[|t| - 1])
    ensures r == t
  {
    assert s[i] == r[0] && s[j] == t[0];
    assert s[i + |r| - 1] == r[|r| - 1] && s[j + |t| - 1] == t[|t| - 1];
    assert i == j && |r| == |t|;
  }

  /**
   * `Trim` is determined by what it promises: a non-empty string that starts and ends
   * with non-white-space and sits in `s` between white space is `Trim(s)`.
   */
  lemma TrimUnique(s: string, r: string, i: int)
    requires PaddedAt(s, r, i) && r != []
    requires !IsWhiteSpace(r[0]) && !IsWhiteSpace(r[|r| - 1])
    ensures Trim(s) == r
  {
    var t := Trim(s);
    var j :| PaddedAt(s, t, j);
    assert !AllWhiteSpace(s) by {
      assert s[i] == r[0];
    }
    PaddedUnique(s, r, i, t, j);
  }

  /** The characters of `before + s + after`, by position. */
  lemma ConcatAt(before: string, s: string, after: string)
    ensures forall k :: 0 <= k < |before + s + after| ==>
      (before + s + after)[k] == (if k < |before| then before[k]
                                  else if k < |before| + |s| then s[k - |before|]
                                  else after[k - |before| - |s|])
  {
  }

  /** A string padded into `s` is padded into `before + s + after` when the additions are white space. */
  lemma PaddedConcat(s: string, before: string, after: string, t: string, i: int)
    requires AllWhiteSpace(before) && AllWhiteSpace(after) && PaddedAt(s, t, i)
    ensures PaddedAt(before + s + after, t, |before| + i)
  {
    var padded := before + s + after;
    ConcatAt(before, s, after);
    var lo := |before| + i;
    var moved, original := padded[lo..lo + |t|], s[i..i + |t|];
    assert forall k :: 0 <= k < |t| ==> moved[k] == original[k];
    assert moved == original;
  }

  /** White space added around a string is trimmed away with its own. */
  lemma TrimPadding(s: string, before: string, after: string)
    requires AllWhiteSpace(before) && AllWhiteSpace(after)
    ensures AllWhiteSpace(before + s + after) <==> AllWhiteSpace(s)
    ensures Trim(before + s + after) == Trim(s)
  {
    if !AllWhiteSpace(s) {
      var t := Trim(s);
      var i :| PaddedAt(s, t, i);
      PaddedConcat(s, before, after, t, i);
      TrimUnique(before + s + after, t, |before| + i);
    } else {
      ConcatAt(before, s, after);
    }
  }

  /** Lower-casing moves no white space, so trimming scans stop at the same places. */
  lemma {:induction false} SkipWhiteSpaceToLower(s: string, i: nat)
    requires i <= |s|
    ensures SkipWhiteSpace(ToLower(s), i) == SkipWhiteSpace(s, i)
    decreases |s| - i
  {
    if i < |s| && IsWhiteSpace(s[i]) {
      SkipWhiteSpaceToLower(s, i + 1);
    }
  }

  lemma {:induction false} SkipWhiteSpaceBackToLower(s: string, lo: nat, j: nat)
    requires lo <= j <= |s|
    ensures SkipWhiteSpaceBack(ToLower(s), lo, j) == SkipWhiteSpaceBack(s, lo, j)
    decreases j
  {
    if lo < j && IsWhiteSpace(s[j - 1]) {
      SkipWhiteSpaceBackToLower(s, lo, j - 1);
    }
  }

  /** Trimming commutes with lower-casing. */
  lemma ToLowerTrim(s: string)
    ensures ToLower(Trim(s)) == Trim(ToLower(s))
  {
    SkipWhiteSpaceToLower(s, 0);
    var start := SkipWhiteSpace(s, 0);
    SkipWhiteSpaceBackToLower(s, start, |s|);
    var end := SkipWhiteSpaceBack(s, start, |s|);
    ToLowerSlice(s, start, end);
  }

  lemma ToLowerSlice(s: string, i: int, j: int)
    requires 0 <= i <= j <= |s|
    ensures ToLower(s[i..j]) == ToLower(s)[i..j]
  {
    assert forall k :: 0 <= k < j - i ==> ToLower(s[i..j])[k] == ToLower(s)[i..j][k];
  }

  /** `sub` occurs in `s` starting at index `i`. */
  predicate OccursAt(s: string, sub: string, i: int) {
    0 <= i && i + |sub| <= |s| && s[i..i + |sub|] == sub
  }

  /** Ordinal `string.Contains`: some offset of `s` starts a copy of `sub`. */
  function Contains(s: string, sub: string): (b: bool)
    ensures b <==> exists i :: OccursAt(s, sub, i)
  {
    if |sub| <= |s| && s[..|sub|] == sub then
      assert OccursAt(s, sub, 0);
      true
    else if s == [] then
      false
    else
      var b := Contains(s[1..], sub);
      assert forall i :: OccursAt(s, sub, i) && i > 0 ==> OccursAt(s[1..], sub, i - 1);
      assert forall i :: OccursAt(s[1..], sub, i) ==> OccursAt(s, sub, i + 1);
      b
  }
}
