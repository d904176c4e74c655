/**
 * String primitives the validators and filters rely on: trimming (Java's and
 * Kotlin's rules differ), blankness, a fixed lower-casing, prefix and
 * substring tests.
 */
module Text {

  /** Kotlin's `Char.isWhitespace`: Java whitespace plus the Unicode space separators. */
  predicate IsWhitespace(c: char) {
    || c == ' '
    || ('\t' <= c <= '\r')
    || ('\U{1C}' <= c <= '\U{1F}')
    || c == '\U{A0}' || c == '\U{1680}'
    || ('\U{2000}' <= c <= '\U{200A}')
    || c == '\U{2028}' || c == '\U{2029}' || c == '\U{202F}' || c == '\U{205F}' || c == '\U{3000}'
  }

  /** Which characters a trim removes at either end. */
  datatype TrimRule =
    | JavaTrim    // java.lang.String.trim: every code point up to U+0020
    | KotlinTrim  // kotlin.text.trim: every character that IsWhitespace

  predicate Strippable(rule: TrimRule, c: char) {
    match rule
    case JavaTrim => c <= ' '
    case KotlinTrim => IsWhitespace(c)
  }

  /** Where a forward scan from `i` over strippable characters stops. */
  function SkipForward(rule: TrimRule, s: string, i: nat): (j: nat)
    requires i <= |s|
    ensures i <= j <= |s|
    ensures forall k :: i <= k < j ==> Strippable(rule, s[k])
    ensures j < |s| ==> !Strippable(rule, s[j])
    decreases |s| - i
  {
    if i == |s| || !Strippable(rule, s[i]) then i else SkipForward(rule, s, i + 1)
  }

  /** Where a backward scan from `j` (exclusive) over strippable characters stops. */
  function SkipBackward(rule: TrimRule, s: string, j: nat): (i: nat)
    requires j <= |s|
    ensures i <= j
    ensures forall k :: i <= k < j ==> Strippable(rule, s[k])
    ensures i > 0 ==> !Strippable(rule, s[i - 1])
  {
    if j == 0 || !Strippable(rule, s[j - 1]) then j else SkipBackward(rule, s, j - 1)
  }

  /**
   * Removes the strippable characters at both ends: the slice between the
   * first and the last character that is not strippable, or nothing when
   * there is none. The result is empty exactly when every character of the
   * input is strippable.
   */
  function Trim(rule: TrimRule, s: string): (r: string)
    ensures r == [] || (!Strippable(rule, r[0]) && !Strippable(rule, r[|r| - 1]))
    ensures r == [] <==> forall k :: 0 <= k < |s| ==> Strippable(rule, s[k])
  {
    var start := SkipForward(rule, s, 0);
    if start == |s| then [] else s[start..SkipBackward(rule, s, |s|)]
  }

  /** The trimmed string is a slice of the input, and everything cut off around it is strippable. */
  lemma TrimIsSlice(rule: TrimRule, s: string)
    ensures exists i, j ::
              && 0 <= i <= j <= |s| && Trim(rule, s) == s[i..j]
              && (forall k :: 0 <= k < i ==> Strippable(rule, s[k]))
              && (forall k :: j <= k < |s| ==> Strippable(rule, s[k]))
  {
    var start := SkipForward(rule, s, 0);
    if start == |s| {
      assert Trim(rule, s) == s[start..start];
    } else {
      var end := SkipBackward(rule, s, |s|);
      assert Trim(rule, s) == s[start..end];
    }
  }

  /** A string that neither starts nor ends with a strippable character is its own trim. */
  lemma TrimUnchanged(rule: TrimRule, s: string)
    requires s != [] && !Strippable(rule, s[0]) && !Strippable(rule, s[|s| - 1])
    ensures Trim(rule, s) == s
  {
  }

  /** `needle` occurs in `s` starting at index `i`. */
  predicate OccursAt(s: string, needle: string, i: nat) {
    i + |needle| <= |s| && s[i..i + |needle|] == needle
  }

  /** Kotlin's `isBlank`: empty or whitespace only. */
  predicate IsBlank(s: string) {
    forall k :: 0 <= k < |s| ==> IsWhitespace(s[k])
  }

  /** Kotlin's `isBlank` is the same as "trims (Kotlin rule) to nothing". */
  lemma BlankIffTrimsToEmpty(s: string)
    ensures IsBlank(s) <==> Trim(KotlinTrim, s) == []
  {
  }

  /** Java's `s.trim().isEmpty()`. */
  predicate IsJavaBlank(s: string) {
    Trim(JavaTrim, s) == []
  }

  /** Lower-casing with a fixed, locale-free table: only 'A'..'Z' change. */
  function LowerChar(c: char): char {
    if 'A' <= c <= 'Z' then (c as int + 32) as char else c
  }

  function Lower(s: string): (r: string)
    ensures |r| == |s| && forall k :: 0 <= k < |s| ==> r[k] == LowerChar(s[k])
  {
    seq(|s|, k requires 0 <= k < |s| => LowerChar(s[k]))
  }

  /** `startsWith`. */
  predicate StartsWith(s: string, prefix: string) {
    |prefix| <= |s| && s[..|prefix|] == prefix
  }

  /** `contains`: `needle` occurs somewhere in `s` (the empty needle always does). */
  predicate Contains(s: string, needle: string) {
    StartsWith(s, needle) || (s != [] && Contains(s[1..], needle))
  }

  /** The recursive definition of Contains agrees with "occurs at some index". */
  lemma {:induction false} ContainsIffOccurs(s: string, needle: string)
    ensures Contains(s, needle) <==> exists i: nat :: OccursAt(s, needle, i)
  {
    if StartsWith(s, needle) {
      assert OccursAt(s, needle, 0);
    } else if s == [] {
      assert forall i: nat :: !OccursAt(s, needle, i);
    } else {
      ContainsIffOccurs(s[1..], needle);
      if Contains(s[1..], needle) {
        var i: nat :| OccursAt(s[1..], needle, i);
        assert s[i + 1..i + 1 + |needle|] == s[1..][i..i + |needle|];
        assert OccursAt(s, needle, i + 1);
      } else {
        forall i: nat | OccursAt(s, needle, i) ensures false {
          assert i != 0;
          assert s[1..][i - 1..i - 1 + |needle|] == s[i..i + |needle|];
          assert OccursAt(s[1..], needle, i - 1);
        }
      }
    }
  }

  /** Kotlin's `contains(needle, ignoreCase = true)`, over the fixed lower-casing. */
  predicate ContainsIgnoreCase(s: string, needle: string) {
    Contains(Lower(s), Lower(needle))
  }
}
