/** Right-anchored "contains" tests: the literal needle occurs in the text at
    a position where the next character is absent or outside a forbidden set.
    The correlation rules express this as a regular expression made of the
    needle followed by a negative lookahead, `(?![\w])` for logical IDs and
    `(?![\w\-_\.])` for resource names. */
module Patterns {
  import opened Values

  /** A character of the class `\w`. */
  predicate IsWordChar(c: char)
  {
    'a' <= c <= 'z' || 'A' <= c <= 'Z' || '0' <= c <= '9' || c == '_'
  }

  /** A character of the class `[\w\-_\.]`: a word character, `-` or `.`. */
  predicate IsNameChar(c: char)
  {
    IsWordChar(c) || c == '-' || c == '.'
  }

  /** The characters that the regular-expression `.` does not match. */
  predicate IsLineTerminator(c: char)
  {
    c == '\n' || c == '\r' || c == '\U{2028}' || c == '\U{2029}'
  }

  /** The negative lookahead that ends a pattern. */
  datatype Lookahead = NotWord | NotNameChar

  predicate Forbidden(la: Lookahead, c: char)
  {
    match la
    case NotWord => IsWordChar(c)
    case NotNameChar => IsNameChar(c)
  }

  predicate OccursAt(text: string, needle: string, i: int)
  {
    0 <= i && i + |needle| <= |text| && text[i..i + |needle|] == needle
  }

  /** The lookahead holds at position `j`: the text ends there, or its next
      character is not forbidden. */
  predicate LookaheadHolds(text: string, j: int, la: Lookahead)
    requires 0 <= j <= |text|
  {
    j == |text| || !Forbidden(la, text[j])
  }

  predicate AnchoredAt(text: string, needle: string, la: Lookahead, i: int)
  {
    OccursAt(text, needle, i) && LookaheadHolds(text, i + |needle|, la)
  }

  /** The specification of a right-anchored match anywhere in the text. */
  predicate AnchoredOccurs(text: string, needle: string, la: Lookahead)
  {
    exists i | 0 <= i <= |text| - |needle| :: AnchoredAt(text, needle, la, i)
  }

  /** The regular-expression scan: the first position at or after `from`
      where the anchored needle matches, or None. A regular expression's
      `test` is `Search(text, needle, la, 0).Some?`. */
  function Search(text: string, needle: string, la: Lookahead, from: nat): (r: Option<nat>)
    decreases |text| - from
    ensures r.Some? ==> from <= r.value && AnchoredAt(text, needle, la, r.value)
    ensures r.Some? ==> forall i :: from <= i < r.value ==> !AnchoredAt(text, needle, la, i)
    ensures r.None? ==> forall i :: from <= i ==> !AnchoredAt(text, needle, la, i)
  {
    if from + |needle| > |text| then None
    else if AnchoredAt(text, needle, la, from) then Some(from)
    else Search(text, needle, la, from + 1)
  }

  /** The scan finds a match exactly when one exists. */
  lemma SearchDecides(text: string, needle: string, la: Lookahead)
    ensures Search(text, needle, la, 0).Some? <==> AnchoredOccurs(text, needle, la)
  {
    if AnchoredOccurs(text, needle, la) {
      var i :| 0 <= i <= |text| - |needle| && AnchoredAt(text, needle, la, i);
    }
  }

  /** The name lookahead forbids more than the word lookahead, so a name match
      is also a word-anchored match. */
  lemma NameAnchorImpliesWordAnchor(text: string, needle: string)
    requires AnchoredOccurs(text, needle, NotNameChar)
    ensures AnchoredOccurs(text, needle, NotWord)
  {
    var i :| 0 <= i <= |text| - |needle| && AnchoredAt(text, needle, NotNameChar, i);
    assert AnchoredAt(text, needle, NotWord, i);
  }

  /** Only the right side is anchored: text added in front keeps a match. */
  lemma LeftUnanchored(prefix: string, text: string, needle: string, la: Lookahead)
    requires AnchoredOccurs(text, needle, la)
    ensures AnchoredOccurs(prefix + text, needle, la)
  {
    var i :| 0 <= i <= |text| - |needle| && AnchoredAt(text, needle, la, i);
    var t := prefix + text;
    var j := |prefix| + i;
    assert t[j..j + |needle|] == text[i..i + |needle|];
    assert j + |needle| < |t| ==> t[j + |needle|] == text[i + |needle|];
    assert AnchoredAt(t, needle, la, j);
  }

  /** A needle that matches also matches with any left part dropped: a match
      of `extra + needle` is a match of `needle`. */
  lemma SuffixOfNeedleMatches(text: string, extra: string, needle: string, la: Lookahead)
    requires AnchoredOccurs(text, extra + needle, la)
    ensures AnchoredOccurs(text, needle, la)
  {
    var i :| 0 <= i <= |text| - |extra + needle| && AnchoredAt(text, extra + needle, la, i);
    var j := i + |extra|;
    assert text[j..j + |needle|] == text[i..i + |extra + needle|][|extra|..];
    assert AnchoredAt(text, needle, la, j);
  }

  /** The needle followed by an allowed character, or by nothing, matches. */
  lemma FollowedByAllowed(before: string, needle: string, after: string, la: Lookahead)
    requires after == [] || !Forbidden(la, after[0])
    ensures AnchoredOccurs(before + needle + after, needle, la)
  {
    var t := before + needle + after;
    var i := |before|;
    assert t[i..i + |needle|] == needle;
    assert i + |needle| < |t| ==> t[i + |needle|] == after[0];
    assert AnchoredAt(t, needle, la, i);
  }

  /** One differing character rules out an occurrence. */
  lemma MismatchAt(text: string, needle: string, i: int, k: int)
    requires 0 <= i && i + |needle| <= |text| && 0 <= k < |needle|
    requires text[i + k] != needle[k]
    ensures !OccursAt(text, needle, i)
  {
    assert text[i..i + |needle|][k] == text[i + k];
  }

  /** A single occurrence of the needle followed by a forbidden character does
      not match: in a text that holds the needle once, a prefix collision is
      rejected. */
  lemma ForbiddenFollowerRejected(text: string, needle: string, la: Lookahead, i: nat)
    requires OccursAt(text, needle, i) && i + |needle| < |text|
    requires Forbidden(la, text[i + |needle|])
    requires forall j :: OccursAt(text, needle, j) ==> j == i
    ensures !AnchoredOccurs(text, needle, la)
  {
  }
}
