/** The name strategy as the source writes it. Both correlation rules build
    the regular expression `<segment><name>(?![\w\-_\.])` by writing the
    resolved name into a template, without escaping. Two things follow that
    the literal matcher of module Matcher does not do:
    - a `.` in the name matches any character but a line terminator;
    - a name that resolved to an intrinsic object is written as
      `[object Object]`, which the regular expression reads as a class of
      one character from `object O`.
    This module models those patterns for names made of the characters a
    table or web ACL name may hold, and exhibits both differences. */
module RegexAsWritten {
  import opened Values
  import opened Patterns
  import opened Matcher

  /** One position of a regular expression without quantifiers. */
  datatype Atom = Lit(c: char) | AnyChar | OneOf(chars: set<char>)

  predicate AtomMatches(a: Atom, c: char)
  {
    match a
    case Lit(x) => c == x
    case AnyChar => !IsLineTerminator(c)
    case OneOf(chars) => c in chars
  }

  predicate PatternAt(text: string, pat: seq<Atom>, i: int)
  {
    0 <= i && i + |pat| <= |text| &&
    forall k :: 0 <= k < |pat| ==> AtomMatches(pat[k], text[i + k])
  }

  /** The regular expression `pat` followed by the lookahead matches
      somewhere in the text. */
  predicate PatternOccurs(text: string, pat: seq<Atom>, la: Lookahead)
  {
    exists i | 0 <= i <= |text| - |pat| :: PatternAt(text, pat, i) && LookaheadHolds(text, i + |pat|, la)
  }

  /** A string that stands for itself. */
  function Literal(s: string): (pat: seq<Atom>)
    ensures |pat| == |s| && forall k :: 0 <= k < |s| ==> pat[k] == Lit(s[k])
  {
    seq(|s|, k requires 0 <= k < |s| => Lit(s[k]))
  }

  /** A name written into a regular expression: `.` is the any-character
      atom, the other name characters stand for themselves. */
  function Compile(name: string): (pat: seq<Atom>)
    requires forall k :: 0 <= k < |name| ==> IsNameChar(name[k])
    ensures |pat| == |name|
    ensures forall k :: 0 <= k < |name| ==> pat[k] == (if name[k] == '.' then AnyChar else Lit(name[k]))
  {
    seq(|name|, k requires 0 <= k < |name| => if name[k] == '.' then AnyChar else Lit(name[k]))
  }

  /** `[object Object]` read as a regular expression. */
  const ObjectClass: Atom := OneOf({'o', 'b', 'j', 'e', 'c', 't', ' ', 'O'})

  /** The names this module models: undefined or null, a primitive, a token
      or an object, and among strings those made of name characters. */
  predicate NameModelled(name: Value)
  {
    name.Str? ==> forall k :: 0 <= k < |name.s| ==> IsNameChar(name.s[k])
  }

  /** The pattern the name strategy tests, as written; None when the
      `!= undefined` guard skips the strategy. */
  function NamePatternAsWritten(segment: string, name: Value): (r: Option<seq<Atom>>)
    requires NameModelled(name)
    ensures r.None? <==> LooselyUndefined(name)
  {
    match name
    case Undefined => None
    case Null => None
    case Str(s) => Some(Literal(segment) + Compile(s))
    case Bool(b) => Some(Literal(segment + if b then "true" else "false"))
    case Num(n) => Some(Literal(segment + DecimalText(n)))
    case Unresolved => Some(Literal(segment) + [ObjectClass])
    case Other => Some(Literal(segment) + [ObjectClass])
  }

  /** Both strategies as written. Logical IDs are alphanumeric, so the
      logical-ID strategy is literal. */
  predicate ReferencesIdentityAsWritten(text: string, logicalId: string, segment: string, name: Value)
    requires NameModelled(name)
    ensures AnchoredOccurs(text, logicalId, NotWord) ==> ReferencesIdentityAsWritten(text, logicalId, segment, name)
    ensures LooselyUndefined(name) ==>
      (ReferencesIdentityAsWritten(text, logicalId, segment, name) <==> AnchoredOccurs(text, logicalId, NotWord))
  {
    AnchoredOccurs(text, logicalId, NotWord) ||
    (NamePatternAsWritten(segment, name).Some? &&
     PatternOccurs(text, NamePatternAsWritten(segment, name).value, NotNameChar))
  }

  /** At one position, a literal pattern matches exactly where the string
      occurs. */
  lemma LiteralAt(text: string, s: string, i: int)
    requires 0 <= i <= |text| - |s|
    ensures PatternAt(text, Literal(s), i) <==> OccursAt(text, s, i)
  {
    var pat := Literal(s);
    if PatternAt(text, pat, i) {
      forall k | 0 <= k < |s| ensures text[i..i + |s|][k] == s[k] {
        assert AtomMatches(pat[k], text[i + k]);
      }
    }
    if OccursAt(text, s, i) {
      forall k | 0 <= k < |s| ensures AtomMatches(pat[k], text[i + k]) {
        assert text[i..i + |s|][k] == s[k];
      }
    }
  }

  /** A literal pattern matches exactly where the string occurs. */
  lemma LiteralAgrees(text: string, s: string, la: Lookahead)
    ensures PatternOccurs(text, Literal(s), la) <==> AnchoredOccurs(text, s, la)
  {
    var pat := Literal(s);
    if AnchoredOccurs(text, s, la) {
      var i :| 0 <= i <= |text| - |s| && AnchoredAt(text, s, la, i);
      LiteralAt(text, s, i);
      assert PatternAt(text, pat, i) && LookaheadHolds(text, i + |pat|, la);
    }
    if PatternOccurs(text, pat, la) {
      var i :| 0 <= i <= |text| - |pat| && PatternAt(text, pat, i) && LookaheadHolds(text, i + |pat|, la);
      LiteralAt(text, s, i);
      assert AnchoredAt(text, s, la, i);
    }
  }

  /** Without a `.` in a string name, and for boolean and number names, the
      pattern as written is the literal text of the name. */
  lemma NoDotPatternIsLiteral(segment: string, name: Value)
    requires NameModelled(name) && PrimitiveText(name).Some?
    requires name.Str? ==> '.' !in name.s
    ensures NamePatternAsWritten(segment, name) == Some(Literal(segment + PrimitiveText(name).value))
  {
    if name.Str? {
      var s := name.s;
      assert Compile(s) == Literal(s) by {
        forall k | 0 <= k < |s| ensures s[k] != '.' {
          assert s[k] in s;
        }
      }
      assert Literal(segment) + Literal(s) == Literal(segment + s);
    }
  }

  /** For names without a `.` the source's matcher and the literal matcher
      agree: the two differences below are the only ones for such names that
      are not tokens or objects. */
  lemma AgreesWithoutDots(text: string, logicalId: string, segment: string, name: Value)
    requires NameModelled(name) && !name.Unresolved? && !name.Other?
    requires name.Str? ==> '.' !in name.s
    ensures ReferencesIdentityAsWritten(text, logicalId, segment, name) ==
            ReferencesIdentity(text, logicalId, segment, name)
  {
    if PrimitiveText(name).Some? {
      NoDotPatternIsLiteral(segment, name);
      LiteralAgrees(text, segment + PrimitiveText(name).value, NotNameChar);
    }
  }

  /** Finding: a `.` in a name matches any character. A table named `a.b`
      is taken to be listed by an entry for the table `aXb`. */
  lemma DotInNameIsWildcard()
    ensures ReferencesIdentityAsWritten("\"table/aXb\"", "rTable", "table/", Str("a.b"))
    ensures !ReferencesIdentity("\"table/aXb\"", "rTable", "table/", Str("a.b"))
  {
    var text := "\"table/aXb\"";
    var pat := Literal("table/") + Compile("a.b");
    assert PatternAt(text, pat, 1) && LookaheadHolds(text, 1 + |pat|, NotNameChar);
    forall i | 0 <= i <= |text| - |"rTable"| ensures !AnchoredAt(text, "rTable", NotWord, i) {
      MismatchAt(text, "rTable", i, 0);
    }
    forall i | 0 <= i <= |text| - |"table/a.b"| ensures !AnchoredAt(text, "table/a.b", NotNameChar, i) {
      MismatchAt(text, "table/a.b", i, if i == 1 then 7 else 0);
    }
    assert !AnchoredOccurs(text, "rTable", NotWord);
    assert "table/" + "a.b" == "table/a.b";
  }

  /** Finding: a name that resolved to an intrinsic object matches `table/`
      followed by any one of the characters of `object O`. A table whose name
      is a token is taken to be listed by an entry for the table `t`. */
  lemma ObjectNameIsCharacterClass()
    ensures ReferencesIdentityAsWritten("\"table/t\"", "rTable", "table/", Unresolved)
    ensures !ReferencesIdentity("\"table/t\"", "rTable", "table/", Unresolved)
  {
    var text := "\"table/t\"";
    var pat := Literal("table/") + [ObjectClass];
    assert PatternAt(text, pat, 1) && LookaheadHolds(text, 1 + |pat|, NotNameChar);
    forall i | 0 <= i <= |text| - |"rTable"| ensures !AnchoredAt(text, "rTable", NotWord, i) {
      MismatchAt(text, "rTable", i, 0);
    }
  }
}
