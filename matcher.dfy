/** The reference matcher shared by the correlation rules: does the JSON text
    of a companion's reference mention a resource, either by its logical ID or
    by a type-specific path segment followed by its runtime name? */
module Matcher {
  import opened Values
  import opened Patterns

  /** The runtime name the name strategy looks for: the text of a string,
      boolean or number name. An undefined or null name skips the strategy,
      as the source's `!= undefined` guard does. A name that resolved to a
      token or an object skips it too: this function is where the corrected
      behaviour for such names lives, while RegexAsWritten models the
      source's `[object Object]` pattern for them. */
  function RuntimeName(name: Value): (r: Option<string>)
    ensures LooselyUndefined(name) ==> r.None?
    ensures name.Str? ==> r == Some(name.s)
    ensures name.Unresolved? || name.Other? ==> r.None?
  {
    PrimitiveText(name)
  }

  /** Both strategies, combined with "or": the logical ID not followed by a
      word character, or `segment` and the runtime name not followed by a
      word character, `-` or `.`. Each strategy is a regular-expression test,
      that is, a scan from the start of the text. */
  predicate ReferencesIdentity(text: string, logicalId: string, segment: string, name: Value)
    ensures ReferencesIdentity(text, logicalId, segment, name) <==>
      AnchoredOccurs(text, logicalId, NotWord) ||
      (RuntimeName(name).Some? &&
       AnchoredOccurs(text, segment + RuntimeName(name).value, NotNameChar))
  {
    SearchDecides(text, logicalId, NotWord);
    var byId := Search(text, logicalId, NotWord, 0).Some?;
    match RuntimeName(name)
    case None => byId
    case Some(n) =>
      SearchDecides(text, segment + n, NotNameChar);
      byId || Search(text, segment + n, NotNameChar, 0).Some?
  }

  /** Without a runtime name only the logical-ID strategy is tried, and the
      matcher still answers. */
  lemma AbsentNameFallsBackToLogicalId(text: string, logicalId: string, segment: string, name: Value)
    requires LooselyUndefined(name) || name.Unresolved? || name.Other?
    ensures ReferencesIdentity(text, logicalId, segment, name) <==> AnchoredOccurs(text, logicalId, NotWord)
  {
  }

  /** The name strategy ends the name at a character that cannot continue a
      name: `segment/name` followed by `/`, a quote or the end of the text
      matches. */
  lemma NameFollowedBySeparatorMatches(before: string, logicalId: string, segment: string, name: string, after: string)
    requires after == [] || !IsNameChar(after[0])
    ensures ReferencesIdentity(before + segment + name + after, logicalId, segment, Str(name))
  {
    assert before + segment + name + after == before + (segment + name) + after;
    FollowedByAllowed(before, segment + name, after, NotNameChar);
  }
}
