/** DynamoDBInBackupPlan: a DynamoDB table passes when some backup plan
    selection in its stack lists it, by logical ID or as `table/<name>`. */
module DynamoDB {
  import opened Values
  import opened Resources
  import opened Patterns
  import opened Matcher
  import opened Scanner

  /** The path segment that precedes a table name in a table ARN. */
  const TableSegment: string := "table/"

  predicate IsBackupSelection(r: Resource)
  {
    r.BackupSelection?
  }

  /** The loop over a selection's entries, returning on the first entry that
      refers to the table. */
  function FirstMatchingEntry(entries: seq<string>, tableLogicalId: string, tableName: Value): (r: bool)
    ensures r <==> exists k :: 0 <= k < |entries| &&
                     ReferencesIdentity(entries[k], tableLogicalId, TableSegment, tableName)
  {
    if entries == [] then false
    else if ReferencesIdentity(entries[0], tableLogicalId, TableSegment, tableName) then true
    else
      var rest := FirstMatchingEntry(entries[1..], tableLogicalId, tableName);
      assert forall k :: 1 <= k < |entries| ==> entries[k] == entries[1..][k - 1];
      rest
  }

  /** Whether a backup selection lists the table. A selection whose resolved
      `resources` is not an array lists nothing; a resource of another kind
      is never a selection. */
  predicate IsMatchingSelection(selection: Resource, tableLogicalId: string, tableName: Value)
    ensures IsMatchingSelection(selection, tableLogicalId, tableName) <==>
      selection.BackupSelection? && selection.resources.Some? &&
      exists k :: 0 <= k < |selection.resources.value| &&
        (AnchoredOccurs(selection.resources.value[k], tableLogicalId, NotWord) ||
         (RuntimeName(tableName).Some? &&
          AnchoredOccurs(selection.resources.value[k], TableSegment + RuntimeName(tableName).value, NotNameChar)))
  {
    match selection
    case BackupSelection(_, Some(entries)) => FirstMatchingEntry(entries, tableLogicalId, tableName)
    case _ => false
  }

  /** The rule's verdict as a specification: anything that is not a table
      passes, and a table passes exactly when some backup selection of its
      stack matches it. */
  predicate InBackupPlan(node: Resource, stack: Stack)
  {
    !node.Table? ||
    exists j :: 0 <= j < |stack| && stack[j].BackupSelection? &&
                IsMatchingSelection(stack[j], node.logicalId, node.tableName)
  }

  /** The rule: scan the whole stack for a matching backup selection. */
  method DynamoDBInBackupPlan(node: Resource, stack: Stack) returns (pass: bool)
    ensures pass == InBackupPlan(node, stack)
  {
    if node.Table? {
      var tableLogicalId := node.logicalId;
      var tableName := node.tableName;
      var found := FindCompanion(stack, IsBackupSelection,
                                 s => IsMatchingSelection(s, tableLogicalId, tableName));
      if !found {
        return false;
      }
    }
    return true;
  }

  /** A table passes exactly when some selection has an entry that refers to
      it by logical ID or by name. */
  lemma TablePassesIffSomeEntryMatches(node: Resource, stack: Stack)
    requires node.Table?
    ensures InBackupPlan(node, stack) <==>
      exists j, k :: 0 <= j < |stack| && stack[j].BackupSelection? && stack[j].resources.Some? &&
        0 <= k < |stack[j].resources.value| &&
        ReferencesIdentity(stack[j].resources.value[k], node.logicalId, TableSegment, node.tableName)
  {
  }

  /** With no backup selection in the stack a table fails. */
  lemma NoSelectionFails(node: Resource, stack: Stack)
    requires node.Table?
    requires forall j :: 0 <= j < |stack| ==> !stack[j].BackupSelection?
    ensures !InBackupPlan(node, stack)
  {
  }

  /** A node that is not a backup selection never changes the verdict. */
  lemma OtherNodesIrrelevant(node: Resource, front: Stack, x: Resource, back: Stack)
    requires !x.BackupSelection?
    ensures InBackupPlan(node, front + [x] + back) == InBackupPlan(node, front + back)
  {
    if node.Table? {
      NonCandidateIrrelevant(front, x, back, IsBackupSelection,
                             s => IsMatchingSelection(s, node.logicalId, node.tableName));
    }
  }

  /** A table is listed when an entry holds its logical ID as a JSON string,
      however the entry is embedded (a `Ref`, a `Fn::GetAtt`, a list). */
  lemma QuotedLogicalIdListed(node: Resource, before: string, after: string, stack: Stack, j: nat)
    requires node.Table?
    requires j < |stack| && stack[j].BackupSelection? && stack[j].resources.Some?
    requires before + "\"" + node.logicalId + "\"" + after in stack[j].resources.value
    ensures InBackupPlan(node, stack)
  {
    var entries := stack[j].resources.value;
    var text := before + "\"" + node.logicalId + "\"" + after;
    assert text == (before + "\"") + node.logicalId + ("\"" + after);
    FollowedByAllowed(before + "\"", node.logicalId, "\"" + after, NotWord);
    var k :| 0 <= k < |entries| && entries[k] == text;
    assert ReferencesIdentity(entries[k], node.logicalId, TableSegment, node.tableName);
  }

  /** A table with a string name is listed by an ARN ending in `table/<name>`
      inside a JSON string. */
  lemma TableArnListed(node: Resource, arnPrefix: string, stack: Stack, j: nat)
    requires node.Table? && node.tableName.Str?
    requires j < |stack| && stack[j].BackupSelection? && stack[j].resources.Some?
    requires "\"" + arnPrefix + TableSegment + node.tableName.s + "\"" in stack[j].resources.value
    ensures InBackupPlan(node, stack)
  {
    var entries := stack[j].resources.value;
    var name := node.tableName.s;
    var text := "\"" + arnPrefix + TableSegment + name + "\"";
    assert text == ("\"" + arnPrefix) + TableSegment + name + "\"";
    NameFollowedBySeparatorMatches("\"" + arnPrefix, node.logicalId, TableSegment, name, "\"");
    var k :| 0 <= k < |entries| && entries[k] == text;
  }
}
