/** WAFv2LoggingEnabled: a WAFv2 web ACL passes when some logging
    configuration in its stack points at it, by logical ID or as
    `webacl/<name>`. */
module WAF {
  import opened Values
  import opened Resources
  import opened Patterns
  import opened Matcher
  import opened Scanner

  /** The path segment that precedes a web ACL name in a web ACL ARN. */
  const WebAclSegment: string := "webacl/"

  predicate IsLoggingConfiguration(r: Resource)
  {
    r.LoggingConfiguration?
  }

  /** Whether a logging configuration's `resourceArn` refers to the web ACL;
      false, never a failure, when neither strategy matches. A resource of
      another kind is never a logging configuration. */
  predicate IsMatchingLoggingConfiguration(config: Resource, webAclLogicalId: string, webAclName: Value)
    ensures IsMatchingLoggingConfiguration(config, webAclLogicalId, webAclName) <==>
      config.LoggingConfiguration? &&
      (AnchoredOccurs(config.resourceArn, webAclLogicalId, NotWord) ||
       (RuntimeName(webAclName).Some? &&
        AnchoredOccurs(config.resourceArn, WebAclSegment + RuntimeName(webAclName).value, NotNameChar)))
  {
    match config
    case LoggingConfiguration(_, resourceArn) =>
      ReferencesIdentity(resourceArn, webAclLogicalId, WebAclSegment, webAclName)
    case _ => false
  }

  /** The rule's verdict as a specification: anything that is not a web ACL
      passes, and a web ACL passes exactly when some logging configuration of
      its stack matches it. */
  predicate LoggingEnabled(node: Resource, stack: Stack)
  {
    !node.WebAcl? ||
    exists j :: 0 <= j < |stack| && stack[j].LoggingConfiguration? &&
                IsMatchingLoggingConfiguration(stack[j], node.logicalId, node.name)
  }

  /** The rule: scan the whole stack for a matching logging configuration. */
  method WAFv2LoggingEnabled(node: Resource, stack: Stack) returns (pass: bool)
    ensures pass == LoggingEnabled(node, stack)
  {
    if node.WebAcl? {
      var webAclLogicalId := node.logicalId;
      var webAclName := node.name;
      var found := FindCompanion(stack, IsLoggingConfiguration,
                                 c => IsMatchingLoggingConfiguration(c, webAclLogicalId, webAclName));
      if !found {
        return false;
      }
    }
    return true;
  }

  /** A web ACL passes exactly when some logging configuration's ARN text has
      its logical ID not followed by a word character, or, when its name is
      known, `webacl/<name>` not followed by a name character. */
  lemma WebAclPassesIffSomeArnMatches(node: Resource, stack: Stack)
    requires node.WebAcl?
    ensures LoggingEnabled(node, stack) <==>
      exists j :: 0 <= j < |stack| && stack[j].LoggingConfiguration? &&
        (AnchoredOccurs(stack[j].resourceArn, node.logicalId, NotWord) ||
         (RuntimeName(node.name).Some? &&
          AnchoredOccurs(stack[j].resourceArn, WebAclSegment + RuntimeName(node.name).value, NotNameChar)))
  {
  }

  /** With no logging configuration in the stack a web ACL fails. */
  lemma NoLoggingConfigurationFails(node: Resource, stack: Stack)
    requires node.WebAcl?
    requires forall j :: 0 <= j < |stack| ==> !stack[j].LoggingConfiguration?
    ensures !LoggingEnabled(node, stack)
  {
  }

  /** A node that is not a logging configuration never changes the verdict. */
  lemma OtherNodesIrrelevant(node: Resource, front: Stack, x: Resource, back: Stack)
    requires !x.LoggingConfiguration?
    ensures LoggingEnabled(node, front + [x] + back) == LoggingEnabled(node, front + back)
  {
    if node.WebAcl? {
      NonCandidateIrrelevant(front, x, back, IsLoggingConfiguration,
                             c => IsMatchingLoggingConfiguration(c, node.logicalId, node.name));
    }
  }

  /** A logging configuration whose ARN is a `Fn::GetAtt` of the web ACL, or
      any JSON text holding its logical ID as a string, enables logging. */
  lemma QuotedLogicalIdLogs(node: Resource, before: string, after: string, stack: Stack, j: nat)
    requires node.WebAcl?
    requires j < |stack| && stack[j] == LoggingConfiguration(stack[j].logicalId, before + "\"" + node.logicalId + "\"" + after)
    ensures LoggingEnabled(node, stack)
  {
    var text := before + "\"" + node.logicalId + "\"" + after;
    assert text == (before + "\"") + node.logicalId + ("\"" + after);
    FollowedByAllowed(before + "\"", node.logicalId, "\"" + after, NotWord);
    assert IsMatchingLoggingConfiguration(stack[j], node.logicalId, node.name);
  }
}
