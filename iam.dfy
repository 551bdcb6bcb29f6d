/** IAMPolicyNoStatementsWithAdminAccess: IAM policies, managed policies,
    groups and roles fail when a policy document they carry holds a
    statement that allows every action on every resource. */
module IAM {
  import opened Values
  import opened Resources

  /** A resource the admin pattern accepts: `*`, `arn*`, or `arn:` followed
      by anything and ending in `*`. */
  predicate IsAdminResource(r: string)
    ensures IsAdminResource(r) ==> |r| > 0 && r[|r| - 1] == '*'
    ensures IsAdminResource(r) ==> r == "*" || (|r| >= 4 && r[..3] == "arn")
  {
    r == "*" || r == "arn*" || (|r| >= 5 && r[..4] == "arn:" && r[|r| - 1] == '*')
  }

  /** A statement granting admin access: the action `*` among its actions,
      the effect `Allow`, and an admin resource among its resources. */
  predicate IsAdminStatement(s: Statement)
    ensures IsAdminStatement(s) ==> s.effect == "Allow" && "*" in s.action
    ensures IsAdminStatement(s) ==> exists r :: r in s.resource && |r| > 0 && r[|r| - 1] == '*'
    ensures (forall r :: r in s.resource ==> |r| == 0 || r[|r| - 1] != '*') ==> !IsAdminStatement(s)
  {
    "*" in s.action && s.effect == "Allow" && exists r :: r in s.resource && IsAdminResource(r)
  }

  /** The search of a serialised policy value for the admin pattern, over
      the statements it holds. */
  function CheckDocument(statements: seq<Statement>): (found: bool)
    ensures found <==> exists k :: 0 <= k < |statements| && IsAdminStatement(statements[k])
  {
    if statements == [] then false
    else if IsAdminStatement(statements[0]) then true
    else
      var rest := CheckDocument(statements[1..]);
      assert forall k :: 1 <= k < |statements| ==> statements[k] == statements[1..][k - 1];
      rest
  }

  /** The statements of a list of inline policies, in order: what the
      serialised `policies` property of a group or role holds. */
  function Statements(docs: seq<PolicyDocument>): (r: seq<Statement>)
    ensures forall s :: s in r <==> exists d :: d in docs && s in d.statements
  {
    if docs == [] then []
    else
      var rest := Statements(docs[1..]);
      assert forall d :: d in docs <==> d == docs[0] || d in docs[1..];
      docs[0].statements + rest
  }

  /** The serialised policies hold the admin pattern exactly when one of the
      documents holds an admin statement. */
  lemma PoliciesAdminAccess(docs: seq<PolicyDocument>)
    ensures CheckDocument(Statements(docs)) <==>
      exists d, s :: d in docs && s in d.statements && IsAdminStatement(s)
  {
    var all := Statements(docs);
    if exists d, s :: d in docs && s in d.statements && IsAdminStatement(s) {
      var d, s :| d in docs && s in d.statements && IsAdminStatement(s);
      assert s in all;
      var k :| 0 <= k < |all| && all[k] == s;
    }
  }

  /** The rule: policies and managed policies are checked through their
      document, groups and roles through their inline policies when there are
      any, and every other resource passes. */
  function IAMPolicyNoStatementsWithAdminAccess(node: Resource): (pass: bool)
    ensures node.Policy? || node.ManagedPolicy? ==>
      (pass <==> forall s :: s in node.policyDocument.statements ==> !IsAdminStatement(s))
    ensures node.Group? || node.Role? ==>
      (pass <==> node.policies.None? ||
                 forall d, s :: d in node.policies.value && s in d.statements ==> !IsAdminStatement(s))
    ensures !(node.Policy? || node.ManagedPolicy? || node.Group? || node.Role?) ==> pass
  {
    match node
    case Policy(_, doc) => !CheckDocument(doc.statements)
    case ManagedPolicy(_, doc) => !CheckDocument(doc.statements)
    case Group(_, policies) =>
      if policies.None? then true
      else PoliciesAdminAccess(policies.value); !CheckDocument(Statements(policies.value))
    case Role(_, policies) =>
      if policies.None? then true
      else PoliciesAdminAccess(policies.value); !CheckDocument(Statements(policies.value))
    case _ => true
  }

  /** A statement with effect `Deny` never counts as admin access, whatever
      its actions and resources. */
  lemma DenyIsNeverAdmin(action: seq<string>, resource: seq<string>)
    ensures !IsAdminStatement(Statement(action, "Deny", resource))
  {
  }

  /** A service-wide wildcard such as `s3:*` is not the admin action: a
      statement must list `*` itself. */
  lemma ServiceWildcardIsNotAdmin(service: string, resource: seq<string>)
    requires |service| > 0
    ensures !IsAdminStatement(Statement([service + ":*"], "Allow", resource))
  {
    assert |service + ":*"| > 1;
  }

  /** An ARN with a wildcard at its end, such as every object of one bucket,
      counts as an admin resource. */
  lemma TrailingWildcardArnIsAdmin(arnBody: string)
    ensures IsAdminResource("arn:" + arnBody + "*")
  {
    var r := "arn:" + arnBody + "*";
    assert r[..4] == "arn:";
  }

  /** One admin statement anywhere in a role's inline policies fails the
      role. */
  lemma AdminStatementFailsRole(node: Resource, d: PolicyDocument, s: Statement)
    requires node.Role? && node.policies.Some? && d in node.policies.value
    requires s in d.statements && IsAdminStatement(s)
    ensures !IAMPolicyNoStatementsWithAdminAccess(node)
  {
  }
}
