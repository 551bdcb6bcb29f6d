# cdk-nag rule predicates in Dafny

cdk-nag checks AWS CDK applications against rule packs. Each rule looks at
one CloudFormation resource of a synthesised stack and gives a verdict. Some
rules return pass/fail. Others return `COMPLIANT`, `NON_COMPLIANT` or
`NOT_APPLICABLE`. This project models ten rules and proves what each one
decides:

- **Two cross-resource correlation rules.**
  - `DynamoDBInBackupPlan`: a DynamoDB table must be listed by some AWS
    Backup selection in its stack.
  - `nist80053r4WAFv2LoggingEnabled`: a WAFv2 web ACL must be the target of
    some logging configuration in its stack.
  - Both scan the stack for a companion resource. Both test its serialised
    reference text with two right-anchored "contains" matches: one on the
    subject's logical ID, one on `table/<name>` or `webacl/<name>`.
- **Eight single-resource validators.**
  - `IAMPolicyNoStatementsWithAdminAccess`: the admin statement pattern.
  - `ELBACMCertificateRequired`: the ACM certificate ARN shape.
  - `SQSRedrivePolicy` and `SNSRedrivePolicy`: a dead-letter setting is present.
  - `NeptuneClusterBackupRetentionPeriod`: at least 7 days of retention.
  - `EC2InstanceTerminationProtection`: strictly `true`.
  - `RedshiftClusterVersionUpgrade`: anything but strictly `false`.
  - `LambdaEventSourceMappingDestination`: an on-failure destination.

Modules:

- `Values`: resolved property values (`undefined`, `null`, an unresolved
  token, a boolean, a number, a string, an object), and the JavaScript
  operators the rules use. These are loose and strict equality with
  `undefined`, strict equality with a boolean, truthiness, `<` against a
  number, and template-string text.
- `Resources`: one constructor per CDK class a rule inspects. Each carries
  its logical ID and the properties its rule reads, already resolved. A stack
  is the sequence of its nodes.
- `Patterns`: the right-anchored match. It is specified by `AnchoredOccurs`
  and executed by the scan `Search`, which is what a regular-expression
  `test` does.
- `Matcher`: the two-strategy reference test, shared by both correlation
  rules.
- `Scanner`: the stack scan. It is a loop with a `found` flag and a `break`,
  proved against `HasCompanion`.
- `DynamoDB`, `WAF`, `IAM`, `ELB`, `SQS`, `Neptune`, `EC2`, `Lambda`,
  `Redshift`, `SNS`: the rules.
- `RegexAsWritten`: the name strategy's regular expression as the source
  builds it, with the name written in unescaped. See "Findings".

## Model

| member | source | states |
|---|---|---|
| Patterns.Search | src/rules/dynamodb/DynamoDBInBackupPlan.ts:58-62 | the scan returns the first position at or after `from` where the needle occurs and is not followed by a forbidden character, and None when there is none |
| Patterns.SearchDecides | src/rules/dynamodb/DynamoDBInBackupPlan.ts:58-62 | a regular-expression test of the needle with its negative lookahead succeeds exactly when the needle occurs somewhere with an allowed follower or at the end |
| Patterns.NameAnchorImpliesWordAnchor | src/rules/dynamodb/DynamoDBInBackupPlan.ts:58-60 | a match under the name lookahead `(?![\w\-_\.])` is also a match under the word lookahead `(?![\w])` |
| Patterns.LeftUnanchored | src/rules/dynamodb/DynamoDBInBackupPlan.ts:58 | only the right side is anchored: text put in front of a matching text keeps the match |
| Patterns.SuffixOfNeedleMatches | src/rules/dynamodb/DynamoDBInBackupPlan.ts:58 | a match of `extra + needle` is a match of `needle`, so a logical ID that ends another one's text is found in it |
| Patterns.FollowedByAllowed | src/rules/dynamodb/DynamoDBInBackupPlan.ts:58-62 | the needle followed by the end of the text or by a non-forbidden character matches |
| Patterns.ForbiddenFollowerRejected | src/rules/dynamodb/DynamoDBInBackupPlan.ts:60 | a needle that occurs once, followed by a forbidden character, does not match (prefix collisions such as `table/myqueue2` for `myqueue` are rejected) |
| Values.PrimitiveText | src/rules/dynamodb/DynamoDBInBackupPlan.ts:60 | the text the literal name strategy looks for: some text exactly for strings, booleans and numbers, a string being its own text; none for undefined, null, tokens and objects (the template literal itself would give `undefined`, `null` and `[object Object]`, which RegexAsWritten models) |
| Values.LooselyUndefined | src/rules/neptune/NeptuneClusterBackupRetentionPeriod.ts:21 | `v == undefined` holds exactly for a strictly undefined value or `null`, and such a value is falsy and strictly equal to no boolean |
| Values.StrictlyUndefined | src/rules/sns/SNSRedrivePolicy.ts:14 | `v === undefined` does not hold for `null`, and an undefined value is falsy |
| Values.StrictlyEquals | src/rules/ec2/EC2InstanceTerminationProtection.ts:21 | `v === true` (and `=== false` in the Redshift rule) holds only for that boolean itself, without conversion |
| Values.Truthy | src/rules/lambda/LambdaEventSourceMappingDestination.ts:16-17 | undefined and null are falsy, tokens and objects truthy, a number exactly when non-zero and a string exactly when non-empty (also the `?.maxReceiveCount` test of src/rules/sqs/SQSRedrivePolicy.ts:20) |
| Values.LessThan | src/rules/neptune/NeptuneClusterBackupRetentionPeriod.ts:21 | `v < k` compares numbers as numbers and `null` as 0; undefined and objects are never less; strings are taken to compare as NaN and tokens as less than every bound (the model's choices, see "Left out") |
| Matcher.RuntimeName | src/rules/dynamodb/DynamoDBInBackupPlan.ts:59-60 | the name strategy runs only for a defined name, with a string name as its own text; a name that resolved to a token or an object skips it (the corrected behaviour of the second finding) |
| Matcher.ReferencesIdentity | src/rules/dynamodb/DynamoDBInBackupPlan.ts:57-63 | the two scans combined with "or" hold exactly when the logical ID occurs not followed by a word character, or when the name is known and `segment + name` occurs not followed by a word character, `-` or `.` |
| Matcher.AbsentNameFallsBackToLogicalId | src/rules/dynamodb/DynamoDBInBackupPlan.ts:57-62 | with an undefined name only the logical-ID strategy decides |
| Matcher.NameFollowedBySeparatorMatches | src/rules/dynamodb/DynamoDBInBackupPlan.ts:59-62 | `segment + name` followed by a character that cannot continue a name, or by the end, refers to the resource |
| Scanner.FindCompanion | src/rules/dynamodb/DynamoDBInBackupPlan.ts:21-29 | the loop with its `break` sets `found` exactly when some node of the stack is a candidate that matches |
| Scanner.HasCompanionByMembership | src/rules/dynamodb/DynamoDBInBackupPlan.ts:22-29 | the outcome of the scan depends only on which nodes the stack holds, not on their order |
| Scanner.NoCandidateNoCompanion | src/rules/dynamodb/DynamoDBInBackupPlan.ts:22-23 | with no node of the companion kind the scan finds nothing |
| Scanner.NonCandidateIrrelevant | src/rules/dynamodb/DynamoDBInBackupPlan.ts:22-23 | inserting a node that is not of the companion kind anywhere never changes the outcome |
| DynamoDB.FirstMatchingEntry | src/rules/dynamodb/DynamoDBInBackupPlan.ts:55-66 | the loop with its early return is true exactly when some entry of the selection refers to the table |
| DynamoDB.IsMatchingSelection | src/rules/dynamodb/DynamoDBInBackupPlan.ts:47-69 | a node matches exactly when it is a backup selection whose resolved `resources` is an array with some entry holding the logical ID not followed by a word character, or, with a known name, `table/<name>` not followed by a name character; a non-array `resources` never matches |
| DynamoDB.DynamoDBInBackupPlan | src/rules/dynamodb/DynamoDBInBackupPlan.ts:17-34 | the rule passes every non-table node, and passes a table exactly when some backup selection of the stack with an array of resources matches it |
| DynamoDB.TablePassesIffSomeEntryMatches | src/rules/dynamodb/DynamoDBInBackupPlan.ts:47-68 | a table passes exactly when some entry of some selection holds its logical ID, or `table/<name>`, at a right-anchored position |
| DynamoDB.NoSelectionFails | src/rules/dynamodb/DynamoDBInBackupPlan.ts:21-32 | with no backup selection in the stack a table fails |
| DynamoDB.OtherNodesIrrelevant | src/rules/dynamodb/DynamoDBInBackupPlan.ts:22-23 | a node that is not a backup selection never changes the verdict |
| DynamoDB.QuotedLogicalIdListed | src/rules/dynamodb/DynamoDBInBackupPlan.ts:56-58 | an entry whose JSON text holds the table's logical ID as a string (a `Ref`, a `Fn::GetAtt`) puts the table in the plan |
| DynamoDB.TableArnListed | src/rules/dynamodb/DynamoDBInBackupPlan.ts:59-62 | an entry holding a string ending in `table/<name>` puts a table with that name in the plan |
| WAF.IsMatchingLoggingConfiguration | src/NIST-800-53-R4/rules/waf/nist80053r4WAFv2LoggingEnabled.ts:42-56 | a node matches exactly when it is a logging configuration whose serialised `resourceArn` holds the logical ID not followed by a word character, or, with a known name, `webacl/<name>` not followed by a name character; otherwise false |
| WAF.WAFv2LoggingEnabled | src/NIST-800-53-R4/rules/waf/nist80053r4WAFv2LoggingEnabled.ts:13-33 | the rule passes every non-web-ACL node, and passes a web ACL exactly when some logging configuration of the stack matches it |
| WAF.WebAclPassesIffSomeArnMatches | src/NIST-800-53-R4/rules/waf/nist80053r4WAFv2LoggingEnabled.ts:42-56 | a web ACL passes exactly when some configuration's serialised `resourceArn` holds its logical ID, or `webacl/<name>`, at a right-anchored position; otherwise the helper answers false |
| WAF.NoLoggingConfigurationFails | src/NIST-800-53-R4/rules/waf/nist80053r4WAFv2LoggingEnabled.ts:17-30 | with no logging configuration in the stack a web ACL fails |
| WAF.OtherNodesIrrelevant | src/NIST-800-53-R4/rules/waf/nist80053r4WAFv2LoggingEnabled.ts:18-19 | a node that is not a logging configuration never changes the verdict |
| WAF.QuotedLogicalIdLogs | src/NIST-800-53-R4/rules/waf/nist80053r4WAFv2LoggingEnabled.ts:47-49 | a `resourceArn` whose JSON holds the web ACL's logical ID as a string enables logging |
| IAM.IsAdminResource | src/rules/iam/IAMPolicyNoStatementsWithAdminAccess.ts:45 | an admin resource ends in `*` and is either `*` or begins with `arn` |
| IAM.IsAdminStatement | src/rules/iam/IAMPolicyNoStatementsWithAdminAccess.ts:44-45 | an admin statement has effect `Allow`, the action `*`, and some resource ending in `*`; a statement none of whose resources ends in `*` is never admin |
| IAM.CheckDocument | src/rules/iam/IAMPolicyNoStatementsWithAdminAccess.ts:42-50 | the search is true exactly when some statement allows the action `*` on an admin resource |
| IAM.Statements | src/rules/iam/IAMPolicyNoStatementsWithAdminAccess.ts:26 | the serialised inline policies hold exactly the statements of the documents |
| IAM.PoliciesAdminAccess | src/rules/iam/IAMPolicyNoStatementsWithAdminAccess.ts:25-28 | the search over inline policies finds the pattern exactly when some document holds an admin statement |
| IAM.IAMPolicyNoStatementsWithAdminAccess | src/rules/iam/IAMPolicyNoStatementsWithAdminAccess.ts:20-31 | policies and managed policies fail exactly when their document holds an admin statement; groups and roles pass without inline policies and otherwise fail exactly when some document does; every other node passes |
| IAM.DenyIsNeverAdmin | src/rules/iam/IAMPolicyNoStatementsWithAdminAccess.ts:45 | a `Deny` statement is never admin access |
| IAM.ServiceWildcardIsNotAdmin | src/rules/iam/IAMPolicyNoStatementsWithAdminAccess.ts:45 | a service-wide action such as `s3:*` alone is not the admin action |
| IAM.TrailingWildcardArnIsAdmin | src/rules/iam/IAMPolicyNoStatementsWithAdminAccess.ts:45 | every `arn:`-prefixed resource ending in `*` counts as an admin resource |
| IAM.AdminStatementFailsRole | src/rules/iam/IAMPolicyNoStatementsWithAdminAccess.ts:25-28 | one admin statement in any inline policy fails a role |
| ELB.MatchesAcmRegex | src/rules/elb/ELBACMCertificateRequired.ts:31 | a string the ACM pattern accepts has at least 11 characters and begins with `arn:` |
| ELB.ListenerUsesAcm | src/rules/elb/ELBACMCertificateRequired.ts:22-35 | a listener passes exactly when its certificate id is a string the ACM pattern accepts; an undefined or null id fails |
| ELB.ParseAcmArn | src/rules/elb/ELBACMCertificateRequired.ts:31 | a parsed certificate id has a non-empty, colon-free partition and a non-empty rest without line terminators, and renders back to the id |
| ELB.ParseRender | src/rules/elb/ELBACMCertificateRequired.ts:31 | rendering a valid ARN and parsing it gives back its parts |
| ELB.RegexAcceptsExactlyAcmArns | src/rules/elb/ELBACMCertificateRequired.ts:31 | `^arn:[^:]+:acm:.+$` accepts a string exactly when it parses as an ACM certificate ARN |
| ELB.AllListenersUseAcm | src/rules/elb/ELBACMCertificateRequired.ts:21-36 | the loop with its early return is true exactly when every listener uses an ACM certificate |
| ELB.ListenersUseAcmIffParse | src/rules/elb/ELBACMCertificateRequired.ts:21-36 | the listener loop passes exactly when every certificate id is a string that parses as an ACM certificate ARN |
| ELB.ELBACMCertificateRequired | src/rules/elb/ELBACMCertificateRequired.ts:15-39 | non-load-balancers pass, undefined listeners pass, and otherwise the rule passes exactly when every listener's certificate id is a string that parses as an ACM certificate ARN |
| ELB.NoListenersPass | src/rules/elb/ELBACMCertificateRequired.ts:19-21 | an empty listener list passes |
| ELB.UnresolvedCertificateFails | src/rules/elb/ELBACMCertificateRequired.ts:23-29 | one listener whose certificate id is not a string fails the load balancer |
| SQS.SQSRedrivePolicy | src/rules/sqs/SQSRedrivePolicy.ts:10-25 | a low-level queue is compliant exactly when its redrive policy is not strictly undefined; a high-level queue exactly when its dead-letter settings have a truthy receive count; only queues are ever applicable |
| SQS.MissingOrZeroCountNonCompliant | src/rules/sqs/SQSRedrivePolicy.ts:18-21 | missing dead-letter settings and a receive count of 0 are non-compliant, a count of 3 is compliant |
| SQS.NullRedrivePolicyCompliant | src/rules/sqs/SQSRedrivePolicy.ts:12-13 | the test is strict, so a `null` redrive policy counts as present |
| Neptune.NeptuneClusterBackupRetentionPeriod | src/rules/neptune/NeptuneClusterBackupRetentionPeriod.ts:15-25 | non-clusters pass; a numeric period passes exactly when it is at least 7; an undefined, null or unresolved period fails |
| Neptune.RetentionBoundary | src/rules/neptune/NeptuneClusterBackupRetentionPeriod.ts:21 | 6 days fail and 7 days pass |
| Neptune.VerdictDependsOnlyOnRetention | src/rules/neptune/NeptuneClusterBackupRetentionPeriod.ts:16-24 | two clusters with the same retention period get the same verdict |
| EC2.EC2InstanceTerminationProtection | src/rules/ec2/EC2InstanceTerminationProtection.ts:15-25 | non-instances pass; an instance passes exactly when `disableApiTermination` is the boolean `true` |
| EC2.OnlyExplicitTruePasses | src/rules/ec2/EC2InstanceTerminationProtection.ts:17-23 | undefined, a token, `false` and the string `"true"` fail; `true` passes |
| Lambda.FailureDestination | src/rules/lambda/LambdaEventSourceMappingDestination.ts:17 | the optional chain is undefined when the configuration is missing or has no `onFailure`, and otherwise is `onFailure.destination` |
| Lambda.LambdaEventSourceMappingDestination | src/rules/lambda/LambdaEventSourceMappingDestination.ts:13-23 | other nodes are not applicable; a mapping is compliant exactly when it has a configuration with an `onFailure` whose destination is truthy, and otherwise non-compliant |
| Lambda.MissingDestinationNonCompliant | src/rules/lambda/LambdaEventSourceMappingDestination.ts:14-21 | a missing configuration, a missing `onFailure`, an empty and an undefined destination are non-compliant |
| Redshift.RedshiftClusterVersionUpgrade | src/rules/redshift/RedshiftClusterVersionUpgrade.ts:15-25 | non-clusters pass; a cluster fails exactly when `allowVersionUpgrade` is the boolean `false` |
| Redshift.OnlyExplicitFalseFails | src/rules/redshift/RedshiftClusterVersionUpgrade.ts:17-25 | undefined, a token and `true` pass; `false` fails |
| SNS.SNSRedrivePolicy | src/rules/sns/SNSRedrivePolicy.ts:12-18 | other nodes are not applicable; a subscription is compliant exactly when its raw redrive policy is not strictly undefined, and never not applicable |
| SNS.DefinedPolicyCounts | src/rules/sns/SNSRedrivePolicy.ts:14-16 | an absent policy is non-compliant; an unresolved token and an object are compliant |
| RegexAsWritten.NamePatternAsWritten | src/rules/dynamodb/DynamoDBInBackupPlan.ts:59-60 | the as-written name pattern exists exactly when the name is not loosely undefined |
| RegexAsWritten.ReferencesIdentityAsWritten | src/rules/dynamodb/DynamoDBInBackupPlan.ts:57-62 | the matcher as written accepts every text where the logical ID matches, and with an undefined or null name accepts exactly those |
| RegexAsWritten.LiteralAt | src/rules/dynamodb/DynamoDBInBackupPlan.ts:58 | at one position, a pattern of literal characters matches exactly where the string occurs |
| RegexAsWritten.LiteralAgrees | src/rules/dynamodb/DynamoDBInBackupPlan.ts:58 | a pattern of literal characters matches exactly where the right-anchored literal match does |
| RegexAsWritten.NoDotPatternIsLiteral | src/rules/dynamodb/DynamoDBInBackupPlan.ts:60 | for boolean and number names, and string names without `.`, the pattern as written is the literal `segment + name` |
| RegexAsWritten.AgreesWithoutDots | src/rules/dynamodb/DynamoDBInBackupPlan.ts:57-62 | for such names the matcher as written and the literal matcher give the same answer on every text |
| RegexAsWritten.DotInNameIsWildcard | src/rules/dynamodb/DynamoDBInBackupPlan.ts:60 | a table named `a.b` is matched by the entry `"table/aXb"` as written, and not by the literal matcher |
| RegexAsWritten.ObjectNameIsCharacterClass | src/rules/dynamodb/DynamoDBInBackupPlan.ts:60 | a table whose name resolved to a token is matched by the entry `"table/t"` as written, and not by the literal matcher |

## Left out

- The CDK framework is not part of this model. This covers the construct
  tree, `Stack.of(..).resolve`, `node.findAll()`, `resolveIfPrimitive` and
  `resolveResourceFromInstrinsic`. Their outputs are fields of a `Resource`,
  and a stack is the sequence of its nodes.
- `JSON.stringify` is not modelled. A backup-selection entry and a
  logging configuration's `resourceArn` are carried as their serialised
  text.
- The IAM search runs a regular expression over the serialised document.
  It is modelled per statement: `*` among the actions, effect `Allow`, and an
  admin resource. Not modelled:
  - the greedy `.*` groups, which can join the keys of adjacent statements;
  - the `arn(?::.*` group, which can span the elements of one statement's
    `Resource` list: `["arn:aws:s3:::b","c*"]` with the action `*` and
    effect `Allow` matches the regular expression, but `IsAdminStatement`
    rejects it, because neither element is an admin resource;
  - the dependence on the key order `Action`, `Effect`, `Resource` in the
    JSON text;
  - matches inside string values.
- IAM.IAMPolicyNoStatementsWithAdminAccess: a `null` `policies` value of a
  group or role is folded into `None`, because the `!= undefined` guard
  treats it like `undefined`. A token `policies` is carried as the list it
  resolves to. A value that does not resolve to a list of policy documents
  is not represented.
- Neptune.NeptuneClusterBackupRetentionPeriod: a string period is taken
  to compare as NaN, so it passes. This is the model's choice, not
  JavaScript's: JavaScript converts a numeric string such as `"3"`, and the
  empty string, to a number first, and those would fail. Fractional periods
  are not represented.
- Neptune.NeptuneClusterBackupRetentionPeriod: an unresolved period is
  taken to fail. What the resolution function returns for a token is not
  modelled. A resolved object (`Other`) compares as NaN and passes.
- ELB.ELBACMCertificateRequired: a certificate id that is a boolean, a
  number, an object or a token fails. Their string forms never begin with
  `arn:`. A `listeners` value that is not iterable, which would throw, is
  not represented.
- The `console.log` calls in `SQSRedrivePolicy` are output only.
- The `name` property each rule is given (`Object.defineProperty` with the
  file name) is metadata, not behaviour.
- `src/packs/serverless.ts` is not part of this model. It is rule-pack
  dispatch, including its duplicate registration of two Lambda rules.
- `src/rules/lambda/index.ts` is not part of this model. It only re-exports.
- RegexAsWritten.NamePatternAsWritten: string names are limited to name
  characters (`\w`, `-`, `.`), the characters CloudFormation allows in
  these names. Other regular-expression metacharacters in a name are not
  modelled.
- RegexAsWritten.ReferencesIdentityAsWritten: the logical-ID strategy is
  literal. Logical IDs are alphanumeric, so interpolating them without
  escaping changes nothing.
- A name that is a string holding a token mixed with literal text is
  treated as an ordinary string.

## Findings

| source | as written | input that shows it | evidently intended | confidence | as-written member | corrected member |
|---|---|---|---|---|---|---|
| src/rules/dynamodb/DynamoDBInBackupPlan.ts:60 | the table name is written into the regular expression unescaped, so a `.` in it matches any character (the same holds for the web ACL name at src/NIST-800-53-R4/rules/waf/nist80053r4WAFv2LoggingEnabled.ts:51) | a table named `a.b` and a backup selection whose only entry is `"table/aXb"`: the table is taken to be in the plan | the name is matched literally, so only `table/a.b` lists it | not executed | RegexAsWritten.DotInNameIsWildcard | Matcher.ReferencesIdentity |
| src/rules/dynamodb/DynamoDBInBackupPlan.ts:59-60 | a name that resolves to an intrinsic object passes the `!= undefined` guard and is written as `[object Object]`, which the regular expression reads as one character from `object O` (likewise src/NIST-800-53-R4/rules/waf/nist80053r4WAFv2LoggingEnabled.ts:50-51) | a table whose name is a `Ref` and a selection whose only entry is `"table/t"`: the table is taken to be in the plan | an unresolved name cannot be compared, so only the logical-ID strategy decides | not executed | RegexAsWritten.ObjectNameIsCharacterClass | Matcher.AbsentNameFallsBackToLogicalId |
