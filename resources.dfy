/** The resources of one stack, as the rules see them once their properties
    have been resolved. Each constructor stands for one resource class the
    rules test for; `logicalId` is the identifier the framework renders into
    references to the resource. */
module Resources {
  import opened Values

  /** One IAM policy statement: its actions, its effect and its resources.
      A single action or resource is a one-element list; a statement without
      the key (a `NotAction` statement, say) has an empty list. */
  datatype Statement = Statement(action: seq<string>, effect: string, resource: seq<string>)

  datatype PolicyDocument = PolicyDocument(statements: seq<Statement>)

  /** A classic load balancer listener: its certificate id after
      primitive resolution. */
  datatype Listener = Listener(sslCertificateId: Value)

  /** The dead-letter settings of a high-level queue construct. */
  datatype DeadLetterQueue = DeadLetterQueue(maxReceiveCount: Value)

  datatype OnFailure = OnFailure(destination: Value)

  /** An event source mapping's resolved `destinationConfig`. */
  datatype DestinationConfig = DestinationConfig(onFailure: Option<OnFailure>)

  datatype Resource =
      /** A DynamoDB table; `tableName` is its resolved name. */
    | Table(logicalId: string, tableName: Value)
      /** A backup plan selection: the JSON text of each resolved entry of its
          `resources` list, or None when that value is not an array. */
    | BackupSelection(logicalId: string, resources: Option<seq<string>>)
      /** A WAFv2 web ACL; `name` is its resolved name. */
    | WebAcl(logicalId: string, name: Value)
      /** A WAFv2 logging configuration: the JSON text of its resolved
          `resourceArn`. */
    | LoggingConfiguration(logicalId: string, resourceArn: string)
    | Policy(logicalId: string, policyDocument: PolicyDocument)
    | ManagedPolicy(logicalId: string, policyDocument: PolicyDocument)
      /** An IAM group or role: the documents of its inline `policies`, or
          None when that property is undefined or null. */
    | Group(logicalId: string, policies: Option<seq<PolicyDocument>>)
    | Role(logicalId: string, policies: Option<seq<PolicyDocument>>)
      /** A classic load balancer: its resolved listeners, or None when the
          property is undefined or null. */
    | LoadBalancer(logicalId: string, listeners: Option<seq<Listener>>)
      /** A low-level SQS queue: its resolved `redrivePolicy`. */
    | CfnQueue(logicalId: string, redrivePolicy: Value)
      /** A high-level SQS queue construct: its resolved dead-letter settings. */
    | Queue(logicalId: string, deadLetterQueue: Option<DeadLetterQueue>)
    | NeptuneCluster(logicalId: string, backupRetentionPeriod: Value)
    | Instance(logicalId: string, disableApiTermination: Value)
    | EventSourceMapping(logicalId: string, destinationConfig: Option<DestinationConfig>)
    | RedshiftCluster(logicalId: string, allowVersionUpgrade: Value)
      /** An SNS subscription: its `redrivePolicy` as written, unresolved. */
    | Subscription(logicalId: string, redrivePolicy: Value)
      /** Any resource of a class no rule here tests for. */
    | OtherResource(logicalId: string, kind: string)

  /** Every node a stack contains, in traversal order. */
  type Stack = seq<Resource>

  /** The three-way outcome of the rules that distinguish "does not apply". */
  datatype Compliance = Compliant | NonCompliant | NotApplicable
}
