/** SNSRedrivePolicy: SNS subscriptions specify a redrive policy. */
module SNS {
  import opened Values
  import opened Resources

  /** The property is tested as written, without resolution. */
  function SNSRedrivePolicy(node: Resource): (c: Compliance)
    ensures !node.Subscription? ==> c == NotApplicable
    ensures node.Subscription? ==> (c == Compliant <==> !node.redrivePolicy.Undefined?)
    ensures node.Subscription? ==> c != NotApplicable
  {
    match node
    case Subscription(_, redrivePolicy) =>
      if StrictlyUndefined(redrivePolicy) then NonCompliant else Compliant
    case _ => NotApplicable
  }

  /** Any defined redrive policy counts, an unresolved token included; only an
      absent one is non-compliant. */
  lemma DefinedPolicyCounts(logicalId: string)
    ensures SNSRedrivePolicy(Subscription(logicalId, Undefined)) == NonCompliant
    ensures SNSRedrivePolicy(Subscription(logicalId, Unresolved)) == Compliant
    ensures SNSRedrivePolicy(Subscription(logicalId, Other)) == Compliant
  {
  }
}
