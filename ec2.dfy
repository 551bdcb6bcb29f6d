/** EC2InstanceTerminationProtection: EC2 instances have termination
    protection enabled. */
module EC2 {
  import opened Values
  import opened Resources

  function EC2InstanceTerminationProtection(node: Resource): (pass: bool)
    ensures !node.Instance? ==> pass
    ensures node.Instance? ==> (pass <==> node.disableApiTermination == Bool(true))
  {
    match node
    case Instance(_, disableApiTermination) => StrictlyEquals(disableApiTermination, true)
    case _ => true
  }

  /** Only an explicit `true` passes: undefined, a token, `false` or a truthy
      non-boolean all fail. */
  lemma OnlyExplicitTruePasses(logicalId: string)
    ensures !EC2InstanceTerminationProtection(Instance(logicalId, Undefined))
    ensures !EC2InstanceTerminationProtection(Instance(logicalId, Unresolved))
    ensures !EC2InstanceTerminationProtection(Instance(logicalId, Bool(false)))
    ensures !EC2InstanceTerminationProtection(Instance(logicalId, Str("true")))
    ensures EC2InstanceTerminationProtection(Instance(logicalId, Bool(true)))
  {
  }
}
