/** RedshiftClusterVersionUpgrade: Redshift clusters allow version
    upgrades. */
module Redshift {
  import opened Values
  import opened Resources

  function RedshiftClusterVersionUpgrade(node: Resource): (pass: bool)
    ensures !node.RedshiftCluster? ==> pass
    ensures node.RedshiftCluster? ==> (pass <==> node.allowVersionUpgrade != Bool(false))
  {
    match node
    case RedshiftCluster(_, allowVersionUpgrade) => !StrictlyEquals(allowVersionUpgrade, false)
    case _ => true
  }

  /** Only an explicit `false` fails: undefined, a token and `true` pass. */
  lemma OnlyExplicitFalseFails(logicalId: string)
    ensures RedshiftClusterVersionUpgrade(RedshiftCluster(logicalId, Undefined))
    ensures RedshiftClusterVersionUpgrade(RedshiftCluster(logicalId, Unresolved))
    ensures RedshiftClusterVersionUpgrade(RedshiftCluster(logicalId, Bool(true)))
    ensures !RedshiftClusterVersionUpgrade(RedshiftCluster(logicalId, Bool(false)))
  {
  }
}
