/** NeptuneClusterBackupRetentionPeriod: Neptune DB clusters keep backups
    for at least a week. */
module Neptune {
  import opened Values
  import opened Resources

  /** The smallest retention period, in days, that passes. */
  const MinimumRetentionDays: int := 7

  function NeptuneClusterBackupRetentionPeriod(node: Resource): (pass: bool)
    ensures !node.NeptuneCluster? ==> pass
    ensures node.NeptuneCluster? && node.backupRetentionPeriod.Num? ==>
      (pass <==> node.backupRetentionPeriod.n >= MinimumRetentionDays)
    ensures node.NeptuneCluster? ==>
      (LooselyUndefined(node.backupRetentionPeriod) || node.backupRetentionPeriod.Unresolved? ==> !pass)
  {
    match node
    case NeptuneCluster(_, backupRetentionPeriod) =>
      !(LooselyUndefined(backupRetentionPeriod) || LessThan(backupRetentionPeriod, MinimumRetentionDays))
    case _ => true
  }

  /** The boundary: six days fail, seven pass. */
  lemma RetentionBoundary(logicalId: string)
    ensures !NeptuneClusterBackupRetentionPeriod(NeptuneCluster(logicalId, Num(6)))
    ensures NeptuneClusterBackupRetentionPeriod(NeptuneCluster(logicalId, Num(7)))
  {
  }

  /** The verdict on a cluster depends on its retention period alone. */
  lemma VerdictDependsOnlyOnRetention(a: Resource, b: Resource)
    requires a.NeptuneCluster? && b.NeptuneCluster?
    requires a.backupRetentionPeriod == b.backupRetentionPeriod
    ensures NeptuneClusterBackupRetentionPeriod(a) == NeptuneClusterBackupRetentionPeriod(b)
  {
  }
}
