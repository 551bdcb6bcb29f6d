/** SQSRedrivePolicy: a queue should have a dead-letter queue. Low-level
    queues are judged by their redrive policy, high-level queue constructs by
    their dead-letter settings. */
module SQS {
  import opened Values
  import opened Resources

  function SQSRedrivePolicy(node: Resource): (c: Compliance)
    ensures node.CfnQueue? ==> (c == Compliant <==> !node.redrivePolicy.Undefined?)
    ensures node.Queue? ==>
      (c == Compliant <==> exists dlq :: node.deadLetterQueue == Some(dlq) && Truthy(dlq.maxReceiveCount))
    ensures (node.CfnQueue? || node.Queue?) <==> c != NotApplicable
  {
    match node
    case CfnQueue(_, redrivePolicy) =>
      if !StrictlyUndefined(redrivePolicy) then Compliant else NonCompliant
    case Queue(_, deadLetterQueue) =>
      if deadLetterQueue.Some? && Truthy(deadLetterQueue.value.maxReceiveCount) then Compliant
      else NonCompliant
    case _ => NotApplicable
  }

  /** A high-level queue without dead-letter settings, or whose receive count
      is 0, is non-compliant. */
  lemma MissingOrZeroCountNonCompliant(logicalId: string)
    ensures SQSRedrivePolicy(Queue(logicalId, None)) == NonCompliant
    ensures SQSRedrivePolicy(Queue(logicalId, Some(DeadLetterQueue(Num(0))))) == NonCompliant
    ensures SQSRedrivePolicy(Queue(logicalId, Some(DeadLetterQueue(Num(3))))) == Compliant
  {
  }

  /** The check on a low-level queue is strict: a null redrive policy counts
      as present. */
  lemma NullRedrivePolicyCompliant(logicalId: string)
    ensures SQSRedrivePolicy(CfnQueue(logicalId, Null)) == Compliant
  {
  }
}
