/** LambdaEventSourceMappingDestination: event source mappings have an
    on-failure destination. */
module Lambda {
  import opened Values
  import opened Resources

  /** `destinationConfig?.onFailure?.destination`: undefined as soon as a link
      of the chain is missing. */
  function FailureDestination(destinationConfig: Option<DestinationConfig>): (v: Value)
    ensures destinationConfig.None? ==> v.Undefined?
    ensures destinationConfig.Some? && destinationConfig.value.onFailure.None? ==> v.Undefined?
    ensures destinationConfig.Some? && destinationConfig.value.onFailure.Some? ==>
              v == destinationConfig.value.onFailure.value.destination
  {
    match destinationConfig
    case None => Undefined
    case Some(config) =>
      match config.onFailure
      case None => Undefined
      case Some(onFailure) => onFailure.destination
  }

  function LambdaEventSourceMappingDestination(node: Resource): (c: Compliance)
    ensures !node.EventSourceMapping? ==> c == NotApplicable
    ensures node.EventSourceMapping? ==>
      (c == Compliant <==>
         exists config, onFailure :: node.destinationConfig == Some(config) &&
           config.onFailure == Some(onFailure) && Truthy(onFailure.destination))
    ensures node.EventSourceMapping? ==> c != NotApplicable
  {
    match node
    case EventSourceMapping(_, destinationConfig) =>
      var onFailurePresent := destinationConfig.Some? && destinationConfig.value.onFailure.Some?;
      if onFailurePresent && Truthy(FailureDestination(destinationConfig)) then Compliant
      else NonCompliant
    case _ => NotApplicable
  }

  /** A missing configuration, a missing `onFailure` and an empty destination
      are all non-compliant. */
  lemma MissingDestinationNonCompliant(logicalId: string)
    ensures LambdaEventSourceMappingDestination(EventSourceMapping(logicalId, None)) == NonCompliant
    ensures LambdaEventSourceMappingDestination(
              EventSourceMapping(logicalId, Some(DestinationConfig(None)))) == NonCompliant
    ensures LambdaEventSourceMappingDestination(
              EventSourceMapping(logicalId, Some(DestinationConfig(Some(OnFailure(Str("")))))))
            == NonCompliant
    ensures LambdaEventSourceMappingDestination(
              EventSourceMapping(logicalId, Some(DestinationConfig(Some(OnFailure(Undefined))))))
            == NonCompliant
  {
  }
}
