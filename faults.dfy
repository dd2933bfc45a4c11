/**
  The runtime panics of the aggregation engine, made explicit. In the Go
  code each of these aborts the call; here the call returns Failure(fault)
  instead and changes nothing.
*/
module Faults {

  datatype Fault =
    | MissingDiscriminator            // the discriminator field is absent or not a string
    | MissingTagField(tag: string)    // a configured tag field is absent or not a string
    | MissingTargetField              // the target field is absent or not a string
    | MissingTimeField                // the time field is absent or not a string
    | EmptyAggregation                // an aggregation identifier is the empty string
    | BadProportion(id: string)       // "p..." whose rest is not an integer
    | PercentileOutOfRange(id: string) // the percentile index falls outside the samples
    | DivideByZero                    // an integer division by a zero count or interval
}
