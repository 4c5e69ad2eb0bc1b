/**
 Shared result types.

 An Objective-C exception raised by the storage layer unwinds through the Swift
 wrappers without being caught, so every operation that can raise returns an
 `Outcome`; `:-` propagates `Raised` exactly as the exception would.
 */
module Outcomes {

  datatype Option<+T> = None | Some(value: T)

  datatype Outcome = Returned | Raised {
    predicate IsFailure() {
      Raised?
    }

    function PropagateFailure(): Outcome
      requires Raised?
    {
      Raised
    }
  }
}
