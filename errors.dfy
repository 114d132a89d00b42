/** The engine's error type: one constructor per `DiceeError` variant (core/error.rs). */
module Errors {
  datatype DiceeError =
    | InvalidDieValue(value: nat, position: nat)
    | InvalidConfigIndex(index: nat)
    | InvalidKeepPattern(face: nat, requested: nat, available: nat)
    | NoRollsRemaining
    | CategoryAlreadyClaimed(category: nat)
    | NoCategoriesAvailable
    | InvalidProbability(probability: real)
}
