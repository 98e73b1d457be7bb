/** A device for large proofs. */
module Veils {
  /** Always true. A predicate that is mostly handed from call to call unchanged quantifies its
      body with `Veil` as the trigger, so that the verifier looks inside it only in proofs that
      mention `Veil`. */
  ghost predicate Veil(k: int) { true }
}
