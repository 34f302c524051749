/** Option values and the names the components share. */
module Wrappers {
  /** A Python `None` or a value. */
  datatype Option<+T> = None | Some(value: T)

  /** The id of a note, archive or memory. */
  datatype Id = Id(text: string)

  datatype Relation = Relation(name: string)

  /** What a memory contributes to an assembled packet. */
  datatype Role = FailedAttempt | Diagnosis | DecisionPivot | SuccessfulResolution | CurrentReusableProcedure
                | Caution | Context | RawEvidence

  /** `a if a is not None else b` */
  function FirstPresent<T>(a: Option<T>, b: Option<T>): Option<T> {
    if a.None? then b else a
  }

  function Pow2(n: nat): nat {
    if n == 0 then 1 else 2 * Pow2(n - 1)
  }
}
