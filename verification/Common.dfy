/**
 What several models share.
 */
module Common {

  datatype Option<T> = None | Some(value: T)

  /** `s` without the element at `k`. */
  function Without<T>(s: seq<T>, k: nat): (t: seq<T>)
    requires k < |s|
  {
    s[..k] + s[k + 1..]
  }

  function Reversed<T>(s: seq<T>): (r: seq<T>)
    ensures |r| == |s|
  {
    if s == [] then [] else Reversed(s[1..]) + [s[0]]
  }

  /** Asks a folded definition, one of the form `forall yes | Asked(yes) :: ...`, for what
      it says; proofs that do not ask are not burdened with it. */
  ghost predicate Asked(yes: bool)
  {
    yes
  }
}
