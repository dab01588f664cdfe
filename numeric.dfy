/**
 * Log-space values shared by the likelihood engine and the MCMC operators.
 *
 * A log-likelihood or a log Hastings ratio in the source is a Java double that is
 * either finite or Double.NEGATIVE_INFINITY (the "reject" / "impossible" value).
 * `Ext` is that pair of cases over Dafny's exact reals; no other IEEE value
 * (NaN, +infinity, rounding) is represented.
 */
module Numeric {

  datatype Ext = NegInf | Fin(v: real)

  /** Sum in log space: negative infinity absorbs every finite value. */
  function Add(a: Ext, b: Ext): (r: Ext)
    ensures r.NegInf? <==> a.NegInf? || b.NegInf?
  {
    if a.NegInf? || b.NegInf? then NegInf else Fin(a.v + b.v)
  }

  /** A positive multiplicity times a log value (w * -inf = -inf for w > 0). */
  function Times(w: int, a: Ext): (r: Ext)
    requires w > 0
    ensures r.NegInf? <==> a.NegInf?
  {
    if a.NegInf? then NegInf else Fin(w as real * a.v)
  }

  /** x - c for a finite c. */
  function Minus(a: Ext, c: real): (r: Ext)
    ensures r.NegInf? <==> a.NegInf?
  {
    if a.NegInf? then NegInf else Fin(a.v - c)
  }

  /** Sum of the first n terms of f (f(0) + ... + f(n-1)). */
  function SumTo(n: nat, f: nat -> real): real
  {
    if n == 0 then 0.0 else SumTo(n - 1, f) + f(n - 1)
  }

  /** Two term functions that agree below n have the same sum below n. */
  lemma {:induction false} SumToExt(n: nat, f: nat -> real, g: nat -> real)
    requires forall i :: 0 <= i < n ==> f(i) == g(i)
    ensures SumTo(n, f) == SumTo(n, g)
  {
    if n > 0 {
      SumToExt(n - 1, f, g);
    }
  }

  /** A sum whose terms are all zero except the one at k is that term. */
  lemma {:induction false} SumToSingle(n: nat, f: nat -> real, k: nat)
    requires k < n
    requires forall i :: 0 <= i < n && i != k ==> f(i) == 0.0
    ensures SumTo(n, f) == f(k)
  {
    if n - 1 == k {
      SumToZero(n - 1, f);
    } else {
      SumToSingle(n - 1, f, k);
    }
  }

  lemma {:induction false} SumToZero(n: nat, f: nat -> real)
    requires forall i :: 0 <= i < n ==> f(i) == 0.0
    ensures SumTo(n, f) == 0.0
  {
    if n > 0 {
      SumToZero(n - 1, f);
    }
  }
}

/** Optional values and results for the source's null inputs and thrown errors. */
module Outcomes {

  datatype Option<T> = None | Some(value: T)

  datatype Result<T> = Ok(value: T) | Error(message: string)
}
