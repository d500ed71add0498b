/** Failure-carrying datatypes shared by every module: Python's `None` becomes
    `Option.None`, and a raised exception becomes `Result.Err` tagged with the
    exception class the source raises. */
module Wrappers {

  datatype Option<+T> = None | Some(value: T) {
    function GetOr(default: T): T {
      match this
      case Some(v) => v
      case None => default
    }
  }

  /** The Python exception classes the modelled code raises or lets escape. */
  datatype Error =
    | KeyError
    | ValueError
    | RuntimeError
    | NotImplementedError
    | IndexError
    | TypeError
    | AttributeError

  datatype Result<+T> = Ok(value: T) | Err(error: Error) {
    predicate IsFailure() {
      Err?
    }

    function PropagateFailure<U>(): Result<U>
      requires Err?
    {
      Err(error)
    }

    function Extract(): T
      requires Ok?
    {
      value
    }
  }

  /** `xs[i]` with Python's indexing rules: a negative index counts from the end,
      anything outside `-|xs| .. |xs| - 1` raises IndexError. */
  function PyIndex<T>(xs: seq<T>, i: int): (r: Result<T>)
    ensures 0 <= i < |xs| ==> r == Ok(xs[i])
    ensures -|xs| <= i < 0 ==> r == Ok(xs[|xs| + i])
    ensures r.Err? <==> (i < -|xs| || |xs| <= i)
    ensures r.Err? ==> r.error == IndexError
  {
    if 0 <= i < |xs| then Ok(xs[i])
    else if -|xs| <= i < 0 then Ok(xs[|xs| + i])
    else Err(IndexError)
  }

  /** The non-negative position Python's indexing resolves `i` to. */
  function PyPosition(n: nat, i: int): (p: nat)
    requires -(n as int) <= i < n
    ensures p < n
  {
    if i < 0 then n + i else i
  }
}
