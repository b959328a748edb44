/** Failure-carrying values shared by every module of the model.

    Java reports failures by throwing; the model returns them. `Exception`
    names the kinds of unchecked exception the modelled code can throw. */
module Results {

  datatype Option<+T> = None | Some(value: T)

  /** The Java exceptions the modelled code raises, with their messages. */
  datatype Exception =
    | IllegalArgument(message: string)
    | IllegalState(message: string)
    | IndexOutOfBounds(index: int)
    | Arithmetic(message: string)
    | NullPointer

  /** Either the value a Java method returns or the exception it throws. */
  datatype Result<+T> = Ok(value: T) | Throws(exception: Exception) {
    predicate IsFailure() { Throws? }

    function PropagateFailure<U>(): Result<U>
      requires Throws?
    {
      Throws(exception)
    }

    function Extract(): T
      requires Ok?
    {
      value
    }
  }

  /** The result of a Java `void` method or of a precondition check. */
  datatype Outcome = Pass | Fail(exception: Exception)

  /** The decimal digits of `n`, most significant first, as `%s` formats a
      non-negative `int` into an exception message. */
  function NatDecimal(n: nat): (s: string)
    ensures |s| > 0 && forall k :: 0 <= k < |s| ==> '0' <= s[k] <= '9'
    ensures n < 10 <==> |s| == 1
    decreases n
  {
    if n < 10 then ["0123456789"[n]] else NatDecimal(n / 10) + ["0123456789"[n % 10]]
  }

  /** `%s` of any `int`: a minus sign before the digits of a negative value. */
  function IntDecimal(n: int): (s: string)
    ensures |s| > 0 && (s[0] == '-' <==> n < 0)
  {
    if n < 0 then "-" + NatDecimal(-n) else NatDecimal(n)
  }
}
