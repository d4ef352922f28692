/** Shared vocabulary: optional values, results, the error kinds the C++ code
    throws, the shell status codes, and decimal text of natural numbers. */
module Common {

  type byte = b: int | 0 <= b < 256

  datatype Option<+T> = None | Some(value: T)

  /** Shell status codes attached to errors (polysync/exception.hpp). */
  datatype Status = StatusOk | BadArgument | BadInput | NoPlugin | DescriptionError | BadEnvironment
  {
    function Code(): (c: int)
      ensures -5 <= c <= 0
      ensures (c == 0) == (this == StatusOk)
    {
      match this
      case StatusOk => 0
      case BadArgument => -1
      case BadInput => -2
      case NoPlugin => -3
      case DescriptionError => -4
      case BadEnvironment => -5
    }
  }

  /** The context a polysync::error collects as it unwinds. */
  datatype ErrorContext = ErrorContext(typeName: Option<string>, moduleName: Option<string>, field: Option<string>)

  const NoContext := ErrorContext(None, None, None)

  /** Every way an operation of the core can end without a result. */
  datatype Error =
      /** polysync::error: a message, an optional status and its context */
    | Failure(msg: string, status: Option<Status>, context: ErrorContext)
      /** std::ios_base::failure, thrown by a stream read past its end */
    | StreamFailure
      /** a standard library exception (runtime_error, out_of_range, length_error, invalid_argument, ...) */
    | StdException(what: string)
      /** a dereference the C++ leaves undefined (an empty option, a null table, an end iterator) */
    | Undefined(what: string)
      /** the recursion bound of the model ran out (no counterpart in the C++) */
    | OutOfFuel

  function Fail(msg: string): Error {
    Failure(msg, None, NoContext)
  }

  datatype Result<+T> = Ok(value: T) | Err(error: Error)
  {
    predicate IsFailure() {
      Err?
    }

    function PropagateFailure<U>(): Result<U>
      requires Err?
    {
      Err(error)
    }

    function Extract(): T
      requires Ok?
    {
      value
    }
  }

  /** Dereference of a cpptoml option: an empty one is undefined behaviour. */
  function Deref<T>(o: Option<T>, what: string): (r: Result<T>)
    ensures r.Ok? <==> o.Some?
    ensures o.Some? ==> r.value == o.value
  {
    match o
    case Some(v) => Ok(v)
    case None => Err(Undefined(what))
  }

  function Pow2(n: nat): (r: nat)
    ensures r >= 1
  {
    if n == 0 then 1 else 2 * Pow2(n - 1)
  }

  predicate IsDigit(c: char) {
    '0' <= c <= '9'
  }

  function DigitChar(d: nat): (c: char)
    requires d < 10
    ensures IsDigit(c)
  {
    ('0' as int + d) as char
  }

  function DigitValue(c: char): (d: nat)
    requires IsDigit(c)
    ensures d < 10
  {
    c as int - '0' as int
  }

  /** std::to_string of a non-negative number: its shortest decimal text. */
  function NatToString(n: nat): (s: string)
    ensures |s| > 0 && (forall i :: 0 <= i < |s| ==> IsDigit(s[i]))
    ensures |s| > 1 ==> s[0] != '0'
  {
    if n < 10 then [DigitChar(n)] else NatToString(n / 10) + [DigitChar(n % 10)]
  }

  /** The value of a string of decimal digits. */
  function DecimalValue(s: string): nat
    requires forall i :: 0 <= i < |s| ==> IsDigit(s[i])
  {
    if s == [] then 0 else DecimalValue(s[..|s| - 1]) * 10 + DigitValue(s[|s| - 1])
  }

  /** Reading back the decimal text of n gives n, so NatToString is injective. */
  lemma {:induction false} NatToStringRoundTrip(n: nat)
    ensures DecimalValue(NatToString(n)) == n
  {
    if n >= 10 {
      var s := NatToString(n);
      assert s[..|s| - 1] == NatToString(n / 10);
      NatToStringRoundTrip(n / 10);
    }
  }

  lemma NatToStringInjective(m: nat, n: nat)
    ensures NatToString(m) == NatToString(n) ==> m == n
  {
    NatToStringRoundTrip(m);
    NatToStringRoundTrip(n);
  }
}
