/**
 * The success-or-failure value of include/result.h, and the Option type the
 * rest of the model uses for "no value" (a null pointer, an empty
 * std::optional, a getter that returned false).
 */
module Results {

  datatype Option<+T> = None | Some(value: T)

  /**
   * Result<Value, Error>: a std::variant holding either the value of a
   * successful operation or the error of a failed one.
   */
  datatype Result<+V, +E> = FromValue(value: V) | FromError(error: E) {

    /** DidSucceed: the variant holds a value; never at the same time as DidFail. */
    predicate DidSucceed()
      ensures DidSucceed() <==> !DidFail()
    {
      FromValue?
    }

    /** DidFail: the variant holds an error. */
    predicate DidFail()
      ensures DidFail() <==> !FromValue?
    {
      FromError?
    }

    /** GetValue may only be called on a result that succeeded; it gives back the stored value. */
    function GetValue(): (v: V)
      requires DidSucceed()
      ensures this == FromValue(v)
    {
      value
    }

    /** GetError may only be called on a result that failed; it gives back the stored error. */
    function GetError(): (e: E)
      requires DidFail()
      ensures this == FromError(e)
    {
      error
    }
  }

  /** A result built from a value succeeds and yields that value back. */
  lemma ValueConstructorSucceeds<V, E>(v: V)
    ensures var r: Result<V, E> := FromValue(v); r.DidSucceed() && !r.DidFail() && r.GetValue() == v
  {
  }

  /** A result built from an error fails and yields that error back. */
  lemma ErrorConstructorFails<V, E>(e: E)
    ensures var r: Result<V, E> := FromError(e); r.DidFail() && !r.DidSucceed() && r.GetError() == e
  {
  }
}
