/** `Exceptionable<T>`: an immutable value that holds either a payload of type `T` or the
    exception that prevented one from being computed. */
module Container {
  import opened Runtime

  /** The two C# constructors are the two arms: `Exceptionable(T value)` sets `HasValue` and
      `Value`; `Exceptionable(Exception ex)` sets only `Exception`. */
  datatype Exceptionable<T> = WithValue(Value: T) | WithException(Exception: Exc) {

    /** The `HasValue` field: set by the value constructor only. */
    predicate HasValue()
      ensures HasValue() <==> !WithException?
      ensures HasValue() ==> this == WithValue(Value)
    {
      WithValue?
    }

    /** Used by every caller of the class but not defined by it; here it is the negation of
        `HasValue`, which is what those callers rely on. */
    predicate HasException()
      ensures HasException() <==> !HasValue()
      ensures HasException() ==> this == WithException(Exception)
    {
      !HasValue()
    }
  }

  /** What the implicit conversion to `T` throws when there is no value. */
  const NoValueError: Exc := Exc(InvalidOperationException, Says("Exceptionable object must have a value"))

  /** Implicit conversion `Exceptionable<T>` to `T`, applied when a container is passed where
      a `T` is expected. It never yields a default value. */
  function Unwrap<T>(m: Exceptionable<T>): (r: Completion<T>)
    ensures r.Normal? <==> m.HasValue()
    ensures r.Normal? ==> r.value == m.Value
    ensures r.Throw? ==> r.exc == NoValueError
  {
    if !m.HasValue() then Throw(NoValueError) else Normal(m.Value)
  }

  /** Implicit conversion `T` to `Exceptionable<T>`: returning a `T` from a method whose return
      type is a container. */
  function FromValue<T>(value: T): (r: Exceptionable<T>)
    ensures r.HasValue() && r.Value == value
    ensures Unwrap(r) == Normal(value)
  {
    WithValue(value)
  }

  /** Implicit conversion `Exception` to `Exceptionable<T>`: returning an exception from such a
      method. */
  function FromException<T>(ex: Exc): (r: Exceptionable<T>)
    ensures r.HasException() && r.Exception == ex
    ensures Unwrap(r) == Throw(NoValueError)
  {
    WithException(ex)
  }

  /** `x == y` for a container `x` and a payload `y`: `x` is the container that widening `y`
      produces. */
  function EqualsValue<T(==)>(x: Exceptionable<T>, y: T): (b: bool)
    ensures b <==> x == FromValue(y)
  {
    x.HasValue() && x.Value == y
  }

  /** `x != y` for a container and a payload. */
  function NotEqualsValue<T(==)>(x: Exceptionable<T>, y: T): (b: bool)
    ensures b <==> x != FromValue(y)
  {
    !EqualsValue(x, y)
  }

  /** `x == y` for a payload `x` and a container `y`. */
  function ValueEquals<T(==)>(x: T, y: Exceptionable<T>): (b: bool)
    ensures b <==> FromValue(x) == y
  {
    EqualsValue(y, x)
  }

  /** `x != y` for a payload and a container. */
  function ValueNotEquals<T(==)>(x: T, y: Exceptionable<T>): (b: bool)
    ensures b <==> FromValue(x) != y
  {
    NotEqualsValue(y, x)
  }

  /** The argument of `Equals(object obj)`: a container of the same payload type, or any other
      object (including one of a different type). */
  datatype Object<T> = AnExceptionable(inner: Exceptionable<T>) | NotAnExceptionable

  /** `Equals(object)`: equal only to a container of the same type, and only when both hold
      values and the values are equal. Failures are deliberately never equal to anything. */
  function Equals<T(==)>(self: Exceptionable<T>, obj: Object<T>): (b: bool)
    ensures b <==> obj.AnExceptionable? && self.HasValue() && self == obj.inner
  {
    match obj
    case AnExceptionable(other) => self.HasValue() && other.HasValue() && self.Value == other.Value
    case NotAnExceptionable => false
  }

  /** `x == y` for two containers, which delegates to `Equals`. */
  function Equal<T(==)>(x: Exceptionable<T>, y: Exceptionable<T>): (b: bool)
    ensures b <==> x.HasValue() && y.HasValue() && x.Value == y.Value
  {
    Equals(x, AnExceptionable(y))
  }

  /** `x != y` for two containers. */
  function NotEqual<T(==)>(x: Exceptionable<T>, y: Exceptionable<T>): (b: bool)
    ensures b <==> x.HasException() || y.HasException() || x.Value != y.Value
  {
    !Equal(x, y)
  }

  /** The result of the private `GetValueOrException`: the held value, or else the held
      exception, as an `object`. */
  datatype Boxed<T> = BoxedValue(value: T) | BoxedException(exc: Exc)

  function GetValueOrException<T>(m: Exceptionable<T>): (r: Boxed<T>)
    ensures r.BoxedValue? <==> m.HasValue()
    ensures r.BoxedValue? ==> r.value == m.Value
    ensures r.BoxedException? ==> r.exc == m.Exception
  {
    if m.HasValue() then BoxedValue(m.Value) else BoxedException(m.Exception)
  }

  /** `GetHashCode()`; the payload's and the exception's own hash functions are parameters. */
  function GetHashCode<T>(m: Exceptionable<T>, valueHash: T -> int, excHash: Exc -> int): (h: int)
    ensures m.HasValue() ==> h == valueHash(m.Value)
    ensures m.HasException() ==> h == excHash(m.Exception)
  {
    match GetValueOrException(m)
    case BoxedValue(v) => valueHash(v)
    case BoxedException(e) => excHash(e)
  }

  /** `ToString()`; the payload's and the exception's own renderings are parameters. */
  function ToString<T>(m: Exceptionable<T>, valueText: T -> string, excText: Exc -> string): (s: string)
    ensures m.HasValue() ==> s == valueText(m.Value)
    ensures m.HasException() ==> s == excText(m.Exception)
  {
    match GetValueOrException(m)
    case BoxedValue(v) => valueText(v)
    case BoxedException(e) => excText(e)
  }

  // Properties of the container as a whole.

  /** Exactly one arm is held, and each constructor fixes which. */
  lemma ConstructorsDetermineArm<T>(v: T, ex: Exc)
    ensures WithValue(v).HasValue() && !WithValue(v).HasException() && WithValue(v).Value == v
    ensures var f: Exceptionable<T> := WithException(ex);
      !f.HasValue() && f.HasException() && f.Exception == ex
  {
  }

  /** Widening a payload and unwrapping it gives the payload back; unwrapping succeeds on
      exactly the containers that widening produces. */
  lemma UnwrapRoundTrip<T>(m: Exceptionable<T>, v: T)
    ensures Unwrap(FromValue(v)) == Normal(v)
    ensures Unwrap(m) == Normal(v) <==> m == FromValue(v)
  {
  }

  /** Unwrapping a failure throws `InvalidOperationException` whatever was stored, so the
      stored exception does not resurface; only its class may coincide. */
  lemma UnwrapFailureIgnoresStored<T>(ex1: Exc, ex2: Exc)
    ensures Unwrap(FromException<T>(ex1)) == Unwrap(FromException<T>(ex2))
    ensures Unwrap(FromException<T>(ex1)).exc.kind == InvalidOperationException
  {
  }

  /** Both argument orders of container-versus-payload comparison agree, and each `!=` is the
      negation of its `==`. */
  lemma ValueComparisonSymmetric<T>(m: Exceptionable<T>, v: T)
    ensures ValueEquals(v, m) == EqualsValue(m, v)
    ensures ValueNotEquals(v, m) == NotEqualsValue(m, v)
    ensures NotEqualsValue(m, v) == !EqualsValue(m, v)
  {
  }

  /** Comparing with a payload is comparing with the widened payload. */
  lemma ValueComparisonIsWidened<T>(m: Exceptionable<T>, v: T)
    ensures EqualsValue(m, v) == Equal(m, FromValue(v))
  {
  }

  /** Container equality is symmetric and transitive, but reflexive only on value-holding
      containers: a failure is not even equal to itself. */
  lemma EqualIsPartialEquivalence<T>(x: Exceptionable<T>, y: Exceptionable<T>, z: Exceptionable<T>)
    ensures Equal(x, y) == Equal(y, x)
    ensures Equal(x, y) && Equal(y, z) ==> Equal(x, z)
    ensures Equal(x, x) <==> x.HasValue()
  {
  }

  /** Two failures are never equal, even when they carry the same exception, while Dafny's
      structural equality would call them equal. */
  lemma FailuresNeverEqual<T>(ex1: Exc, ex2: Exc)
    ensures !Equal(FromException<T>(ex1), FromException<T>(ex2))
    ensures NotEqual(FromException<T>(ex1), FromException<T>(ex1))
    ensures FromException<T>(ex1) == FromException<T>(ex1)
  {
  }

  /** Widening is injective with respect to container equality. */
  lemma EqualWidened<T>(v: T, w: T)
    ensures Equal(FromValue(v), FromValue(w)) <==> v == w
  {
  }

  /** Containers that compare equal have equal hash codes and equal renderings. */
  lemma HashConsistentWithEqual<T>(x: Exceptionable<T>, y: Exceptionable<T>,
                                       valueHash: T -> int, excHash: Exc -> int,
                                       valueText: T -> string, excText: Exc -> string)
    requires Equal(x, y)
    ensures GetHashCode(x, valueHash, excHash) == GetHashCode(y, valueHash, excHash)
    ensures ToString(x, valueText, excText) == ToString(y, valueText, excText)
  {
  }
}
