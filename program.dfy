/** The two helpers of the demonstration program, and the assertions its driver makes, stated
    as lemmas. */
module Program {
  import opened Runtime
  import opened Text
  import opened Container
  import opened Payments
  import A = WithExceptionable

  /** Appends " was passed." to its argument. */
  function MethodThatTakesAString(str: string): (r: string)
    ensures |r| == |str| + 12
    ensures r[..|str|] == str && r[|str|..] == " was passed."
  {
    str + " was passed."
  }

  /** A value for a positive number, otherwise a parameterless `ArgumentException`, returned
      through the implicit widening conversions. */
  function MethodThatReturnsExceptionable(positiveNumber: Int32): (r: Exceptionable<string>)
    ensures r.HasValue() <==> positiveNumber > 0
    ensures r.HasValue() ==> r.Value == IntToString(positiveNumber as int) + " is a great number."
    ensures r.HasException() ==> r.Exception == Exc(ArgumentException, DefaultMessage)
  {
    if positiveNumber > 0 then
      FromValue(IntToString(positiveNumber as int) + " is a great number.")
    else
      FromException(Exc(ArgumentException, DefaultMessage))
  }

  /** `MethodThatTakesAString(exceptionable)`: the container converts to `string` at the call,
      which throws `InvalidOperationException`, before the method runs, when it holds no value. */
  function PassToMethodThatTakesAString(m: Exceptionable<string>): (r: Completion<string>)
    ensures m.HasValue() ==> r == Normal(m.Value + " was passed.")
    ensures m.HasException() ==> r == Throw(NoValueError)
  {
    match Unwrap(m)
    case Normal(s) => Normal(MethodThatTakesAString(s))
    case Throw(ex) => Throw(ex)
  }

  /** A method returning a container can return a `T`. */
  lemma ReturnsValue()
    ensures var result := MethodThatReturnsExceptionable(42);
      result.HasValue() && EqualsValue(result, "42 is a great number.")
  {
    assert IntToString(42) == "42" by {
      assert NatToString(4) == [DigitChar(4)] == "4";
      assert NatToString(42) == NatToString(4) + [DigitChar(2)] == "42";
    }
    assert "42" + " is a great number." == "42 is a great number.";
  }

  /** A method returning a container can return an exception, which keeps its class. */
  lemma ReturnsException()
    ensures var result := MethodThatReturnsExceptionable(-1);
      result.HasException() && result.Exception.kind == ArgumentException
  {
  }

  /** A container built from 3, and one assigned 99, compare equal to those payloads. */
  lemma ComparesWithPayload()
    ensures EqualsValue(WithValue(3), 3)
    ensures var exceptionable: Exceptionable<int> := FromValue(99); EqualsValue(exceptionable, 99)
  {
  }

  /** A value-holding container can be passed where a `string` is expected. */
  lemma PassesValue()
    ensures PassToMethodThatTakesAString(WithValue("A piece of text")) == Normal("A piece of text was passed.")
  {
    assert "A piece of text" + " was passed." == "A piece of text was passed.";
  }

  /** A failure-holding container throws when passed where a `string` is expected, and what it
      throws reaches the driver's `catch (InvalidOperationException)` clause, not the generic
      one that follows: it is not the stored exception. */
  lemma PassingFailureThrowsInvalidOperation()
    ensures var stored := Exc(Exception, Says("Went wrong!!! :("));
      var c := PassToMethodThatTakesAString(WithException(stored));
      c.Throw? && FirstHandler([InvalidOperationException, Exception], c.exc.kind) == Some(0) &&
      c.exc != stored && FirstHandler([InvalidOperationException, Exception], stored.kind) == Some(1)
  {
  }

  /** The three payment scenarios the driver runs with default arguments and one flag changed. */
  lemma PaymentScenarios()
    ensures A.TakePayment(DefaultConfig, DefaultAccountId).result == Success
    ensures A.TakePayment(DefaultConfig.(accountIdExists := false), DefaultAccountId).result == NoSuchAccount
    ensures A.TakePayment(DefaultConfig.(isWebServiceDown := true), DefaultAccountId).result == WebServiceCallFailed
  {
  }
}
