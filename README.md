# Exceptionable in Dafny

A model of the C# library `Exceptionable<T>` and of its worked example, the payment service
written twice.

`Exceptionable<T>` is an immutable result container. It holds either a payload of type `T` or
the exception that stopped the payload from being computed. Unwrapping it to `T` throws
`InvalidOperationException` when it holds no value. Widening a `T` or an exception into it is
total. Container-versus-payload equality holds only when the container holds that payload.
Container-versus-container equality holds only when both hold equal values, so a
failure-holding container is not even equal to itself. Hash and string rendering come from
whichever arm is held.

The payment example has two versions. One calls each step and checks the returned container
at once, returning at the first failure. The other lets the steps throw and handles the
failures in catch clauses placed after all the steps. The model proves that both versions
report the same outcome for every configuration. It also proves that only the container
version can name the resolved account in its web-failure log entry.

Modules, one per source file or shared concern:

- `Runtime` (runtime.dfy): C#'s 32-bit `int`, the four .NET exception classes involved with
  their base-class relation, and `Completion<T>`, a call that returns or throws. It also holds
  `FirstHandler`, which picks the catch clause that a thrown exception reaches.
- `Text` (text.dfy): `int.ToString()` as an optional minus sign and decimal digits, proved to
  read back as the number it renders (negative numbers included), and a substring predicate.
- `Container` (container.dfy): `Exceptionable.cs`.
- `Payments` (payments.dfy): `PaymentResultEnum`, `Account` and the log entry type from
  `ClassesUsedForExamples.cs`.
- `WithExceptionable`, `WithExceptions` (with_exceptionable.dfy, with_exceptions.dfy): the
  two payment services.
- `Comparison` (comparison.dfy): the lemmas relating the two services.
- `Program` (program.dfy): the two helpers of `Program.cs`, with the assertions of its `Main`
  stated as lemmas.

How the model maps the source:

- The two constructors become the arms `WithValue` and `WithException` of a datatype. The
  implicit conversions become `FromValue`, `FromException` and `Unwrap`.
- Throwing is explicit. A call that may throw yields a `Completion<T>`. A `try` with catch
  clauses is a match on the handler that `FirstHandler` selects.
- The service's two `readonly` flags are a `ServiceConfig` value passed to each operation,
  and the constructor's defaults are `DefaultConfig`.
- `Log` has no state: it writes each call to the console. So `TakePayment` is a function that
  returns the outcome together with the log calls it made, in order (`Run`).
- The payload's hash and rendering, and the exception's, are foreign .NET behaviour. They
  are function parameters of `GetHashCode` and `ToString`.
- Payload equality (`Value.Equals`) is Dafny's `==` on `T`.

Where the model departs from the code as written:

- `HasException` is used by `Program.cs:31` and by `PaymentServiceExample_WithExceptionable.cs:32`
  and `:44`, but `Exceptionable.cs` does not define it, so the code does not compile as
  written. The model defines `HasException()` as `!HasValue()`, which is what every caller
  relies on.
- The two services report the same outcome for every configuration
  (`Comparison.SameResult`); their logs differ only on the web-failure path
  (`Comparison.OnlyContainerNamesAccount`).
- `System.Net.WebException` derives from `InvalidOperationException` in .NET, and the model
  keeps that relation.

## Model

| member | source | states |
|---|---|---|
| `Container.Exceptionable.HasValue` | Exceptionable/Exceptionable.cs:8 | `HasValue` holds exactly for a container built by the value constructor, and such a container is the one built from its `Value`. |
| `Container.Exceptionable.HasException` | Exceptionable/Program.cs:31 | Not defined by the class but used by its callers: `HasException() == !HasValue()`, and such a container is the one built from its `Exception`. |
| `Container.ConstructorsDetermineArm` | Exceptionable/Exceptionable.cs:14-26 | A container built from a value has `HasValue`, not `HasException`, and that `Value`. One built from an exception has `HasException`, not `HasValue`, and that `Exception`. |
| `Container.Unwrap` | Exceptionable/Exceptionable.cs:29-39 | Conversion to `T` returns normally exactly when the container holds a value, and then returns `Value`. Otherwise it throws `InvalidOperationException("Exceptionable object must have a value")` and never yields a default. |
| `Container.FromValue` | Exceptionable/Exceptionable.cs:42 | Widening a `T` gives a value-holding container with that `Value`, and unwrapping it returns the value. |
| `Container.FromException` | Exceptionable/Exceptionable.cs:45 | Widening an exception gives a container holding that exception, and unwrapping it throws `InvalidOperationException`. |
| `Container.UnwrapRoundTrip` | Exceptionable/Exceptionable.cs:29-42 | Widen then unwrap is the identity on payloads. Unwrapping returns `v` exactly for the container that widening `v` produces. |
| `Container.UnwrapFailureIgnoresStored` | Exceptionable/Exceptionable.cs:31-34 | Unwrapping a failure throws the same `InvalidOperationException` whatever exception was stored. |
| `Container.EqualsValue` | Exceptionable/Exceptionable.cs:48 | `container == payload` holds iff the container is the one that widening the payload produces, i.e. `HasValue && Value == y`. |
| `Container.NotEqualsValue` | Exceptionable/Exceptionable.cs:49 | `container != payload` holds iff the container differs from the widened payload. |
| `Container.ValueEquals` | Exceptionable/Exceptionable.cs:52 | `payload == container` holds iff widening the payload gives that container. |
| `Container.ValueNotEquals` | Exceptionable/Exceptionable.cs:53 | `payload != container` holds iff widening the payload does not give that container. |
| `Container.ValueComparisonSymmetric` | Exceptionable/Exceptionable.cs:48-53 | Payload-versus-container and container-versus-payload agree for both `==` and `!=`, and each `!=` is the exact negation of its `==`. |
| `Container.ValueComparisonIsWidened` | Exceptionable/Exceptionable.cs:42-56 | Comparing a container with a payload is the same as comparing it with the widened payload. |
| `Container.Equals` | Exceptionable/Exceptionable.cs:59-66 | `Equals(obj)` holds iff `obj` is a container of the same type, this container holds a value, and the two containers are the same value. |
| `Container.Equal` | Exceptionable/Exceptionable.cs:56 | Container `==` holds iff both hold values and the values are equal. |
| `Container.NotEqual` | Exceptionable/Exceptionable.cs:57 | Container `!=` holds iff either side holds an exception or the values differ. |
| `Container.EqualIsPartialEquivalence` | Exceptionable/Exceptionable.cs:56-66 | Container equality is symmetric and transitive. It is reflexive exactly on value-holding containers. |
| `Container.FailuresNeverEqual` | Exceptionable/Exceptionable.cs:59-66 | Two failure-holding containers are never equal, not even one compared with itself, although they are structurally identical. |
| `Container.EqualWidened` | Exceptionable/Exceptionable.cs:56-66 | Two widened payloads are equal as containers iff the payloads are equal. |
| `Container.GetValueOrException` | Exceptionable/Exceptionable.cs:71-74 | Yields the held value when there is one, otherwise the held exception. |
| `Container.GetHashCode` | Exceptionable/Exceptionable.cs:68 | The hash is the payload's hash when a value is held, otherwise the exception's hash. |
| `Container.ToString` | Exceptionable/Exceptionable.cs:69 | The rendering is the payload's when a value is held, otherwise the exception's. |
| `Container.HashConsistentWithEqual` | Exceptionable/Exceptionable.cs:56-74 | Containers that compare equal have equal hashes and equal renderings. |
| `Runtime.FirstHandler` | Exceptionable/PaymentServiceExample_WithExceptions.cs:43-65 | Selects the first catch clause, in textual order, whose class the thrown exception is or derives from. It yields none exactly when no clause applies. |
| `Runtime.CatchAllHandles` | Exceptionable/PaymentServiceExample_WithExceptions.cs:58 | A `catch (Exception)` clause guarantees that some clause handles every exception. |
| `Text.IntToString` | Exceptionable/Program.cs:168 | An `int` renders as an optional minus sign, present iff it is negative, followed by decimal digits in canonical form: no leading zero, and zero rendered as exactly `0`. |
| `Text.IntToStringReadsBack` | Exceptionable/Program.cs:168 | The digits after the sign denote the magnitude of the number rendered, for negative and non-negative numbers alike. |
| `Text.IntToStringInjective` | Exceptionable/PaymentServiceExample_WithExceptionable.cs:37 | Distinct identifiers render as distinct strings, proved from the digits reading back as the number. |
| `WithExceptionable.GetAccount` | Exceptionable/PaymentServiceExample_WithExceptionable.cs:63-73 | Holds a value iff the account exists, and then it is `Account(id, "Ed Smale")`. Otherwise it holds `ArgumentException("No account with ID " + id)`. |
| `WithExceptionable.CallWebService` | Exceptionable/PaymentServiceExample_WithExceptionable.cs:75-85 | Holds `"OK"` iff the service is up. Otherwise it holds `WebException("The web request failed :(")`. |
| `WithExceptionable.TakePayment` | Exceptionable/PaymentServiceExample_WithExceptionable.cs:28-61 | Exactly one log entry on every path. `NoSuchAccount` iff the account is missing, which takes precedence. `WebServiceCallFailed` iff the account exists and the service is down. `Success` otherwise, and `Success` iff the entry is an `Info`. |
| `WithExceptionable.MissingAccount` | Exceptionable/PaymentServiceExample_WithExceptionable.cs:30-40 | A missing account gives `NoSuchAccount` with one error entry. The entry names the identifier and carries the lookup's `ArgumentException`. The result does not depend on the web service, which is never reached. |
| `WithExceptionable.WebServiceDown` | Exceptionable/PaymentServiceExample_WithExceptionable.cs:42-54 | An existing account with the service down gives `WebServiceCallFailed` with one error entry. The entry names the identifier and the resolved name "Ed Smale" and carries the `WebException`. |
| `WithExceptionable.Succeeds` | Exceptionable/PaymentServiceExample_WithExceptionable.cs:56-60 | An existing account with the service up gives `Success` and only the entry `Info("Payment taken successfully.")`. |
| `WithExceptionable.MissingAccountLogIdentifiesAccount` | Exceptionable/PaymentServiceExample_WithExceptionable.cs:37 | On the missing-account path, equal log entries imply equal account identifiers. |
| `WithExceptions.GetAccount` | Exceptionable/PaymentServiceExample_WithExceptions.cs:68-78 | Throws iff the account does not exist, and then throws `ArgumentException("No account with ID " + id)`. Otherwise it returns `Account(id, "Ed Smale")`. |
| `WithExceptions.CallWebService` | Exceptionable/PaymentServiceExample_WithExceptions.cs:80-90 | Throws `WebException("The web request failed :(")` iff the service is down. Otherwise it returns `"OK"`. |
| `WithExceptions.TryBlock` | Exceptionable/PaymentServiceExample_WithExceptions.cs:31-42 | The `try` block throws iff the account is missing or the service is down. It throws the lookup's exception if the account is missing, else the web call's. When it completes, it has logged only `Info("Payment taken successfully.")` and returns `Success`. |
| `WithExceptions.TakePayment` | Exceptionable/PaymentServiceExample_WithExceptions.cs:29-66 | Never lets an exception escape and logs exactly one entry. The outcome classification is the same three-way split as the container version, with `Success` iff the entry is an `Info`. |
| `WithExceptions.MissingAccount` | Exceptionable/PaymentServiceExample_WithExceptions.cs:58-65 | The lookup's `ArgumentException` skips the `WebException` clause and is caught by the generic one. That gives `NoSuchAccount` with one error entry naming the identifier. The web service's state is irrelevant. |
| `WithExceptions.WebServiceDown` | Exceptionable/PaymentServiceExample_WithExceptions.cs:43-57 | The `WebException` is caught by the earlier, specific clause. That gives `WebServiceCallFailed` and an entry whose name is the literal "Unknown". |
| `WithExceptions.Succeeds` | Exceptionable/PaymentServiceExample_WithExceptions.cs:39-41 | On success the only entry is `Info("Payment taken successfully.")` and the result is `Success`. |
| `WithExceptions.CatchOrderMatters` | Exceptionable/PaymentServiceExample_WithExceptions.cs:43-58 | The order is forced: with the clauses reversed the generic clause would take every exception, which is why C# rejects that order (CS0160). With the written order, clause 0 runs exactly for `WebException`. |
| `Comparison.Raise` | Exceptionable/PaymentServiceExample_WithExceptions.cs:68-90 | Turns a returned failure into a thrown one, keeping the value or the exception unchanged. |
| `Comparison.StepsAgree` | Exceptionable/PaymentServiceExample_WithExceptions.cs:68-90 | Each throwing step throws exactly the exception its container counterpart returns, and returns the same value otherwise. |
| `Comparison.SameResult` | Exceptionable/PaymentServiceExample_WithExceptions.cs:29-66 | For every configuration and identifier, both `TakePayment` versions return the same `PaymentResultEnum`. |
| `Comparison.SameLogOffWebFailure` | Exceptionable/PaymentServiceExample_WithExceptions.cs:29-66 | Except when the account exists and the service is down, both versions also produce the same log. |
| `Comparison.OnlyContainerNamesAccount` | Exceptionable/PaymentServiceExample_WithExceptions.cs:50-54 | On the web-failure path both entries carry the same `WebException`. The container version's message contains the account name. The throw/catch version's message contains the identifier but not the name. |
| `Program.MethodThatTakesAString` | Exceptionable/Program.cs:159-162 | The result is the argument followed by " was passed.". |
| `Program.MethodThatReturnsExceptionable` | Exceptionable/Program.cs:164-174 | Holds a value iff the number is positive, and then the value is the number's decimal text followed by " is a great number.". Otherwise it holds a parameterless `ArgumentException`. |
| `Program.PassToMethodThatTakesAString` | Exceptionable/Program.cs:63-94 | Passing a container where a `string` is expected returns the method's result on the value. A failure-holding container throws the unwrap's `InvalidOperationException` instead. |
| `Program.ReturnsValue` | Exceptionable/Program.cs:10-22 | `MethodThatReturnsExceptionable(42)` has a value and equals "42 is a great number.". |
| `Program.ReturnsException` | Exceptionable/Program.cs:25-38 | `MethodThatReturnsExceptionable(-1)` has an exception, and its class is exactly `ArgumentException`. |
| `Program.ComparesWithPayload` | Exceptionable/Program.cs:41-60 | A container built from 3 equals 3, and one assigned 99 equals 99. |
| `Program.PassesValue` | Exceptionable/Program.cs:63-74 | Passing a container holding "A piece of text" gives "A piece of text was passed.". |
| `Program.PassingFailureThrowsInvalidOperation` | Exceptionable/Program.cs:76-95 | Passing a container holding `Exception("Went wrong!!! :(")` throws something other than the stored exception. It reaches the `catch (InvalidOperationException)` clause, whereas the stored exception would reach the generic one. |
| `Program.PaymentScenarios` | Exceptionable/Program.cs:97-134 | With default arguments: exists and up gives `Success`, missing gives `NoSuchAccount`, down gives `WebServiceCallFailed`. |

## Left out

- Console output: `Log.Info` and `Log.Error` write `"INFO: "`/`"ERROR: "` lines and the exception's text; the model keeps only the sequence of calls with their message and exception.
- `AccountRepository.SaveAccount`: console output only, and never called.
- The `Main` driver's own machinery (`Assert`, `Success`, `Fail` and `Print` with console colours); its assertions are the lemmas of `Program`.
- Null references: a null exception passed to the constructor, a null payload whose `Equals` is called, `==` on a null container. Values are assumed non-null.
- Reading `Value` of a failure-holding container yields `default(T)` in C#, and reading `Exception` of a value-holding one yields `null`. The model makes those reads ill-formed instead, and it verifies that the modelled code never performs them.
- The rest of the .NET exception hierarchy (for instance `SystemException` between `ArgumentException` and `Exception`), stack traces, and the text of a parameterless `ArgumentException` (the model has `DefaultMessage`).
- The hash and rendering functions of payloads and exceptions: they are parameters, not modelled.
- A payload type whose `Equals` is not value equality: the model compares payloads with Dafny's `==`.
- Culture-dependent number formatting: `int` is rendered in the invariant culture.
- Static overload resolution of the C# `==` and `!=` operators: each overload is a separately named function.
- The `Log` object each service allocates, and the services as objects: each service is its two flags (`ServiceConfig`).

