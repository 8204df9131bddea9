/** The parts of the .NET runtime the modelled code relies on: 32-bit `int`, the exception
    classes it throws and catches, and what a call that may throw completes with. */
module Runtime {

  /** C#'s `int`. */
  newtype Int32 = x: int | -0x8000_0000 <= x < 0x8000_0000

  datatype Option<T> = None | Some(value: T)

  /** The exception classes that occur in the modelled code. `Exception` is the base class. */
  datatype ExcKind = Exception | ArgumentException | InvalidOperationException | WebException

  /** `k` is `ancestor` or derives from it. In .NET, `System.Net.WebException` derives from
      `InvalidOperationException`; every exception class derives from `Exception`. */
  predicate IsA(k: ExcKind, ancestor: ExcKind) {
    k == ancestor || ancestor == Exception || (k == WebException && ancestor == InvalidOperationException)
  }

  /** An exception's message: the one given to its constructor, or the class's default text
      when the parameterless constructor was used. */
  datatype Message = DefaultMessage | Says(text: string)

  /** An exception object, reduced to its run-time class and its message. */
  datatype Exc = Exc(kind: ExcKind, message: Message)

  /** How a call that may throw completes: it returns a value, or it throws. */
  datatype Completion<T> = Normal(value: T) | Throw(exc: Exc)

  /** The handler a `try` statement with catch clauses `catches` (in textual order) runs for a
      thrown exception of class `kind`: the first clause whose class `kind` is or derives
      from; `None` when no clause applies and the exception propagates. */
  function FirstHandler(catches: seq<ExcKind>, kind: ExcKind): (r: Option<nat>)
    ensures r.Some? ==> r.value < |catches| && IsA(kind, catches[r.value])
    ensures r.Some? ==> forall j :: 0 <= j < r.value ==> !IsA(kind, catches[j])
    ensures r.None? <==> forall j :: 0 <= j < |catches| ==> !IsA(kind, catches[j])
  {
    if catches == [] then None
    else if IsA(kind, catches[0]) then Some(0)
    else match FirstHandler(catches[1..], kind)
      case None => None
      case Some(i) => Some(i + 1)
  }

  /** A clause for `Exception` catches everything, so a `try` whose clauses include one never
      lets an exception escape. */
  lemma {:induction false} CatchAllHandles(catches: seq<ExcKind>, kind: ExcKind)
    requires Exception in catches
    ensures FirstHandler(catches, kind).Some?
  {
    var j :| 0 <= j < |catches| && catches[j] == Exception;
    assert IsA(kind, catches[j]);
  }
}
