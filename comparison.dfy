/** The two payment services side by side: the same outcome for every configuration and
    identifier, the same log except on the web-failure path, where only the container version
    still has the account in scope and can name it. */
module Comparison {
  import opened Runtime
  import opened Text
  import opened Container
  import opened Payments
  import A = WithExceptionable
  import B = WithExceptions

  /** What a step that returns its failure in a container does when it throws the failure
      instead. */
  function Raise<T>(m: Exceptionable<T>): (c: Completion<T>)
    ensures c.Normal? <==> m.HasValue()
    ensures c.Normal? ==> c.value == m.Value
    ensures c.Throw? ==> c.exc == m.Exception
  {
    if m.HasValue() then Normal(m.Value) else Throw(m.Exception)
  }

  /** The steps of the two services compute the same things: each throwing step throws exactly
      what its container counterpart returns. */
  lemma StepsAgree(cfg: ServiceConfig, accountId: Int32)
    ensures Raise(A.GetAccount(cfg, accountId)) == B.GetAccount(cfg, accountId)
    ensures Raise(A.CallWebService(cfg)) == B.CallWebService(cfg)
  {
  }

  /** Both services report the same `PaymentResultEnum` for every configuration and identifier. */
  lemma SameResult(cfg: ServiceConfig, accountId: Int32)
    ensures B.TakePayment(cfg, accountId).Normal?
    ensures A.TakePayment(cfg, accountId).result == B.TakePayment(cfg, accountId).value.result
  {
  }

  /** Off the web-failure path the two logs are identical too. */
  lemma SameLogOffWebFailure(cfg: ServiceConfig, accountId: Int32)
    requires !(cfg.accountIdExists && cfg.isWebServiceDown)
    ensures A.TakePayment(cfg, accountId) == B.TakePayment(cfg, accountId).value
  {
  }

  /** The web-failure path: both entries carry the same `WebException` and name the
      identifier, but only the container version names the account; the throw/catch version
      cannot, as its message holds no "E" at all. */
  lemma OnlyContainerNamesAccount(cfg: ServiceConfig, accountId: Int32)
    requires cfg.accountIdExists && cfg.isWebServiceDown
    ensures var a := A.TakePayment(cfg, accountId).log[0];
      var b := B.TakePayment(cfg, accountId).value.log[0];
      var name := A.GetAccount(cfg, accountId).Value.Name;
      a.Error? && b.Error? && a.ex == b.ex &&
      IsSubstring(name, a.message) && !IsSubstring(name, b.message) &&
      IsSubstring(IntToString(accountId as int), b.message)
  {
    A.WebServiceDown(cfg, accountId);
    var id := IntToString(accountId as int);
    var prefix := "Payment failed.  Account ID = ";
    var suffix := ", Name = Unknown.";
    var m := prefix + id + suffix;
    assert m == B.TakePayment(cfg, accountId).value.log[0].message;
    OccursInConcat(prefix, id, suffix);
    assert 'E' !in prefix && 'E' !in suffix;
    assert 'E' !in id by {
      forall k | 0 <= k < |id| ensures id[k] != 'E' {
        assert IsDigitChar(id[k]) || id[k] == '-';
      }
    }
    SubstringHasFirstChar("Ed Smale", m);
  }
}
