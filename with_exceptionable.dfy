/** The payment service written with `Exceptionable<T>`: every step returns a container and
    `TakePayment` inspects it right after the call, returning at the first failure. */
module WithExceptionable {
  import opened Runtime
  import opened Text
  import opened Container
  import opened Payments

  /** The account lookup stand-in: fails with an `ArgumentException` naming the identifier when
      the service was told the account does not exist. */
  function GetAccount(cfg: ServiceConfig, accountId: Int32): (r: Exceptionable<Account>)
    ensures r.HasValue() <==> cfg.accountIdExists
    ensures r.HasValue() ==> r.Value == Account(accountId, "Ed Smale")
    ensures r.HasException() ==> r.Exception == Exc(ArgumentException, Says("No account with ID " + IntToString(accountId as int)))
  {
    if !cfg.accountIdExists then
      FromException(Exc(ArgumentException, Says("No account with ID " + IntToString(accountId as int))))
    else
      FromValue(Account(accountId, "Ed Smale"))
  }

  /** The remote call stand-in: fails with a `WebException` when the service is down. */
  function CallWebService(cfg: ServiceConfig): (r: Exceptionable<string>)
    ensures r.HasValue() <==> !cfg.isWebServiceDown
    ensures r.HasValue() ==> r.Value == "OK"
    ensures r.HasException() ==> r.Exception == Exc(WebException, Says("The web request failed :("))
  {
    if cfg.isWebServiceDown then
      FromException(Exc(WebException, Says("The web request failed :(")))
    else
      FromValue("OK")
  }

  /** `TakePayment`: one outcome per flag combination, a missing account taking precedence,
      and exactly one log entry, an `Info` exactly on success. `account.Value` is read only
      where `account` holds a value. */
  function TakePayment(cfg: ServiceConfig, accountId: Int32): (run: Run)
    ensures |run.log| == 1
    ensures run.result == NoSuchAccount <==> !cfg.accountIdExists
    ensures run.result == WebServiceCallFailed <==> cfg.accountIdExists && cfg.isWebServiceDown
    ensures run.result == Success <==> cfg.accountIdExists && !cfg.isWebServiceDown
    ensures run.result == Success <==> run.log[0].Info?
  {
    var account := GetAccount(cfg, accountId);
    if account.HasException() then
      Run(NoSuchAccount, [Error("Payment failed.  Account ID = " + IntToString(accountId as int) + ".", account.Exception)])
    else
      var paymentResult := CallWebService(cfg);
      if paymentResult.HasException() then
        Run(WebServiceCallFailed,
            [Error("Payment failed.  Account ID = " + IntToString(accountId as int) + ", Name = " + account.Value.Name + ".",
                   paymentResult.Exception)])
      else
        Run(Success, [Info("Payment taken successfully.")])
  }

  /** A missing account: one error entry that names the identifier and carries the lookup's
      `ArgumentException`; the web service's state makes no difference, because it is never
      called. */
  lemma MissingAccount(cfg: ServiceConfig, accountId: Int32)
    requires !cfg.accountIdExists
    ensures var run := TakePayment(cfg, accountId);
      run.result == NoSuchAccount && |run.log| == 1 && run.log[0].Error? &&
      IsSubstring(IntToString(accountId as int), run.log[0].message) &&
      run.log[0].ex == GetAccount(cfg, accountId).Exception && run.log[0].ex.kind == ArgumentException
    ensures TakePayment(cfg, accountId) == TakePayment(ServiceConfig(false, !cfg.isWebServiceDown), accountId)
  {
    OccursInConcat("Payment failed.  Account ID = ", IntToString(accountId as int), ".");
  }

  /** The web service down: one error entry naming both the identifier and the name of the
      account resolved in the first step, and carrying the `WebException`. */
  lemma WebServiceDown(cfg: ServiceConfig, accountId: Int32)
    requires cfg.accountIdExists && cfg.isWebServiceDown
    ensures var run := TakePayment(cfg, accountId);
      run.result == WebServiceCallFailed && |run.log| == 1 && run.log[0].Error? &&
      IsSubstring(IntToString(accountId as int), run.log[0].message) &&
      IsSubstring(GetAccount(cfg, accountId).Value.Name, run.log[0].message) &&
      IsSubstring("Ed Smale", run.log[0].message) &&
      run.log[0].ex == CallWebService(cfg).Exception && run.log[0].ex.kind == WebException
  {
    var prefix := "Payment failed.  Account ID = ";
    var id := IntToString(accountId as int);
    var name := GetAccount(cfg, accountId).Value.Name;
    var message := prefix + id + ", Name = " + name + ".";
    assert message == prefix + id + (", Name = " + name + ".");
    OccursInConcat(prefix, id, ", Name = " + name + ".");
    OccursInConcat(prefix + id + ", Name = ", name, ".");
  }

  /** Success: a single informational entry. */
  lemma Succeeds(cfg: ServiceConfig, accountId: Int32)
    requires cfg.accountIdExists && !cfg.isWebServiceDown
    ensures TakePayment(cfg, accountId) == Run(Success, [Info("Payment taken successfully.")])
  {
  }

  /** On the missing-account path the log entry determines which identifier was tried. */
  lemma MissingAccountLogIdentifiesAccount(cfg: ServiceConfig, id1: Int32, id2: Int32)
    requires !cfg.accountIdExists
    requires TakePayment(cfg, id1).log == TakePayment(cfg, id2).log
    ensures id1 == id2
  {
    var m1 := TakePayment(cfg, id1).log[0].message;
    var m2 := TakePayment(cfg, id2).log[0].message;
    assert m1 == m2;
    ConcatCancel("Payment failed.  Account ID = ", IntToString(id1 as int), IntToString(id2 as int), ".");
    IntToStringInjective(id1 as int, id2 as int);
  }
}
