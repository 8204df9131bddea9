/** The payment service written with throw and catch: the steps throw, and `TakePayment`
    handles every failure in catch clauses placed after all the steps. */
module WithExceptions {
  import opened Runtime
  import opened Text
  import opened Payments

  /** The account lookup stand-in: throws an `ArgumentException` naming the identifier when the
      service was told the account does not exist. */
  function GetAccount(cfg: ServiceConfig, accountId: Int32): (r: Completion<Account>)
    ensures r.Throw? <==> !cfg.accountIdExists
    ensures r.Normal? ==> r.value == Account(accountId, "Ed Smale")
    ensures r.Throw? ==> r.exc == Exc(ArgumentException, Says("No account with ID " + IntToString(accountId as int)))
  {
    if !cfg.accountIdExists then
      Throw(Exc(ArgumentException, Says("No account with ID " + IntToString(accountId as int))))
    else
      Normal(Account(accountId, "Ed Smale"))
  }

  /** The remote call stand-in: throws a `WebException` when the service is down. */
  function CallWebService(cfg: ServiceConfig): (r: Completion<string>)
    ensures r.Throw? <==> cfg.isWebServiceDown
    ensures r.Normal? ==> r.value == "OK"
    ensures r.Throw? ==> r.exc == Exc(WebException, Says("The web request failed :("))
  {
    if cfg.isWebServiceDown then
      Throw(Exc(WebException, Says("The web request failed :(")))
    else
      Normal("OK")
  }

  /** The statements of the `try` block, run until they return or until the first call throws.
      Nothing is logged before the last step, so a throw leaves no entry behind. */
  function TryBlock(cfg: ServiceConfig, accountId: Int32): (c: Completion<Run>)
    ensures c.Throw? <==> !cfg.accountIdExists || cfg.isWebServiceDown
    ensures c.Throw? ==> c.exc == if !cfg.accountIdExists then GetAccount(cfg, accountId).exc else CallWebService(cfg).exc
    ensures c.Normal? ==> c.value == Run(Success, [Info("Payment taken successfully.")])
  {
    match GetAccount(cfg, accountId)
    case Throw(ex) => Throw(ex)
    case Normal(account) =>
      match CallWebService(cfg)
      case Throw(ex) => Throw(ex)
      case Normal(paymentResult) => Normal(Run(Success, [Info("Payment taken successfully.")]))
  }

  /** The catch clauses in textual order: the specific `WebException` first, then `Exception`. */
  const Catches: seq<ExcKind> := [WebException, Exception]

  /** `TakePayment`: the catch clause for `Exception` leaves no exception uncaught, and every
      path logs exactly one entry, an `Info` exactly on success. */
  function TakePayment(cfg: ServiceConfig, accountId: Int32): (c: Completion<Run>)
    ensures c.Normal?
    ensures |c.value.log| == 1
    ensures c.value.result == NoSuchAccount <==> !cfg.accountIdExists
    ensures c.value.result == WebServiceCallFailed <==> cfg.accountIdExists && cfg.isWebServiceDown
    ensures c.value.result == Success <==> cfg.accountIdExists && !cfg.isWebServiceDown
    ensures c.value.result == Success <==> c.value.log[0].Info?
  {
    match TryBlock(cfg, accountId)
    case Normal(run) => Normal(run)
    case Throw(ex) =>
      CatchAllHandles(Catches, ex.kind);
      match FirstHandler(Catches, ex.kind)
      case Some(0) =>
        Normal(Run(WebServiceCallFailed,
                   [Error("Payment failed.  Account ID = " + IntToString(accountId as int) + ", Name = Unknown.", ex)]))
      case Some(1) =>
        Normal(Run(NoSuchAccount, [Error("Payment failed.  Account ID = " + IntToString(accountId as int) + ".", ex)]))
      case _ => Throw(ex)
  }

  /** A missing account: `GetAccount` throws, the specific clause does not apply, and the
      generic clause reports `NoSuchAccount` with the identifier and the `ArgumentException`;
      the web service's state makes no difference, because it is never called. */
  lemma MissingAccount(cfg: ServiceConfig, accountId: Int32)
    requires !cfg.accountIdExists
    ensures TryBlock(cfg, accountId) == Throw(GetAccount(cfg, accountId).exc)
    ensures FirstHandler(Catches, ArgumentException) == Some(1)
    ensures var run := TakePayment(cfg, accountId).value;
      run.result == NoSuchAccount && |run.log| == 1 && run.log[0].Error? &&
      IsSubstring(IntToString(accountId as int), run.log[0].message) &&
      run.log[0].ex == GetAccount(cfg, accountId).exc && run.log[0].ex.kind == ArgumentException
    ensures TakePayment(cfg, accountId) == TakePayment(ServiceConfig(false, !cfg.isWebServiceDown), accountId)
  {
    OccursInConcat("Payment failed.  Account ID = ", IntToString(accountId as int), ".");
  }

  /** The web service down: the earlier, specific clause catches the `WebException`, so the
      outcome is never `NoSuchAccount`; the account is out of scope there and the entry says
      "Unknown" for its name. */
  lemma WebServiceDown(cfg: ServiceConfig, accountId: Int32)
    requires cfg.accountIdExists && cfg.isWebServiceDown
    ensures TryBlock(cfg, accountId).Throw? && TryBlock(cfg, accountId).exc.kind == WebException
    ensures FirstHandler(Catches, WebException) == Some(0)
    ensures var run := TakePayment(cfg, accountId).value;
      run.result == WebServiceCallFailed && |run.log| == 1 && run.log[0].Error? &&
      run.log[0].message == "Payment failed.  Account ID = " + IntToString(accountId as int) + ", Name = Unknown." &&
      run.log[0].ex == CallWebService(cfg).exc
  {
  }

  /** Success: a single informational entry. */
  lemma Succeeds(cfg: ServiceConfig, accountId: Int32)
    requires cfg.accountIdExists && !cfg.isWebServiceDown
    ensures TakePayment(cfg, accountId) == Normal(Run(Success, [Info("Payment taken successfully.")]))
  {
  }

  /** Why the specific clause has to come first. C# rejects a `catch (WebException)` placed
      after `catch (Exception)` (error CS0160), precisely because the generic clause would
      take every exception, as the reversed order here shows; so the order is forced, and
      with it clause 0 runs exactly for a `WebException`. */
  lemma CatchOrderMatters(k: ExcKind)
    ensures FirstHandler([Exception, WebException], k) == Some(0)
    ensures FirstHandler(Catches, WebException) == Some(0)
    ensures FirstHandler(Catches, k) == Some(0) <==> IsA(k, WebException)
  {
  }
}
