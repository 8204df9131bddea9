/** The types both payment services share: the outcome enumeration, the account record, and
    what a run of `TakePayment` leaves behind. */
module Payments {
  import opened Runtime

  datatype PaymentResultEnum = Success | NoSuchAccount | WebServiceCallFailed

  datatype Account = Account(Id: Int32, Name: string)

  /** One call of the log sink: `Log.Info(message)` or `Log.Error(message, ex)`. */
  datatype LogEntry = Info(message: string) | Error(message: string, ex: Exc)

  /** The two `readonly` flags a payment service is constructed with. */
  datatype ServiceConfig = ServiceConfig(accountIdExists: bool, isWebServiceDown: bool)

  /** The constructor's default arguments: the account exists and the web service is up. */
  const DefaultConfig: ServiceConfig := ServiceConfig(true, false)

  /** `TakePayment`'s default argument. */
  const DefaultAccountId: Int32 := 12345

  /** What one call of `TakePayment` returns and the entries it sends to the log, in order. */
  datatype Run = Run(result: PaymentResultEnum, log: seq<LogEntry>)
}
