/**
 * The withdrawal dialog of the web client
 * (`client/src/components/withdraw-modal.tsx`): the checks it runs before it
 * sends a withdrawal, what closing does while a request is in flight, and
 * what the answer does to the dialog. The amount field is seen through
 * `parseFloat`: `None` when it is not a number, otherwise the amount in cents.
 */
module WithdrawModal {
  import opened Results
  import opened Money
  import Storage
  import Routes

  /** The title of the toast a rejected submission shows. */
  datatype Rejection =
    | InvalidAmount
    | MinimumAmountRequired
    | InsufficientBalance

  /** What submitting the form does: show a toast, or start the withdrawal mutation. */
  datatype Submission =
    | Rejected(reason: Rejection)
    | Mutate(amount: Cents)

  /**
   * `handleSubmit`: not a number or not positive, then below the minimum,
   * then above the available balance; the first failing check decides, and
   * only an amount passing all three is sent.
   */
  function HandleSubmit(parsed: Option<Cents>, totalBalance: Cents): (r: Submission)
    ensures r == Rejected(InvalidAmount) <==> parsed.None? || parsed.value <= 0
    ensures r == Rejected(MinimumAmountRequired) <==> parsed.Some? && 0 < parsed.value < MinWithdrawal
    ensures r == Rejected(InsufficientBalance) <==> parsed.Some? && MinWithdrawal <= parsed.value && parsed.value > totalBalance
    ensures r.Mutate? <==> parsed.Some? && MinWithdrawal <= parsed.value <= totalBalance
    ensures r.Mutate? ==> r.amount == parsed.value
  {
    match parsed
    case None => Rejected(InvalidAmount)
    case Some(a) =>
      if a <= 0 then Rejected(InvalidAmount)
      else if a < MinWithdrawal then Rejected(MinimumAmountRequired)
      else if a > totalBalance then Rejected(InsufficientBalance)
      else Mutate(a)
  }

  /** Withdrawing exactly the available balance is allowed: the client's comparison is strict. */
  lemma WholeBalanceIsSent(totalBalance: Cents)
    requires totalBalance >= MinWithdrawal
    ensures HandleSubmit(Some(totalBalance), totalBalance) == Mutate(totalBalance)
  {
  }

  /**
   * The client's checks imply the server's: when the dialog shows the
   * account's total, an amount it sends passes the server's schema and
   * balance checks, so only an unknown account or a wrong password can
   * still turn it down.
   */
  lemma SentAmountPassesServerChecks(s: Storage.Store, account: string, password: string, parsed: Option<Cents>,
                                     withdrawalId: string, now: nat)
    requires HandleSubmit(parsed, Storage.AccountTotal(s, account)).Mutate?
    ensures var amount := HandleSubmit(parsed, Storage.AccountTotal(s, account)).amount;
      var r := Routes.HandleWithdrawal(s, Routes.WithdrawBody(Some(account), Some(amount), Some(password)), withdrawalId, now);
      r.Success? || r.error == Routes.AccountNotFound || r.error == Routes.PasswordRejected
  {
  }

  /** The parts of the dialog's state the handlers change. */
  datatype Dialog = Dialog(open: bool, amount: string, pending: bool)

  /** `handleClose`: ignored while a withdrawal is in flight; otherwise clears the amount and closes. */
  function HandleClose(d: Dialog): (d': Dialog)
    ensures d.pending ==> d' == d
    ensures !d.pending ==> !d'.open && d'.amount == "" && d'.pending == d.pending
  {
    if d.pending then d else d.(amount := "", open := false)
  }

  /** The server's answer to the mutation: its `success` flag, or a network error. */
  datatype Answer = Answered(success: bool) | NetworkError

  /**
   * `onSuccess` and `onError`: the answer settles the mutation, so the dialog
   * is no longer pending; a successful answer clears the amount and closes
   * the dialog, an unsuccessful one or a network error leaves it open with
   * the amount still in it.
   */
  function OnAnswer(d: Dialog, a: Answer): (d': Dialog)
    ensures a == Answered(true) ==> !d'.open && d'.amount == ""
    ensures a != Answered(true) ==> d'.open == d.open && d'.amount == d.amount
    ensures !d'.pending
  {
    if a == Answered(true) then d.(amount := "", open := false, pending := false) else d.(pending := false)
  }

  /**
   * A successful answer to a withdrawal in flight leaves the dialog as
   * closing it by hand would once the withdrawal has settled, whereas closing
   * it by hand while the withdrawal is in flight does nothing.
   */
  lemma SuccessLikeClose(d: Dialog)
    requires d.pending
    ensures OnAnswer(d, Answered(true)) == HandleClose(d.(pending := false))
    ensures HandleClose(d) == d
  {
  }

  /** After any answer the dialog can be closed by hand again, and closing it clears the amount. */
  lemma AnswerReenablesClose(d: Dialog, a: Answer)
    ensures var d' := HandleClose(OnAnswer(d, a));
      !d'.open && d'.amount == "" && !d'.pending
  {
  }
}
