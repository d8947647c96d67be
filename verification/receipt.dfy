/** `waitForReceiptWithTimeout`, written out identically in
    frontend/src/components/CreateBattlePanel.tsx and
    frontend/src/hooks/useAgentDeploy.ts: a receipt wait whose timeouts
    surface as one fixed error. */
module Receipt {
  import opened Wrappers
  import opened Text
  import opened Thrown
  import WalletErrors
  import Feedback

  const TimeoutMs: nat := 120000
  const PollingIntervalMs: nat := 2000

  /** The arguments of `waitForTransactionReceipt`. */
  datatype ReceiptRequest = ReceiptRequest(hash: string, timeoutMs: nat, pollingIntervalMs: nat)

  /** The part of a receipt the callers look at. */
  datatype TxReceipt = TxReceipt(contractAddress: Option<string>)

  /** `text.toLowerCase().includes('timeout')`. */
  predicate MentionsTimeout(text: string)
  {
    Contains(Lower(text), "timeout")
  }

  /** The wait itself; `wait` is the node's answer to the request. */
  function WaitForReceipt(hasPublicClient: bool, hash: string,
                          wait: ReceiptRequest -> Result<TxReceipt, Thrown>): (r: Result<TxReceipt, Thrown>)
    ensures !hasPublicClient ==> r == Err(Error(Feedback.RpcUnavailable))
    ensures hasPublicClient ==>
              var answer := wait(ReceiptRequest(hash, 120000, 2000));
              (answer.Ok? ==> r == answer)
              && (answer.Err? && MentionsTimeout(MessageOf(answer.error)) ==> r == Err(Error(WalletErrors.ReceiptTimeout)))
              && (answer.Err? && !MentionsTimeout(MessageOf(answer.error)) ==> r == answer)
  {
    if !hasPublicClient then Err(Error(Feedback.RpcUnavailable))
    else
      match wait(ReceiptRequest(hash, TimeoutMs, PollingIntervalMs))
      case Ok(receipt) => Ok(receipt)
      case Err(e) =>
        if MentionsTimeout(MessageOf(e)) then Err(Error(WalletErrors.ReceiptTimeout)) else Err(e)
  }

  /** Whatever error the wait ends with, it still mentions a timeout after
      `formatWalletError` exactly when the node's error did: a timeout is
      reported as the timeout message, and every other error passes through
      unchanged. */
  lemma WaitTimeoutSurvivesFormatting(hash: string, wait: ReceiptRequest -> Result<TxReceipt, Thrown>)
    requires wait(ReceiptRequest(hash, TimeoutMs, PollingIntervalMs)).Err?
    ensures var r := WaitForReceipt(true, hash, wait);
            var e := wait(ReceiptRequest(hash, TimeoutMs, PollingIntervalMs)).error;
            r.Err?
            && (MentionsTimeout(MessageOf(e)) ==> WalletErrors.FormatWalletError(r.error) == WalletErrors.RpcTimeout)
            && (!MentionsTimeout(MessageOf(e)) ==> r.error == e)
  {
    WalletErrors.ReceiptTimeoutFormats();
  }

  /** The fixed timeout error is stable: waiting again on an answer that is
      already that error yields it once more. */
  lemma ReceiptTimeoutIsFixedPoint(hash: string, wait: ReceiptRequest -> Result<TxReceipt, Thrown>)
    requires wait(ReceiptRequest(hash, TimeoutMs, PollingIntervalMs)) == Err(Error(WalletErrors.ReceiptTimeout))
    ensures WaitForReceipt(true, hash, wait) == Err(Error(WalletErrors.ReceiptTimeout))
  {
    WalletErrors.ReceiptTimeoutMatchesTimeout();
  }
}
