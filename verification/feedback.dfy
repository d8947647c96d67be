/** What the flows show the user: the action phases of a wallet write and
    the toasts raised along the way. */
module Feedback {
  import opened Text

  /** `CreatePhase` of CreateBattlePanel.tsx and `ActionPhase` of
      useAgentDeploy.ts, which list the same seven phases. */
  datatype Phase = Idle | AwaitingWallet | Submitted | Confirming | Timeout | Error | Success

  /** Error texts that several flows raise word for word. */
  const RpcUnavailable: string :=
    "RPC unavailable. Check NEXT_PUBLIC_BATTLECHAIN_RPC_URL in frontend env config."
  const WalletClientUnavailable: string := "Wallet client unavailable. Reconnect wallet and try again."

  /** `toast(text)`, `toast.success(text)` and `toast.error(text)`. */
  datatype Toast = ToastInfo(text: string) | ToastSuccess(text: string) | ToastError(text: string)

  /** The phase a failed write ends in, chosen from its formatted message:
      a message that mentions a timeout, in any case, is a timeout. */
  function FailurePhase(message: string): (r: Phase)
    ensures r == Timeout || r == Error
    ensures r == Timeout <==> Contains(Lower(message), "timeout")
  {
    if Contains(Lower(message), "timeout") then Timeout else Error
  }
}
