/** The typed errors of the SDK that the modelled operations raise. */
module Errors {

  datatype OgpuError =
    | NotTaskOwner(task: string, caller: string)
    | NotSourceOwner(source: string, caller: string)
    | NotMaster(account: string)
    | NotProvider(account: string)
    | TaskExpired(task: string, expiry: int)
    | ResponseAlreadyConfirmed(response: string)
    | TaskAlreadyFinalized(task: string)
    | InsufficientBalance(account: string, required: int, available: int)
    | InsufficientLockup(account: string, required: int, available: int)
    | UnbondingPeriodNotElapsed(account: string, remainingSeconds: int)
    | NotEligible(account: string)
    | SourceInactive(source: string)
    | TxRevert(reason: string)
    | NonceError(address: string, tried: nat, suggested: int)
    | GasError(reason: string)
    | TxRpc(reason: string)
    | TxReceiptTimeout(txHash: string, timeout: real)
    | PublishTimeout(budget: real, stage: string)
    | IpfsFetch(reason: string)
    | IpfsGateway(statusCode: int)
    | ChainNotSupported(chainId: int)
    | InvalidRpcUrl(url: string)
}
