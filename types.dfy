/** The records the contract stores and the errors with which its calls abort. */
module Types {

  /**
   * One minted fish. The contract stores it as a string-keyed map whose
   * `index` and `score` entries are decimal strings; here the four keys are
   * fields and the two numbers are naturals (their decimal form is produced
   * only when the record is serialised).
   */
  datatype Collection = Collection(index: nat, creator: string, attribute: string, score: nat)

  /**
   * Why a call aborts. The host discards every write of an aborted call.
   *   AlreadyDeployed     `onContractDeploy` when an owner is already recorded
   *   InvalidHexDigit     a scanned transaction-hash character is not a hex digit
   *   AttributeExhausted  no window of the transaction hash yields a free attribute
   */
  datatype Failure = AlreadyDeployed | InvalidHexDigit | AttributeExhausted
}
