/**
 * Call sequences on a freshly created contract: the first deployment, a
 * repeated deployment, and two mints from the same transaction hash.
 */
module Scenarios {
  import opened Wrappers
  import opened Types
  import opened Attributes
  import opened Contract

  /** Deploying a fresh contract makes the deployer the owner and grants them fish 0, unless generation aborts. */
  method DeployFresh(deployer: string, txHash: string) returns (r: Outcome<Failure>, count: nat, first: Option<Collection>)
    ensures r.Pass? <==> UniqAttribute(txHash, map[]).Success?
    ensures r.Fail? ==> r.error == UniqAttribute(txHash, map[]).error && count == 0 && first == None
    ensures r.Pass? ==> count == 1 && first.Some? && first.value.index == 0 && first.value.creator == deployer
                        && first.value.attribute == UniqAttribute(txHash, map[]).value
  {
    var contract := new CryptoFishContract();
    r := contract.OnContractDeploy(deployer, txHash);
    count := contract.GetCollectionCount();
    first := contract.GetCollectionByIndexPrivate(0);
  }

  /**
   * A second deployment is refused once a non-empty owner is recorded; when
   * the first one aborted, nothing was kept and the second runs as a first.
   */
  method DeployTwice(deployer: string, other: string, txHash1: string, txHash2: string)
    returns (first: Outcome<Failure>, second: Outcome<Failure>)
    ensures first.Pass? && |deployer| > 0 ==> second == Fail(AlreadyDeployed)
    ensures first.Fail? ==> (second.Pass? <==> UniqAttribute(txHash2, map[]).Success?)
  {
    var contract := new CryptoFishContract();
    first := contract.OnContractDeploy(deployer, txHash1);
    second := contract.OnContractDeploy(other, txHash2);
  }

  /** Two mints from the same hash never share an attribute: the second takes the next free window. */
  method MintTwiceSameHash(alice: string, bob: string, txHash: string)
    returns (ledger: seq<Collection>)
    ensures |ledger| <= 2
    ensures |ledger| >= 1 <==> UniqAttribute(txHash, map[]).Success?
    ensures |ledger| >= 1 ==> ledger[0].index == 0 && ledger[0].creator == alice
                              && ledger[0].attribute == UniqAttribute(txHash, map[]).value
    ensures |ledger| == 2 ==> ledger[1].index == 1 && ledger[1].creator == bob
                              && ledger[0].attribute != ledger[1].attribute
                              && Success(ledger[1].attribute) == UniqAttribute(txHash, map[ledger[0].attribute := true])
  {
    var contract := new CryptoFishContract();
    var r1 := contract.Mint(alice, txHash);
    var r2 := contract.Mint(bob, txHash);
    ledger := contract.collections;
  }
}
