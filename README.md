# CryptoFish contract, modelled in Dafny

CryptoFish is an on-chain collectible contract written in AssemblyScript. Each
address may mint "fish". A fish is a ledger record `{index, creator, attribute,
score}`. The six-character attribute comes from a window of the transaction
hash: each hex digit is reduced modulo the cardinality of its trait (skin,
background, frame, fin, eye, tail). The first candidate that has not been
issued yet is taken. The score is a weighted digit sum. The contract keeps an
owner (the deployer), a mint switch, the ledger and the map of issued
attributes. It serialises records to a JSON-like wire format.

The model has six files:

- `wrappers.dfy`: `Option`, `Result` and `Outcome`.
- `types.dfy`: the `Collection` record (the source's string map becomes a record datatype), and `Failure`, which names why a call aborts.
- `utils.dfy`: the hex codec (`parseHex2Int`, `parseInt2Hex`), the decimal form of a number, and the serialisers `stringifyCollection` and `stringifyCollections`. The list serialiser is a loop proved against a specification function.
- `attributes.dfy`: the trait table. It also holds the specification of attribute generation (`UniqAttribute`) and of scoring (`Score`), with their properties.
- `contract.dfy`: the class `CryptoFishContract`. Its fields are `owner`, `canMint`, `collections` and `collectionAttributeMap`. It has the write path (deploy, mint, set-can-mint), the generation and scoring loops, and the queries. The ledger invariant is kept by every state change:
  - record `i` has index `i`;
  - attributes are unique;
  - the issued map marks exactly the ledger's attributes;
  - each stored score is its attribute's score;
  - no address exceeds the limit.
- `scenarios.dfy`: call sequences on a fresh contract.

The host's services become explicit inputs:

- `my.getSender()` is the `caller` parameter.
- `my.getTxHash()` is the `txHash` parameter.
- Each `Storage` slot is a field.

A thrown error becomes a `Failure`/`Fail` result, and the state stays as it was before the call, because the host discards an aborted call's writes. This is why `OnContractDeploy` restores `owner` and `canMint` when its inner mint aborts.

## Model

| member | source | states |
|---|---|---|
| Utils.ParseHex2Int | contract/assembly/utils.ts:8-28 | Defined exactly on hex digits of either case. The value is below 16: the digit value for '0'-'9', and 10-15 for 'a'-'f' and 'A'-'F'. Any other character aborts (None). |
| Utils.ParseInt2Hex | contract/assembly/utils.ts:35-54 | Defined exactly below 16. The result is a lower-case hex digit, and it is a decimal digit exactly when the input is below 10. |
| Utils.HexRoundTrip | contract/assembly/utils.ts:8-54 | For every n < 16, decoding the encoding of n gives back n. |
| Utils.HexReverseRoundTrip | contract/assembly/utils.ts:11-26 | For every hex character, encoding its value gives its lower-case form. |
| Utils.NatToString | contract/assembly/index.ts:101-104 | `toString()` of an index or score is non-empty, all decimal digits, with no leading zero. |
| Utils.DecimalRoundTrip | contract/assembly/index.ts:101-104 | Reading the decimal form of n back gives n. |
| Utils.StringifyCollection | contract/assembly/utils.ts:61-70 | The result is "" exactly for a missing record. A present record gives a string wrapped in braces. |
| Utils.SerialisedIndexReadsBack | contract/assembly/utils.ts:69 | The serialisation starts with `{"index":`, then only decimal digits up to a comma. Those digits read back as the record's index. |
| Utils.StringifyCollections | contract/assembly/utils.ts:77-87 | The loop's result equals `CollectionsJson`. That function skips elements that serialise to "" and puts a comma before each written element except the one at input position 0. |
| Utils.CollectionsJsonBrackets | contract/assembly/utils.ts:78-86 | The output always starts with '[' and ends with ']'. An empty input gives "[]". |
| Utils.CollectionsJsonAllPresent | contract/assembly/utils.ts:77-87 | When every element is present, the output is the serialisations comma-joined in input order. `CommaJoin` is the reference definition. |
| Utils.ListBodyNonEmpty | contract/assembly/utils.ts:79-85 | For non-empty parts, the loop's body text equals the comma join. |
| Utils.CollectionsJsonSkippedFirst | contract/assembly/utils.ts:82-83 | A skipped first element still leaves a comma before the second: `[,{...}]`. |
| Attributes.Cardinality | contract/assembly/index.ts:45-51 | Each trait has 10 values, except background and frame, which have 12. |
| Attributes.ReduceChar | contract/assembly/index.ts:219-224 | Defined exactly on hex digits. The result is a lower-case hex digit whose value is the character's value modulo the trait's cardinality. |
| Attributes.ReduceWindow | contract/assembly/index.ts:218-227 | A window yields a candidate exactly when all its characters are hex digits. Position i of the candidate is the reduction of character i. |
| Attributes.UniqAttributeFrom | contract/assembly/index.ts:217-230 | A successful scan returns a well-formed attribute that is not issued. A failed scan aborts with an invalid hex digit or with exhaustion. |
| Attributes.UniqAttribute | contract/assembly/index.ts:208-231 | Same as UniqAttributeFrom, for the scan from offset 0 that `generateUniqAttribute` performs. |
| Attributes.UniqAttributeFromSkips | contract/assembly/index.ts:217-229 | Offsets whose candidate is already issued do not change the outcome of the scan. |
| Attributes.FirstStop | contract/assembly/index.ts:217-229 | The scan stops at the first offset that is not skipped, and the result is decided there. |
| Attributes.UniqAttributeIsFirstFree | contract/assembly/index.ts:217-228 | Generation returns `a` exactly when some offset k with k + 6 < length has candidate `a`, `a` is free, and every earlier offset was skipped. |
| Attributes.UniqAttributeExhausted | contract/assembly/index.ts:217-230 | Generation aborts for exhaustion exactly when every scanned offset was skipped. |
| Attributes.UniqAttributeInvalidHex | contract/assembly/index.ts:217-224 | Generation aborts for an invalid digit exactly when the first offset that is not skipped has a non-hex window. |
| Attributes.ShortHashExhausted | contract/assembly/index.ts:217 | A hash of at most 6 characters always aborts, because the last full window is never tried. |
| Attributes.WellFormedAttributeShape | contract/assembly/index.ts:46-51 | Each position of a generated attribute is a decimal digit, except that background and frame may also be 'a' or 'b'. |
| Attributes.ReducedHashExample | contract/assembly/index.ts:219-227 | Worked case: "ffffff0" yields "533555". |
| Attributes.IssuedCandidateSkippedExample | contract/assembly/index.ts:228 | Worked case: with "000000" issued, "00000012" yields "000001". |
| Attributes.LastWindowUnusedExample | contract/assembly/index.ts:217 | Worked case: a 7-character hash offers only offset 0, so with "000000" issued, "0000001" aborts. |
| Attributes.InvalidHexExample | contract/assembly/index.ts:219-224 | Worked case: a 'g' in the scanned window aborts generation. |
| Attributes.DigitValues | contract/assembly/index.ts:235-236 | Defined exactly when every character is a hex digit, with one decoded value per character. |
| Attributes.Score | contract/assembly/index.ts:234-246 | An attribute has a score exactly when all its characters are hex digits. |
| Attributes.WeightedSumPrefix | contract/assembly/index.ts:240-244 | One more digit adds its value times its position's weight. |
| Attributes.ScoreOfSixDigits | contract/assembly/index.ts:38-43 | The score of a six-digit attribute is the sum of digit times weight, with weights 330, 220, 220, 110, 100, 100. |
| Attributes.ScoreExamples | contract/assembly/index.ts:234-246 | "000000" scores 0 and "ffffff" scores 16200. |
| Attributes.ScoreBound | contract/assembly/index.ts:38-51 | A generated attribute scores at most 10600. |
| Contract.OwnedBy | contract/assembly/index.ts:173-185 | The caller's records are never more than the ledger's. |
| Contract.OwnedByAppend | contract/assembly/index.ts:177-181 | Appending a record extends the owner's list by that record exactly when the owner created it. |
| Contract.OwnedByMembers | contract/assembly/index.ts:179 | A record is returned exactly when it is in the ledger and `creator` created it. |
| Contract.OwnedByLedgerOrder | contract/assembly/index.ts:177-181 | Over a well-indexed ledger, the returned records are in strictly increasing index order. |
| Contract.AttributeSet | contract/assembly/index.ts:110-114 | Every ledger attribute is in the set. |
| Contract.AttributeSetOnlyLedger | contract/assembly/index.ts:110-114 | No other attribute is in the set. |
| Contract.AvailableIffAbsent | contract/assembly/index.ts:249-260 | When the issued map matches the ledger, an attribute is available exactly when no record carries it. |
| Contract.AppendKeepsIndices | contract/assembly/index.ts:98-110 | Appending the record with index = old length keeps record i at index i. |
| Contract.AppendKeepsIssued | contract/assembly/index.ts:110-114 | Appending a free attribute and marking it issued keeps attributes unique and the map matched to the ledger. |
| Contract.AppendKeepsScores | contract/assembly/index.ts:103-104 | Appending a consistent record keeps every stored score equal to its attribute's score. |
| Contract.AppendKeepsLimit | contract/assembly/index.ts:82-85 | Appending for a caller below the limit keeps every address within the limit. |
| Contract.AppendPreservesInvariant | contract/assembly/index.ts:95-114 | A successful mint's append keeps the whole ledger invariant. |
| Contract.StoredScoresBounded | contract/assembly/index.ts:104 | Under the invariant, every stored attribute has six characters and a score of at most 10600. |
| Contract.MintedRecord | contract/assembly/index.ts:98-104 | The minted record has index = ledger length, the caller as creator, the generated attribute, and that attribute's score (at most 10600). |
| Contract.CryptoFishContract.constructor | contract/assembly/index.ts:13-34 | The storage defaults are: owner "", canMint true, an empty ledger and an empty issued map. The invariant holds. |
| Contract.CryptoFishContract.OnContractDeploy | contract/assembly/index.ts:56-70 | A recorded owner means abort with nothing changed. Otherwise the caller becomes owner with minting on and the first mint runs; if that mint aborts, the state is rolled back. |
| Contract.CryptoFishContract.Mint | contract/assembly/index.ts:74-116 | At the limit or with minting off, it returns "null" and changes nothing; the owner is not exempt. Otherwise it aborts with nothing changed, or it appends exactly `MintedRecord`, marks the attribute issued and returns the record's serialisation. The invariant is kept. |
| Contract.CryptoFishContract.SetCanMint | contract/assembly/index.ts:120-124 | Only the owner changes the switch: to (flag != 0). Nothing else changes. |
| Contract.CryptoFishContract.IsAttributeAvailable | contract/assembly/index.ts:249-260 | Under the invariant, it is true exactly when no record carries the attribute. |
| Contract.CryptoFishContract.GenerateUniqAttribute | contract/assembly/index.ts:208-231 | The window-scanning loop returns exactly `UniqAttribute` of the hash and the issued map. |
| Contract.CryptoFishContract.CalculateScore | contract/assembly/index.ts:234-246 | The decode and accumulate loops return exactly `Score` of the attribute. |
| Contract.CryptoFishContract.GetCollectionByIndexPrivate | contract/assembly/index.ts:134-140 | A record is found exactly for indices below the count, and it is a ledger record. Under the invariant, its index is the one asked for, so it is the record at that position. |
| Contract.CryptoFishContract.GetCollectionByIndex | contract/assembly/index.ts:129-131 | The result is "" exactly past the end; otherwise it is that record's serialisation. |
| Contract.CryptoFishContract.GetCollectionCount | contract/assembly/index.ts:188-190 | Exactly the indices below the count hold a record. |
| Contract.CryptoFishContract.GetCollectionsPrivate | contract/assembly/index.ts:200-205 | The page `[skip, skip+limit)` clipped to the ledger. It is empty when skip >= length. Element i is ledger record skip+i. |
| Contract.CryptoFishContract.GetCollections | contract/assembly/index.ts:195-197 | The page's serialisations, comma-joined in ledger order, in brackets. |
| Contract.CryptoFishContract.GetCollectionByAttributePrivate | contract/assembly/index.ts:150-163 | Nothing is found exactly when the attribute is available. Otherwise the result is the first ledger record carrying it. |
| Contract.CryptoFishContract.GetCollectionByAttribute | contract/assembly/index.ts:145-147 | The result is "" exactly when the attribute is available. Otherwise it is the serialisation of a ledger record carrying it. |
| Contract.CryptoFishContract.GetOwnedCollectionsPrivate | contract/assembly/index.ts:173-185 | The filtering loop returns exactly the caller's records, in ledger order. |
| Contract.CryptoFishContract.GetOwnedCollections | contract/assembly/index.ts:168-170 | The caller's serialised records, comma-joined in ledger order, in brackets. |
| Scenarios.DeployFresh | contract/assembly/index.ts:56-70 | On a fresh contract, a deploy passes exactly when generation succeeds. It then leaves one record: index 0, created by the deployer. |
| Scenarios.DeployTwice | contract/assembly/index.ts:58-60 | After a deploy that passed with a non-empty deployer, a second deploy aborts. After one that aborted, a second deploy behaves like a first. |
| Scenarios.MintTwiceSameHash | contract/assembly/index.ts:95-115 | Two mints from the same hash get distinct attributes: the second takes the next free window. |

## Left out

- Logging (`log`, `printCollection`, `printCollections`) is diagnostic output only.
- `ruleHash` and `standard` are informational constants that no operation reads.
- The page size `limit` and `skip` of `getCollections` are `u32`, and `skip + limit` wraps at 2^32 in the source. The model uses unbounded naturals, so a page whose end would wrap is not modelled. Neither is a `skip` of 2^31 or more: `Array#slice` takes `i32` arguments, so such a value counts from the end of the ledger. (The per-address limit of 99999 records is a separate field and does not overflow.)
- `txHash.length - 6` is an `i32` in the source. With naturals, the loop guard is written as `k + 6 < |txHash|`, which agrees for every length.
- A record is a `Map<string,string>` in the source; here it is a record datatype. A map with a missing or empty `index` entry cannot be built by the contract, so the `!index` guard of `stringifyCollection` is modelled only through a missing record (`None`).
- The source traps (aborts) on an out-of-range ledger index and on a null record. Both are modelled as `None`, which serialises to "".
- Contract.CryptoFishContract.CalculateScore: for a position past the sixth, the model uses the default weight 100 (the `|| 100` fallback). AssemblyScript would trap reading the trait name. Only six-character attributes are ever scored, so no caller reaches this.
- Utils.ParseHex2Int takes one character. The source takes a string, but every caller passes one character of a split string. Upper-casing is modelled on ASCII letters only; no other character upper-cases to a hex digit.
- Utils.StringifyCollection: nothing is escaped, in the source or the model. A creator containing a quote can therefore make two different records serialise alike. The contract is stated as "starts with `{`, ends with `}`, and the index reads back", not as a full parse round trip.
- `isOwner` is the predicate `IsOwner`, used in the contract of `SetCanMint`; it has no row of its own.
- A deploy whose caller address is empty leaves `owner` as "" even when it passes, so `onContractDeploy` can run again and another caller becomes owner. This is the one case in which the owner is set more than once; the model behaves the same way, and `Scenarios.DeployTwice` states the refusal of a second deploy only for a non-empty deployer.
- Minting before deployment is possible (`canMint` defaults to true and the limit check passes); the model keeps this behaviour.
- The `web/` tree is presentation and wallet plumbing, and `web/.umirc.ts` is build configuration; neither is part of this model. `contract/assembly/types.ts` holds only type aliases, used for the record shape.
- Persistence, the host's `Storage`, `BaseContract` and the transaction rollback itself are outside the model. A rollback is modelled as "the state after the call equals the state before it".
