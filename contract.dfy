/**
 * The CryptoFish contract: the ledger of minted fish, the set of issued
 * attributes, the owner and the mint switch, and the calls that read and
 * change them. The caller's address and the transaction hash, which the host
 * supplies, are explicit parameters; each storage slot is a field.
 */
module Contract {
  import opened Wrappers
  import opened Types
  import opened Utils
  import opened Attributes

  /** The most records one address may create (`limit`). */
  const Limit: nat := 99999

  /** What `mint` returns when it produces no record. */
  const NullResult: string := "null"

  function Min(a: nat, b: nat): nat { if a <= b then a else b }

  // ---------------------------------------------------------------------------
  // The ledger as a value
  // ---------------------------------------------------------------------------

  /** The records created by `creator`, in ledger order. */
  function OwnedBy(cs: seq<Collection>, creator: string): (r: seq<Collection>)
    ensures |r| <= |cs|
  {
    if |cs| == 0 then []
    else OwnedBy(cs[..|cs| - 1], creator) + (if cs[|cs| - 1].creator == creator then [cs[|cs| - 1]] else [])
  }

  lemma OwnedByAppend(cs: seq<Collection>, c: Collection, creator: string)
    ensures OwnedBy(cs + [c], creator) == OwnedBy(cs, creator) + (if c.creator == creator then [c] else [])
  {
    assert (cs + [c])[..|cs|] == cs;
  }

  /** A record is returned exactly when it is in the ledger and was created by `creator`. */
  lemma {:induction false} OwnedByMembers(cs: seq<Collection>, creator: string)
    ensures forall c :: c in OwnedBy(cs, creator) <==> c in cs && c.creator == creator
    decreases |cs|
  {
    if |cs| > 0 {
      var front, last := cs[..|cs| - 1], cs[|cs| - 1];
      OwnedByMembers(front, creator);
      var extra := if last.creator == creator then [last] else [];
      assert OwnedBy(cs, creator) == OwnedBy(front, creator) + extra;
      assert cs == front + [last];
      forall c ensures c in OwnedBy(cs, creator) <==> c in cs && c.creator == creator {
        assert c in OwnedBy(cs, creator) <==> c in OwnedBy(front, creator) || c in extra;
        assert c in cs <==> c in front || c == last;
      }
    }
  }

  /** Over a well-indexed ledger, the records returned appear in strictly increasing index order. */
  lemma {:induction false} OwnedByLedgerOrder(cs: seq<Collection>, creator: string)
    requires IndicesSequential(cs)
    ensures forall i, j :: 0 <= i < j < |OwnedBy(cs, creator)| ==>
              OwnedBy(cs, creator)[i].index < OwnedBy(cs, creator)[j].index
    decreases |cs|
  {
    if |cs| > 0 {
      var front, last := cs[..|cs| - 1], cs[|cs| - 1];
      OwnedByLedgerOrder(front, creator);
      OwnedByMembers(front, creator);
      var prefix := OwnedBy(front, creator);
      forall i | 0 <= i < |prefix| ensures prefix[i].index < last.index {
        assert prefix[i] in front;
        var k :| 0 <= k < |front| && front[k] == prefix[i];
        assert cs[k] == front[k];
      }
      var r := OwnedBy(cs, creator);
      assert r == prefix + (if last.creator == creator then [last] else []);
      forall i, j | 0 <= i < j < |r| ensures r[i].index < r[j].index {
        if j < |prefix| {
          assert r[i] == prefix[i] && r[j] == prefix[j];
        } else {
          assert r[i] == prefix[i] && r[j] == last;
        }
      }
    }
  }

  /** The attributes of the records of `cs`. */
  function AttributeSet(cs: seq<Collection>): (r: set<string>)
    ensures forall i :: 0 <= i < |cs| ==> cs[i].attribute in r
  {
    if |cs| == 0 then {} else AttributeSet(cs[..|cs| - 1]) + {cs[|cs| - 1].attribute}
  }

  /** Only the ledger's attributes are in the set. */
  lemma {:induction false} AttributeSetOnlyLedger(cs: seq<Collection>, a: string)
    requires forall i :: 0 <= i < |cs| ==> cs[i].attribute != a
    ensures a !in AttributeSet(cs)
    decreases |cs|
  {
    if |cs| > 0 {
      AttributeSetOnlyLedger(cs[..|cs| - 1], a);
    }
  }

  /** I1: record `i` carries index `i`. */
  ghost predicate IndicesSequential(cs: seq<Collection>)
  {
    forall i :: 0 <= i < |cs| ==> cs[i].index == i
  }

  /** No two records share an attribute. */
  ghost predicate AttributesUnique(cs: seq<Collection>)
  {
    forall i, j :: 0 <= i < j < |cs| ==> cs[i].attribute != cs[j].attribute
  }

  /** I2: the issued map marks exactly the ledger's attributes, each with `true`. */
  ghost predicate IssuedMatchesLedger(cs: seq<Collection>, issued: map<string, bool>)
  {
    issued.Keys == AttributeSet(cs) && forall a :: a in issued ==> issued[a]
  }

  /** The record's attribute is one the generator can produce, and its score is that attribute's score. */
  ghost predicate RecordConsistent(c: Collection)
  {
    WellFormedAttribute(c.attribute) && Score(c.attribute) == Some(c.score)
  }

  /** I3: every stored record is consistent. */
  ghost predicate ScoresConsistent(cs: seq<Collection>)
  {
    forall i {:trigger RecordConsistent(cs[i])} :: 0 <= i < |cs| ==> RecordConsistent(cs[i])
  }

  /** I5: no address has created more than `Limit` records. */
  ghost predicate WithinMintLimit(cs: seq<Collection>)
  {
    forall a :: |OwnedBy(cs, a)| <= Limit
  }

  ghost predicate LedgerInvariant(cs: seq<Collection>, issued: map<string, bool>)
  {
    IndicesSequential(cs) && AttributesUnique(cs) && IssuedMatchesLedger(cs, issued)
    && ScoresConsistent(cs) && WithinMintLimit(cs)
  }

  /** Under I2 an attribute is available exactly when no record carries it. */
  lemma AvailableIffAbsent(cs: seq<Collection>, issued: map<string, bool>, a: string)
    ensures IssuedMatchesLedger(cs, issued) ==>
              (Available(issued, a) <==> forall i :: 0 <= i < |cs| ==> cs[i].attribute != a)
  {
    if forall i :: 0 <= i < |cs| ==> cs[i].attribute != a {
      AttributeSetOnlyLedger(cs, a);
    }
  }

  lemma AppendKeepsIndices(cs: seq<Collection>, c: Collection)
    requires IndicesSequential(cs) && c.index == |cs|
    ensures IndicesSequential(cs + [c])
  {
    var cs' := cs + [c];
    forall i | 0 <= i < |cs'| ensures cs'[i].index == i {
      if i < |cs| { assert cs'[i] == cs[i]; }
    }
  }

  lemma AppendKeepsIssued(cs: seq<Collection>, issued: map<string, bool>, c: Collection)
    requires IssuedMatchesLedger(cs, issued) && Available(issued, c.attribute)
    ensures AttributesUnique(cs) ==> AttributesUnique(cs + [c])
    ensures IssuedMatchesLedger(cs + [c], issued[c.attribute := true])
  {
    var cs' := cs + [c];
    assert cs'[..|cs|] == cs;
    AvailableIffAbsent(cs, issued, c.attribute);
    if AttributesUnique(cs) {
      forall i, j | 0 <= i < j < |cs'| ensures cs'[i].attribute != cs'[j].attribute {
        assert cs'[i] == cs[i];
      }
    }
    assert AttributeSet(cs') == AttributeSet(cs) + {c.attribute};
  }

  lemma AppendKeepsScores(cs: seq<Collection>, c: Collection)
    requires ScoresConsistent(cs)
    requires RecordConsistent(c)
    ensures ScoresConsistent(cs + [c])
  {
    var cs' := cs + [c];
    forall i | 0 <= i < |cs'| ensures RecordConsistent(cs'[i]) {
      if i < |cs| { assert cs'[i] == cs[i]; }
    }
  }

  lemma AppendKeepsLimit(cs: seq<Collection>, c: Collection)
    requires WithinMintLimit(cs) && |OwnedBy(cs, c.creator)| < Limit
    ensures WithinMintLimit(cs + [c])
  {
    forall a ensures |OwnedBy(cs + [c], a)| <= Limit {
      OwnedByAppend(cs, c, a);
    }
  }

  /** Appending the record a successful mint builds keeps every ledger invariant. */
  lemma AppendPreservesInvariant(cs: seq<Collection>, issued: map<string, bool>, c: Collection)
    requires LedgerInvariant(cs, issued)
    requires c.index == |cs|
    requires Available(issued, c.attribute)
    requires WellFormedAttribute(c.attribute) && Score(c.attribute) == Some(c.score)
    requires |OwnedBy(cs, c.creator)| < Limit
    ensures LedgerInvariant(cs + [c], issued[c.attribute := true])
  {
    AppendKeepsIndices(cs, c);
    AppendKeepsIssued(cs, issued, c);
    AppendKeepsScores(cs, c);
    AppendKeepsLimit(cs, c);
  }

  /** Every stored record is a six-digit attribute whose score is at most 10600. */
  lemma StoredScoresBounded(cs: seq<Collection>, issued: map<string, bool>)
    requires LedgerInvariant(cs, issued)
    ensures forall i :: 0 <= i < |cs| ==> |cs[i].attribute| == AttributeLength && cs[i].score <= MaxGeneratedScore
  {
    forall i | 0 <= i < |cs| ensures |cs[i].attribute| == AttributeLength && cs[i].score <= MaxGeneratedScore {
      assert RecordConsistent(cs[i]);
      ScoreBound(cs[i].attribute);
    }
  }

  /** The record a mint by `caller` appends to `cs` when the generator yields `a`. */
  function MintedRecord(cs: seq<Collection>, caller: string, a: string): (c: Collection)
    requires WellFormedAttribute(a)
    ensures c.index == |cs| && c.creator == caller && c.attribute == a
    ensures Score(a) == Some(c.score) && c.score <= MaxGeneratedScore
  {
    ScoreBound(a);
    Collection(|cs|, caller, a, Score(a).value)
  }

  // ---------------------------------------------------------------------------
  // The contract object
  // ---------------------------------------------------------------------------

  class CryptoFishContract {
    /** The deployer's address; "" until `onContractDeploy` runs. */
    var owner: string
    /** Whether `mint` may create records. */
    var canMint: bool
    /** The ledger, in index order. */
    var collections: seq<Collection>
    /** Issued attributes, each marked `true`. */
    var collectionAttributeMap: map<string, bool>

    ghost predicate Valid()
      reads this
    {
      LedgerInvariant(collections, collectionAttributeMap)
    }

    /** Genesis state: the storage slots' defaults. */
    constructor ()
      ensures Valid()
      ensures owner == "" && canMint && collections == [] && collectionAttributeMap == map[]
    {
      owner := "";
      canMint := true;
      collections := [];
      collectionAttributeMap := map[];
    }

    /** `isOwner`. */
    predicate IsOwner(caller: string)
      reads this
    {
      owner == caller
    }

    /** Whether `mint` by `caller` returns "null" without creating anything. */
    predicate MintBlocked(caller: string)
      reads this
    {
      |OwnedBy(collections, caller)| >= Limit || !canMint
    }

    // -------------------------------------------------------------------------
    // Write path
    // -------------------------------------------------------------------------

    /**
     * `onContractDeploy`: aborts when an owner is recorded; otherwise records
     * the caller as owner, switches minting on and mints the caller's first
     * fish. When that mint aborts, the whole call is rolled back.
     */
    method OnContractDeploy(caller: string, txHash: string) returns (r: Outcome<Failure>)
      requires Valid()
      modifies this
      ensures Valid()
      ensures |old(owner)| > 0 ==>
                r == Fail(AlreadyDeployed) && owner == old(owner) && canMint == old(canMint)
                && collections == old(collections) && collectionAttributeMap == old(collectionAttributeMap)
      ensures |old(owner)| == 0 && |OwnedBy(old(collections), caller)| >= Limit ==>
                r == Pass && owner == caller && canMint
                && collections == old(collections) && collectionAttributeMap == old(collectionAttributeMap)
      ensures |old(owner)| == 0 && |OwnedBy(old(collections), caller)| < Limit ==>
                match UniqAttribute(txHash, old(collectionAttributeMap))
                case Failure(e) =>
                  r == Fail(e) && owner == old(owner) && canMint == old(canMint)
                  && collections == old(collections) && collectionAttributeMap == old(collectionAttributeMap)
                case Success(a) =>
                  r == Pass && owner == caller && canMint
                  && collections == old(collections) + [MintedRecord(old(collections), caller, a)]
                  && collectionAttributeMap == old(collectionAttributeMap)[a := true]
    {
      if |owner| > 0 {
        return Fail(AlreadyDeployed);
      }
      var previousOwner, previousCanMint := owner, canMint;
      owner := caller;
      SetCanMint(caller, 1);
      var minted := Mint(caller, txHash);
      if minted.Failure? {
        // the host discards every write of a call that aborts
        owner, canMint := previousOwner, previousCanMint;
        return Fail(minted.error);
      }
      r := Pass;
    }

    /**
     * `mint`: returns "null" when the caller already has `Limit` records or
     * minting is off (checked in that order, for every caller, the owner
     * included); otherwise appends a record with the next index, the caller,
     * the generated attribute and its score, marks the attribute issued and
     * returns the record's serialisation. Aborts when generation aborts.
     */
    method Mint(caller: string, txHash: string) returns (r: Result<string, Failure>)
      requires Valid()
      modifies this
      ensures Valid()
      ensures owner == old(owner) && canMint == old(canMint)
      ensures old(MintBlocked(caller)) ==>
                r == Success(NullResult) && collections == old(collections)
                && collectionAttributeMap == old(collectionAttributeMap)
      ensures !old(MintBlocked(caller)) ==>
                match UniqAttribute(txHash, old(collectionAttributeMap))
                case Failure(e) =>
                  r == Failure(e) && collections == old(collections)
                  && collectionAttributeMap == old(collectionAttributeMap)
                case Success(a) =>
                  var c := MintedRecord(old(collections), caller, a);
                  r == Success(StringifyCollection(Some(c)))
                  && collections == old(collections) + [c]
                  && collectionAttributeMap == old(collectionAttributeMap)[a := true]
    {
      var owned := GetOwnedCollectionsPrivate(caller);
      var ownedCount := |owned|;
      var mintEnabled := canMint;
      if ownedCount >= Limit {
        return Success(NullResult);
      }
      if !mintEnabled {
        return Success(NullResult);
      }
      var generated := GenerateUniqAttribute(txHash);
      if generated.Failure? {
        return Failure(generated.error);
      }
      var attribute := generated.value;
      var index := |collections|;
      ScoreBound(attribute);
      var score := CalculateScore(attribute);
      var collection := Collection(index, caller, attribute, score.value);
      AppendPreservesInvariant(collections, collectionAttributeMap, collection);
      collections := collections + [collection];
      collectionAttributeMap := collectionAttributeMap[attribute := true];
      r := Success(StringifyCollection(Some(collection)));
    }

    /** `setCanMint`: the owner switches minting on (any non-zero flag) or off; anyone else changes nothing. */
    method SetCanMint(caller: string, canMintFlag: nat)
      requires Valid()
      modifies this
      ensures Valid()
      ensures canMint == if old(IsOwner(caller)) then canMintFlag != 0 else old(canMint)
      ensures owner == old(owner) && collections == old(collections)
              && collectionAttributeMap == old(collectionAttributeMap)
    {
      if IsOwner(caller) {
        canMint := canMintFlag != 0;
      }
    }

    // -------------------------------------------------------------------------
    // Attribute generation and scoring
    // -------------------------------------------------------------------------

    /** `isAttributeAvailable`: under the invariant, true exactly when no record carries the attribute. */
    function IsAttributeAvailable(attribute: string): (r: bool)
      reads this
      ensures Valid() ==> (r <==> forall i :: 0 <= i < |collections| ==> collections[i].attribute != attribute)
    {
      AvailableIffAbsent(collections, collectionAttributeMap, attribute);
      Available(collectionAttributeMap, attribute)
    }

    /**
     * `generateUniqAttribute`: slides a six-character window along the hash,
     * reduces each character modulo its trait's cardinality and returns the
     * first candidate not yet issued.
     */
    method GenerateUniqAttribute(txHash: string) returns (r: Result<string, Failure>)
      ensures r == UniqAttribute(txHash, collectionAttributeMap)
    {
      var index := 0;
      while index + AttributeLength < |txHash|
        invariant UniqAttributeFrom(txHash, collectionAttributeMap, index) == UniqAttribute(txHash, collectionAttributeMap)
        decreases |txHash| - index
      {
        var window := txHash[index..index + AttributeLength];
        var attribute := "";
        for i := 0 to AttributeLength
          invariant |attribute| == i
          invariant forall j :: 0 <= j < i ==> ReduceChar(window[j], j) == Some(attribute[j])
        {
          var digit := ParseHex2Int(window[i]);
          if digit.None? {
            return Failure(InvalidHexDigit);
          }
          var reduced := ParseInt2Hex(digit.value % Cardinality(i));
          attribute := attribute + [reduced.value];
        }
        assert forall j :: 0 <= j < AttributeLength ==> IsHexChar(window[j]);
        assert ReduceWindow(window).value == attribute;
        if IsAttributeAvailable(attribute) {
          return Success(attribute);
        }
        index := index + 1;
      }
      return Failure(AttributeExhausted);
    }

    /** `calculateScore`: decodes every character, then accumulates value times weight. */
    method CalculateScore(attribute: string) returns (r: Option<nat>)
      ensures r == Score(attribute)
    {
      var values: seq<nat> := [];
      for index := 0 to |attribute|
        invariant DigitValues(attribute[..index]) == Some(values)
      {
        assert attribute[..index + 1][..index] == attribute[..index];
        var value := ParseHex2Int(attribute[index]);
        if value.None? {
          return None;
        }
        values := values + [value.value];
      }
      assert attribute[..|attribute|] == attribute;
      var score := 0;
      for index := 0 to |values|
        invariant score == WeightedSum(values[..index])
      {
        WeightedSumPrefix(values, index + 1);
        score := score + values[index] * Weight(index);
      }
      assert values[..|values|] == values;
      return Some(score);
    }

    // -------------------------------------------------------------------------
    // Read path
    // -------------------------------------------------------------------------

    /** `getCollectionByIndexPrivate`: the record at `index`, None past the end. */
    function GetCollectionByIndexPrivate(index: nat): (r: Option<Collection>)
      reads this
      ensures r.Some? <==> index < |collections|
      ensures r.Some? ==> r.value in collections
      ensures Valid() && r.Some? ==> r.value.index == index
    {
      if index < |collections| then Some(collections[index]) else None
    }

    /** `getCollectionByIndex`: the record's serialisation, "" past the end. */
    function GetCollectionByIndex(index: nat): (r: string)
      reads this
      ensures r == "" <==> index >= |collections|
      ensures index < |collections| ==> r == StringifyCollection(Some(collections[index]))
    {
      StringifyCollection(GetCollectionByIndexPrivate(index))
    }

    /** `getCollectionCount`: exactly the indices below it hold a record. */
    function GetCollectionCount(): (n: nat)
      reads this
      ensures forall i: nat :: GetCollectionByIndexPrivate(i).Some? <==> i < n
    {
      |collections|
    }

    /** `getCollectionsPrivate`: the page `[skip, skip + limit)` clipped to the ledger. */
    function GetCollectionsPrivate(limit: nat, skip: nat): (r: seq<Collection>)
      reads this
      ensures skip >= |collections| ==> r == []
      ensures skip < |collections| ==> |r| == Min(limit, |collections| - skip)
      ensures forall i :: 0 <= i < |r| ==> r[i] == collections[skip + i]
      ensures Valid() ==> forall i :: 0 <= i < |r| ==> r[i].index == skip + i
    {
      if skip >= |collections| then [] else collections[skip..Min(skip + limit, |collections|)]
    }

    /** `getCollections`: the page, serialised as a comma-separated list. */
    method GetCollections(limit: nat, skip: nat) returns (r: string)
      ensures r == "[" + CommaJoin(Serialised(Present(GetCollectionsPrivate(limit, skip)))) + "]"
    {
      var page := GetCollectionsPrivate(limit, skip);
      r := StringifyCollections(Present(page));
      CollectionsJsonAllPresent(Present(page));
    }

    /** `getCollectionByAttributePrivate`: the first record carrying `attribute`, None when there is none. */
    method GetCollectionByAttributePrivate(attribute: string) returns (r: Option<Collection>)
      requires Valid()
      ensures r.None? <==> IsAttributeAvailable(attribute)
      ensures r.Some? ==> r.value.index < |collections| && collections[r.value.index] == r.value
                          && r.value.attribute == attribute
      ensures r.Some? ==> forall j :: 0 <= j < r.value.index ==> collections[j].attribute != attribute
    {
      for index := 0 to |collections|
        invariant forall j :: 0 <= j < index ==> collections[j].attribute != attribute
      {
        var current := collections[index];
        if current.attribute == attribute {
          AvailableIffAbsent(collections, collectionAttributeMap, attribute);
          return Some(current);
        }
      }
      AvailableIffAbsent(collections, collectionAttributeMap, attribute);
      return None;
    }

    /** `getCollectionByAttribute`: that record's serialisation, "" when the attribute is not issued. */
    method GetCollectionByAttribute(attribute: string) returns (r: string)
      requires Valid()
      ensures r == "" <==> IsAttributeAvailable(attribute)
      ensures r != "" ==> exists i :: 0 <= i < |collections| && collections[i].attribute == attribute
                                      && r == StringifyCollection(Some(collections[i]))
    {
      var found := GetCollectionByAttributePrivate(attribute);
      r := StringifyCollection(found);
    }

    /** `getOwnedCollectionsPrivate`: the caller's records, in ledger order. */
    method GetOwnedCollectionsPrivate(caller: string) returns (r: seq<Collection>)
      ensures r == OwnedBy(collections, caller)
    {
      var owned: seq<Collection> := [];
      for index := 0 to |collections|
        invariant owned == OwnedBy(collections[..index], caller)
      {
        assert collections[..index + 1][..index] == collections[..index];
        var collection := collections[index];
        if collection.creator != caller {
          continue;
        }
        owned := owned + [collection];
      }
      assert collections[..|collections|] == collections;
      r := owned;
    }

    /** `getOwnedCollections`: the caller's records, serialised as a comma-separated list. */
    method GetOwnedCollections(caller: string) returns (r: string)
      ensures r == "[" + CommaJoin(Serialised(Present(OwnedBy(collections, caller)))) + "]"
    {
      var owned := GetOwnedCollectionsPrivate(caller);
      r := StringifyCollections(Present(owned));
      CollectionsJsonAllPresent(Present(owned));
    }
  }
}
