/**
 * The trait table, the attribute a transaction hash yields, and the score of
 * an attribute: the pure specification that the contract's attribute
 * generation and scoring loops are proved against.
 */
module Attributes {
  import opened Wrappers
  import opened Types
  import opened Utils

  // ---------------------------------------------------------------------------
  // Trait table (fixed when the contract object is constructed)
  // ---------------------------------------------------------------------------

  /** Number of traits, and so the number of characters of an attribute. */
  const AttributeLength: nat := 6

  /** Trait names in attribute order. */
  const TraitNames: seq<string> := ["skin", "background", "frame", "fin", "eye", "tail"]

  /** Each trait's value alphabet; only its length, the trait's cardinality, is used. */
  const TraitValues: seq<string> :=
    ["0123456789", "0123456789AB", "0123456789AB", "0123456789", "0123456789", "0123456789"]

  /** Each trait's weight in the score. */
  const TraitWeights: seq<nat> := [330, 220, 220, 110, 100, 100]

  /** The weight used for a position that has no trait. */
  const DefaultWeight: nat := 100

  /** The largest score a generated attribute can have: 9*330 + 11*220 + 11*220 + 9*110 + 9*100 + 9*100. */
  const MaxGeneratedScore: nat := 10600

  /** How many values trait `i` has: 12 for background and frame, 10 for the others. */
  function Cardinality(i: nat): (n: nat)
    requires i < AttributeLength
    ensures n == 10 || n == 12
    ensures n == 12 <==> i == 1 || i == 2
  {
    |TraitValues[i]|
  }

  /** The weight of position `i`: the trait's weight, or the default past the last trait. */
  function Weight(i: nat): nat
  {
    if i < |TraitNames| then TraitWeights[i] else DefaultWeight
  }

  // ---------------------------------------------------------------------------
  // Candidates
  // ---------------------------------------------------------------------------

  /** Position `i` of a candidate: the hash character's value reduced modulo the trait's cardinality, re-encoded. */
  function ReduceChar(c: char, i: nat): (r: Option<char>)
    requires i < AttributeLength
    ensures r.Some? <==> IsHexChar(c)
    ensures r.Some? ==> (IsLowerHexChar(r.value)
                         && ParseHex2Int(r.value) == Some(ParseHex2Int(c).value % Cardinality(i)))
  {
    match ParseHex2Int(c)
    case None => None
    case Some(v) =>
      HexRoundTrip(v % Cardinality(i));
      ParseInt2Hex(v % Cardinality(i))
  }

  /** The candidate a window of the hash yields, or None when one of its characters is not a hex digit. */
  function ReduceWindow(window: string): (r: Option<string>)
    requires |window| <= AttributeLength
    ensures r.Some? <==> forall i :: 0 <= i < |window| ==> IsHexChar(window[i])
    ensures r.Some? ==> (|r.value| == |window|
                         && forall i :: 0 <= i < |window| ==> ReduceChar(window[i], i) == Some(r.value[i]))
  {
    if |window| == 0 then Some("")
    else
      var last := |window| - 1;
      match ReduceWindow(window[..last])
      case None => None
      case Some(prefix) =>
        match ReduceChar(window[last], last)
        case None => None
        case Some(c) => Some(prefix + [c])
  }

  /** The candidate of the window at offset `k` of the transaction hash. */
  function Candidate(txHash: string, k: nat): Option<string>
    requires k + AttributeLength <= |txHash|
  {
    ReduceWindow(txHash[k..k + AttributeLength])
  }

  /** An attribute as the contract generates it: six lower-case hex digits, each below its trait's cardinality. */
  ghost predicate WellFormedAttribute(a: string)
  {
    |a| == AttributeLength
    && forall i :: 0 <= i < AttributeLength ==>
         IsLowerHexChar(a[i]) && ParseHex2Int(a[i]).value < Cardinality(i)
  }

  /** `isAttributeAvailable` on the issued-attribute map: not marked `true`. */
  predicate Available(issued: map<string, bool>, a: string)
  {
    !(a in issued && issued[a])
  }

  // ---------------------------------------------------------------------------
  // Generation
  // ---------------------------------------------------------------------------

  /** The scan from offset `k` on. Offsets run while `k < |txHash| - 6`, so the last full window is never tried. */
  function UniqAttributeFrom(txHash: string, issued: map<string, bool>, k: nat): (r: Result<string, Failure>)
    ensures r.Success? ==> WellFormedAttribute(r.value) && Available(issued, r.value)
    ensures r.Failure? ==> r.error == InvalidHexDigit || r.error == AttributeExhausted
    decreases |txHash| - k
  {
    if k + AttributeLength >= |txHash| then Failure(AttributeExhausted)
    else
      match Candidate(txHash, k)
      case None => Failure(InvalidHexDigit)
      case Some(a) =>
        if Available(issued, a) then Success(a) else UniqAttributeFrom(txHash, issued, k + 1)
  }

  /** The attribute `generateUniqAttribute` returns for this hash and issued map, or why it aborts. */
  function UniqAttribute(txHash: string, issued: map<string, bool>): (r: Result<string, Failure>)
    ensures r.Success? ==> WellFormedAttribute(r.value) && Available(issued, r.value)
    ensures r.Failure? ==> r.error == InvalidHexDigit || r.error == AttributeExhausted
  {
    UniqAttributeFrom(txHash, issued, 0)
  }

  /** Each character is reduced modulo its trait's cardinality: 'f' (15) becomes 5, or 3 for the two 12-valued traits. */
  lemma ReducedHashExample()
    ensures UniqAttribute("ffffff0", map[]) == Success("533555")
  {
    assert ReduceChar('f', 0) == Some('5') && ReduceChar('f', 1) == Some('3') && ReduceChar('f', 2) == Some('3');
    assert ReduceChar('f', 3) == Some('5') && ReduceChar('f', 4) == Some('5') && ReduceChar('f', 5) == Some('5');
    assert "ffffff0"[0..6] == "ffffff";
    WindowOfSix("ffffff", "533555");
    assert Candidate("ffffff0", 0) == Some("533555");
  }

  /** An issued candidate moves the scan one offset on. */
  lemma IssuedCandidateSkippedExample()
    ensures UniqAttribute("00000012", map["000000" := true]) == Success("000001")
  {
    var issued := map["000000" := true];
    ZeroWindows();
    assert "00000012"[0..6] == "000000" && "00000012"[1..7] == "000001";
    assert Candidate("00000012", 0) == Some("000000");
    assert Candidate("00000012", 1) == Some("000001");
    assert UniqAttributeFrom("00000012", issued, 1) == Success("000001");
  }

  /** The last full window is never tried: a seven-character hash offers only offset 0. */
  lemma LastWindowUnusedExample()
    ensures UniqAttribute("0000001", map["000000" := true]) == Failure(AttributeExhausted)
  {
    var issued := map["000000" := true];
    ZeroWindows();
    assert "0000001"[0..6] == "000000";
    assert Candidate("0000001", 0) == Some("000000");
    assert UniqAttributeFrom("0000001", issued, 1) == Failure(AttributeExhausted);
  }

  /** A character that is not a hex digit aborts generation. */
  lemma InvalidHexExample()
    ensures UniqAttribute("00g00012", map[]) == Failure(InvalidHexDigit)
  {
    assert "00g00012"[0..6] == "00g000";
    assert !IsHexChar("00g000"[2]);
    assert Candidate("00g00012", 0) == None;
  }

  lemma ZeroWindows()
    ensures ReduceWindow("000000") == Some("000000")
    ensures ReduceWindow("000001") == Some("000001")
  {
    assert forall i :: 0 <= i < AttributeLength ==> ReduceChar('0', i) == Some('0');
    assert ReduceChar('1', 5) == Some('1');
    WindowOfSix("000000", "000000");
    WindowOfSix("000001", "000001");
  }

  /** A six-character window reduces to the string of its characters' reductions. */
  lemma WindowOfSix(window: string, candidate: string)
    requires |window| == AttributeLength && |candidate| == AttributeLength
    requires forall i :: 0 <= i < AttributeLength ==> ReduceChar(window[i], i) == Some(candidate[i])
    ensures ReduceWindow(window) == Some(candidate)
  {
    forall i | 0 <= i < AttributeLength ensures IsHexChar(window[i]) {
      assert ReduceChar(window[i], i).Some?;
    }
    var r := ReduceWindow(window);
    forall i | 0 <= i < AttributeLength ensures r.value[i] == candidate[i] {
      assert ReduceChar(window[i], i) == Some(r.value[i]);
    }
    assert |r.value| == |candidate|;
    assert r.value == candidate;
  }

  /** The window at offset `k` is scanned and its candidate is already issued. */
  predicate Skipped(txHash: string, issued: map<string, bool>, k: nat)
  {
    k + AttributeLength < |txHash| && Candidate(txHash, k).Some? && !Available(issued, Candidate(txHash, k).value)
  }

  /** `a` is the candidate of offset `k`, it is free, and every earlier offset was skipped. */
  predicate FirstFreeAt(txHash: string, issued: map<string, bool>, k: nat, a: string)
  {
    k + AttributeLength < |txHash| && Candidate(txHash, k) == Some(a) && Available(issued, a)
    && forall j :: 0 <= j < k ==> Skipped(txHash, issued, j)
  }

  /** Skipped offsets do not change the outcome of the scan. */
  lemma {:induction false} UniqAttributeFromSkips(txHash: string, issued: map<string, bool>, s: nat, k: nat)
    requires s <= k
    requires forall j :: s <= j < k ==> Skipped(txHash, issued, j)
    ensures UniqAttributeFrom(txHash, issued, s) == UniqAttributeFrom(txHash, issued, k)
    decreases k - s
  {
    if s < k {
      assert Skipped(txHash, issued, s);
      UniqAttributeFromSkips(txHash, issued, s + 1, k);
    }
  }

  /** The scan from `s` stops at the first offset that is not skipped. */
  lemma {:induction false} FirstStop(txHash: string, issued: map<string, bool>, s: nat) returns (k: nat)
    ensures s <= k
    ensures forall j :: s <= j < k ==> Skipped(txHash, issued, j)
    ensures !Skipped(txHash, issued, k)
    ensures UniqAttributeFrom(txHash, issued, s) == UniqAttributeFrom(txHash, issued, k)
    decreases |txHash| - s
  {
    if Skipped(txHash, issued, s) {
      k := FirstStop(txHash, issued, s + 1);
    } else {
      k := s;
    }
  }

  /** Generation succeeds with `a` exactly when `a` is the free candidate of the first offset not skipped. */
  lemma UniqAttributeIsFirstFree(txHash: string, issued: map<string, bool>, a: string)
    ensures UniqAttribute(txHash, issued) == Success(a) <==> exists k: nat :: FirstFreeAt(txHash, issued, k, a)
  {
    var k := FirstStop(txHash, issued, 0);
    if UniqAttribute(txHash, issued) == Success(a) {
      assert FirstFreeAt(txHash, issued, k, a);
    }
    if exists k': nat :: FirstFreeAt(txHash, issued, k', a) {
      var k': nat :| FirstFreeAt(txHash, issued, k', a);
      UniqAttributeFromSkips(txHash, issued, 0, k');
    }
  }

  /** Generation aborts for lack of a free attribute exactly when every scanned offset is skipped. */
  lemma UniqAttributeExhausted(txHash: string, issued: map<string, bool>)
    ensures UniqAttribute(txHash, issued) == Failure(AttributeExhausted)
        <==> forall k: nat :: k + AttributeLength < |txHash| ==> Skipped(txHash, issued, k)
  {
    var k0 := FirstStop(txHash, issued, 0);
    if forall k: nat :: k + AttributeLength < |txHash| ==> Skipped(txHash, issued, k) {
      assert k0 + AttributeLength >= |txHash|;
    }
  }

  /** Generation aborts on a bad digit exactly when the first offset not skipped has a non-hex character in its window. */
  lemma UniqAttributeInvalidHex(txHash: string, issued: map<string, bool>)
    ensures UniqAttribute(txHash, issued) == Failure(InvalidHexDigit)
        <==> exists k: nat :: k + AttributeLength < |txHash| && Candidate(txHash, k).None?
                              && forall j :: 0 <= j < k ==> Skipped(txHash, issued, j)
  {
    var k := FirstStop(txHash, issued, 0);
    if exists k': nat :: k' + AttributeLength < |txHash| && Candidate(txHash, k').None?
                         && forall j :: 0 <= j < k' ==> Skipped(txHash, issued, j) {
      var k': nat :| k' + AttributeLength < |txHash| && Candidate(txHash, k').None?
                     && forall j :: 0 <= j < k' ==> Skipped(txHash, issued, j);
      UniqAttributeFromSkips(txHash, issued, 0, k');
    }
  }

  /** A hash of at most six characters never yields an attribute: the last full window is excluded. */
  lemma ShortHashExhausted(txHash: string, issued: map<string, bool>)
    requires |txHash| <= AttributeLength
    ensures UniqAttribute(txHash, issued) == Failure(AttributeExhausted)
  {
  }

  /** Skin, fin, eye and tail are decimal digits; background and frame are decimal digits, 'a' or 'b'. */
  lemma WellFormedAttributeShape(a: string)
    requires WellFormedAttribute(a)
    ensures forall i :: 0 <= i < AttributeLength ==>
              IsDecimalChar(a[i]) || ((i == 1 || i == 2) && (a[i] == 'a' || a[i] == 'b'))
  {
    forall i | 0 <= i < AttributeLength
      ensures IsDecimalChar(a[i]) || ((i == 1 || i == 2) && (a[i] == 'a' || a[i] == 'b'))
    {
      if !IsDecimalChar(a[i]) {
        assert 'a' <= a[i] <= 'f';
        assert Cardinality(i) == 12;
      }
    }
  }

  // ---------------------------------------------------------------------------
  // Score
  // ---------------------------------------------------------------------------

  /** The values of the characters of `s`, or None when one of them is not a hex digit. */
  function DigitValues(s: string): (r: Option<seq<nat>>)
    ensures r.Some? <==> forall i :: 0 <= i < |s| ==> IsHexChar(s[i])
    ensures r.Some? ==> |r.value| == |s| && forall i :: 0 <= i < |s| ==> ParseHex2Int(s[i]) == Some(r.value[i])
  {
    if |s| == 0 then Some([])
    else
      match DigitValues(s[..|s| - 1])
      case None => None
      case Some(ds) =>
        match ParseHex2Int(s[|s| - 1])
        case None => None
        case Some(d) => Some(ds + [d])
  }

  /** The sum of each value times its position's weight. */
  function WeightedSum(ds: seq<nat>): nat
  {
    if |ds| == 0 then 0 else WeightedSum(ds[..|ds| - 1]) + ds[|ds| - 1] * Weight(|ds| - 1)
  }

  /** The score `calculateScore` computes, or None when a character is not a hex digit. */
  function Score(attribute: string): (r: Option<nat>)
    ensures r.Some? <==> forall i :: 0 <= i < |attribute| ==> IsHexChar(attribute[i])
  {
    match DigitValues(attribute)
    case None => None
    case Some(ds) => Some(WeightedSum(ds))
  }

  lemma WeightedSumPrefix(ds: seq<nat>, k: nat)
    requires 0 < k <= |ds|
    ensures WeightedSum(ds[..k]) == WeightedSum(ds[..k - 1]) + ds[k - 1] * Weight(k - 1)
  {
    assert ds[..k][..k - 1] == ds[..k - 1];
  }

  /** The score of a six-digit attribute is its weighted digit sum with weights 330, 220, 220, 110, 100, 100. */
  lemma ScoreOfSixDigits(a: string)
    requires |a| == AttributeLength
    requires forall i :: 0 <= i < AttributeLength ==> IsHexChar(a[i])
    ensures Score(a) == Some(ParseHex2Int(a[0]).value * 330 + ParseHex2Int(a[1]).value * 220
                             + ParseHex2Int(a[2]).value * 220 + ParseHex2Int(a[3]).value * 110
                             + ParseHex2Int(a[4]).value * 100 + ParseHex2Int(a[5]).value * 100)
  {
    var ds := DigitValues(a).value;
    WeightedSumOfSix(ds);
  }

  lemma WeightedSumOfSix(ds: seq<nat>)
    requires |ds| == AttributeLength
    ensures WeightedSum(ds) == ds[0] * 330 + ds[1] * 220 + ds[2] * 220 + ds[3] * 110 + ds[4] * 100 + ds[5] * 100
  {
    assert ds[..6] == ds;
    WeightedSumPrefix(ds, 6);
    WeightedSumPrefix(ds, 5);
    WeightedSumPrefix(ds, 4);
    WeightedSumPrefix(ds, 3);
    WeightedSumPrefix(ds, 2);
    WeightedSumPrefix(ds, 1);
  }

  /** "000000" scores 0 and "ffffff" scores 15 * 1080 = 16200. */
  lemma ScoreExamples()
    ensures Score("000000") == Some(0)
    ensures Score("ffffff") == Some(16200)
  {
    ScoreOfSixDigits("000000");
    ScoreOfSixDigits("ffffff");
  }

  /** A well-formed attribute has a score, and it is at most 10600. */
  lemma ScoreBound(a: string)
    requires WellFormedAttribute(a)
    ensures Score(a).Some? && Score(a).value <= MaxGeneratedScore
  {
    ScoreOfSixDigits(a);
    assert forall i :: 0 <= i < AttributeLength ==> ParseHex2Int(a[i]).value <= Cardinality(i) - 1;
  }
}
