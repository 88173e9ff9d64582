/**
 * The contract's helpers: the single-hex-digit codec, the decimal form of a
 * number, and the JSON-like wire format of one record and of a list of records.
 */
module Utils {
  import opened Wrappers
  import opened Types

  // ---------------------------------------------------------------------------
  // Character classes
  // ---------------------------------------------------------------------------

  predicate IsDecimalChar(c: char) { '0' <= c <= '9' }

  /** A hex digit in either case. */
  predicate IsHexChar(c: char) { '0' <= c <= '9' || 'a' <= c <= 'f' || 'A' <= c <= 'F' }

  /** A hex digit as the contract writes them: digits and lower-case letters. */
  predicate IsLowerHexChar(c: char) { '0' <= c <= '9' || 'a' <= c <= 'f' }

  /** `toUpperCase` on one character. Only ASCII letters are mapped; no other
      character has an upper-case form that is a hex digit. */
  function ToUpperAscii(c: char): char
  {
    if 'a' <= c <= 'z' then (c as int - 32) as char else c
  }

  function ToLowerAscii(c: char): char
  {
    if 'A' <= c <= 'Z' then (c as int + 32) as char else c
  }

  // ---------------------------------------------------------------------------
  // Hex codec
  // ---------------------------------------------------------------------------

  /**
   * `parseHex2Int`: upper-cases its argument, then maps '0'..'9' to 0..9 and
   * 'A'..'F' to 10..15; anything else aborts (here: None).
   */
  function ParseHex2Int(hexWithCase: char): (r: Option<nat>)
    ensures r.Some? <==> IsHexChar(hexWithCase)
    ensures r.Some? ==> r.value < 16
    ensures IsDecimalChar(hexWithCase) ==> r == Some(hexWithCase as int - '0' as int)
    ensures 'a' <= hexWithCase <= 'f' ==> r == Some(hexWithCase as int - 'a' as int + 10)
    ensures 'A' <= hexWithCase <= 'F' ==> r == Some(hexWithCase as int - 'A' as int + 10)
  {
    var hex := ToUpperAscii(hexWithCase);
    if '0' <= hex <= '9' then Some(hex as int - '0' as int)
    else if hex == 'A' then Some(10)
    else if hex == 'B' then Some(11)
    else if hex == 'C' then Some(12)
    else if hex == 'D' then Some(13)
    else if hex == 'E' then Some(14)
    else if hex == 'F' then Some(15)
    else None
  }

  /**
   * `parseInt2Hex`: maps 0..9 to '0'..'9' and 10..15 to 'a'..'f'; anything
   * larger aborts (here: None).
   */
  function ParseInt2Hex(theInt: nat): (r: Option<char>)
    ensures r.Some? <==> theInt < 16
    ensures r.Some? ==> IsLowerHexChar(r.value)
    ensures r.Some? ==> (IsDecimalChar(r.value) <==> theInt < 10)
  {
    if theInt < 10 then Some(('0' as int + theInt) as char)
    else if theInt == 10 then Some('a')
    else if theInt == 11 then Some('b')
    else if theInt == 12 then Some('c')
    else if theInt == 13 then Some('d')
    else if theInt == 14 then Some('e')
    else if theInt == 15 then Some('f')
    else None
  }

  /** Every value below 16 survives encoding and decoding. */
  lemma HexRoundTrip(n: nat)
    requires n < 16
    ensures ParseInt2Hex(n).Some? && ParseHex2Int(ParseInt2Hex(n).value) == Some(n)
  {
    if n >= 10 {
      assert n == 10 || n == 11 || n == 12 || n == 13 || n == 14 || n == 15;
    }
  }

  /** Decoding then encoding a hex digit gives its lower-case form. */
  lemma HexReverseRoundTrip(c: char)
    requires IsHexChar(c)
    ensures ParseInt2Hex(ParseHex2Int(c).value) == Some(ToLowerAscii(c))
  {
    if 'a' <= c <= 'f' {
      assert c == 'a' || c == 'b' || c == 'c' || c == 'd' || c == 'e' || c == 'f';
    } else if 'A' <= c <= 'F' {
      assert c == 'A' || c == 'B' || c == 'C' || c == 'D' || c == 'E' || c == 'F';
    }
  }

  // ---------------------------------------------------------------------------
  // Decimal form of a number (`toString()` of an unsigned integer)
  // ---------------------------------------------------------------------------

  function DigitChar(d: nat): (c: char)
    requires d < 10
    ensures IsDecimalChar(c)
  {
    ('0' as int + d) as char
  }

  /** The decimal form of `n`: non-empty, digits only, no leading zero. */
  function NatToString(n: nat): (s: string)
    ensures |s| > 0
    ensures forall i :: 0 <= i < |s| ==> IsDecimalChar(s[i])
    ensures s[0] == '0' ==> n == 0
    decreases n
  {
    if n < 10 then [DigitChar(n)] else NatToString(n / 10) + [DigitChar(n % 10)]
  }

  /** The number a string of decimal digits denotes. */
  function DecimalValue(s: string): int
  {
    if |s| == 0 then 0 else DecimalValue(s[..|s| - 1]) * 10 + (s[|s| - 1] as int - '0' as int)
  }

  /** Reading back the decimal form of `n` gives `n`. */
  lemma {:induction false} DecimalRoundTrip(n: nat)
    ensures DecimalValue(NatToString(n)) == n
    decreases n
  {
    if n >= 10 {
      var prefix := NatToString(n / 10);
      assert (prefix + [DigitChar(n % 10)])[..|prefix|] == prefix;
      DecimalRoundTrip(n / 10);
    }
  }

  // ---------------------------------------------------------------------------
  // Wire format
  // ---------------------------------------------------------------------------

  /**
   * `stringifyCollection`: "" for a missing record, otherwise
   * {"index":<index>,"creator":"<creator>","attribute":"<attribute>","score":<score>}
   * with the two numbers unquoted. Nothing is escaped.
   */
  function StringifyCollection(collection: Option<Collection>): (r: string)
    ensures r == "" <==> collection.None?
    ensures collection.Some? ==> r[0] == '{' && r[|r| - 1] == '}'
  {
    match collection
    case None => ""
    case Some(c) =>
      "{\"index\":" + NatToString(c.index)
      + ",\"creator\":\"" + c.creator
      + "\",\"attribute\":\"" + c.attribute
      + "\",\"score\":" + NatToString(c.score) + "}"
  }

  /**
   * The index field of a serialised record reads back: after the 9-character
   * opening `{"index":` come only decimal digits, up to a comma, and their
   * value is the record's index.
   */
  lemma SerialisedIndexReadsBack(c: Collection)
    ensures var r := StringifyCollection(Some(c));
            var d := NatToString(c.index);
            9 + |d| < |r| && r[..9] == "{\"index\":" && r[9 + |d|] == ','
            && (forall i :: 9 <= i < 9 + |d| ==> IsDecimalChar(r[i]))
            && DecimalValue(r[9..9 + |d|]) == c.index
  {
    var d := NatToString(c.index);
    var rest := ",\"creator\":\"" + c.creator
      + "\",\"attribute\":\"" + c.attribute
      + "\",\"score\":" + NatToString(c.score) + "}";
    var r := StringifyCollection(Some(c));
    assert r == "{\"index\":" + d + rest;
    assert r[9..9 + |d|] == d;
    assert r[9 + |d|] == rest[0] == ',';
    DecimalRoundTrip(c.index);
  }

  /** The serialised form of each element, in order. */
  function Serialised(collections: seq<Option<Collection>>): (r: seq<string>)
    ensures |r| == |collections|
    ensures forall i :: 0 <= i < |r| ==> r[i] == StringifyCollection(collections[i])
  {
    seq(|collections|, i requires 0 <= i < |collections| => StringifyCollection(collections[i]))
  }

  /** Wraps each record as a present element. */
  function Present(records: seq<Collection>): (r: seq<Option<Collection>>)
    ensures |r| == |records|
    ensures forall i :: 0 <= i < |r| ==> r[i] == Some(records[i])
  {
    seq(|records|, i requires 0 <= i < |records| => Some(records[i]))
  }

  /**
   * What step `i` of `stringifyCollections` appends, given the serialised
   * elements: nothing for an element that serialised to "", otherwise that
   * string, preceded by a comma unless `i` is the first input position
   * (whether or not anything was written before it).
   */
  function ListPiece(parts: seq<string>, i: nat): string
    requires i < |parts|
  {
    if |parts[i]| > 0 then (if i == 0 then "" else ",") + parts[i] else ""
  }

  /** Everything `stringifyCollections` writes between the brackets. */
  function ListBody(parts: seq<string>): string
  {
    if |parts| == 0 then "" else ListBody(parts[..|parts| - 1]) + ListPiece(parts, |parts| - 1)
  }

  /** The string `stringifyCollections` returns. */
  function CollectionsJson(collections: seq<Option<Collection>>): string
  {
    "[" + ListBody(Serialised(collections)) + "]"
  }

  /** One more element extends the body by that element's piece. */
  lemma ListBodyStep(parts: seq<string>, i: nat)
    requires i < |parts|
    ensures ListBody(parts[..i + 1]) == ListBody(parts[..i]) + ListPiece(parts, i)
  {
    assert parts[..i + 1][..i] == parts[..i];
  }

  lemma ConcatAssoc(a: string, b: string, c: string)
    ensures a + b + c == a + (b + c)
  {
  }

  /** `stringifyCollections`: builds the result step by step, as the source does. */
  method StringifyCollections(collections: seq<Option<Collection>>) returns (r: string)
    ensures r == CollectionsJson(collections)
  {
    var result := "[";
    ghost var parts := Serialised(collections);
    for index := 0 to |collections|
      invariant result == "[" + ListBody(parts[..index])
    {
      var str := StringifyCollection(collections[index]);
      ghost var before := result;
      ListBodyStep(parts, index);
      if |str| > 0 {
        var separator := if index == 0 then "" else ",";
        result := result + separator + str;
        ConcatAssoc(before, separator, str);
      }
      ConcatAssoc("[", ListBody(parts[..index]), ListPiece(parts, index));
    }
    assert parts[..|collections|] == parts;
    r := result + "]";
  }

  /** Reference definition of a comma-separated list. */
  function CommaJoin(parts: seq<string>): string
  {
    if |parts| == 0 then ""
    else if |parts| == 1 then parts[0]
    else CommaJoin(parts[..|parts| - 1]) + "," + parts[|parts| - 1]
  }

  /** The serialised list always carries its brackets; the empty list is "[]". */
  lemma CollectionsJsonBrackets(collections: seq<Option<Collection>>)
    ensures var r := CollectionsJson(collections);
            |r| >= 2 && r[0] == '[' && r[|r| - 1] == ']'
    ensures collections == [] ==> CollectionsJson(collections) == "[]"
  {
  }

  /** When every element is present, the list is their comma-joined serialisations in input order. */
  lemma CollectionsJsonAllPresent(collections: seq<Option<Collection>>)
    requires forall i :: 0 <= i < |collections| ==> collections[i].Some?
    ensures CollectionsJson(collections) == "[" + CommaJoin(Serialised(collections)) + "]"
  {
    ListBodyNonEmpty(Serialised(collections));
  }

  /** Over non-empty parts the loop's output is the plain comma join. */
  lemma {:induction false} ListBodyNonEmpty(parts: seq<string>)
    requires forall i :: 0 <= i < |parts| ==> |parts[i]| > 0
    ensures ListBody(parts) == CommaJoin(parts)
    decreases |parts|
  {
    var n := |parts|;
    if n > 0 {
      ListBodyNonEmpty(parts[..n - 1]);
      if n == 1 {
        assert ListBody(parts[..0]) == "";
      }
    }
  }

  /** The quirk of the comma rule: a skipped first element still leaves a comma before the second. */
  lemma CollectionsJsonSkippedFirst(c: Collection)
    ensures CollectionsJson([None, Some(c)]) == "[," + StringifyCollection(Some(c)) + "]"
  {
    var parts := Serialised([None, Some(c)]);
    assert parts[..1][..0] == [];
    assert ListBody(parts[..1]) == "";
  }
}
