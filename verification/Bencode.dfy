/**
  Bencoded values (BEP 3) and their canonical encoding.
 */
module Bencode {
  import opened Basics

  datatype Value =
    | Int(n: int)
    | Str(s: string)
    | List(items: seq<Value>)
    | Dict(entries: seq<Pair>)

  datatype Pair = Pair(key: string, val: Value)

  // ---------------------------------------------------------------------------------------
  // Decimal numbers
  // ---------------------------------------------------------------------------------------

  predicate IsDigit(c: char) {
    '0' <= c <= '9'
  }

  function DigitChar(d: nat): (c: char)
    requires d < 10
    ensures IsDigit(c) && c as int - '0' as int == d
  {
    (d + '0' as int) as char
  }

  function DigitValue(c: char): (d: nat)
    requires IsDigit(c)
    ensures d < 10
  {
    c as int - '0' as int
  }

  function Decimal(n: nat): (r: string)
    ensures |r| > 0
  {
    if n < 10 then [DigitChar(n)] else Decimal(n / 10) + [DigitChar(n % 10)]
  }

  /** The number that a string of digits, read after the value `acc`, stands for. */
  function Number(s: string, acc: nat): nat
    requires forall i :: 0 <= i < |s| ==> IsDigit(s[i])
    decreases s
  {
    if s == [] then acc else Number(s[1..], acc * 10 + DigitValue(s[0]))
  }

  lemma {:induction false} DecimalDigits(n: nat)
    ensures forall i :: 0 <= i < |Decimal(n)| ==> IsDigit(Decimal(n)[i])
  {
    if n >= 10 {
      DecimalDigits(n / 10);
    }
  }

  lemma {:induction false} NumberSnoc(s: string, c: char, acc: nat)
    requires (forall i :: 0 <= i < |s| ==> IsDigit(s[i])) && IsDigit(c)
    ensures Number(s + [c], acc) == Number(s, acc) * 10 + DigitValue(c)
    decreases s
  {
    if s == [] {
      assert Number([c][1..], acc * 10 + DigitValue(c)) == acc * 10 + DigitValue(c);
    } else {
      NumberSnoc(s[1..], c, acc * 10 + DigitValue(s[0]));
      assert (s + [c])[1..] == s[1..] + [c];
    }
  }

  /** Printing and reading a number. */
  lemma {:induction false} NumberOfDecimal(n: nat)
    ensures forall i :: 0 <= i < |Decimal(n)| ==> IsDigit(Decimal(n)[i])
    ensures Number(Decimal(n), 0) == n
  {
    DecimalDigits(n);
    if n < 10 {
      assert Number([DigitChar(n)][1..], n) == n;
    } else {
      NumberOfDecimal(n / 10);
      NumberSnoc(Decimal(n / 10), DigitChar(n % 10), 0);
    }
  }

  lemma {:induction false} DecimalLength(n: nat, k: nat, bound: nat)
    requires n < bound && bound == Power10(k) && k > 0
    ensures |Decimal(n)| <= k
    decreases k
  {
    if n >= 10 {
      DecimalLength(n / 10, k - 1, Power10(k - 1));
    }
  }

  function Power10(k: nat): (r: nat)
    ensures r > 0
  {
    if k == 0 then 1 else 10 * Power10(k - 1)
  }

  lemma TwentyDigits(n: nat)
    requires n <= 0x1_0000_0000_0000_0000
    ensures |Decimal(n)| <= 20
  {
    assert Power10(4) == 10000;
    assert Power10(8) == 10000 * Power10(4);
    assert Power10(12) == 10000 * Power10(8);
    assert Power10(16) == 10000 * Power10(12);
    assert Power10(20) == 10000 * Power10(16);
    DecimalLength(n, 20, Power10(20));
  }

  function Abs(n: int): nat {
    if n < 0 then -n else n
  }

  function Signed(n: int): string {
    if n < 0 then "-" + Decimal(-n) else Decimal(n)
  }

  // ---------------------------------------------------------------------------------------
  // The encoding
  // ---------------------------------------------------------------------------------------

  function EncodeStr(s: string): string {
    Decimal(|s|) + ":" + s
  }

  function Encode(v: Value): (r: string)
    ensures |r| >= 2
    decreases v, 1
  {
    match v
    case Int(n) => "i" + Signed(n) + "e"
    case Str(s) => EncodeStr(s)
    case List(items) => "l" + EncodeItems(items) + "e"
    case Dict(entries) => "d" + EncodeEntries(entries) + "e"
  }

  function EncodeItems(items: seq<Value>): string
    decreases items, 0
  {
    if items == [] then "" else Encode(items[0]) + EncodeItems(items[1..])
  }

  function EncodeEntries(entries: seq<Pair>): string
    decreases entries, 0
  {
    if entries == [] then ""
    else EncodeStr(entries[0].key) + Encode(entries[0].val) + EncodeEntries(entries[1..])
  }

  // ---------------------------------------------------------------------------------------
  // How large a value is
  // ---------------------------------------------------------------------------------------

  /** The number of lists and dictionaries around the most nested place in the value. */
  function Nesting(v: Value): nat
    decreases v, 1
  {
    match v
    case Int(_) => 0
    case Str(_) => 0
    case List(items) => 1 + ItemsNesting(items)
    case Dict(entries) => 1 + EntriesNesting(entries)
  }

  function ItemsNesting(items: seq<Value>): nat
    decreases items, 0
  {
    if items == [] then 0 else Max(Nesting(items[0]), ItemsNesting(items[1..]))
  }

  function EntriesNesting(entries: seq<Pair>): nat
    decreases entries, 0
  {
    if entries == [] then 0 else Max(Nesting(entries[0].val), EntriesNesting(entries[1..]))
  }

  /** The number of entries of the longest list or dictionary in the value. */
  function Width(v: Value): nat
    decreases v, 1
  {
    match v
    case Int(_) => 0
    case Str(_) => 0
    case List(items) => Max(|items|, ItemsWidth(items))
    case Dict(entries) => Max(|entries|, EntriesWidth(entries))
  }

  function ItemsWidth(items: seq<Value>): nat
    decreases items, 0
  {
    if items == [] then 0 else Max(Width(items[0]), ItemsWidth(items[1..]))
  }

  function EntriesWidth(entries: seq<Pair>): nat
    decreases entries, 0
  {
    if entries == [] then 0 else Max(Width(entries[0].val), EntriesWidth(entries[1..]))
  }

  /** The number of values in the value, itself included; keys do not count. */
  function Count(v: Value): (c: nat)
    ensures c >= 1
    decreases v, 1
  {
    match v
    case Int(_) => 1
    case Str(_) => 1
    case List(items) => 1 + ItemsCount(items)
    case Dict(entries) => 1 + EntriesCount(entries)
  }

  function ItemsCount(items: seq<Value>): nat
    decreases items, 0
  {
    if items == [] then 0 else Count(items[0]) + ItemsCount(items[1..])
  }

  function EntriesCount(entries: seq<Pair>): nat
    decreases entries, 0
  {
    if entries == [] then 0 else Count(entries[0].val) + EntriesCount(entries[1..])
  }

  /** A list has no more entries than there are values. */
  lemma {:induction false} WidthWithin(v: Value)
    ensures Width(v) < Count(v)
    decreases v, 1
  {
    match v
    case Int(_) =>
    case Str(_) =>
    case List(items) => ItemsWidthWithin(items);
    case Dict(entries) => EntriesWidthWithin(entries);
  }

  lemma {:induction false} ItemsWidthWithin(items: seq<Value>)
    ensures ItemsWidth(items) <= ItemsCount(items) && |items| <= ItemsCount(items)
    decreases items, 0
  {
    if items != [] {
      WidthWithin(items[0]);
      ItemsWidthWithin(items[1..]);
    }
  }

  lemma {:induction false} EntriesWidthWithin(entries: seq<Pair>)
    ensures EntriesWidth(entries) <= EntriesCount(entries) && |entries| <= EntriesCount(entries)
    decreases entries, 0
  {
    if entries != [] {
      WidthWithin(entries[0].val);
      EntriesWidthWithin(entries[1..]);
    }
  }
}
