/**
  Printing an integer of 64 bits into a character buffer, and the round trip with the lazy
  decoder's reading of integers.
 */
module EntryInteger {
  import opened Basics
  import opened Bencode
  import opened LazyBdecode
  import opened LazyBdecodeProof

  function DigitOf(v: int): char {
    ('0' as int + Remainder(v, 10)) as char
  }

  /** The characters that the printing loop writes for a number; digits if it is positive. */
  function Digits(v: int): string
    decreases Abs(v)
  {
    if v == 0 then "" else Digits(Quotient(v, 10)) + [DigitOf(v)]
  }

  /** What is printed when there is room for `room` characters: leading digits are dropped. */
  function Printed(val: int64, room: nat): string
    requires room >= 1
  {
    if val == 0 then "0"
    else if val < 0 then "-" + Last(Digits(Negate(val)), room - 1)
    else Last(Digits(val), room)
  }

  function Last(s: string, n: nat): string {
    if |s| <= n then s else s[|s| - n..]
  }

  lemma DigitsStep(v: int, tail: string)
    requires v != 0
    ensures Digits(v) + tail == Digits(Quotient(v, 10)) + ([DigitOf(v)] + tail)
  {
  }

  lemma DigitsEnd(v: int)
    ensures Digits(v) == "" <==> v == 0
  {
  }

  /** The digits of `v`, written backwards from `end` and no further than `low`. */
  method PutDigits(buf: array<char>, low: nat, end: nat, v: int) returns (start: nat)
    requires low <= end <= buf.Length
    modifies buf
    ensures low <= start <= end && buf[start..end] == Last(Digits(v), end - low)
    ensures forall k :: 0 <= k < buf.Length && (k < start || end <= k) ==> buf[k] == old(buf[k])
  {
    hide Digits, DigitOf, Quotient;
    var left := v;
    start := end;
    while start > low && left != 0
      invariant low <= start <= end
      invariant Digits(v) == Digits(left) + buf[start..end]
      invariant forall k :: 0 <= k < buf.Length && (k < start || end <= k) ==> buf[k] == old(buf[k])
      decreases start
    {
      ghost var tail := buf[start..end];
      start := start - 1;
      buf[start] := DigitOf(left);
      assert buf[start..end] == [DigitOf(left)] + tail;
      DigitsStep(left, tail);
      left := Quotient(left, 10);
    }
    DigitsEnd(left);
  }

  method IntegerToStr(buf: array<char>, size: nat, val: int64) returns (start: nat)
    requires 2 <= size <= buf.Length
    modifies buf
    ensures start < size && buf[size - 1] == '\0'
    ensures buf[start..size - 1] == Printed(val, size - 1)
    ensures forall k :: 0 <= k < start || size <= k < buf.Length ==> buf[k] == old(buf[k])
  {
    hide Digits;
    var left: int64 := val;
    var sign := 0;
    if left < 0 {
      sign := 1;
      left := Negate(left);
    }
    start := size - 1;
    buf[start] := '\0';
    if left == 0 {
      start := start - 1;
      buf[start] := '0';
      return;
    }
    start := PutDigits(buf, sign, start, left);
    if sign == 1 {
      ghost var tail := buf[start..size - 1];
      start := start - 1;
      buf[start] := '-';
      assert buf[start..size - 1] == "-" + tail;
    }
  }

  // ---------------------------------------------------------------------------------------
  // The round trip
  // ---------------------------------------------------------------------------------------

  lemma {:induction false} DigitsOfPositive(n: nat)
    requires n > 0
    ensures Digits(n) == Decimal(n)
  {
    if n >= 10 {
      DigitsOfPositive(n / 10);
    } else {
      assert Digits(Quotient(n, 10)) == "";
    }
  }

  lemma NineteenDigits(n: nat)
    requires n <= MAX64
    ensures |Decimal(n)| <= 19
  {
    assert Power10(4) == 10000;
    assert Power10(8) == 10000 * Power10(4);
    assert Power10(12) == 10000 * Power10(8);
    assert Power10(16) == 10000 * Power10(12);
    assert Power10(19) == 1000 * Power10(16);
    DecimalLength(n, 19, Power10(19));
  }

  /** With the buffer of 21 characters that its users have, every number but one is printed in full. */
  lemma PrintsInFull(val: int64, room: nat)
    requires room >= 20
    ensures val != MIN64 ==> Printed(val, room) == Signed(val)
  {
    hide Decimal, Digits;
    if val > 0 {
      DigitsOfPositive(val);
      NineteenDigits(val);
    } else if MIN64 < val < 0 {
      DigitsOfPositive(-val);
      NineteenDigits(-val);
    } else if val == 0 {
      assert Decimal(0) == "0" by { DecimalZero(); }
    }
  }

  lemma DecimalZero()
    ensures Decimal(0) == "0"
  {
  }

  /** A negative number is never printed with digits. */
  lemma {:induction false} DigitsOfNegative(v: int)
    requires v < 0
    ensures Digits(v) != "" && Digits(v)[0] < '0'
    decreases -v
  {
    if v <= -10 {
      DigitsOfNegative(Quotient(v, 10));
    } else {
      assert Digits(Quotient(v, 10)) == "";
    }
  }

  lemma {:induction false} DigitsLength(v: int, k: nat)
    requires Abs(v) < Power10(k)
    ensures |Digits(v)| <= k
    decreases k
  {
    if v != 0 {
      DigitsLength(Quotient(v, 10), k - 1);
    }
  }

  /**
    Printing a number and reading it with the lazy decoder: every 64-bit number comes back,
    except the smallest, which is printed as characters that are no digits and read as zero.
   */
  lemma PrintThenRead(val: int64, room: nat)
    requires room >= 20
    ensures var text := Printed(val, room);
      IntValue(text + "e", 0, |text|) == if val == MIN64 then 0 else val
  {
    hide Printed, Decimal, Digits, ParsedInt;
    var text := Printed(val, room);
    if val != MIN64 {
      PrintsInFull(val, room);
      ReadsSigned(val);
    } else {
      PrintedMin(room);
      ReadsNothing(text);
    }
  }

  lemma PrintedMin(room: nat)
    requires room >= 20
    ensures var text := Printed(MIN64, room);
      |text| >= 2 && text[0] == '-' && text[1] < '0'
  {
    hide Digits;
    assert Power10(4) == 10000;
    assert Power10(8) == 10000 * Power10(4);
    assert Power10(12) == 10000 * Power10(8);
    assert Power10(16) == 10000 * Power10(12);
    assert Power10(19) == 1000 * Power10(16);
    DigitsLength(MIN64, 19);
    DigitsOfNegative(MIN64);
  }

  lemma ReadsSigned(n: int)
    ensures IntValue(Signed(n) + "e", 0, |Signed(n)|) == Wrap64(n)
  {
    ReadsSignedAt(Signed(n) + "e", 0, n);
  }

  lemma ReadsNothing(text: string)
    requires |text| >= 2 && text[0] == '-' && text[1] < '0'
    ensures IntValue(text + "e", 0, |text|) == 0
  {
  }
}
