/**
  Reading a number in base 16 the way `strtoll` does: blanks, a sign, a prefix and digits, one
  character after the other, so that what a text means can be followed while it grows.
 */
module HexNumber {
  import opened Basics

  /** C's white space: blank, tab, line feed, vertical tab, form feed and carriage return. */
  predicate IsSpace(c: char) {
    c == ' ' || 9 <= c as int <= 13
  }

  /** The value of a digit, or -1. */
  function HexDigit(c: char): (d: int)
    ensures -1 <= d < 16
  {
    if '0' <= c <= '9' then c as int - '0' as int
    else if 'a' <= c <= 'f' then c as int - 'a' as int + 10
    else if 'A' <= c <= 'F' then c as int - 'A' as int + 10
    else -1
  }

  /** How far reading has come: only blanks, a sign, one zero, a prefix, digits, or the number is over. */
  datatype Reading =
    | Blank
    | Signed(neg: bool)
    | Zero(neg: bool)
    | Prefixed(neg: bool)
    | Digits(neg: bool, n: nat)
    | Stopped(value: int)

  function Saturated(neg: bool, n: nat): (v: int)
    ensures v == 0 <==> n == 0
  {
    if neg then (if n > MAX64 then -MAX64 - 1 else -(n as int)) else if n > MAX64 then MAX64 else n
  }

  /** The number, if the text ends here. */
  function Value(r: Reading): int {
    match r
    case Digits(neg, n) => Saturated(neg, n)
    case Stopped(v) => v
    case _ => 0
  }

  function Begin(neg: bool, c: char): Reading {
    if c == '0' then Zero(neg) else if HexDigit(c) >= 0 then Digits(neg, HexDigit(c)) else Stopped(0)
  }

  function Step(r: Reading, c: char): Reading {
    match r
    case Blank => if IsSpace(c) then Blank else if c == '+' || c == '-' then Signed(c == '-') else Begin(false, c)
    case Signed(neg) => Begin(neg, c)
    case Zero(neg) =>
      if c == 'x' || c == 'X' then Prefixed(neg) else if HexDigit(c) >= 0 then Digits(neg, HexDigit(c)) else Stopped(0)
    case Prefixed(neg) => if HexDigit(c) >= 0 then Digits(neg, HexDigit(c)) else Stopped(0)
    case Digits(neg, n) => if HexDigit(c) >= 0 then Digits(neg, 16 * n + HexDigit(c)) else Stopped(Saturated(neg, n))
    case Stopped(_) => r
  }

  function Read(r: Reading, t: string): Reading {
    if t == "" then r else Step(Read(r, t[..|t| - 1]), t[|t| - 1])
  }

  /** strtoll(t, 0, 16), when what follows the text in memory does not go on with the number. */
  function Strtoll16(t: string): int {
    Value(Read(Blank, t))
  }

  lemma {:induction false} ReadConcat(r: Reading, a: string, b: string)
    ensures Read(r, a + b) == Read(Read(r, a), b)
  {
    if b == "" {
      assert a + b == a;
    } else {
      assert (a + b)[..|a + b| - 1] == a + b[..|b| - 1];
      ReadConcat(r, a, b[..|b| - 1]);
    }
  }

  lemma {:induction false} ReadStopped(v: int, t: string)
    ensures Read(Stopped(v), t) == Stopped(v)
  {
    if t != "" {
      ReadStopped(v, t[..|t| - 1]);
    }
  }

  /** Blanks are passed over, and only blanks. */
  lemma {:induction false} ReadBlanks(t: string)
    ensures Read(Blank, t) == Blank <==> forall c :: c in t ==> IsSpace(c)
  {
    if t != "" {
      var rest, last := t[..|t| - 1], t[|t| - 1];
      assert t == rest + [last];
      ReadBlanks(rest);
    }
  }

  /** A line break ends a number that has begun. */
  lemma LineEnds(t: string)
    ensures Read(Blank, t + "\n").Stopped? <==> exists c :: c in t && !IsSpace(c)
    ensures !Read(Blank, t + "\n").Stopped? ==> Read(Blank, t + "\n") == Blank
  {
    assert (t + "\n")[..|t|] == t;
    ReadBlanks(t);
  }

  // ---------------------------------------------------------------------------------------
  // While the text grows
  // ---------------------------------------------------------------------------------------

  function Size(r: Reading): int {
    var v := Value(r);
    if v < 0 then -v else v
  }

  /** A number that is not zero does not shrink, and grows if another digit follows. */
  lemma {:induction false} OnlyGrows(r: Reading, t: string)
    ensures Size(r) <= Size(Read(r, t))
    ensures Value(r) != 0 ==> (Value(r) < 0 <==> Value(Read(r, t)) < 0)
    ensures Value(r) != 0 && Value(Read(r, t)) != Value(r) ==> Size(Read(r, t)) >= 16
  {
    if t != "" {
      OnlyGrows(r, t[..|t| - 1]);
    }
  }

  lemma StepsFromZero(r: Reading, c: char)
    requires Value(r) == 0 && Value(Step(r, c)) != 0
    ensures 0 < Size(Step(r, c)) < 16 && HexDigit(c) > 0
  {
  }

  /** Where a number stops being zero: one digit has been read then, and no line break since the blanks. */
  lemma {:induction false} FirstDigit(r: Reading, t: string) returns (k: nat)
    requires Value(r) == 0 && Value(Read(r, t)) != 0
    ensures k < |t| && Value(Read(r, t[..k])) == 0 && 0 < Size(Read(r, t[..k + 1])) < 16
    ensures HexDigit(t[k]) > 0
  {
    hide Step, HexDigit, Value, Size;
    var rest := t[..|t| - 1];
    if Value(Read(r, rest)) == 0 {
      k := |rest|;
      StepsFromZero(Read(r, rest), t[k]);
      assert t[..k + 1] == t;
    } else {
      k := FirstDigit(r, rest);
      assert rest[..k] == t[..k] && rest[..k + 1] == t[..k + 1];
    }
  }

  // ---------------------------------------------------------------------------------------
  // Writing
  // ---------------------------------------------------------------------------------------

  /** The number that hexadecimal digits of either case stand for. */
  function HexValue(ds: string): nat {
    if ds == "" then 0
    else 16 * HexValue(ds[..|ds| - 1]) + if HexDigit(ds[|ds| - 1]) >= 0 then HexDigit(ds[|ds| - 1]) else 0
  }

  predicate AreHexDigits(ds: string) {
    ds != "" && forall i :: 0 <= i < |ds| ==> HexDigit(ds[i]) >= 0
  }

  function HexChar(d: nat): (c: char)
    requires d < 16
    ensures HexDigit(c) == d
  {
    if d < 10 then (d + '0' as int) as char else (d - 10 + 'a' as int) as char
  }

  function Hex(n: nat): (ds: string)
    ensures AreHexDigits(ds)
  {
    if n < 16 then [HexChar(n)] else Hex(n / 16) + [HexChar(n % 16)]
  }

  lemma {:induction false} HexValueOfHex(n: nat)
    ensures HexValue(Hex(n)) == n
  {
    if n < 16 {
      assert Hex(n)[..0] == "";
    } else {
      HexValueOfHex(n / 16);
      assert Hex(n)[..|Hex(n)| - 1] == Hex(n / 16);
    }
  }

  /** Digits are read as the number they stand for. */
  lemma {:induction false} ReadDigits(ds: string)
    requires AreHexDigits(ds)
    ensures
      var r := Read(Blank, ds);
      (ds == "0" && r == Zero(false)) || (ds != "0" && r == Digits(false, HexValue(ds)))
  {
    var rest := ds[..|ds| - 1];
    if rest == "" {
      assert ds == [ds[0]];
      assert HexValue(rest) == 0 && Read(Blank, rest) == Blank;
    } else {
      ReadDigits(rest);
      if rest == "0" {
        assert rest[..0] == "" && HexValue(rest) == 0;
      }
    }
  }

  /** Reading digits inverts writing them, whatever follows that is no digit and does not make a prefix. */
  lemma ReadsBack(ds: string, c: char, rest: string)
    requires AreHexDigits(ds) && HexValue(ds) <= MAX64 && HexDigit(c) < 0 && c != 'x' && c != 'X'
    ensures Strtoll16(ds + ([c] + rest)) == HexValue(ds)
  {
    ReadDigits(ds);
    ReadConcat(Blank, ds, [c] + rest);
    ReadConcat(Read(Blank, ds), [c], rest);
    assert [c][..0] == "";
    if ds == "0" {
      assert ds[..0] == "" && HexValue(ds) == 0;
    }
    ReadStopped(HexValue(ds), rest);
  }
}
