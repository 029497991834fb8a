/**
  The Unicode encoding forms: UTF-8 (section 3 of RFC 3629), UTF-16 (section 2.1 of RFC 2781)
  and UTF-32, as functions of the encoded characters.
 */
module Unicode {
  import opened Basics

  datatype Form = U8 | U16 | U32

  predicate IsScalar(v: nat) {
    v <= 0x10FFFF && !(0xD800 <= v <= 0xDFFF)
  }

  type scalar = v: nat | v <= 0x10FFFF && !(0xD800 <= v <= 0xDFFF)

  /** The UTF-8 bit distribution; also what it makes of a surrogate. */
  function Utf8(v: nat): (r: seq<nat>)
    requires v <= 0x10FFFF
    ensures 1 <= |r| <= 4
  {
    if v < 0x80 then [v]
    else if v < 0x800 then [0xC0 + v / 0x40, 0x80 + v % 0x40]
    else if v < 0x10000 then [0xE0 + v / 0x1000, 0x80 + v / 0x40 % 0x40, 0x80 + v % 0x40]
    else [0xF0 + v / 0x40000, 0x80 + v / 0x1000 % 0x40, 0x80 + v / 0x40 % 0x40, 0x80 + v % 0x40]
  }

  function Utf16(v: nat): (r: seq<nat>)
    requires v <= 0x10FFFF
    ensures 1 <= |r| <= 2
  {
    if v < 0x10000 then [v]
    else [0xD800 + (v - 0x10000) / 0x400, 0xDC00 + (v - 0x10000) % 0x400]
  }

  function Units(form: Form, v: nat): (r: seq<nat>)
    requires v <= 0x10FFFF
    ensures 1 <= |r| <= MaxUnits(form)
  {
    match form
    case U8 => Utf8(v)
    case U16 => Utf16(v)
    case U32 => [v]
  }

  function MaxUnits(form: Form): nat {
    match form
    case U8 => 4
    case U16 => 2
    case U32 => 1
  }

  /** The encoding of a text. */
  function Encoded(form: Form, vs: seq<scalar>): seq<nat> {
    if vs == [] then [] else Units(form, vs[0]) + Encoded(form, vs[1..])
  }

  lemma {:induction false} EncodedConcat(form: Form, a: seq<scalar>, b: seq<scalar>)
    ensures Encoded(form, a + b) == Encoded(form, a) + Encoded(form, b)
  {
    hide Units;
    if a == [] {
      assert a + b == b;
    } else {
      EncodedConcat(form, a[1..], b);
      var x, y, z := Units(form, a[0]), Encoded(form, a[1..]), Encoded(form, b);
      assert (a + b)[1..] == a[1..] + b && (a + b)[0] == a[0];
      assert Encoded(form, a + b) == x + (y + z);
      assert x + (y + z) == (x + y) + z;
    }
  }

  /** Reading a number back from its digits of six bits. */
  lemma Digits(a: nat, b: nat, c: nat, d: nat)
    requires b < 0x40 && c < 0x40 && d < 0x40
    ensures var v := a * 0x40000 + b * 0x1000 + c * 0x40 + d;
      v / 0x40000 == a && v / 0x1000 % 0x40 == b && v / 0x40 % 0x40 == c && v % 0x40 == d
  {
    var v := a * 0x40000 + b * 0x1000 + c * 0x40 + d;
    DivModUnique(v, a * 0x1000 + b * 0x40 + c, d, 0x40);
    DivModUnique(v / 0x40, a * 0x40 + b, c, 0x40);
    DivModUnique(v, a * 0x40 + b, c * 0x40 + d, 0x1000);
    DivModUnique(v / 0x1000, a, b, 0x40);
    DivModUnique(v, a, b * 0x1000 + c * 0x40 + d, 0x40000);
  }
}
