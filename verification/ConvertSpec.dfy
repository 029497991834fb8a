/**
  What one conversion step and one whole conversion call do, and what that means for text.
 */
module ConvertSpec {
  import opened Unicode

  datatype ConversionResult = ConversionOK | SourceExhausted | TargetExhausted | SourceIllegal

  const REPLACEMENT_CHAR := 0xFFFD

  predicate IsHighSurrogate(u: nat) { 0xD800 <= u <= 0xDBFF }
  predicate IsLowSurrogate(u: nat) { 0xDC00 <= u <= 0xDFFF }
  predicate IsSurrogate(u: nat) { 0xD800 <= u <= 0xDFFF }

  /** How many bytes should follow a first byte. */
  function TrailingBytes(b: nat): (n: nat)
    ensures n <= 5
  {
    if b < 0xC0 then 0 else if b < 0xE0 then 1 else if b < 0xF0 then 2
    else if b < 0xF8 then 3 else if b < 0xFC then 4 else 5
  }

  predicate IsTrail(b: nat) { 0x80 <= b <= 0xBF }

  /** The check of the second byte, which depends on the first. */
  predicate IsLegalSecond(first: nat, a: nat) {
    && a <= 0xBF
    && (if first == 0xE0 then a >= 0xA0
        else if first == 0xED then a <= 0x9F
        else if first == 0xF0 then a >= 0x90
        else if first == 0xF4 then a <= 0x8F
        else a >= 0x80)
  }

  /** isLegalUTF8: `s` holds exactly the bytes that are looked at. */
  predicate IsLegalUTF8(s: seq<nat>) {
    && 1 <= |s| <= 4
    && (|s| == 4 ==> IsTrail(s[3]))
    && (|s| >= 3 ==> IsTrail(s[2]))
    && (|s| >= 2 ==> IsLegalSecond(s[0], s[1]))
    && !(0x80 <= s[0] < 0xC2)
    && s[0] <= 0xF4
  }

  /** The number that the bytes of a sequence add up to, each shifted over the next. */
  function Accumulate(s: seq<nat>): nat {
    if s == [] then 0
    else Accumulate(s[..|s| - 1]) * 0x40 + s[|s| - 1]
  }

  function Offset(extra: nat): nat
    requires extra <= 3
  {
    if extra == 0 then 0 else if extra == 1 then 0x3080 else if extra == 2 then 0xE2080 else 0x3C82080
  }

  /** The number of bytes is the one that the first byte calls for. */
  predicate RightLength(s: seq<nat>) {
    s != [] && |s| == TrailingBytes(s[0]) + 1
  }

  /**
    After 0xED and 0xF4 the test of the second byte has an upper bound only: these sequences
    pass it although their second byte is not a trailing byte.
   */
  predicate Overlooked(s: seq<nat>) {
    && RightLength(s) && |s| >= 3
    && (s[0] == 0xED || s[0] == 0xF4)
    && s[1] < 0x80
    && forall k :: 2 <= k < |s| ==> IsTrail(s[k])
  }

  lemma AccumulateOf(s: seq<nat>)
    ensures |s| == 1 ==> Accumulate(s) == s[0]
    ensures |s| == 2 ==> Accumulate(s) == s[0] * 0x40 + s[1]
    ensures |s| == 3 ==> Accumulate(s) == s[0] * 0x1000 + s[1] * 0x40 + s[2]
    ensures |s| == 4 ==> Accumulate(s) == s[0] * 0x40000 + s[1] * 0x1000 + s[2] * 0x40 + s[3]
  {
    if 1 <= |s| <= 4 {
      AccumulateOf(s[..|s| - 1]);
    }
  }

  /** What a sequence that passes the test decodes to. */
  function Decode8(s: seq<nat>): (v: nat)
    requires RightLength(s) && IsLegalUTF8(s)
    ensures IsScalar(v)
  {
    hide Accumulate;
    AccumulateOf(s);
    Accumulate(s) - Offset(|s| - 1)
  }

  lemma Decode8Digits(s: seq<nat>)
    requires RightLength(s) && IsLegalUTF8(s)
    ensures |s| == 1 ==> Decode8(s) == s[0]
    ensures |s| == 2 ==> Decode8(s) == (s[0] - 0xC0) * 0x40 + s[1] - 0x80
    ensures |s| == 3 ==> Decode8(s) == (s[0] - 0xE0) * 0x1000 + (s[1] as int - 0x80) * 0x40 + s[2] - 0x80
    ensures |s| == 4 ==>
      Decode8(s) == (s[0] - 0xF0) * 0x40000 + (s[1] as int - 0x80) * 0x1000 + (s[2] - 0x80) * 0x40 + s[3] - 0x80
  {
    AccumulateOf(s);
  }

  /** The character an overlooked sequence is taken for: the digits are those of an encoding, but one is negative. */
  function OverlookedValue(s: seq<nat>): (v: nat)
    requires Overlooked(s)
    ensures IsScalar(v)
  {
    if |s| == 3 then 0xD000 + (s[1] as int - 0x80) * 0x40 + s[2] - 0x80
    else 0x100000 + (s[1] as int - 0x80) * 0x1000 + (s[2] - 0x80) * 0x40 + s[3] - 0x80
  }

  lemma LegalDecodes(s: seq<nat>)
    requires RightLength(s) && IsLegalUTF8(s) && !Overlooked(s)
    ensures Utf8(Decode8(s)) == s
  {
    hide Decode8, IsLegalUTF8, RightLength, Overlooked, Utf8;
    Decode8Digits(s);
    LegalBytes(s);
    if |s| == 1 {
      OneByte(s[0]);
    } else if |s| == 2 {
      TwoBytes(s[0] - 0xC0, s[1] - 0x80);
    } else if |s| == 3 {
      ThreeBytes(s[0] - 0xE0, s[1] - 0x80, s[2] - 0x80);
    } else {
      FourBytes(s[0] - 0xF0, s[1] - 0x80, s[2] - 0x80, s[3] - 0x80);
    }
  }

  /** What the test allows, apart from the sequences that it overlooks. */
  lemma LegalBytes(s: seq<nat>)
    requires RightLength(s) && IsLegalUTF8(s) && !Overlooked(s)
    ensures 1 <= |s| <= 4 && forall k :: 1 <= k < |s| ==> IsTrail(s[k])
    ensures |s| == 1 ==> s[0] < 0x80
    ensures |s| == 2 ==> 0xC2 <= s[0] < 0xE0
    ensures |s| == 3 ==> 0xE0 <= s[0] < 0xF0 && (s[0] == 0xE0 ==> s[1] >= 0xA0)
    ensures |s| == 4 ==>
      0xF0 <= s[0] <= 0xF4 && (s[0] == 0xF0 ==> s[1] >= 0x90) && (s[0] == 0xF4 ==> s[1] < 0x90)
  {
  }

  lemma OneByte(v: nat)
    requires v < 0x80
    ensures Utf8(v) == [v]
  {
  }

  lemma TwoBytes(c: nat, d: nat)
    requires 2 <= c < 0x20 && d < 0x40
    ensures Utf8(c * 0x40 + d) == [0xC0 + c, 0x80 + d]
  {
    Digits(0, 0, c, d);
  }

  lemma ThreeBytes(b: nat, c: nat, d: nat)
    requires b < 0x10 && c < 0x40 && d < 0x40 && (b == 0 ==> c >= 0x20)
    ensures Utf8(b * 0x1000 + c * 0x40 + d) == [0xE0 + b, 0x80 + c, 0x80 + d]
  {
    Digits(0, b, c, d);
  }

  lemma FourBytes(a: nat, b: nat, c: nat, d: nat)
    requires a <= 4 && b < 0x40 && c < 0x40 && d < 0x40 && (a == 0 ==> b >= 0x10) && (a == 4 ==> b < 0x10)
    ensures Utf8(a * 0x40000 + b * 0x1000 + c * 0x40 + d) == [0xF0 + a, 0x80 + b, 0x80 + c, 0x80 + d]
  {
    Digits(a, b, c, d);
  }

  lemma EncodedIsLegal(v: nat)
    requires IsScalar(v)
    ensures RightLength(Utf8(v)) && IsLegalUTF8(Utf8(v)) && !Overlooked(Utf8(v))
  {
  }

  lemma EncodedDecodes(v: nat)
    requires IsScalar(v)
    ensures RightLength(Utf8(v)) && IsLegalUTF8(Utf8(v)) && Decode8(Utf8(v)) == v
  {
    hide Decode8, IsLegalUTF8, RightLength;
    EncodedIsLegal(v);
    Decode8Digits(Utf8(v));
    Quotients(v);
  }

  lemma Quotients(v: nat)
    ensures v == v / 0x40 * 0x40 + v % 0x40
    ensures v / 0x40 == v / 0x1000 * 0x40 + v / 0x40 % 0x40
    ensures v / 0x1000 == v / 0x40000 * 0x40 + v / 0x1000 % 0x40
  {
  }

  ghost predicate IsEncoded8(s: seq<nat>) {
    exists v: nat :: IsScalar(v) && Utf8(v) == s
  }

  /**
    The sequences that the legality test accepts are those of section 4 of RFC 3629 and the
    overlooked ones, when it is given as many bytes as the first one calls for.
   */
  lemma LegalIff(s: seq<nat>)
    requires RightLength(s)
    ensures IsLegalUTF8(s) <==> IsEncoded8(s) || Overlooked(s)
    ensures !(IsEncoded8(s) && Overlooked(s))
  {
    hide Utf8;
    if IsLegalUTF8(s) && !Overlooked(s) {
      LegalDecodes(s);
      assert IsScalar(Decode8(s));
    }
    if v: nat :| IsScalar(v) && Utf8(v) == s {
      EncodedIsLegal(v);
    }
  }

  /** The grammar of section 4 of RFC 3629, rule by rule. */
  predicate IsGrammar(s: seq<nat>) {
    || (|s| == 1 && s[0] <= 0x7F)
    || (|s| == 2 && 0xC2 <= s[0] <= 0xDF && IsTrail(s[1]))
    || (|s| == 3 && s[0] == 0xE0 && 0xA0 <= s[1] <= 0xBF && IsTrail(s[2]))
    || (|s| == 3 && 0xE1 <= s[0] <= 0xEC && IsTrail(s[1]) && IsTrail(s[2]))
    || (|s| == 3 && s[0] == 0xED && 0x80 <= s[1] <= 0x9F && IsTrail(s[2]))
    || (|s| == 3 && 0xEE <= s[0] <= 0xEF && IsTrail(s[1]) && IsTrail(s[2]))
    || (|s| == 4 && s[0] == 0xF0 && 0x90 <= s[1] <= 0xBF && IsTrail(s[2]) && IsTrail(s[3]))
    || (|s| == 4 && 0xF1 <= s[0] <= 0xF3 && IsTrail(s[1]) && IsTrail(s[2]) && IsTrail(s[3]))
    || (|s| == 4 && s[0] == 0xF4 && 0x80 <= s[1] <= 0x8F && IsTrail(s[2]) && IsTrail(s[3]))
  }

  /** The grammar describes the encodings of the characters. */
  lemma GrammarIsEncoding(s: seq<nat>)
    ensures IsGrammar(s) <==> IsEncoded8(s)
  {
    hide Utf8;
    if RightLength(s) {
      LegalIff(s);
    }
    if v: nat :| IsScalar(v) && Utf8(v) == s {
      EncodedIsLegal(v);
    }
  }

  /** isLegalUTF8Sequence: whether the bytes from `i` on begin with a legal sequence. */
  predicate IsLegalUTF8Sequence(src: seq<nat>, i: nat)
    requires i < |src|
  {
    var length := TrailingBytes(src[i]) + 1;
    i + length <= |src| && IsLegalUTF8(src[i..i + length])
  }

  /** They do exactly if they begin with the encoding of a character, or with an overlooked sequence. */
  lemma LegalSequenceIff(src: seq<nat>, i: nat)
    requires i < |src|
    ensures IsLegalUTF8Sequence(src, i) <==>
      exists j :: i <= j <= |src| && (IsEncoded8(src[i..j]) || Overlooked(src[i..j]))
  {
    hide IsEncoded8, Overlooked, IsLegalUTF8;
    var length := TrailingBytes(src[i]) + 1;
    if i + length <= |src| {
      LegalIff(src[i..i + length]);
    }
    forall j | i <= j <= |src| && (IsEncoded8(src[i..j]) || Overlooked(src[i..j]))
      ensures j == i + length
    {
      LengthIsRight(src[i..j]);
      assert src[i..j][0] == src[i];
    }
  }

  lemma LengthIsRight(s: seq<nat>)
    requires IsEncoded8(s) || Overlooked(s)
    ensures RightLength(s)
  {
    hide Utf8;
    if v: nat :| IsScalar(v) && Utf8(v) == s {
      EncodedIsLegal(v);
    }
  }

  /** The test is the grammar exactly for the sequences that are not overlooked ones. */
  lemma LegalIsGrammarIff(s: seq<nat>)
    requires RightLength(s)
    ensures (IsLegalUTF8(s) <==> IsEncoded8(s)) <==> !Overlooked(s)
  {
    LegalIff(s);
  }

  /** An overlooked sequence: accepted, and decoded to a character that it does not encode. */
  lemma OverlookedExample()
    ensures var s := [0xED, 0x20, 0x80];
      RightLength(s) && IsLegalUTF8(s) && !IsEncoded8(s) && Decode8(s) == 0xB800
  {
    var s := [0xED, 0x20, 0x80];
    LegalIff(s);
    Decode8Digits(s);
  }

  ghost predicate InRange(form: Form, src: seq<nat>) {
    forall k :: 0 <= k < |src| ==> src[k] < (match form case U8 => 0x100 case U16 => 0x1_0000 case U32 => 0x1_0000_0000)
  }

  /**
    One step: `used` source units become `units`; `bad` means that the call will report an
    illegal source although it goes on. Or the conversion stops here.
   */
  datatype Step = Char(units: seq<nat>, used: nat, bad: bool) | Stop(result: ConversionResult)

  function Step8(to: Form, src: seq<nat>, i: nat): (st: Step)
    requires i < |src|
    ensures st.Char? ==> 0 < st.used <= |src| - i
  {
    var extra := TrailingBytes(src[i]);
    if i + extra >= |src| then Stop(SourceExhausted)
    else
      var s := src[i..i + extra + 1];
      if !IsLegalUTF8(s) then Stop(SourceIllegal)
      else Char(Units(to, Decode8(s)), extra + 1, false)
  }

  function Step16(to: Form, strict: bool, src: seq<nat>, i: nat): (st: Step)
    requires i < |src| && InRange(U16, src)
    ensures st.Char? ==> 0 < st.used <= |src| - i
  {
    var ch := src[i];
    if IsHighSurrogate(ch) then
      if i + 1 >= |src| then Stop(SourceExhausted)
      else if IsLowSurrogate(src[i + 1]) then
        Char(Units(to, (ch - 0xD800) * 0x400 + (src[i + 1] - 0xDC00) + 0x10000), 2, false)
      else if strict then Stop(SourceIllegal)
      else Char(Units(to, ch), 1, false)
    else if strict && IsLowSurrogate(ch) then Stop(SourceIllegal)
    else Char(Units(to, ch), 1, false)
  }

  function Step32(to: Form, strict: bool, src: seq<nat>, i: nat): (st: Step)
    requires i < |src|
    ensures st.Char? ==> 0 < st.used <= |src| - i
  {
    var ch := src[i];
    if strict && IsSurrogate(ch) then Stop(SourceIllegal)
    else if ch > 0x10FFFF then
      if to.U8? then Char(Units(U8, REPLACEMENT_CHAR), 1, true)
      else if strict then Char([], 1, true)
      else Char([REPLACEMENT_CHAR], 1, false)
    else if to.U16? && IsSurrogate(ch) then Char([REPLACEMENT_CHAR], 1, false)
    else Char(Units(to, ch), 1, false)
  }

  function StepOf(from: Form, to: Form, strict: bool, src: seq<nat>, i: nat): (st: Step)
    requires i < |src| && InRange(from, src)
    ensures st.Char? ==> 0 < st.used <= |src| - i
  {
    match from
    case U8 => Step8(to, src, i)
    case U16 => Step16(to, strict, src, i)
    case U32 => Step32(to, strict, src, i)
  }

  /** The outcome of a call: the result, the source position reached and the units written. */
  datatype Outcome = Outcome(result: ConversionResult, pos: nat, out: seq<nat>)

  /** A call from source position `i` with room for `cap` units. */
  function Run(from: Form, to: Form, strict: bool, src: seq<nat>, i: nat, cap: nat,
               result: ConversionResult): (r: Outcome)
    requires i <= |src| && InRange(from, src)
    ensures i <= r.pos <= |src| && |r.out| <= cap
    decreases |src| - i
  {
    if i == |src| then Outcome(result, i, [])
    else if from.U32? && to.U16? && cap == 0 then Outcome(TargetExhausted, i, [])
    else
      match StepOf(from, to, strict, src, i)
      case Stop(r) => Outcome(r, i, [])
      case Char(units, used, bad) =>
        if |units| > cap then Outcome(TargetExhausted, i, [])
        else
          var rest := Run(from, to, strict, src, i + used, cap - |units|, if bad then SourceIllegal else result);
          Outcome(rest.result, rest.pos, units + rest.out)
  }
}
