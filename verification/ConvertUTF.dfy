/**
  The six conversions between UTF-8, UTF-16 and UTF-32. Each reads units from a source
  position, writes units into a part of a target buffer, and returns how far it came in both.
 */
module ConvertUTF {
  import opened Unicode
  import opened ConvertSpec

  /** A call that means `whole` has written `done` so far, and what is left to do means `rest`. */
  ghost predicate Progress(whole: Outcome, done: seq<nat>, rest: Outcome) {
    whole == Outcome(rest.result, rest.pos, done + rest.out)
  }

  lemma Finish(from: Form, to: Form, strict: bool, src: seq<nat>, cap: nat, result: ConversionResult, whole: Outcome,
               done: seq<nat>)
    requires InRange(from, src)
    requires Progress(whole, done, Run(from, to, strict, src, |src|, cap, result))
    ensures whole == Outcome(result, |src|, done)
  {
    assert done + [] == done;
  }

  /** The call stops at this unit: it cannot be converted, or what it becomes does not fit. */
  lemma Halt(from: Form, to: Form, strict: bool, src: seq<nat>, i: nat, cap: nat, result: ConversionResult,
             whole: Outcome, done: seq<nat>)
    requires i < |src| && InRange(from, src)
    requires Progress(whole, done, Run(from, to, strict, src, i, cap, result))
    ensures StepOf(from, to, strict, src, i).Stop? && !(from.U32? && to.U16? && cap == 0) ==>
      whole == Outcome(StepOf(from, to, strict, src, i).result, i, done)
    ensures from.U32? && to.U16? && cap == 0 ==> whole == Outcome(TargetExhausted, i, done)
    ensures StepOf(from, to, strict, src, i).Char? && |StepOf(from, to, strict, src, i).units| > cap ==>
      whole == Outcome(TargetExhausted, i, done)
  {
    hide StepOf;
    assert done + [] == done;
  }

  /** The call goes on after this unit. */
  lemma Emit(from: Form, to: Form, strict: bool, src: seq<nat>, i: nat, cap: nat, result: ConversionResult,
             whole: Outcome, done: seq<nat>)
    requires i < |src| && InRange(from, src) && !(from.U32? && to.U16? && cap == 0)
    requires Progress(whole, done, Run(from, to, strict, src, i, cap, result))
    requires StepOf(from, to, strict, src, i).Char? && |StepOf(from, to, strict, src, i).units| <= cap
    ensures var st := StepOf(from, to, strict, src, i);
      Progress(whole, done + st.units,
               Run(from, to, strict, src, i + st.used, cap - |st.units|, if st.bad then SourceIllegal else result))
  {
    hide StepOf;
    var st := StepOf(from, to, strict, src, i);
    var rest := Run(from, to, strict, src, i + st.used, cap - |st.units|, if st.bad then SourceIllegal else result);
    assert done + (st.units + rest.out) == (done + st.units) + rest.out;
  }

  lemma Begin(r: Outcome)
    ensures Progress(r, [], r)
  {
  }

  // ---------------------------------------------------------------------------------------
  // One character: the bodies of the six loops
  // ---------------------------------------------------------------------------------------

  /**
    What one turn of a loop does. It stops with the result `r` and leaves the target alone, or
    it writes the units of a character at `t..n`, moves the source position by `used`, and `r`
    is an illegal source if the character was one to be reported at the end.
   */
  twostate predicate Turned(from: Form, to: Form, strict: bool, source: seq<nat>, s: nat, target: array<nat>, t: nat,
                            end: nat, go: bool, r: ConversionResult, used: nat, n: nat)
    requires s < |source| && InRange(from, source) && t <= end <= target.Length
    reads target
  {
    var st := StepOf(from, to, strict, source, s);
    if (from.U32? && to.U16? && end == t) || (st.Char? && |st.units| > end - t) then
      !go && r == TargetExhausted && Untouched(target, t, t)
    else if st.Stop? then
      !go && r == st.result && Untouched(target, t, t)
    else
      && go && used == st.used && n == t + |st.units| && (r == SourceIllegal <==> st.bad)
      && target[t..n] == st.units && Untouched(target, t, n)
  }

  /** The target is as it was, but for `from..to`. */
  twostate predicate Untouched(target: array<nat>, from: nat, to: nat)
    reads target
  {
    forall k :: 0 <= k < target.Length && (k < from || to <= k) ==> target[k] == old(target[k])
  }

  method PutUtf16(target: array<nat>, t: nat, end: nat, v: nat) returns (ok: bool, n: nat)
    requires t < end <= target.Length && v <= 0x10FFFF
    modifies target
    ensures ok <==> t + |Utf16(v)| <= end
    ensures ok ==> n == t + |Utf16(v)| && target[t..n] == Utf16(v) && Untouched(target, t, n)
    ensures !ok ==> Untouched(target, t, t)
  {
    if v <= 0xFFFF {
      target[t] := v;
      return true, t + 1;
    }
    if t + 1 >= end {
      return false, t;
    }
    var ch := v - 0x10000;
    target[t] := ch / 0x400 + 0xD800;
    target[t + 1] := ch % 0x400 + 0xDC00;
    return true, t + 2;
  }

  method UTF32toUTF16Char(source: seq<nat>, s: nat, target: array<nat>, t: nat, end: nat, strict: bool)
    returns (go: bool, r: ConversionResult, used: nat, n: nat)
    requires s < |source| && InRange(U32, source) && t <= end <= target.Length
    modifies target
    ensures Turned(U32, U16, strict, source, s, target, t, end, go, r, used, n)
  {
    hide InRange, Utf16;
    if t >= end {
      return false, TargetExhausted, 0, t;
    }
    var ch := source[s];
    if ch <= 0xFFFF && 0xD800 <= ch <= 0xDFFF {
      if strict {
        return false, SourceIllegal, 0, t;
      }
      target[t] := REPLACEMENT_CHAR;
      return true, ConversionOK, 1, t + 1;
    }
    if ch > 0x10FFFF {
      if strict {
        return true, SourceIllegal, 1, t;
      }
      target[t] := REPLACEMENT_CHAR;
      return true, ConversionOK, 1, t + 1;
    }
    go, n := PutUtf16(target, t, end, ch);
    return go, if go then ConversionOK else TargetExhausted, 1, n;
  }

  /** Reads a character of UTF-16 and steps over it. */
  method GetUtf16(source: seq<nat>, s: nat, strict: bool) returns (go: bool, r: ConversionResult, ch: nat, used: nat)
    requires s < |source| && InRange(U16, source)
    ensures go ==> ch <= 0x10FFFF
    ensures forall to :: match Step16(to, strict, source, s)
      case Stop(x) => !go && r == x
      case Char(units, k, bad) => go && units == Units(to, ch) && used == k && !bad
  {
    hide Units;
    ch := source[s];
    if 0xD800 <= ch <= 0xDBFF {
      if s + 1 < |source| {
        var ch2 := source[s + 1];
        if 0xDC00 <= ch2 <= 0xDFFF {
          return true, ConversionOK, (ch - 0xD800) * 0x400 + (ch2 - 0xDC00) + 0x10000, 2;
        } else if strict {
          return false, SourceIllegal, ch, 0;
        }
      } else {
        return false, SourceExhausted, ch, 0;
      }
    } else if strict {
      if 0xDC00 <= ch <= 0xDFFF {
        return false, SourceIllegal, ch, 0;
      }
    }
    return true, ConversionOK, ch, 1;
  }

  method UTF16toUTF32Char(source: seq<nat>, s: nat, target: array<nat>, t: nat, end: nat, strict: bool)
    returns (go: bool, r: ConversionResult, used: nat, n: nat)
    requires s < |source| && InRange(U16, source) && t <= end <= target.Length
    modifies target
    ensures Turned(U16, U32, strict, source, s, target, t, end, go, r, used, n)
  {
    hide InRange, Step16;
    var ch;
    go, r, ch, used := GetUtf16(source, s, strict);
    if !go {
      return go, r, used, t;
    }
    if t >= end {
      return false, TargetExhausted, used, t;
    }
    target[t] := ch;
    return true, ConversionOK, used, t + 1;
  }

  function FirstByteMark(n: nat): nat
    requires 1 <= n <= 4
  {
    if n == 1 then 0 else if n == 2 then 0xC0 else if n == 3 then 0xE0 else 0xF0
  }

  /** The last byte of a number, (ch | 0x80) & 0xBF, and what is left of it, ch >> 6. */
  function Trail(ch: nat): nat {
    0x80 + ch % 0x40
  }

  function Rest(ch: nat): nat {
    ch / 0x40
  }

  lemma Utf8FromEnd(v: nat)
    requires v <= 0x10FFFF
    ensures var u, n := Utf8(v), |Utf8(v)|;
      && n == (if v < 0x80 then 1 else if v < 0x800 then 2 else if v < 0x10000 then 3 else 4)
      && (n >= 2 ==> u[n - 1] == Trail(v))
      && (n >= 3 ==> u[n - 2] == Trail(Rest(v)))
      && (n >= 4 ==> u[n - 3] == Trail(Rest(Rest(v))))
      && u[0] == FirstByteMark(n) +
         (if n == 1 then v else if n == 2 then Rest(v) else if n == 3 then Rest(Rest(v)) else Rest(Rest(Rest(v))))
  {
  }

  /** The bytes of a character, written from the last to the first. */
  method PutUtf8(target: array<nat>, t: nat, end: nat, v: nat) returns (ok: bool, n: nat)
    requires t <= end <= target.Length && v <= 0x10FFFF
    modifies target
    ensures ok <==> t + |Utf8(v)| <= end
    ensures ok ==> n == t + |Utf8(v)| && target[t..n] == Utf8(v) && Untouched(target, t, n)
    ensures !ok ==> Untouched(target, t, t)
  {
    hide Utf8, FirstByteMark;
    Utf8FromEnd(v);
    var ch := v;
    var bytesToWrite := if ch < 0x80 then 1 else if ch < 0x800 then 2 else if ch < 0x10000 then 3 else 4;
    n := t + bytesToWrite;
    if n > end {
      return false, t;
    }
    PutFromEnd(target, t, bytesToWrite, v);
    return true, n;
  }

  method PutFromEnd(target: array<nat>, t: nat, bytesToWrite: nat, v: nat)
    requires v <= 0x10FFFF && bytesToWrite == |Utf8(v)| && t + bytesToWrite <= target.Length
    modifies target
    ensures target[t..t + bytesToWrite] == Utf8(v) && Untouched(target, t, t + bytesToWrite)
  {
    hide Utf8, FirstByteMark, Trail, Rest;
    Utf8FromEnd(v);
    ghost var u := Utf8(v);
    var ch, at := v, t + bytesToWrite;
    if bytesToWrite >= 4 {
      at := at - 1;
      PutByte(target, at, Trail(ch), u, t);
      ch := Rest(ch);
    }
    if bytesToWrite >= 3 {
      at := at - 1;
      PutByte(target, at, Trail(ch), u, t);
      ch := Rest(ch);
    }
    if bytesToWrite >= 2 {
      at := at - 1;
      PutByte(target, at, Trail(ch), u, t);
      ch := Rest(ch);
    }
    at := at - 1;
    PutByte(target, at, ch + FirstByteMark(bytesToWrite), u, t);  // ch | firstByteMark[bytesToWrite]
  }

  /** Writes a byte of a character before those after it. */
  method PutByte(target: array<nat>, at: nat, b: nat, ghost u: seq<nat>, ghost t: nat)
    requires t <= at < t + |u| <= target.Length
    requires target[at + 1..t + |u|] == u[at + 1 - t..] && u[at - t] == b
    modifies target
    ensures target[at..t + |u|] == u[at - t..] && Untouched(target, at, at + 1)
  {
    target[at] := b;
    assert target[at..t + |u|] == [u[at - t]] + target[at + 1..t + |u|];
    assert u[at - t..] == [u[at - t]] + u[at + 1 - t..];
  }

  method UTF16toUTF8Char(source: seq<nat>, s: nat, target: array<nat>, t: nat, end: nat, strict: bool)
    returns (go: bool, r: ConversionResult, used: nat, n: nat)
    requires s < |source| && InRange(U16, source) && t <= end <= target.Length
    modifies target
    ensures Turned(U16, U8, strict, source, s, target, t, end, go, r, used, n)
  {
    hide InRange, Step16, Utf8;
    var ch;
    go, r, ch, used := GetUtf16(source, s, strict);
    if !go {
      return go, r, used, t;
    }
    go, n := PutUtf8(target, t, end, ch);
    return go, if go then ConversionOK else TargetExhausted, used, n;
  }

  method UTF32toUTF8Char(source: seq<nat>, s: nat, target: array<nat>, t: nat, end: nat, strict: bool)
    returns (go: bool, r: ConversionResult, used: nat, n: nat)
    requires s < |source| && InRange(U32, source) && t <= end <= target.Length
    modifies target
    ensures Turned(U32, U8, strict, source, s, target, t, end, go, r, used, n)
  {
    hide InRange, Utf8;
    var ch := source[s];
    if strict && 0xD800 <= ch <= 0xDFFF {
      return false, SourceIllegal, 0, t;
    }
    r := ConversionOK;
    if ch > 0x10FFFF {
      ch := REPLACEMENT_CHAR;
      r := SourceIllegal;
    }
    go, n := PutUtf8(target, t, end, ch);
    return go, if go then r else TargetExhausted, 1, n;
  }

  /** Reads a character of UTF-8 by adding up its bytes, each shifted over the next. */
  method GetUtf8(source: seq<nat>, s: nat) returns (go: bool, r: ConversionResult, ch: nat, used: nat)
    requires s < |source|
    ensures go ==> IsScalar(ch)
    ensures forall to :: match Step8(to, source, s)
      case Stop(x) => !go && r == x
      case Char(units, k, bad) => go && units == Units(to, ch) && used == k && !bad
  {
    hide Units, TrailingBytes, IsLegalUTF8, RightLength;
    var extra := TrailingBytes(source[s]);
    if s + extra >= |source| {
      return false, SourceExhausted, 0, 0;
    }
    if !IsLegalUTF8(source[s..s + extra + 1]) {
      return false, SourceIllegal, 0, 0;
    }
    ghost var bytes := source[s..s + extra + 1];
    assert RightLength(bytes) && extra <= 3 by { LegalLength(source, s, extra); }
    ch := 0;
    for k := 0 to extra + 1
      invariant ch == Accumulate(bytes[..k])
    {
      ch := ch * 0x40;
      ch := ch + source[s + k];
      assert bytes[..k + 1][..k] == bytes[..k];
    }
    assert bytes[..extra + 1] == bytes;
    assert ch - Offset(extra) == Decode8(bytes);
    return true, ConversionOK, ch - Offset(extra), extra + 1;
  }

  lemma LegalLength(source: seq<nat>, s: nat, extra: nat)
    requires s + extra < |source| && extra == TrailingBytes(source[s]) && IsLegalUTF8(source[s..s + extra + 1])
    ensures RightLength(source[s..s + extra + 1]) && extra <= 3
  {
  }

  method UTF8toUTF16Char(source: seq<nat>, s: nat, target: array<nat>, t: nat, end: nat, strict: bool)
    returns (go: bool, r: ConversionResult, used: nat, n: nat)
    requires s < |source| && InRange(U8, source) && t <= end <= target.Length
    modifies target
    ensures Turned(U8, U16, strict, source, s, target, t, end, go, r, used, n)
  {
    hide InRange, Step8, Utf16;
    var ch;
    go, r, ch, used := GetUtf8(source, s);
    if !go {
      return go, r, used, t;
    }
    if t >= end {
      return false, TargetExhausted, used, t;
    }
    go, n := PutUtf16(target, t, end, ch);
    return go, if go then ConversionOK else TargetExhausted, used, n;
  }

  method UTF8toUTF32Char(source: seq<nat>, s: nat, target: array<nat>, t: nat, end: nat, strict: bool)
    returns (go: bool, r: ConversionResult, used: nat, n: nat)
    requires s < |source| && InRange(U8, source) && t <= end <= target.Length
    modifies target
    ensures Turned(U8, U32, strict, source, s, target, t, end, go, r, used, n)
  {
    hide InRange, Step8;
    var ch;
    go, r, ch, used := GetUtf8(source, s);
    if !go {
      return go, r, used, t;
    }
    if t >= end {
      return false, TargetExhausted, used, t;
    }
    target[t] := ch;
    return true, ConversionOK, used, t + 1;
  }

  method OneChar(from: Form, to: Form, source: seq<nat>, s: nat, target: array<nat>, t: nat, end: nat, strict: bool)
    returns (go: bool, r: ConversionResult, used: nat, n: nat)
    requires from != to && s < |source| && InRange(from, source) && t <= end <= target.Length
    modifies target
    ensures Turned(from, to, strict, source, s, target, t, end, go, r, used, n)
  {
    hide Turned;
    match (from, to) {
      case (U32, U16) => go, r, used, n := UTF32toUTF16Char(source, s, target, t, end, strict);
      case (U16, U32) => go, r, used, n := UTF16toUTF32Char(source, s, target, t, end, strict);
      case (U16, U8) => go, r, used, n := UTF16toUTF8Char(source, s, target, t, end, strict);
      case (U32, U8) => go, r, used, n := UTF32toUTF8Char(source, s, target, t, end, strict);
      case (U8, U16) => go, r, used, n := UTF8toUTF16Char(source, s, target, t, end, strict);
      case (U8, U32) => go, r, used, n := UTF8toUTF32Char(source, s, target, t, end, strict);
    }
  }

  /** The same, in terms of all that was written from `start` on. */
  method NextChar(from: Form, to: Form, source: seq<nat>, s: nat, target: array<nat>, ghost start: nat, t: nat,
                  end: nat, strict: bool)
    returns (go: bool, r: ConversionResult, used: nat, n: nat)
    requires from != to && s < |source| && InRange(from, source) && start <= t <= end <= target.Length
    modifies target
    ensures var st := StepOf(from, to, strict, source, s);
      if (from.U32? && to.U16? && end == t) || (st.Char? && |st.units| > end - t) then
        !go && r == TargetExhausted && target[start..t] == old(target[start..t])
      else if st.Stop? then
        !go && r == st.result && target[start..t] == old(target[start..t])
      else
        && go && used == st.used && n == t + |st.units| && (r == SourceIllegal <==> st.bad)
        && target[start..n] == old(target[start..t]) + st.units
    ensures Untouched(target, start, if go then n else t)
  {
    hide InRange, StepOf;
    ghost var done := target[start..t];
    go, r, used, n := OneChar(from, to, source, s, target, t, end, strict);
    assert target[start..t] == done;
    if go {
      assert target[start..n] == done + target[t..n];
    }
  }

  // ---------------------------------------------------------------------------------------
  // The conversion loop
  // ---------------------------------------------------------------------------------------

  /**
    Converts from source position `sourceStart` into the target at `targetStart..targetEnd`;
    returns the result and the positions reached in both. Nothing else in the target changes.
   */
  method Convert(from: Form, to: Form, source: seq<nat>, sourceStart: nat, target: array<nat>, targetStart: nat,
                 targetEnd: nat, strict: bool)
    returns (result: ConversionResult, s: nat, t: nat)
    requires from != to && sourceStart <= |source| && InRange(from, source)
    requires targetStart <= targetEnd <= target.Length
    modifies target
    ensures targetStart <= t <= targetEnd
    ensures Outcome(result, s, target[targetStart..t]) ==
            Run(from, to, strict, source, sourceStart, targetEnd - targetStart, ConversionOK)
    ensures forall k :: 0 <= k < target.Length && (k < targetStart || t <= k) ==> target[k] == old(target[k])
  {
    hide Run, InRange, Progress, StepOf;
    ghost var whole := Run(from, to, strict, source, sourceStart, targetEnd - targetStart, ConversionOK);
    Begin(whole);
    result, s, t := ConversionOK, sourceStart, targetStart;
    assert target[targetStart..t] == [];
    while s < |source|
      invariant s <= |source| && targetStart <= t <= targetEnd && Untouched(target, targetStart, t)
      invariant Progress(whole, target[targetStart..t], Run(from, to, strict, source, s, targetEnd - t, result))
      decreases |source| - s
    {
      ghost var done, cap := target[targetStart..t], targetEnd - t;
      Halt(from, to, strict, source, s, cap, result, whole, done);
      var go, r, used, n := NextChar(from, to, source, s, target, targetStart, t, targetEnd, strict);
      if !go {
        return r, s, t;
      }
      Emit(from, to, strict, source, s, cap, result, whole, done);
      if r == SourceIllegal {
        result := r;
      }
      s, t := s + used, n;
    }
    Finish(from, to, strict, source, targetEnd - t, result, whole, target[targetStart..t]);
  }
}
