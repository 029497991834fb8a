/**
  Every call of a conversion, strict or lenient and of any source: what each part of the source
  becomes, and why the call ends where it does.
 */
module ConvertStops {
  import opened Basics
  import opened Unicode
  import opened ConvertSpec
  import opened ConvertText

  function Power2(n: nat): nat {
    if n == 0 then 1 else 2 * Power2(n - 1)
  }

  /** A byte is followed by at least `n` others exactly if it begins with more than `n` one bits. */
  lemma TrailingIs(b: nat, n: nat)
    requires b < 0x100 && 1 <= n <= 5
    ensures TrailingBytes(b) >= n <==> b >= 0x100 - Power2(7 - n)
  {
    assert Power2(6) == 64 && Power2(5) == 32 && Power2(4) == 16 && Power2(3) == 8 && Power2(2) == 4;
  }

  // ---------------------------------------------------------------------------------------
  // One step
  // ---------------------------------------------------------------------------------------

  /** Units that are taken for a number, what they become, and whether the call reports them. */
  datatype Part = Part(units: seq<nat>, code: nat, out: seq<nat>, flagged: bool)

  /** In UTF-16 a lenient call takes a surrogate without its partner for a character. */
  predicate Becomes16(to: Form, strict: bool, p: Part, after: seq<nat>) {
    && p.code <= 0x10FFFF && p.units == Utf16(p.code) && p.out == Units(to, p.code) && !p.flagged
    && (strict ==> IsScalar(p.code))
    && (IsHighSurrogate(p.code) ==> after != [] && !IsLowSurrogate(after[0]))
  }

  predicate Becomes32(to: Form, strict: bool, p: Part) {
    && p.units == [p.code]
    && if IsScalar(p.code) then p.out == Units(to, p.code) && !p.flagged
       else if p.code <= 0x10FFFF then
         !strict && !p.flagged && p.out == Units(to, if to.U16? then REPLACEMENT_CHAR else p.code)
       else
         p.flagged == (to.U8? || strict) && p.out == if to.U16? && strict then [] else Units(to, REPLACEMENT_CHAR)
  }

  /** What a part of the source becomes when `after` follows it. */
  ghost predicate Becomes(from: Form, to: Form, strict: bool, p: Part, after: seq<nat>) {
    match from
    case U8 => IsScalar(p.code) && Reads(U8, Piece(p.units, p.code)) && p.out == Units(to, p.code) && !p.flagged
    case U16 => Becomes16(to, strict, p, after)
    case U32 => Becomes32(to, strict, p)
  }

  /** The source ends within a character. */
  predicate Cut(from: Form, rest: seq<nat>)
    requires rest != []
  {
    match from
    case U8 => |rest| < TrailingBytes(rest[0]) + 1
    case U16 => |rest| == 1 && IsHighSurrogate(rest[0])
    case U32 => false
  }

  /** The source does not go on with a character. */
  ghost predicate Malformed(from: Form, strict: bool, rest: seq<nat>)
    requires rest != []
  {
    match from
    case U8 => !Cut(U8, rest) && forall j :: 0 <= j <= |rest| ==> !IsEncoded8(rest[..j]) && !Overlooked(rest[..j])
    case U16 =>
      && strict
      && (IsLowSurrogate(rest[0]) || (IsHighSurrogate(rest[0]) && |rest| > 1 && !IsLowSurrogate(rest[1])))
    case U32 => strict && IsSurrogate(rest[0])
  }

  lemma MalformedIff(src: seq<nat>, i: nat)
    requires i < |src|
    ensures Malformed(U8, true, src[i..]) <==> i + TrailingBytes(src[i]) < |src| && !IsLegalUTF8Sequence(src, i)
  {
    hide IsEncoded8, Overlooked, IsLegalUTF8Sequence, TrailingBytes;
    var rest := src[i..];
    LegalSequenceIff(src, i);
    if j :| i <= j <= |src| && (IsEncoded8(src[i..j]) || Overlooked(src[i..j])) {
      assert rest[..j - i] == src[i..j];
    }
    forall j | 0 <= j <= |rest|
      ensures rest[..j] == src[i..i + j]
    {
    }
  }

  lemma Stops8(to: Form, src: seq<nat>, i: nat)
    requires i < |src|
    ensures Step8(to, src, i) == Stop(SourceExhausted) <==> Cut(U8, src[i..])
    ensures Step8(to, src, i) == Stop(SourceIllegal) <==> Malformed(U8, true, src[i..])
    ensures Step8(to, src, i).Char? || Step8(to, src, i).result in {SourceExhausted, SourceIllegal}
  {
    hide IsLegalUTF8, Decode8, Units, Malformed, TrailingBytes;
    MalformedIff(src, i);
  }

  lemma Takes8(to: Form, src: seq<nat>, i: nat) returns (p: Part)
    requires i < |src| && InRange(U8, src) && Step8(to, src, i).Char?
    ensures At(src, i, p.units) && Becomes(U8, to, true, p, src[i + |p.units|..])
    ensures Step8(to, src, i) == Char(p.out, |p.units|, p.flagged)
  {
    hide Step8, Units, IsScalar;
    var piece := StepIsRead8(to, src, i);
    StepReads(U8, to, src, i, piece);
    ScalarIs(piece.code);
    p := Part(piece.units, piece.code, Units(to, piece.code), false);
  }

  lemma ScalarIs(v: scalar)
    ensures IsScalar(v)
  {
  }

  lemma Stops16(to: Form, strict: bool, src: seq<nat>, i: nat)
    requires i < |src| && InRange(U16, src)
    ensures Step16(to, strict, src, i) == Stop(SourceExhausted) <==> Cut(U16, src[i..])
    ensures Step16(to, strict, src, i) == Stop(SourceIllegal) <==> Malformed(U16, strict, src[i..])
    ensures Step16(to, strict, src, i).Char? || Step16(to, strict, src, i).result in {SourceExhausted, SourceIllegal}
  {
    hide Units;
  }

  lemma Takes16(to: Form, strict: bool, src: seq<nat>, i: nat) returns (p: Part)
    requires i < |src| && InRange(U16, src) && Step16(to, strict, src, i).Char?
    ensures At(src, i, p.units) && Becomes16(to, strict, p, src[i + |p.units|..])
    ensures Step16(to, strict, src, i) == Char(p.out, |p.units|, p.flagged)
  {
    hide Units;
    var ch := src[i];
    if IsHighSurrogate(ch) && IsLowSurrogate(src[i + 1]) {
      var v := (ch - 0xD800) * 0x400 + (src[i + 1] - 0xDC00) + 0x10000;
      DivModUnique(v - 0x10000, ch - 0xD800, src[i + 1] - 0xDC00, 0x400);
      p := Part([ch, src[i + 1]], v, Units(to, v), false);
    } else {
      p := Part([ch], ch, Units(to, ch), false);
    }
  }

  lemma Stops32(to: Form, strict: bool, src: seq<nat>, i: nat)
    requires i < |src|
    ensures Step32(to, strict, src, i) == Stop(SourceIllegal) <==> Malformed(U32, strict, src[i..])
    ensures Step32(to, strict, src, i).Char? || Step32(to, strict, src, i).result == SourceIllegal
  {
    hide Units;
  }

  lemma Takes32(to: Form, strict: bool, src: seq<nat>, i: nat) returns (p: Part)
    requires i < |src| && to != U32 && Step32(to, strict, src, i).Char?
    ensures At(src, i, p.units) && Becomes32(to, strict, p)
    ensures Step32(to, strict, src, i) == Char(p.out, |p.units|, p.flagged)
  {
    hide Utf8;
    var st := Step32(to, strict, src, i);
    p := Part([src[i]], src[i], st.units, st.bad);
  }

  /** A step stops for want of source, or at a malformed part, exactly if the source is so. */
  lemma StepStops(from: Form, to: Form, strict: bool, src: seq<nat>, i: nat)
    requires i < |src| && InRange(from, src)
    ensures
      var st := StepOf(from, to, strict, src, i);
      && (st == Stop(SourceExhausted) <==> Cut(from, src[i..]))
      && (st == Stop(SourceIllegal) <==> Malformed(from, strict, src[i..]))
      && (st.Char? || st.result in {SourceExhausted, SourceIllegal})
  {
    hide Step8, Step16, Step32, InRange, IsEncoded8, Overlooked;
    match from
    case U8 => Stops8(to, src, i);
    case U16 => Stops16(to, strict, src, i);
    case U32 => Stops32(to, strict, src, i);
  }

  lemma StepTakes(from: Form, to: Form, strict: bool, src: seq<nat>, i: nat) returns (p: Part)
    requires i < |src| && InRange(from, src) && from != to && StepOf(from, to, strict, src, i).Char?
    ensures At(src, i, p.units) && Becomes(from, to, strict, p, src[i + |p.units|..])
    ensures StepOf(from, to, strict, src, i) == Char(p.out, |p.units|, p.flagged)
  {
    hide Step8, Step16, Step32, InRange, Reads, Becomes16, Becomes32;
    match from {
      case U8 =>
        p := Takes8(to, src, i);
      case U16 =>
        p := Takes16(to, strict, src, i);
      case U32 =>
        p := Takes32(to, strict, src, i);
    }
  }

  /** And what is described so is a step. */
  lemma StepIs(from: Form, to: Form, strict: bool, src: seq<nat>, i: nat, p: Part)
    requires InRange(from, src) && from != to
    requires At(src, i, p.units) && Becomes(from, to, strict, p, src[i + |p.units|..])
    ensures p.units != [] && StepOf(from, to, strict, src, i) == Char(p.out, |p.units|, p.flagged)
  {
    hide Utf8, Step8, Reads, Overlooked;
    match from
    case U8 =>
      StepReads(U8, to, src, i, Piece(p.units, p.code));
    case U16 =>
      Is16(to, strict, src, i, p);
    case U32 =>
      AtItem(src, i, p.units, 0);
  }

  lemma Is16(to: Form, strict: bool, src: seq<nat>, i: nat, p: Part)
    requires InRange(U16, src) && At(src, i, p.units) && Becomes16(to, strict, p, src[i + |p.units|..])
    ensures p.units != [] && Step16(to, strict, src, i) == Char(p.out, |p.units|, p.flagged)
  {
    hide Units;
    AtItem(src, i, p.units, 0);
    if p.code >= 0x10000 {
      AtItem(src, i, p.units, 1);
      Surrogates(p.code);
    } else if IsHighSurrogate(p.code) {
      assert src[i + 1..][0] == src[i + 1];
    }
  }

  // ---------------------------------------------------------------------------------------
  // A whole call
  // ---------------------------------------------------------------------------------------

  function AllUnits(ps: seq<Part>): seq<nat> {
    if ps == [] then [] else ps[0].units + AllUnits(ps[1..])
  }

  function AllOut(ps: seq<Part>): seq<nat> {
    if ps == [] then [] else ps[0].out + AllOut(ps[1..])
  }

  predicate AnyFlagged(ps: seq<Part>) {
    exists k :: 0 <= k < |ps| && ps[k].flagged
  }

  /** Each part becomes what it does with the parts and the rest that follow. */
  ghost predicate AllBecome(from: Form, to: Form, strict: bool, ps: seq<Part>, rest: seq<nat>) {
    ps != [] ==>
      && Becomes(from, to, strict, ps[0], AllUnits(ps[1..]) + rest)
      && AllBecome(from, to, strict, ps[1..], rest)
  }

  /** The next part would be written, but there is no room for it. */
  ghost predicate TooLong(from: Form, to: Form, strict: bool, rest: seq<nat>, room: nat) {
    exists p: Part :: p.units <= rest && Becomes(from, to, strict, p, rest[|p.units|..]) && |p.out| > room
  }

  /** Why a call ends before `rest`. From UTF-32 to UTF-16 a full target is noticed first. */
  ghost predicate Ended(from: Form, to: Form, strict: bool, rest: seq<nat>, room: nat, flagged: bool,
                        r: ConversionResult)
  {
    if rest == [] then r == if flagged then SourceIllegal else ConversionOK
    else if from.U32? && to.U16? && room == 0 then r == TargetExhausted
    else
      && r != ConversionOK
      && (r == SourceExhausted <==> Cut(from, rest))
      && (r == SourceIllegal <==> Malformed(from, strict, rest))
      && (r == TargetExhausted <==> TooLong(from, to, strict, rest, room))
  }

  lemma RunEnds(from: Form, to: Form, strict: bool, src: seq<nat>, i: nat, cap: nat, flagged: bool)
    requires i <= |src| && InRange(from, src) && from != to
    requires
      var st := if i < |src| then StepOf(from, to, strict, src, i) else Stop(ConversionOK);
      i == |src| || (from.U32? && to.U16? && cap == 0) || st.Stop? || |st.units| > cap
    ensures
      var r := Run(from, to, strict, src, i, cap, if flagged then SourceIllegal else ConversionOK);
      r.pos == i && r.out == [] && Ended(from, to, strict, src[i..], cap, flagged, r.result)
  {
    hide StepOf, Becomes, Cut, Malformed, InRange;
    var rest := src[i..];
    if i < |src| {
      StepStops(from, to, strict, src, i);
      forall p: Part | p.units <= rest && Becomes(from, to, strict, p, rest[|p.units|..]) && |p.out| > cap
        ensures StepOf(from, to, strict, src, i) == Char(p.out, |p.units|, p.flagged)
      {
        assert src[i..i + |p.units|] == p.units && rest[|p.units|..] == src[i + |p.units|..];
        StepIs(from, to, strict, src, i, p);
      }
      if StepOf(from, to, strict, src, i).Char? {
        var p := StepTakes(from, to, strict, src, i);
        assert src[i..i + |p.units|] == p.units && rest[|p.units|..] == src[i + |p.units|..];
        assert p.units <= rest;
      }
    }
  }

  lemma RunGoesOn(from: Form, to: Form, strict: bool, src: seq<nat>, i: nat, cap: nat, result: ConversionResult)
    requires i < |src| && InRange(from, src) && !(from.U32? && to.U16? && cap == 0)
    requires StepOf(from, to, strict, src, i).Char? && |StepOf(from, to, strict, src, i).units| <= cap
    ensures
      var st := StepOf(from, to, strict, src, i);
      var rest := Run(from, to, strict, src, i + st.used, cap - |st.units|, if st.bad then SourceIllegal else result);
      Run(from, to, strict, src, i, cap, result) == Outcome(rest.result, rest.pos, st.units + rest.out)
  {
    hide StepOf, InRange;
  }

  /** The parts from `i` on are read and written, and the call ends before the rest. */
  ghost predicate Described(from: Form, to: Form, strict: bool, src: seq<nat>, i: nat, cap: nat, flagged: bool,
                            r: Outcome, ps: seq<Part>)
  {
    && i <= r.pos <= |src| && |r.out| <= cap
    && src[i..r.pos] == AllUnits(ps) && r.out == AllOut(ps) && AllBecome(from, to, strict, ps, src[r.pos..])
    && Ended(from, to, strict, src[r.pos..], cap - |r.out|, flagged || AnyFlagged(ps), r.result)
  }

  lemma DescribedMore(from: Form, to: Form, strict: bool, src: seq<nat>, i: nat, cap: nat, flagged: bool, r: Outcome,
                      p: Part, more: seq<Part>)
    requires At(src, i, p.units) && Becomes(from, to, strict, p, src[i + |p.units|..]) && |p.out| <= cap
    requires Described(from, to, strict, src, i + |p.units|, cap - |p.out|, flagged || p.flagged, r, more)
    ensures Described(from, to, strict, src, i, cap, flagged, Outcome(r.result, r.pos, p.out + r.out), [p] + more)
  {
    hide Becomes, Ended;
    var ps, next := [p] + more, i + |p.units|;
    assert ps[1..] == more;
    assert src[i..r.pos] == src[i..next] + src[next..r.pos];
    assert src[next..] == src[next..r.pos] + src[r.pos..];
    Flagged(p, more);
  }

  /**
    Every call reads parts of the source one after the other, writes what they become, and stops
    before the rest: at the end, or because the source is cut, or malformed, or the target is full.
   */
  lemma {:induction false} RunDescribed(from: Form, to: Form, strict: bool, src: seq<nat>, i: nat, cap: nat,
                                        flagged: bool) returns (ps: seq<Part>)
    requires i <= |src| && InRange(from, src) && from != to
    ensures
      var r := Run(from, to, strict, src, i, cap, if flagged then SourceIllegal else ConversionOK);
      Described(from, to, strict, src, i, cap, flagged, r, ps)
    decreases |src| - i
  {
    hide StepOf, Becomes, InRange, Run, Ended, Described;
    var st := if i < |src| then StepOf(from, to, strict, src, i) else Stop(ConversionOK);
    if i == |src| || (from.U32? && to.U16? && cap == 0) || st.Stop? || |st.units| > cap {
      RunEnds(from, to, strict, src, i, cap, flagged);
      ps := [];
      DescribedNone(from, to, strict, src, i, cap, flagged,
        Run(from, to, strict, src, i, cap, if flagged then SourceIllegal else ConversionOK));
    } else {
      var p := StepTakes(from, to, strict, src, i);
      RunGoesOn(from, to, strict, src, i, cap, if flagged then SourceIllegal else ConversionOK);
      var result := if flagged || st.bad then SourceIllegal else ConversionOK;
      var r := Run(from, to, strict, src, i + st.used, cap - |st.units|, result);
      var more := RunDescribed(from, to, strict, src, i + st.used, cap - |st.units|, flagged || st.bad);
      DescribedMore(from, to, strict, src, i, cap, flagged, r, p, more);
      ps := [p] + more;
    }
  }

  lemma DescribedNone(from: Form, to: Form, strict: bool, src: seq<nat>, i: nat, cap: nat, flagged: bool, r: Outcome)
    requires i <= |src| && r.pos == i && r.out == [] && Ended(from, to, strict, src[i..], cap, flagged, r.result)
    ensures Described(from, to, strict, src, i, cap, flagged, r, [])
  {
    hide Ended;
  }

  lemma Flagged(p: Part, more: seq<Part>)
    ensures AnyFlagged([p] + more) <==> p.flagged || AnyFlagged(more)
  {
    var ps := [p] + more;
    if k :| 0 <= k < |more| && more[k].flagged {
      assert ps[k + 1].flagged;
    }
    if p.flagged {
      assert ps[0].flagged;
    }
  }
}
