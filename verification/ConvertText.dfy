/**
  What the conversions do to text: round trips, composition, and resumption after the target
  buffer is full.
 */
module ConvertText {
  import opened Basics
  import opened Unicode
  import opened ConvertSpec

  lemma StepEncoded(from: Form, to: Form, strict: bool, src: seq<nat>, i: nat, v: scalar)
    requires i + |Units(from, v)| <= |src| && InRange(from, src)
    requires src[i..i + |Units(from, v)|] == Units(from, v)
    ensures StepOf(from, to, strict, src, i) == Char(Units(to, v), |Units(from, v)|, false)
  {
    hide Utf8, Utf16;
    match from
    case U8 => StepEncoded8(to, src, i, v);
    case U16 => StepEncoded16(to, strict, src, i, v);
    case U32 => assert src[i] == src[i..i + 1][0];
  }

  lemma StepEncoded8(to: Form, src: seq<nat>, i: nat, v: scalar)
    requires i + |Utf8(v)| <= |src| && src[i..i + |Utf8(v)|] == Utf8(v)
    ensures Step8(to, src, i) == Char(Units(to, v), |Utf8(v)|, false)
  {
    hide Decode8, IsLegalUTF8, Utf8, Units, TrailingBytes;
    assert src[i] == src[i..i + |Utf8(v)|][0];
    EncodedDecodes(v);
  }

  lemma StepEncoded16(to: Form, strict: bool, src: seq<nat>, i: nat, v: scalar)
    requires i + |Utf16(v)| <= |src| && src[i..i + |Utf16(v)|] == Utf16(v) && InRange(U16, src)
    ensures Step16(to, strict, src, i) == Char(Units(to, v), |Utf16(v)|, false)
  {
    hide Units;
    var u := Utf16(v);
    assert src[i] == src[i..i + |u|][0];
    if v >= 0x10000 {
      assert src[i + 1] == src[i..i + |u|][1];
      Surrogates(v);
    }
  }

  /** A step that writes something, within a call. */
  lemma RunStep(from: Form, to: Form, strict: bool, src: seq<nat>, i: nat, cap: nat, result: ConversionResult)
    requires i < |src| && InRange(from, src) && StepOf(from, to, strict, src, i).Char?
    requires StepOf(from, to, strict, src, i).units != []
    ensures var st := StepOf(from, to, strict, src, i);
      Run(from, to, strict, src, i, cap, result) ==
      if |st.units| > cap then Outcome(TargetExhausted, i, [])
      else
        var rest := Run(from, to, strict, src, i + st.used, cap - |st.units|, if st.bad then SourceIllegal else result);
        Outcome(rest.result, rest.pos, st.units + rest.out)
  {
    hide StepOf;
  }

  lemma Surrogates(v: nat)
    requires 0x10000 <= v <= 0x10FFFF
    ensures var u := Utf16(v);
      && |u| == 2 && IsHighSurrogate(u[0]) && IsLowSurrogate(u[1])
      && (u[0] - 0xD800) * 0x400 + (u[1] - 0xDC00) + 0x10000 == v
  {
  }

  /** How many of the characters fit in `cap` units. */
  function Fitting(to: Form, vs: seq<scalar>, cap: nat): (k: nat)
    ensures k <= |vs|
  {
    if vs == [] || |Units(to, vs[0])| > cap then 0
    else 1 + Fitting(to, vs[1..], cap - |Units(to, vs[0])|)
  }

  /** A call that stops early has no room for the next character. */
  lemma {:induction false} FittingIsGreatest(to: Form, vs: seq<scalar>, cap: nat)
    ensures var k := Fitting(to, vs, cap);
      && |Encoded(to, vs[..k])| <= cap
      && (k < |vs| ==> |Encoded(to, vs[..k + 1])| > cap)
  {
    hide Units, Encoded, Fitting;
    if vs == [] {
      NothingEncoded(to);
      assert vs[..Fitting(to, vs, cap)] == [];
    } else {
      var n := |Units(to, vs[0])|;
      FittingStep(to, to, vs, cap);
      if n <= cap {
        var k := Fitting(to, vs[1..], cap - n);
        FittingIsGreatest(to, vs[1..], cap - n);
        if k + 1 < |vs| {
          EncodedStep(to, vs[..k + 2]);
          assert vs[..k + 2][1..] == vs[1..][..k + 1];
        }
      } else {
        EncodedStep(to, vs[..1]);
      }
    }
  }

  /**
    Converting legal text: the call consumes the encoding of as many whole characters as fit
    and writes exactly their encoding, and reports a full target if and only if some are left.
   */
  lemma {:induction false} RunEncoded(from: Form, to: Form, strict: bool, src: seq<nat>, i: nat, cap: nat,
                                      vs: seq<scalar>)
    requires i <= |src| && InRange(from, src) && src[i..] == Encoded(from, vs)
    ensures var k := Fitting(to, vs, cap);
      Run(from, to, strict, src, i, cap, ConversionOK) ==
      Outcome(if k == |vs| then ConversionOK else TargetExhausted,
              i + |Encoded(from, vs[..k])|, Encoded(to, vs[..k]))
    decreases vs
  {
    hide Units, StepOf, InRange, Run, Encoded, Fitting;
    if vs == [] {
      RunNone(from, to, strict, src, i, cap);
    } else {
      var u, rest := Units(from, vs[0]), Encoded(from, vs[1..]);
      EncodedStep(from, vs);
      Suffix(src, i, u, rest);
      StepEncoded(from, to, strict, src, i, vs[0]);
      RunStep(from, to, strict, src, i, cap, ConversionOK);
      FittingStep(from, to, vs, cap);
      var n := |Units(to, vs[0])|;
      if n <= cap {
        RunEncoded(from, to, strict, src, i + |u|, cap - n, vs[1..]);
      }
    }
  }

  lemma RunNone(from: Form, to: Form, strict: bool, src: seq<nat>, i: nat, cap: nat)
    requires i <= |src| && InRange(from, src) && src[i..] == Encoded(from, [])
    ensures Run(from, to, strict, src, i, cap, ConversionOK) == Outcome(ConversionOK, i, [])
    ensures Fitting(to, [], cap) == 0 && Encoded(from, []) == [] && Encoded(to, []) == []
  {
    assert |src[i..]| == 0;
  }

  lemma Suffix(src: seq<nat>, i: nat, u: seq<nat>, rest: seq<nat>)
    requires i <= |src| && src[i..] == u + rest
    ensures i + |u| <= |src| && src[i..i + |u|] == u && src[i + |u|..] == rest
  {
    assert src[i..][..|u|] == u && src[i..][|u|..] == rest;
  }

  lemma NothingEncoded(form: Form)
    ensures Encoded(form, []) == []
  {
  }

  lemma EncodedStep(form: Form, vs: seq<scalar>)
    requires vs != []
    ensures Encoded(form, vs) == Units(form, vs[0]) + Encoded(form, vs[1..])
  {
  }

  lemma FittingStep(from: Form, to: Form, vs: seq<scalar>, cap: nat)
    requires vs != []
    ensures var n, k := |Units(to, vs[0])|, Fitting(to, vs, cap);
      if n > cap then k == 0 && Encoded(from, vs[..k]) == [] && Encoded(to, vs[..k]) == []
      else
        var rest := Fitting(to, vs[1..], cap - n);
        && k == rest + 1
        && Encoded(from, vs[..k]) == Units(from, vs[0]) + Encoded(from, vs[1..][..rest])
        && Encoded(to, vs[..k]) == Units(to, vs[0]) + Encoded(to, vs[1..][..rest])
  {
    hide Units;
    var k := Fitting(to, vs, cap);
    if k > 0 {
      hide Fitting;
      assert vs[..k][1..] == vs[1..][..k - 1] && vs[..k][0] == vs[0];
    }
  }

  lemma {:induction false} AllFit(to: Form, vs: seq<scalar>, cap: nat)
    requires |Encoded(to, vs)| <= cap
    ensures Fitting(to, vs, cap) == |vs|
  {
    hide Units;
    if vs != [] {
      AllFit(to, vs[1..], cap - |Units(to, vs[0])|);
    }
  }

  lemma {:induction false} EncodedInRange(form: Form, vs: seq<scalar>)
    ensures InRange(form, Encoded(form, vs))
  {
    if vs != [] {
      EncodedInRange(form, vs[1..]);
    }
  }

  /** With enough room, the encoding in one form becomes the encoding in the other. */
  lemma Converts(from: Form, to: Form, strict: bool, vs: seq<scalar>, cap: nat)
    requires |Encoded(to, vs)| <= cap
    ensures InRange(from, Encoded(from, vs))
    ensures Run(from, to, strict, Encoded(from, vs), 0, cap, ConversionOK) ==
            Outcome(ConversionOK, |Encoded(from, vs)|, Encoded(to, vs))
  {
    hide Units, Encoded, Run, InRange;
    EncodedInRange(from, vs);
    AllFit(to, vs, cap);
    var src := Encoded(from, vs);
    assert src[0..] == src;
    RunEncoded(from, to, strict, src, 0, cap, vs);
    assert vs[..|vs|] == vs;
  }

  /** There and back again, between any two forms. */
  lemma RoundTrip(x: Form, y: Form, vs: seq<scalar>, capY: nat, capX: nat)
    requires |Encoded(y, vs)| <= capY && |Encoded(x, vs)| <= capX
    ensures InRange(x, Encoded(x, vs)) && InRange(y, Encoded(y, vs))
    ensures var there := Run(x, y, true, Encoded(x, vs), 0, capY, ConversionOK);
      && there.result == ConversionOK && InRange(y, there.out)
      && Run(y, x, true, there.out, 0, capX, ConversionOK) ==
         Outcome(ConversionOK, |there.out|, Encoded(x, vs))
  {
    hide Encoded, Run, InRange;
    Converts(x, y, true, vs, capY);
    Converts(y, x, true, vs, capX);
  }

  /** Converting directly is converting through a third form. */
  lemma ThroughThird(x: Form, y: Form, z: Form, vs: seq<scalar>, capY: nat, capZ: nat)
    requires |Encoded(y, vs)| <= capY && |Encoded(z, vs)| <= capZ
    ensures InRange(x, Encoded(x, vs)) && InRange(z, Encoded(z, vs))
    ensures var via := Run(x, z, true, Encoded(x, vs), 0, capZ, ConversionOK);
      && via.result == ConversionOK && InRange(z, via.out)
      && Run(z, y, true, via.out, 0, capY, ConversionOK).out ==
         Run(x, y, true, Encoded(x, vs), 0, capY, ConversionOK).out
  {
    hide Encoded, Run, InRange;
    Converts(x, z, true, vs, capZ);
    Converts(z, y, true, vs, capY);
    Converts(x, y, true, vs, capY);
  }

  // ---------------------------------------------------------------------------------------
  // Resumption
  // ---------------------------------------------------------------------------------------

  /** Calling again from where the last call stopped, with the given rooms, while the target fills up. */
  function Resume(from: Form, to: Form, strict: bool, src: seq<nat>, i: nat, caps: seq<nat>): seq<nat>
    requires i <= |src| && InRange(from, src)
    decreases caps
  {
    if caps == [] then []
    else
      var r := Run(from, to, strict, src, i, caps[0], ConversionOK);
      if r.result == TargetExhausted then r.out + Resume(from, to, strict, src, r.pos, caps[1..]) else r.out
  }

  lemma {:induction false} EncodedSplit(form: Form, vs: seq<scalar>, k: nat)
    requires k <= |vs|
    ensures Encoded(form, vs) == Encoded(form, vs[..k]) + Encoded(form, vs[k..])
  {
    EncodedConcat(form, vs[..k], vs[k..]);
    assert vs[..k] + vs[k..] == vs;
  }

  lemma FittingSome(to: Form, vs: seq<scalar>, cap: nat)
    requires vs != [] && MaxUnits(to) <= cap
    ensures Fitting(to, vs, cap) >= 1
  {
  }

  /**
    Any rooms that each fit one character, enough of them: the pieces written by the calls
    together are what one call with a large buffer writes.
   */
  lemma {:induction false} ResumeWhole(from: Form, to: Form, strict: bool, src: seq<nat>, i: nat, caps: seq<nat>,
                                       vs: seq<scalar>)
    requires i <= |src| && InRange(from, src) && src[i..] == Encoded(from, vs)
    requires forall j :: 0 <= j < |caps| ==> MaxUnits(to) <= caps[j]
    requires |caps| >= |vs|
    ensures Resume(from, to, strict, src, i, caps) == Encoded(to, vs)
    decreases caps
  {
    hide Units, Run, InRange, Encoded, MaxUnits;
    if caps == [] {
      EncodedNone(to, vs);
    } else {
      var cap, k := caps[0], Fitting(to, vs, caps[0]);
      RunEncoded(from, to, strict, src, i, cap, vs);
      if k == |vs| {
        assert vs[..k] == vs;
      } else {
        FittingSome(to, vs, cap);
        EncodedSplit(from, vs, k);
        EncodedSplit(to, vs, k);
        var n := |Encoded(from, vs[..k])|;
        assert src[i + n..] == src[i..][n..];
        ResumeWhole(from, to, strict, src, i + n, caps[1..], vs[k..]);
      }
    }
  }

  lemma EncodedNone(form: Form, vs: seq<scalar>)
    requires vs == []
    ensures Encoded(form, vs) == []
  {
  }

  // ---------------------------------------------------------------------------------------
  // What converts
  // ---------------------------------------------------------------------------------------

  /** Units that are read as a character. */
  datatype Piece = Piece(units: seq<nat>, code: scalar)

  /** They are its encoding, or an overlooked sequence whose bytes add up to it. */
  ghost predicate Reads(form: Form, p: Piece) {
    || p.units == Units(form, p.code)
    || (form.U8? && InRange(U8, p.units) && Overlooked(p.units) && p.code == OverlookedValue(p.units))
  }

  ghost predicate AllRead(form: Form, ps: seq<Piece>) {
    forall k :: 0 <= k < |ps| ==> Reads(form, ps[k])
  }

  function Joined(ps: seq<Piece>): seq<nat> {
    if ps == [] then [] else ps[0].units + Joined(ps[1..])
  }

  function Chars(ps: seq<Piece>): (vs: seq<scalar>)
    ensures |vs| == |ps|
  {
    if ps == [] then [] else [ps[0].code] + Chars(ps[1..])
  }

  /** Reading such units is one step, whatever follows. */
  lemma StepReads(from: Form, to: Form, src: seq<nat>, i: nat, p: Piece)
    requires InRange(from, src) && Reads(from, p) && At(src, i, p.units)
    ensures p.units != [] && StepOf(from, to, true, src, i) == Char(Units(to, p.code), |p.units|, false)
  {
    hide Units, StepOf, Overlooked, OverlookedValue;
    if p.units == Units(from, p.code) {
      StepEncoded(from, to, true, src, i, p.code);
    } else {
      StepOverlooked(to, src, i, p.units);
    }
  }

  lemma StepOverlooked(to: Form, src: seq<nat>, i: nat, s: seq<nat>)
    requires InRange(U8, src) && InRange(U8, s) && Overlooked(s) && At(src, i, s)
    ensures StepOf(U8, to, true, src, i) == Char(Units(to, OverlookedValue(s)), |s|, false)
  {
    hide Units, Decode8, Accumulate, IsEncoded8;
    LegalIff(s);
    Decode8Digits(s);
    assert src[i] == s[0] && src[i..i + |s|] == s;
  }

  /** A strict step that is not marked bad reads such units. */
  lemma StepIsRead(from: Form, to: Form, src: seq<nat>, i: nat) returns (p: Piece)
    requires i < |src| && InRange(from, src)
    requires StepOf(from, to, true, src, i).Char? && !StepOf(from, to, true, src, i).bad
    ensures At(src, i, p.units) && Reads(from, p)
  {
    match from {
      case U8 =>
        p := StepIsRead8(to, src, i);
      case U16 =>
        p := StepIsRead16(to, src, i);
      case U32 =>
        p := Piece([src[i]], src[i]);
    }
  }

  lemma StepIsRead8(to: Form, src: seq<nat>, i: nat) returns (p: Piece)
    requires i < |src| && InRange(U8, src)
    requires Step8(to, src, i).Char?
    ensures At(src, i, p.units) && Reads(U8, p)
  {
    hide Decode8, Utf8;
    var s := src[i..i + TrailingBytes(src[i]) + 1];
    p := Piece(s, Decode8(s));
    if Overlooked(s) {
      Decode8Digits(s);
    } else {
      LegalDecodes(s);
    }
  }

  lemma StepIsRead16(to: Form, src: seq<nat>, i: nat) returns (p: Piece)
    requires i < |src| && InRange(U16, src)
    requires Step16(to, true, src, i).Char?
    ensures At(src, i, p.units) && Reads(U16, p)
  {
    var ch := src[i];
    if IsHighSurrogate(ch) {
      var v := (ch - 0xD800) * 0x400 + (src[i + 1] - 0xDC00) + 0x10000;
      DivModUnique(v - 0x10000, ch - 0xD800, src[i + 1] - 0xDC00, 0x400);
      p := Piece([src[i], src[i + 1]], v);
    } else {
      p := Piece([src[i]], ch);
    }
  }

  lemma {:induction false} BadStaysBad(from: Form, to: Form, src: seq<nat>, i: nat, cap: nat)
    requires i <= |src| && InRange(from, src)
    ensures Run(from, to, true, src, i, cap, SourceIllegal).result != ConversionOK
    decreases |src| - i
  {
    hide Units, StepOf, InRange;
    if i < |src| {
      StopIsNotOk(from, to, src, i);
      match StepOf(from, to, true, src, i)
      case Char(units, used, bad) =>
        if |units| <= cap {
          BadStaysBad(from, to, src, i + used, cap - |units|);
        }
      case Stop(_) =>
    }
  }

  lemma StopIsNotOk(from: Form, to: Form, src: seq<nat>, i: nat)
    requires i < |src| && InRange(from, src)
    ensures StepOf(from, to, true, src, i) != Stop(ConversionOK)
    ensures StepOf(from, to, true, src, i).Char? && !StepOf(from, to, true, src, i).bad ==>
      StepOf(from, to, true, src, i).units != []
  {
    hide Units, Decode8, IsLegalUTF8;
  }

  /** A strict call that reports success has read such units, and written the encoding of their characters. */
  lemma {:induction false} SuccessIsRead(from: Form, to: Form, src: seq<nat>, i: nat, cap: nat) returns (ps: seq<Piece>)
    requires i <= |src| && InRange(from, src)
    requires Run(from, to, true, src, i, cap, ConversionOK).result == ConversionOK
    ensures AllRead(from, ps) && src[i..] == Joined(ps)
    ensures Run(from, to, true, src, i, cap, ConversionOK).out == Encoded(to, Chars(ps))
    decreases |src| - i
  {
    hide Units, StepOf, InRange, Run, Reads;
    if i == |src| {
      RunAtEnd(from, to, src, cap);
      ps := [];
    } else {
      SuccessStep(from, to, src, i, cap);
      var st := StepOf(from, to, true, src, i);
      var p := StepIsRead(from, to, src, i);
      StepReads(from, to, src, i, p);
      RunStep(from, to, true, src, i, cap, ConversionOK);
      var rest := SuccessIsRead(from, to, src, i + st.used, cap - |st.units|);
      ps := [p] + rest;
      assert ps[1..] == rest;
      SliceJoin(src, i, st.used);
      EncodedStep(to, Chars(ps));
      assert Chars(ps)[1..] == Chars(rest);
    }
  }

  lemma RunAtEnd(from: Form, to: Form, src: seq<nat>, cap: nat)
    requires InRange(from, src)
    ensures Run(from, to, true, src, |src|, cap, ConversionOK) == Outcome(ConversionOK, |src|, [])
  {
  }

  lemma SuccessStep(from: Form, to: Form, src: seq<nat>, i: nat, cap: nat)
    requires i < |src| && InRange(from, src)
    requires Run(from, to, true, src, i, cap, ConversionOK).result == ConversionOK
    ensures var st := StepOf(from, to, true, src, i);
      st.Char? && st.units != [] && |st.units| <= cap && !st.bad
  {
    hide Units, StepOf, InRange;
    StopIsNotOk(from, to, src, i);
    var st := StepOf(from, to, true, src, i);
    if st.Char? && st.bad && |st.units| <= cap {
      BadStaysBad(from, to, src, i + st.used, cap - |st.units|);
    }
  }

  lemma SliceJoin(src: seq<nat>, i: nat, n: nat)
    requires i + n <= |src|
    ensures src[i..] == src[i..i + n] + src[i + n..]
  {
  }

  /** Such units convert to the encoding of their characters, if there is room for it. */
  lemma {:induction false} ReadConverts(from: Form, to: Form, src: seq<nat>, i: nat, cap: nat, ps: seq<Piece>)
    requires i <= |src| && InRange(from, src) && AllRead(from, ps) && src[i..] == Joined(ps)
    requires |Encoded(to, Chars(ps))| <= cap
    ensures Run(from, to, true, src, i, cap, ConversionOK) == Outcome(ConversionOK, |src|, Encoded(to, Chars(ps)))
    decreases ps
  {
    hide Units, StepOf, InRange, Run, Reads, Encoded;
    if ps == [] {
      EncodedNone(from, []);
      RunNone(from, to, true, src, i, cap);
    } else {
      var p, rest := ps[0], ps[1..];
      Suffix(src, i, p.units, Joined(rest));
      StepReads(from, to, src, i, p);
      RunStep(from, to, true, src, i, cap, ConversionOK);
      EncodedStep(to, Chars(ps));
      assert Chars(ps)[1..] == Chars(rest);
      ReadConverts(from, to, src, i + |p.units|, cap - |Units(to, p.code)|, rest);
    }
  }

  lemma {:induction false} JoinedLong(from: Form, to: Form, ps: seq<Piece>)
    requires AllRead(from, ps)
    ensures |Encoded(to, Chars(ps))| <= 4 * |Joined(ps)|
  {
    hide Units, Encoded;
    if ps == [] {
      EncodedNone(to, Chars(ps));
    } else {
      JoinedLong(from, to, ps[1..]);
      FourUnits(to, ps[0].code);
      EncodedStep(to, Chars(ps));
      assert Chars(ps)[1..] == Chars(ps[1..]);
    }
  }

  lemma FourUnits(to: Form, v: nat)
    requires v <= 0x10FFFF
    ensures |Units(to, v)| <= 4
  {
  }

  ghost predicate IsRead(form: Form, src: seq<nat>) {
    exists ps: seq<Piece> :: AllRead(form, ps) && Joined(ps) == src
  }

  /**
    Strict conversion with room for the longest result reports success exactly when the source is
    made of encodings of characters and, in UTF-8, of overlooked sequences.
   */
  lemma SuccessIff(from: Form, to: Form, src: seq<nat>, cap: nat)
    requires InRange(from, src) && cap >= 4 * |src|
    ensures Run(from, to, true, src, 0, cap, ConversionOK).result == ConversionOK <==> IsRead(from, src)
  {
    hide Run, InRange, Encoded, Reads;
    assert src[0..] == src;
    if Run(from, to, true, src, 0, cap, ConversionOK).result == ConversionOK {
      var ps := SuccessIsRead(from, to, src, 0, cap);
    }
    if ps: seq<Piece> :| AllRead(from, ps) && Joined(ps) == src {
      JoinedLong(from, to, ps);
      ReadConverts(from, to, src, 0, cap, ps);
    }
  }

  ghost predicate IsLegalText(form: Form, src: seq<nat>) {
    exists vs: seq<scalar> :: Encoded(form, vs) == src
  }

  /** Every piece is the encoding of its character. */
  ghost predicate NoneOverlooked(form: Form, ps: seq<Piece>) {
    forall k :: 0 <= k < |ps| ==> ps[k].units == Units(form, ps[k].code)
  }

  lemma {:induction false} NoneOverlookedIsLegal(form: Form, ps: seq<Piece>)
    requires NoneOverlooked(form, ps)
    ensures Joined(ps) == Encoded(form, Chars(ps))
  {
    hide Units;
    if ps != [] {
      NoneOverlookedIsLegal(form, ps[1..]);
      assert Chars(ps)[1..] == Chars(ps[1..]);
    }
  }

  /** Legal text can be read in one way only, so that no piece of it is an overlooked sequence. */
  lemma {:induction false} LegalHasNone(form: Form, ps: seq<Piece>, vs: seq<scalar>)
    requires AllRead(form, ps) && Joined(ps) == Encoded(form, vs)
    ensures NoneOverlooked(form, ps)
    decreases ps
  {
    hide Units, Reads;
    if ps != [] {
      PieceNotEmpty(form, ps[0]);
      var u, rest := Units(form, vs[0]), Encoded(form, vs[1..]);
      FirstSame(form, ps[0], vs[0], Joined(ps[1..]), rest);
      assert Joined(ps[1..]) == Joined(ps)[|u|..];
      assert rest == (u + rest)[|u|..];
      LegalHasNone(form, ps[1..], vs[1..]);
      assert forall k :: 1 <= k < |ps| ==> ps[k] == ps[1..][k - 1];
    }
  }

  lemma PieceNotEmpty(form: Form, p: Piece)
    requires Reads(form, p)
    ensures p.units != []
  {
  }

  /** The first unit says how long the first piece is. */
  lemma FirstSame(form: Form, p: Piece, v: scalar, a: seq<nat>, b: seq<nat>)
    requires Reads(form, p) && p.units + a == Units(form, v) + b
    ensures p.units == Units(form, v) == Units(form, p.code)
  {
    var s, t := p.units, Units(form, v);
    assert s[0] == (s + a)[0] == (t + b)[0] == t[0];
    assert |s| == |t| by { SameLength(form, p, v); }
    assert s == (s + a)[..|s|] == (t + b)[..|t|] == t;
    if form.U8? {
      LegalIff(t);
    }
  }

  lemma SameLength(form: Form, p: Piece, v: scalar)
    requires Reads(form, p) && p.units[0] == Units(form, v)[0]
    ensures |p.units| == |Units(form, v)| && (form.U8? ==> RightLength(Units(form, v)) && IsEncoded8(Units(form, v)))
  {
    if form.U8? {
      EncodedIsLegal(v);
      EncodedIsLegal(p.code);
    }
  }

  /**
    It reports success on illegal text exactly when the source can be read with an overlooked
    sequence in it; then it is UTF-8.
   */
  lemma SuccessOnIllegalIff(from: Form, to: Form, src: seq<nat>, cap: nat)
    requires InRange(from, src) && cap >= 4 * |src|
    ensures Run(from, to, true, src, 0, cap, ConversionOK).result == ConversionOK && !IsLegalText(from, src) <==>
      exists ps: seq<Piece> :: AllRead(from, ps) && Joined(ps) == src && !NoneOverlooked(from, ps)
  {
    hide Run, InRange, Encoded, Reads;
    SuccessIff(from, to, src, cap);
    forall ps: seq<Piece> | AllRead(from, ps) && Joined(ps) == src
      ensures NoneOverlooked(from, ps) <==> IsLegalText(from, src)
    {
      if NoneOverlooked(from, ps) {
        NoneOverlookedIsLegal(from, ps);
      }
      if vs: seq<scalar> :| Encoded(from, vs) == src {
        LegalHasNone(from, ps, vs);
      }
    }
  }

  /** A text that is not UTF-8 and converts to the character U+B800. */
  lemma IllegalConverts(cap: nat)
    requires cap >= 1
    ensures var src := [0xED, 0x20, 0x80];
      InRange(U8, src) && !IsLegalText(U8, src)
        && Run(U8, U16, true, src, 0, cap, ConversionOK) == Outcome(ConversionOK, 3, [0xB800])
  {
    hide Run;
    var src := [0xED, 0x20, 0x80];
    var ps := [Piece(src, 0xB800)];
    assert ps[1..] == [] && Joined(ps) == src == src[0..] && Chars(ps) == [0xB800];
    assert Encoded(U16, [0xB800]) == [0xB800];
    ReadConverts(U8, U16, src, 0, cap, ps);
    assert ps[0].units != Units(U8, ps[0].code);
    if vs: seq<scalar> :| Encoded(U8, vs) == src {
      LegalHasNone(U8, ps, vs);
    }
  }
}
