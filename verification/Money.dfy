/** Fixed-point USD amounts in micro-dollars: parsing, rendering, totals (engine/src/money.rs). */
module Money {
  import opened Prelude
  import opened Text

  const USD_SCALE: int := 1_000_000
  const USD_DECIMALS: nat := 6

  datatype ParseError = EmptyAmount | TooPrecise | NotANumber | Overflows | NegativeAmount

  // ---- reading ----------------------------------------------------------------------------

  /** The characters Unicode calls white space, which is what trimming removes. */
  predicate IsWhitespace(c: char) {
    var n := c as int;
    (9 <= n <= 13) || n == 0x20 || n == 0x85 || n == 0xA0 || n == 0x1680 || (0x2000 <= n <= 0x200A)
    || n == 0x2028 || n == 0x2029 || n == 0x202F || n == 0x205F || n == 0x3000
  }

  function TrimLeft(s: string): string {
    if s != "" && IsWhitespace(s[0]) then TrimLeft(s[1..]) else s
  }

  function TrimRight(s: string): string {
    if s != "" && IsWhitespace(s[|s| - 1]) then TrimRight(s[..|s| - 1]) else s
  }

  function Trim(s: string): string {
    TrimRight(TrimLeft(s))
  }

  /** Length in bytes once encoded as UTF-8; the precision limit counts bytes. */
  function Utf8Length(s: string): nat {
    if s == "" then 0
    else
      var n := s[0] as int;
      (if n < 0x80 then 1 else if n < 0x800 then 2 else if n < 0x1_0000 then 3 else 4) + Utf8Length(s[1..])
  }

  /** One side of the decimal point; an absent side counts as zero. */
  function ParsePart(part: string): (r: Result<u128, ParseError>) {
    if part == "" then Ok(0)
    else if !AllDigits(part) then Err(NotANumber)
    else if Value(part) > U128_MAX then Err(NotANumber)
    else Ok(Value(part))
  }

  function StripSign(text: string): (bool, string) {
    if text != "" && text[0] == '-' then (true, text[1..])
    else if text != "" && text[0] == '+' then (false, text[1..])
    else (false, text)
  }

  function SplitPoint(digits: string): (string, string) {
    var i := IndexOf(digits, '.');
    if i == |digits| then (digits, "") else (digits[..i], digits[i + 1..])
  }

  /** Whole dollars and a fraction written with `places` digits, in micro-dollars. */
  function Scaled(whole: nat, fraction: nat, places: nat): nat
    requires places <= USD_DECIMALS
  {
    Pow10Positive(USD_DECIMALS - places);
    whole * USD_SCALE + fraction * Pow10(USD_DECIMALS - places)
  }

  lemma ScaledBounds(whole: nat, fraction: nat, places: nat)
    requires places <= USD_DECIMALS
    ensures whole <= Scaled(whole, fraction, places) && fraction <= Scaled(whole, fraction, places)
  {
    Pow10Positive(USD_DECIMALS - places);
    assert fraction * Pow10(USD_DECIMALS - places) >= fraction;
  }

  datatype Parsed = Parsed(negative: bool, micro: u128)

  /** The two sides of the point, read and scaled to micro-dollars. */
  function ReadParts(negative: bool, whole: string, fraction: string): Result<Parsed, ParseError> {
    if Utf8Length(fraction) > USD_DECIMALS then Err(TooPrecise)
    else
      match (ParsePart(whole), ParsePart(fraction))
      case (Err(e), _) => Err(e)
      case (_, Err(e)) => Err(e)
      case (Ok(w), Ok(f)) =>
        Utf8Bounds(fraction);
        var micro := Scaled(w, f, |fraction|);
        if micro > U128_MAX then Err(Overflows) else Ok(Parsed(negative, micro))
  }

  /** A decimal amount, as a sign and a magnitude in micro-dollars. */
  function ParseDecimal(text: string): Result<Parsed, ParseError> {
    var (negative, digits) := StripSign(Trim(text));
    if forall i :: 0 <= i < |digits| ==> !IsDigit(digits[i]) then Err(EmptyAmount)
    else
      var (whole, fraction) := SplitPoint(digits);
      ReadParts(negative, whole, fraction)
  }

  lemma {:induction false} Utf8Bounds(s: string)
    ensures |s| <= Utf8Length(s)
    ensures AllDigits(s) ==> Utf8Length(s) == |s|
  {
    if s != "" {
      Utf8Bounds(s[1..]);
      assert s == [s[0]] + s[1..];
      assert AllDigits(s) ==> IsDigit(s[0]) && AllDigits(s[1..]);
    }
  }

  function ParseUsd(text: string): Result<u128, ParseError> {
    match ParseDecimal(text)
    case Err(e) => Err(e)
    case Ok(Parsed(negative, micro)) => if negative && micro != 0 then Err(NegativeAmount) else Ok(micro)
  }

  function ParseSignedUsd(text: string): Result<i128, ParseError> {
    match ParseDecimal(text)
    case Err(e) => Err(e)
    case Ok(Parsed(negative, magnitude)) =>
      var micro: int := magnitude;
      if negative && micro == -I128_MIN then Ok(I128_MIN)
      else if micro > I128_MAX then Err(Overflows)
      else Ok(if negative then -micro else micro)
  }

  // ---- the language of amounts --------------------------------------------------------------

  /** An amount as a person would spell it. */
  datatype Spelling = Spelling(sign: string, whole: string, point: bool, fraction: string) {
    function Tail(): string {
      if point then "." + fraction else ""
    }

    function Write(): string {
      sign + (whole + Tail())
    }

    predicate WellFormed() {
      && (sign == "" || sign == "+" || sign == "-")
      && AllDigits(whole) && AllDigits(fraction)
      && |whole| + |fraction| > 0
      && |fraction| <= USD_DECIMALS
      && (!point ==> fraction == "")
    }

    function Micro(): nat
      requires WellFormed()
    {
      Scaled(Value(whole), Value(fraction), |fraction|)
    }
  }

  lemma SpellingParts(sp: Spelling)
    requires sp.WellFormed()
    ensures StripSign(sp.Write()) == (sp.sign == "-", sp.whole + sp.Tail())
  {
    var rest := sp.whole + sp.Tail();
    assert rest != "" && (IsDigit(rest[0]) || rest[0] == '.');
    assert sp.Write() == sp.sign + rest;
    if sp.sign == "" {
      assert sp.Write() == rest;
    } else {
      assert sp.Write()[1..] == rest;
    }
  }

  lemma SpellingSplits(sp: Spelling)
    requires sp.WellFormed()
    ensures SplitPoint(sp.whole + sp.Tail()) == (sp.whole, sp.fraction)
  {
    var rest := sp.whole + sp.Tail();
    var i := IndexOf(rest, '.');
    if sp.point {
      assert rest[|sp.whole|] == '.';
      assert forall j :: 0 <= j < |sp.whole| ==> rest[j] == sp.whole[j] && IsDigit(rest[j]);
      assert i == |sp.whole|;
      assert rest[..i] == sp.whole && rest[i + 1..] == sp.fraction;
    } else {
      assert rest == sp.whole;
      assert i == |rest|;
    }
  }

  lemma FractionFits(fraction: string)
    requires AllDigits(fraction) && |fraction| <= USD_DECIMALS
    ensures Value(fraction) <= U128_MAX
  {
    ValueBound(fraction);
    Pow10Adds(|fraction|, USD_DECIMALS - |fraction|);
    Pow10Positive(USD_DECIMALS - |fraction|);
    Million();
    assert Pow10(|fraction|) <= Pow10(|fraction|) * Pow10(USD_DECIMALS - |fraction|);
  }

  lemma Million()
    ensures Pow10(6) == 1_000_000
  {
  }

  lemma SpellingHasDigit(sp: Spelling)
    requires sp.WellFormed()
    ensures var rest := sp.whole + sp.Tail();
      exists i :: 0 <= i < |rest| && IsDigit(rest[i])
  {
    var rest := sp.whole + sp.Tail();
    assert if sp.whole != "" then IsDigit(rest[0]) else IsDigit(rest[1]);
  }

  lemma DigitsRead(negative: bool, whole: string, fraction: string)
    requires AllDigits(whole) && AllDigits(fraction) && |fraction| <= USD_DECIMALS
    ensures var micro := Scaled(Value(whole), Value(fraction), |fraction|);
      if micro <= U128_MAX then ReadParts(negative, whole, fraction) == Ok(Parsed(negative, micro))
      else ReadParts(negative, whole, fraction).Err? && ReadParts(negative, whole, fraction).error in {Overflows, NotANumber}
  {
    Utf8Bounds(fraction);
    FractionFits(fraction);
    ScaledBounds(Value(whole), Value(fraction), |fraction|);
    assert Value("") == 0;
    hide Scaled, Value, Pow10, Utf8Length;
  }

  lemma OnlyDigitsRead(negative: bool, whole: string, fraction: string)
    requires ReadParts(negative, whole, fraction).Ok?
    ensures AllDigits(whole) && AllDigits(fraction) && |fraction| <= USD_DECIMALS
  {
    Utf8Bounds(fraction);
  }

  /** Every well-formed spelling is read as its exact value, or refused for size alone. */
  lemma SpellingsParse(text: string, sp: Spelling)
    requires sp.WellFormed() && Trim(text) == sp.Write()
    ensures sp.Micro() <= U128_MAX ==> ParseDecimal(text) == Ok(Parsed(sp.sign == "-", sp.Micro()))
    ensures sp.Micro() > U128_MAX ==> ParseDecimal(text).Err? && ParseDecimal(text).error in {Overflows, NotANumber}
  {
    SpellingParts(sp);
    SpellingSplits(sp);
    SpellingHasDigit(sp);
    DigitsRead(sp.sign == "-", sp.whole, sp.fraction);
    hide Scaled, Value, Trim, StripSign, SplitPoint, ReadParts, AllDigits, Spelling.Write, Spelling.Tail;
  }

  lemma PointRejoins(digits: string)
    ensures var (whole, fraction) := SplitPoint(digits);
      if IndexOf(digits, '.') < |digits| then digits == whole + ("." + fraction)
      else digits == whole && fraction == ""
  {
    var i := IndexOf(digits, '.');
    if i < |digits| { Rejoins(digits, i); }
    hide IndexOf;
  }

  lemma Rejoins(s: string, i: nat)
    requires i < |s|
    ensures s == s[..i] + ([s[i]] + s[i + 1..])
  {
  }

  /** The spelling a text takes apart into, before asking whether it is well formed. */
  function SpellingOf(t: string): Spelling {
    var (_, digits) := StripSign(t);
    var (whole, fraction) := SplitPoint(digits);
    Spelling(t[..|t| - |digits|], whole, IndexOf(digits, '.') < |digits|, fraction)
  }

  lemma SpellingOfWrites(t: string)
    ensures SpellingOf(t).whole + SpellingOf(t).Tail() == StripSign(t).1
    ensures SpellingOf(t).Write() == t
    ensures !SpellingOf(t).point ==> SpellingOf(t).fraction == ""
  {
    var digits := StripSign(t).1;
    PointRejoins(digits);
    hide SplitPoint, IndexOf;
    assert t == t[..|t| - |digits|] + digits;
  }

  lemma SpellingOfSign(t: string)
    ensures SpellingOf(t).sign == (if t != "" && (t[0] == '-' || t[0] == '+') then t[..1] else "")
    ensures StripSign(t).0 == (SpellingOf(t).sign == "-")
  {
  }

  lemma SpellingOfNotEmpty(t: string)
    requires exists i :: 0 <= i < |StripSign(t).1| && IsDigit(StripSign(t).1[i])
    ensures |SpellingOf(t).whole| + |SpellingOf(t).fraction| > 0
  {
  }

  lemma AcceptedIsWellFormed(text: string, sp: Spelling)
    requires ParseDecimal(text).Ok? && sp == SpellingOf(Trim(text))
    ensures sp.WellFormed()
  {
    var t := Trim(text);
    OnlyDigitsRead(StripSign(t).0, sp.whole, sp.fraction);
    SpellingOfNotEmpty(t);
    SpellingOfWrites(t);
    SpellingOfSign(t);
    assert t != "" ==> t[..1] == [t[0]];
    hide ParseDecimal, Trim, StripSign, AllDigits, SpellingOf, Spelling.Write, Spelling.Tail;
  }

  /** Nothing else is read: an accepted text is a well-formed spelling of an amount in range. */
  lemma OnlySpellingsParse(text: string, sp: Spelling)
    requires ParseDecimal(text).Ok? && sp == SpellingOf(Trim(text))
    ensures sp.WellFormed() && Trim(text) == sp.Write()
    ensures ParseDecimal(text) == Ok(Parsed(sp.sign == "-", sp.Micro()))
  {
    AcceptedIsWellFormed(text, sp);
    SpellingOfWrites(Trim(text));
    SpellingsParse(text, sp);
    hide Trim, StripSign, SplitPoint, AllDigits, Value, Scaled, IndexOf, Spelling.Write, Spelling.WellFormed, SpellingOf;
  }

  /** The reader accepts exactly the signed, at-most-six-decimals digit strings whose value
      fits 128 bits, and its answer is that value. */
  lemma ParserIsExact(text: string, negative: bool, micro: u128)
    ensures ParseDecimal(text) == Ok(Parsed(negative, micro)) <==>
      exists sp: Spelling :: sp.WellFormed() && Trim(text) == sp.Write()
        && (sp.sign == "-") == negative && sp.Micro() == micro
  {
    if ParseDecimal(text) == Ok(Parsed(negative, micro)) {
      OnlySpellingsParse(text, SpellingOf(Trim(text)));
    }
    forall sp: Spelling | sp.WellFormed() && Trim(text) == sp.Write() && (sp.sign == "-") == negative && sp.Micro() == micro
      ensures ParseDecimal(text) == Ok(Parsed(negative, micro))
    {
      SpellingsParse(text, sp);
    }
  }

  predicate Blank(s: string) {
    forall i :: 0 <= i < |s| ==> IsWhitespace(s[i])
  }

  lemma {:induction false} TrimLeftKeeps(s: string) returns (k: nat)
    ensures k <= |s| && TrimLeft(s) == s[k..] && Blank(s[..k])
    ensures TrimLeft(s) == "" || !IsWhitespace(TrimLeft(s)[0])
  {
    k := 0;
    if s != "" && IsWhitespace(s[0]) {
      k := TrimLeftKeeps(s[1..]);
      assert s[1..][k..] == s[k + 1..];
      assert s[..k + 1] == [s[0]] + s[1..][..k];
      hide IsWhitespace;
      k := k + 1;
    }
  }

  lemma {:induction false} TrimRightKeeps(s: string) returns (k: nat)
    ensures k <= |s| && TrimRight(s) == s[..k] && Blank(s[k..])
    ensures TrimRight(s) == "" || !IsWhitespace(TrimRight(s)[|TrimRight(s)| - 1])
  {
    k := |s|;
    assert s[..k] == s;
    if s != "" && IsWhitespace(s[|s| - 1]) {
      var t := s[..|s| - 1];
      k := TrimRightKeeps(t);
      assert t[..k] == s[..k];
      assert s[k..] == t[k..] + [s[|s| - 1]];
      hide IsWhitespace;
    }
  }

  /** Only white space goes, all of it on the left and all of it on the right. */
  lemma TrimMeans(s: string) returns (i: nat, j: nat)
    ensures i <= j <= |s| && Trim(s) == s[i..j] && Blank(s[..i]) && Blank(s[j..])
    ensures Trim(s) == "" || (!IsWhitespace(Trim(s)[0]) && !IsWhitespace(Trim(s)[|Trim(s)| - 1]))
  {
    i := TrimLeftKeeps(s);
    var t := s[i..];
    var k := TrimRightKeeps(t);
    j := i + k;
    assert t[..k] == s[i..j] && t[k..] == s[j..];
    hide IsWhitespace, TrimLeft, TrimRight, Blank;
    assert k > 0 ==> t[..k][0] == t[0];
  }

  /** A spelling is worth its digits read as one number, times ten for every decimal it leaves out. */
  lemma MicroMeans(sp: Spelling)
    requires sp.WellFormed()
    ensures AllDigits(sp.whole + sp.fraction)
    ensures sp.Micro() == Value(sp.whole + sp.fraction) * Pow10(6 - |sp.fraction|)
  {
    ValueConcat(sp.whole, sp.fraction);
    Pow10Adds(|sp.fraction|, 6 - |sp.fraction|);
    Million();
    Distributes(Value(sp.whole), Value(sp.fraction), Pow10(|sp.fraction|), Pow10(6 - |sp.fraction|));
    hide Pow10, Value, AllDigits;
  }

  lemma Distributes(w: nat, f: nat, a: nat, b: nat)
    ensures (w * a + f) * b == w * (a * b) + f * b
  {
  }

  /** The text spells an amount of this size, with a minus sign or without. */
  ghost predicate Spells(text: string, negative: bool, micro: nat) {
    exists sp: Spelling :: sp.WellFormed() && Trim(text) == sp.Write() && (sp.sign == "-") == negative && sp.Micro() == micro
  }

  /** Unsigned amounts: a negative spelling is refused as such, unless it spells zero. */
  lemma UnsignedParserIsExact(text: string, micro: u128)
    ensures ParseUsd(text) == Ok(micro) <==> Spells(text, false, micro) || (micro == 0 && Spells(text, true, 0))
    ensures ParseUsd(text) == Err(NegativeAmount) ==> exists m: u128 :: m > 0 && Spells(text, true, m)
    ensures micro > 0 && Spells(text, true, micro) ==> ParseUsd(text) == Err(NegativeAmount)
  {
    ParserIsExact(text, false, micro);
    ParserIsExact(text, true, micro);
    if ParseUsd(text) == Err(NegativeAmount) {
      NegativeIsSpelled(text);
    }
    hide ParseDecimal, Trim, Spelling.Micro, Spelling.WellFormed, Spelling.Write;
  }

  lemma ReadErrors(text: string)
    ensures ParseDecimal(text) != Err(NegativeAmount)
  {
  }

  lemma NegativeIsSpelled(text: string)
    requires ParseUsd(text) == Err(NegativeAmount)
    ensures exists m: u128 :: m > 0 && Spells(text, true, m)
  {
    ReadErrors(text);
    hide ParseDecimal;
    var m := ParseDecimal(text).value.micro;
    ParserIsExact(text, true, m);
    assert m > 0 && Spells(text, true, m);
  }

  /** Signed amounts: exactly the spellings of numbers that fit, the least one included. */
  lemma SignedParserIsExact(text: string, value: i128)
    ensures ParseSignedUsd(text) == Ok(value) <==>
      (value >= 0 && Spells(text, false, value)) || (value <= 0 && Spells(text, true, Abs(value)))
  {
    ParserIsExact(text, false, Abs(value));
    ParserIsExact(text, true, Abs(value));
    SignedReads(text, value);
    hide ParseDecimal, ParseSignedUsd, Trim, Abs, Spelling.Micro, Spelling.WellFormed, Spelling.Write;
  }

  lemma SignedReads(text: string, value: i128)
    ensures ParseSignedUsd(text) == Ok(value) <==>
      || (value >= 0 && ParseDecimal(text) == Ok(Parsed(false, Abs(value))))
      || (value <= 0 && ParseDecimal(text) == Ok(Parsed(true, Abs(value))))
  {
    hide ParseDecimal;
  }

  // ---- writing -------------------------------------------------------------------------------

  function RenderDecimal(micro: nat): string {
    Decimal(micro / USD_SCALE) + "." + Padded(micro % USD_SCALE, USD_DECIMALS)
  }

  function PlainUsd(u: u128): string {
    RenderDecimal(u)
  }

  function PlainSignedUsd(s: i128): string {
    (if s < 0 then "-" else "") + RenderDecimal(Abs(s))
  }

  lemma ScaledWhole(whole: nat, fraction: nat)
    ensures Scaled(whole, fraction, USD_DECIMALS) == whole * USD_SCALE + fraction
  {
  }

  lemma RenderedSpelling(sign: string, micro: nat)
    requires sign == "" || sign == "-"
    ensures var sp := Spelling(sign, Decimal(micro / USD_SCALE), true, Padded(micro % USD_SCALE, USD_DECIMALS));
      sp.WellFormed() && sp.Write() == sign + RenderDecimal(micro) && sp.Micro() == micro
      && Trim(sp.Write()) == sp.Write()
  {
    var whole, fraction := Decimal(micro / USD_SCALE), Padded(micro % USD_SCALE, USD_DECIMALS);
    RenderedParts(micro);
    DigitsAreNotWhitespace(sign, whole, fraction);
    TrimKeeps(sign + (whole + ("." + fraction)));
    PointConcat(whole, fraction);
    assert RenderDecimal(micro) == whole + "." + fraction;
    hide Scaled, Decimal, Padded, Value, RenderDecimal, Trim, IsWhitespace, AllDigits;
  }

  lemma PointConcat(whole: string, fraction: string)
    ensures whole + "." + fraction == whole + ("." + fraction)
  {
  }

  lemma RenderedParts(micro: nat)
    ensures var whole, fraction := Decimal(micro / USD_SCALE), Padded(micro % USD_SCALE, USD_DECIMALS);
      && whole != "" && AllDigits(whole) && |fraction| == USD_DECIMALS && AllDigits(fraction)
      && Scaled(Value(whole), Value(fraction), USD_DECIMALS) == micro
  {
    Million();
    DecimalValue(micro / USD_SCALE);
    PaddedValue(micro % USD_SCALE, USD_DECIMALS);
    ScaledWhole(micro / USD_SCALE, micro % USD_SCALE);
    hide Scaled, Decimal, Padded, Value, AllDigits;
  }

  lemma DigitsAreNotWhitespace(sign: string, whole: string, fraction: string)
    requires (sign == "" || sign == "-") && whole != "" && fraction != "" && AllDigits(whole) && AllDigits(fraction)
    ensures var s := sign + (whole + ("." + fraction));
      s != "" && !IsWhitespace(s[0]) && !IsWhitespace(s[|s| - 1])
  {
  }

  lemma TrimKeeps(s: string)
    requires s != "" && !IsWhitespace(s[0]) && !IsWhitespace(s[|s| - 1])
    ensures Trim(s) == s
  {
  }

  /** Every non-negative amount survives being written and read back. */
  lemma UsdRoundTrip(u: u128)
    ensures ParseUsd(PlainUsd(u)) == Ok(u)
  {
    RenderedSpelling("", u);
    var sp := Spelling("", Decimal(u / USD_SCALE), true, Padded(u % USD_SCALE, USD_DECIMALS));
    assert sp.Write() == PlainUsd(u);
    SpellingsParse(PlainUsd(u), sp);
  }

  /** So does every signed amount, the most negative one included. */
  lemma SignedUsdRoundTrip(s: i128)
    ensures ParseSignedUsd(PlainSignedUsd(s)) == Ok(s)
  {
    hide Scaled, Value, Pow10, Trim, ParseDecimal, RenderDecimal;
    var sign := if s < 0 then "-" else "";
    RenderedSpelling(sign, Abs(s));
    var sp := Spelling(sign, Decimal(Abs(s) / USD_SCALE), true, Padded(Abs(s) % USD_SCALE, USD_DECIMALS));
    assert sp.Write() == PlainSignedUsd(s);
    SpellingsParse(PlainSignedUsd(s), sp);
  }

  /** The corpus' shorter form drops trailing zeros and then a bare point (engine/src/corpus.rs). */
  function ShortUsd(micro: u64): string {
    TrimEnd(TrimEnd(RenderDecimal(micro), '0'), '.')
  }

  lemma TrimmedFraction(fraction: string)
    requires AllDigits(fraction) && |fraction| == USD_DECIMALS
    ensures var kept := TrimEnd(fraction, '0');
      AllDigits(kept) && |kept| <= USD_DECIMALS
      && Value(kept) * Pow10(USD_DECIMALS - |kept|) == Value(fraction)
  {
    var kept := TrimEnd(fraction, '0');
    TrimEndSplits(fraction, '0');
    var zeros := Repeat('0', USD_DECIMALS - |kept|);
    assert fraction == kept + zeros;
    assert AllDigits(kept) by {
      assert forall i :: 0 <= i < |kept| ==> kept[i] == fraction[i];
    }
    ZerosValue(USD_DECIMALS - |kept|);
    ValueConcat(kept, zeros);
    hide *;
  }

  /** What trimming leaves: the whole part, and the fraction only if it is not zero. */
  lemma ShortForm(micro: u64)
    ensures var kept := TrimEnd(Padded(micro % USD_SCALE, USD_DECIMALS), '0');
      ShortUsd(micro) == Decimal(micro / USD_SCALE) + (if kept == "" then "" else "." + kept)
  {
    var whole := Decimal(micro / USD_SCALE);
    var fraction := Padded(micro % USD_SCALE, USD_DECIMALS);
    var kept := TrimEnd(fraction, '0');
    Million();
    DecimalValue(micro / USD_SCALE);
    PaddedValue(micro % USD_SCALE, USD_DECIMALS);
    TrimEndSplits(fraction, '0');
    assert RenderDecimal(micro) == whole + ("." + fraction);
    DotFraction(fraction);
    TrimEndSuffix(whole, "." + fraction, '0');
    assert AllDigits(kept) by {
      assert forall i :: 0 <= i < |kept| ==> kept[i] == fraction[i];
    }
    hide Decimal, Padded, Value, Repeat, Pow10, RenderDecimal;
    PointTrims(whole, kept);
  }

  lemma PointTrims(whole: string, kept: string)
    requires whole != "" && AllDigits(whole) && AllDigits(kept)
    ensures TrimEnd(whole + ("." + kept), '.') == whole + (if kept == "" then "" else "." + kept)
  {
  }

  lemma {:induction false} DotFraction(fraction: string)
    ensures TrimEnd("." + fraction, '0') == "." + TrimEnd(fraction, '0')
  {
    assert ("." + fraction)[|fraction|] == if fraction == "" then '.' else fraction[|fraction| - 1];
    if fraction == "" {
      assert "." + fraction == ".";
    } else if fraction[|fraction| - 1] == '0' {
      assert ("." + fraction)[..|fraction|] == "." + fraction[..|fraction| - 1];
      DotFraction(fraction[..|fraction| - 1]);
    }
  }

  /** The shortened form loses no value either. */
  lemma ShortUsdRoundTrip(micro: u64)
    ensures ParseUsd(ShortUsd(micro)) == Ok(micro)
  {
    var fraction := Padded(micro % USD_SCALE, USD_DECIMALS);
    var kept := TrimEnd(fraction, '0');
    Million();
    DecimalValue(micro / USD_SCALE);
    PaddedValue(micro % USD_SCALE, USD_DECIMALS);
    TrimmedFraction(fraction);
    ShortForm(micro);
    var sp := Spelling("", Decimal(micro / USD_SCALE), kept != "", kept);
    assert sp.Micro() == micro;
    assert sp.Write() == ShortUsd(micro);
    TrimKeeps(sp.Write());
    SpellingsParse(ShortUsd(micro), sp);
  }

  // ---- display -------------------------------------------------------------------------------

  function WithoutCommas(s: string): string {
    if s == "" then "" else WithoutCommas(s[..|s| - 1]) + (if s[|s| - 1] == ',' then "" else [s[|s| - 1]])
  }

  lemma WithoutCommasPush(s: string, c: char)
    ensures WithoutCommas(s + [c]) == WithoutCommas(s) + (if c == ',' then "" else [c])
  {
  }

  /** A comma at exactly every fourth place, counted from the right end of `total` characters. */
  ghost predicate CommasEveryFourth(s: string, total: int) {
    forall p :: 0 <= p < |s| ==> (s[p] == ',' <==> (total - p) % 4 == 0)
  }

  /** Characters still to come when `left` digits are left and at least one is written. */
  function GroupedTail(left: nat): nat {
    left + left / 3
  }

  lemma GroupArithmetic(left: nat)
    requires left > 0
    ensures left % 3 == 0 ==> GroupedTail(left) % 4 == 0 && GroupedTail(left) - 1 == GroupedTail(left - 1) + 1
    ensures left % 3 == 0 ==> (GroupedTail(left) - 1) % 4 != 0
    ensures left % 3 != 0 ==> GroupedTail(left) % 4 != 0 && GroupedTail(left) == GroupedTail(left - 1) + 1
  {
  }

  lemma GroupStart(n: nat)
    requires n > 0
    ensures (1 + GroupedTail(n - 1)) % 4 != 0
  {
  }

  /** What the grouping loop still has to write from a digit on. */
  function GroupedFrom(digits: string, index: nat): string
    requires index <= |digits|
    decreases |digits| - index
  {
    if index == |digits| then ""
    else (if index > 0 && (|digits| - index) % 3 == 0 then "," else "") + [digits[index]] + GroupedFrom(digits, index + 1)
  }

  function Grouped(value: nat): string {
    GroupedFrom(Decimal(value), 0)
  }

  function FormatDollars(micro: u128): string {
    var cents := ToCents(micro);
    "$" + Grouped(cents / 100) + "." + Padded(cents % 100, 2)
  }

  lemma GroupedFromUnrolls(digits: string, index: nat, out: string)
    requires index < |digits|
    ensures out + GroupedFrom(digits, index)
         == (if index > 0 && (|digits| - index) % 3 == 0 then out + "," else out) + [digits[index]] + GroupedFrom(digits, index + 1)
  {
  }

  /** The loop that writes an amount with thousands separators. */
  method GroupThousands(value: u128) returns (out: string)
    ensures out == Grouped(value)
  {
    var digits := Decimal(value);
    out := "";
    for index := 0 to |digits|
      invariant out + GroupedFrom(digits, index) == Grouped(value)
    {
      hide Grouped, GroupedFrom, Decimal;
      GroupedFromUnrolls(digits, index, out);
      if index > 0 && (|digits| - index) % 3 == 0 {
        out := out + ",";
      }
      out := out + [digits[index]];
    }
  }

  /** What is written and what is left to write, with `out` already right so far. */
  ghost predicate GroupedSoFar(digits: string, out: string, index: nat)
    requires digits != "" && index <= |digits|
  {
    var total := 1 + GroupedTail(|digits| - 1);
    && WithoutCommas(out) == digits[..index]
    && CommasEveryFourth(out, total)
    && (if index == 0 then out == ""
        else out != "" && out[0] != ',' && |out| == total - GroupedTail(|digits| - index))
  }

  lemma GroupedStep(digits: string, out: string, index: nat)
    requires index < |digits| && AllDigits(digits) && GroupedSoFar(digits, out, index)
    ensures var sep := if index > 0 && (|digits| - index) % 3 == 0 then "," else "";
      GroupedSoFar(digits, out + sep + [digits[index]], index + 1)
  {
    assert digits[..index + 1] == digits[..index] + [digits[index]];
    assert out + "" == out;
    assert IsDigit(digits[index]);
    hide AllDigits, IsDigit;
    GroupStart(|digits|);
    GroupArithmetic(|digits| - index);
    var total := 1 + GroupedTail(|digits| - 1);
    if index > 0 && (|digits| - index) % 3 == 0 {
      WrittenComma(out, total);
      WrittenDigit(out + ",", digits[index], total);
    } else {
      WrittenDigit(out, digits[index], total);
    }
    hide CommasEveryFourth, WithoutCommas, GroupedTail;
  }

  lemma WrittenComma(out: string, total: int)
    ensures CommasEveryFourth(out, total) && (total - |out|) % 4 == 0 ==> CommasEveryFourth(out + ",", total)
    ensures WithoutCommas(out + ",") == WithoutCommas(out)
  {
    WithoutCommasPush(out, ',');
    hide WithoutCommas;
  }

  lemma WrittenDigit(out: string, digit: char, total: int)
    requires IsDigit(digit)
    ensures CommasEveryFourth(out, total) && (total - |out|) % 4 != 0 ==> CommasEveryFourth(out + [digit], total)
    ensures WithoutCommas(out + [digit]) == WithoutCommas(out) + [digit]
  {
    WithoutCommasPush(out, digit);
    hide WithoutCommas;
  }

  lemma GroupedFromEnd(digits: string)
    ensures GroupedFrom(digits, |digits|) == ""
  {
  }

  lemma {:induction false} GroupedCompletes(digits: string, out: string, index: nat)
    requires index <= |digits| && digits != "" && AllDigits(digits) && GroupedSoFar(digits, out, index)
    ensures GroupedSoFar(digits, out + GroupedFrom(digits, index), |digits|)
    decreases |digits| - index
  {
    hide *;
    GroupedFromEnd(digits);
    if index == |digits| {
      assert out + "" == out;
    } else {
      var sep := if index > 0 && (|digits| - index) % 3 == 0 then "," else "";
      GroupedStep(digits, out, index);
      GroupedCompletes(digits, out + sep + [digits[index]], index + 1);
      GroupedFromUnrolls(digits, index, out);
      assert out + "" == out;
    }
  }

  /** Thousands grouping: erasing the commas gives the digits back, and a comma stands at
      exactly every fourth place counted from the right, never first. */
  lemma GroupingIsRight(value: nat)
    ensures WithoutCommas(Grouped(value)) == Decimal(value)
    ensures forall p :: 0 <= p < |Grouped(value)| ==> (Grouped(value)[p] == ',' <==> (|Grouped(value)| - p) % 4 == 0)
    ensures Grouped(value) != "" && Grouped(value)[0] != ','
  {
    var digits := Decimal(value);
    DecimalValue(value);
    assert GroupedSoFar(digits, "", 0) by {
      assert digits[..0] == "";
    }
    GroupedCompletes(digits, "", 0);
    assert "" + GroupedFrom(digits, 0) == Grouped(value);
    GroupedAtEnd(digits, Grouped(value));
    hide *;
    GroupedPattern(Grouped(value));
  }

  lemma GroupedAtEnd(digits: string, out: string)
    requires digits != "" && GroupedSoFar(digits, out, |digits|)
    ensures WithoutCommas(out) == digits && CommasEveryFourth(out, |out|) && out != "" && out[0] != ','
  {
  }

  lemma GroupedPattern(out: string)
    requires CommasEveryFourth(out, |out|)
    ensures forall p :: 0 <= p < |out| ==> (out[p] == ',' <==> (|out| - p) % 4 == 0)
  {
  }

  /** Cents, half up. */
  function ToCents(micro: u128): u128 {
    micro / 10_000 + (if micro % 10_000 >= 5_000 then 1 else 0)
  }

  /** Rounding to cents moves an amount by at most half a cent, and a tie moves it up; no
      other number of cents qualifies. */
  lemma CentsAreNearest(micro: u128, cents: int)
    ensures cents == ToCents(micro) <==> -5_000 < 10_000 * cents - micro <= 5_000
  {
  }

  /** Amounts in full are written with six decimals, negative ones after a minus sign. */
  lemma UsdIsWritten(u: u128, v: i128)
    ensures FixedPoint(PlainUsd(u), 6, u)
    ensures v >= 0 ==> FixedPoint(PlainSignedUsd(v), 6, v)
    ensures v < 0 ==> PlainSignedUsd(v)[..1] == "-" && FixedPoint(PlainSignedUsd(v)[1..], 6, Abs(v))
  {
    RenderIsWritten(u);
    RenderIsWritten(Abs(v));
    assert "" + RenderDecimal(Abs(v)) == RenderDecimal(Abs(v));
    hide RenderDecimal, FixedPoint, Abs;
  }

  lemma RenderIsWritten(micro: nat)
    ensures FixedPoint(RenderDecimal(micro), 6, micro)
  {
    Million();
    FixedPointText(micro / 1_000_000, micro % 1_000_000, 6);
    hide Decimal, Padded, FixedPoint, Pow10;
  }

  lemma PointPush(whole: string, f: string, c: char)
    ensures whole + ("." + (f + [c])) == (whole + ("." + f)) + [c]
  {
  }

  lemma {:induction false} CommasDrop(whole: string, fraction: string)
    requires AllDigits(fraction)
    ensures WithoutCommas(whole + ("." + fraction)) == WithoutCommas(whole) + ("." + fraction)
  {
    if fraction == "" {
      WithoutCommasPush(whole, '.');
      assert whole + ("." + "") == whole + ['.'];
    } else {
      var f, c := fraction[..|fraction| - 1], fraction[|fraction| - 1];
      assert IsDigit(c) && fraction == f + [c];
      CommasDrop(whole, f);
      WithoutCommasPush(whole + ("." + f), c);
      PointPush(whole, f, c);
      PointPush(WithoutCommas(whole), f, c);
      hide WithoutCommas, AllDigits;
    }
  }

  /** Displayed dollars, the commas aside, are the cents nearest the amount, with two decimals. */
  lemma DollarsAreWritten(micro: u128)
    ensures FormatDollars(micro)[..1] == "$"
    ensures FixedPoint(WithoutCommas(FormatDollars(micro)[1..]), 2, ToCents(micro))
  {
    var cents := ToCents(micro);
    var whole, rest := cents / 100, cents % 100;
    assert Pow10(2) == 100;
    FixedPointText(whole, rest, 2);
    PaddedValue(rest, 2);
    GroupingIsRight(whole);
    CommasDrop(Grouped(whole), Padded(rest, 2));
    var t := Grouped(whole) + ("." + Padded(rest, 2));
    assert FormatDollars(micro) == "$" + t;
    assert FormatDollars(micro)[1..] == t;
    assert Decimal(whole) + ("." + Padded(rest, 2)) == Decimal(whole) + "." + Padded(rest, 2);
    hide *;
  }

  // ---- totals ---------------------------------------------------------------------------------

  function SaturatingAdd(a: u128, b: u128): u128 {
    Min(a + b, U128_MAX)
  }

  function SumFrom(total: u128, values: seq<u128>): u128
    decreases |values|
  {
    if values == [] then total else SumFrom(SaturatingAdd(total, values[0]), values[1..])
  }

  /** The running total the engine keeps: a left fold of saturating additions. */
  function SumUsd(values: seq<u128>): u128 {
    SumFrom(0, values)
  }

  function TrueSum(values: seq<nat>): nat {
    if values == [] then 0 else values[0] + TrueSum(values[1..])
  }

  lemma {:induction false} SumFromIsClamped(total: u128, values: seq<u128>)
    ensures SumFrom(total, values) == Min(total + TrueSum(values), U128_MAX)
    decreases |values|
  {
    if values != [] { SumFromIsClamped(SaturatingAdd(total, values[0]), values[1..]); }
  }

  /** A saturating total is the true total, clamped once. */
  lemma SumIsClamped(values: seq<u128>)
    ensures SumUsd(values) == Min(TrueSum(values), U128_MAX)
  {
    SumFromIsClamped(0, values);
  }

  lemma {:induction false} TrueSumAppend(a: seq<nat>, b: seq<nat>)
    ensures TrueSum(a + b) == TrueSum(a) + TrueSum(b)
  {
    if a == [] {
      assert a + b == b;
    } else {
      assert a + b == [a[0]] + (a[1..] + b);
      TrueSumAppend(a[1..], b);
    }
  }

  lemma {:induction false} TrueSumPermutes(a: seq<nat>, b: seq<nat>)
    requires multiset(a) == multiset(b)
    ensures TrueSum(a) == TrueSum(b)
  {
    if a == [] {
      assert |multiset(b)| == 0;
    } else {
      assert a[0] in multiset(b);
      var i :| 0 <= i < |b| && b[i] == a[0];
      var rest := b[..i] + b[i + 1..];
      assert b == b[..i] + ([b[i]] + b[i + 1..]);
      assert a == [a[0]] + a[1..];
      assert multiset(rest) == multiset(b) - multiset{b[i]};
      assert multiset(a[1..]) == multiset(a) - multiset{a[0]};
      TrueSumPermutes(a[1..], rest);
      TrueSumAppend(b[..i], [b[i]] + b[i + 1..]);
      TrueSumAppend(b[..i], b[i + 1..]);
    }
  }

  /** Totals therefore do not depend on the order of the amounts, clamped or not. */
  lemma SumForgetsOrder(a: seq<u128>, b: seq<u128>)
    requires multiset(a) == multiset(b)
    ensures SumUsd(a) == SumUsd(b)
  {
    SumIsClamped(a);
    SumIsClamped(b);
    TrueSumPermutes(a, b);
  }

  function SaturatingAddSigned(a: i128, b: i128): i128 {
    Max(I128_MIN, Min(a + b, I128_MAX))
  }

  /** Signed totals lose associativity once they clamp. They keep it exactly when no pair that
      overflows is followed or preceded by a step back towards zero. */
  lemma SignedAssociativity(a: i128, b: i128, c: i128)
    ensures SaturatingAddSigned(SaturatingAddSigned(a, b), c) == SaturatingAddSigned(a, SaturatingAddSigned(b, c))
      <==> && (a + b > I128_MAX ==> c >= 0) && (a + b < I128_MIN ==> c <= 0)
           && (b + c > I128_MAX ==> a >= 0) && (b + c < I128_MIN ==> a <= 0)
  {
  }

  /** Difference of two unsigned amounts as a signed one. */
  function CheckedSignedSub(a: u128, b: u128): Option<i128> {
    if a >= b then
      if a - b <= I128_MAX then Some(a - b) else None
    else
      var magnitude := b - a;
      if magnitude == -I128_MIN then Some(I128_MIN)
      else if magnitude <= I128_MAX then Some(-magnitude) else None
  }

  /** Some of the exact difference exactly when it fits, at both ends of the range. */
  lemma SignedSubIsExact(a: u128, b: u128, d: i128)
    ensures CheckedSignedSub(a, b) == Some(d) <==> a - b == d
    ensures CheckedSignedSub(a, b).Some? <==> I128_MIN <= a - b <= I128_MAX
  {
  }
}
