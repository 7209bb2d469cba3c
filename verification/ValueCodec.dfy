// The path of one value: engineering value <-> register words <-> decimal text in the ledger.
// Arithmetic is exact (`real`); binary floating-point error is not part of this model.

module ValueCodec {
  import opened Modbus
  import opened Outcomes

  datatype ValueType = Int16 | UInt16 | UInt32

  function WordCount(typ: ValueType): nat {
    if typ == UInt32 then 2 else 1
  }

  function Lowest(typ: ValueType): int {
    if typ == Int16 then -32768 else 0
  }

  function Highest(typ: ValueType): int {
    match typ
    case Int16 => 32767
    case UInt16 => 0xFFFF
    case UInt32 => 0xFFFF_FFFF
  }

  // ---------- rounding ----------

  /** `round`: to the nearest integer, ties to the even one. */
  function Round(x: real): int {
    var below := x.Floor;
    var fraction := x - below as real;
    if fraction < 0.5 then below
    else if fraction > 0.5 then below + 1
    else if below % 2 == 0 then below
    else below + 1
  }

  /** `round(x, 6)` */
  function Round6(x: real): real {
    Round(x * 1000000.0) as real / 1000000.0
  }

  function Truncate(x: real): int {
    if x >= 0.0 then x.Floor else -((-x).Floor)
  }

  lemma RoundIsNearest(x: real)
    ensures -0.5 <= x - Round(x) as real <= 0.5
  {
  }

  lemma RoundOfInteger(n: int)
    ensures Round(n as real) == n
  {
    assert (n as real).Floor == n;
  }

  // ---------- register words ----------

  function Clamp(raw: int, typ: ValueType): int {
    if raw < Lowest(typ) then Lowest(typ) else if raw > Highest(typ) then Highest(typ) else raw
  }

  /** Two's complement for int16, high word first for uint32. */
  function RawWords(raw: int, typ: ValueType): seq<Word>
    requires Lowest(typ) <= raw <= Highest(typ)
  {
    match typ
    case Int16 => [raw % 0x10000]
    case UInt16 => [raw]
    case UInt32 => [raw / 0x10000, raw % 0x10000]
  }

  function WordsRaw(words: seq<Word>, typ: ValueType): int
    requires |words| >= WordCount(typ)
  {
    match typ
    case Int16 => if words[0] >= 0x8000 then words[0] - 0x10000 else words[0]
    case UInt16 => words[0]
    case UInt32 => 0x10000 * words[0] as int + words[1]
  }

  function EncodeValue(value: real, typ: ValueType, scale: real): seq<Word> {
    var raw := if scale != 0.0 then Round(value / scale) else Truncate(value);
    RawWords(Clamp(raw, typ), typ)
  }

  function DecodeValue(words: seq<Word>, typ: ValueType, scale: real): real
    requires |words| >= WordCount(typ)
  {
    Round6(WordsRaw(words, typ) as real * scale)
  }

  /** The raw integers and the word patterns of a type correspond one to one. */
  lemma WordsAndRawsCorrespond(words: seq<Word>, raw: int, typ: ValueType)
    ensures |words| == WordCount(typ) ==>
              Lowest(typ) <= WordsRaw(words, typ) <= Highest(typ) && RawWords(WordsRaw(words, typ), typ) == words
    ensures Lowest(typ) <= raw <= Highest(typ) ==>
              |RawWords(raw, typ)| == WordCount(typ) && WordsRaw(RawWords(raw, typ), typ) == raw
  {
  }

  /** What the words mean: an int16 is congruent to its word modulo 2^16, a uint16 is its word, and a uint32 has its
      high word first. */
  lemma RawIsTheWords(words: seq<Word>, typ: ValueType)
    requires |words| == WordCount(typ)
    ensures var raw := WordsRaw(words, typ);
            match typ
            case Int16 => -32768 <= raw < 32768 && (raw == words[0] as int || raw == words[0] as int - 65536)
            case UInt16 => raw == words[0] as int
            case UInt32 => words[0] as int == raw / 65536 && words[1] as int == raw % 65536
  {
  }

  /** `round` takes the nearest integer, and the even one of two equally near. */
  lemma RoundIsExact(x: real, n: int)
    ensures Round(x) == n
            <==> -0.5 < x - n as real < 0.5 || (n % 2 == 0 && (x - n as real == 0.5 || x - n as real == -0.5))
  {
    var below := x.Floor;
    assert below as real <= x < below as real + 1.0;
    if -0.5 <= x - n as real <= 0.5 { assert n == below || n == below + 1; }
  }

  /** A value without a scale is cut off toward zero and brought into the range. */
  lemma UnscaledIsCut(v: real, typ: ValueType, n: int)
    requires if v >= 0.0 then n as real <= v < n as real + 1.0 else n as real - 1.0 < v <= n as real
    ensures WordsRaw(EncodeValue(v, typ, 0.0), typ) ==
            if n < Lowest(typ) then Lowest(typ) else if n > Highest(typ) then Highest(typ) else n
  {
    assert Truncate(v) == n;
    WordsAndRawsCorrespond([], Clamp(n, typ), typ);
  }

  /** The scale 10^-k. */
  function Scale(k: nat): real
    requires k <= 6
  {
    match k
    case 0 => 1.0
    case 1 => 0.1
    case 2 => 0.01
    case 3 => 0.001
    case 4 => 0.0001
    case 5 => 0.00001
    case 6 => 0.000001
  }

  /** The value n * 10^-k. */
  function Scaled(n: int, k: nat): real
    requires k <= 6
  {
    n as real * Scale(k)
  }

  function Pow10(k: nat): (p: int)
    ensures p >= 1
  {
    if k == 0 then 1 else 10 * Pow10(k - 1)
  }

  lemma ScaleIsPowerOfTen(k: nat, n: int)
    requires k <= 6
    ensures Pow10(k) * Pow10(6 - k) == 1000000
    ensures Scale(k) * Pow10(k) as real == 1.0
    ensures n as real * Scale(k) * 1000000.0 == (n * Pow10(6 - k)) as real
  {
    assert Pow10(1) == 10 && Pow10(2) == 100 && Pow10(3) == 1000 && Pow10(4) == 10000;
    assert Pow10(5) == 100000 && Pow10(6) == 1000000;
    ScaleCase(k, n as real);
  }

  lemma ScaleCase(k: nat, x: real)
    requires k <= 6
    ensures x * Scale(k) * 1000000.0 == x * Pow10(6 - k) as real
    ensures x / Scale(k) == x * Pow10(k) as real
  {
    assert Pow10(1) == 10 && Pow10(2) == 100 && Pow10(3) == 1000 && Pow10(4) == 10000;
    assert Pow10(5) == 100000 && Pow10(6) == 1000000;
    match k {
      case 0 => case 1 => case 2 => case 3 => case 4 => case 5 => case 6 =>
    }
  }

  /** Decoding rounds nothing away. */
  lemma DecodeIsExact(words: seq<Word>, typ: ValueType, k: nat)
    requires k <= 6 && |words| >= WordCount(typ)
    ensures DecodeValue(words, typ, Scale(k)) == Scaled(WordsRaw(words, typ), k)
  {
    var raw := WordsRaw(words, typ);
    ScaleIsPowerOfTen(k, raw);
    hide Scale, Pow10, Round;
    var n := raw * Pow10(6 - k);
    RoundOfInteger(n);
    var x := Scaled(raw, k);
    assert x * 1000000.0 == n as real;
    assert Round6(x) == x;
  }

  lemma ScaleCancels(raw: int, k: nat)
    requires k <= 6
    ensures Scale(k) != 0.0 && Scaled(raw, k) / Scale(k) == raw as real
  {
    match k {
      case 0 => case 1 => case 2 => case 3 => case 4 => case 5 => case 6 =>
    }
  }

  /** Every word pattern of every register type survives decoding and encoding. */
  lemma EncodeUndoesDecode(words: seq<Word>, typ: ValueType, k: nat)
    requires k <= 6 && |words| == WordCount(typ)
    ensures EncodeValue(DecodeValue(words, typ, Scale(k)), typ, Scale(k)) == words
  {
    var raw := WordsRaw(words, typ);
    DecodeIsExact(words, typ, k);
    ScaleCancels(raw, k);
    RoundOfInteger(raw);
    WordsAndRawsCorrespond(words, raw, typ);
  }

  lemma HalfScale(v: real, k: nat, n: int)
    requires k <= 6
    ensures -(Scale(k) / 2.0) <= Scaled(n, k) - v <= Scale(k) / 2.0 <==> -0.5 <= v / Scale(k) - n as real <= 0.5
  {
    match k {
      case 0 => case 1 => case 2 => case 3 => case 4 => case 5 => case 6 =>
    }
  }

  /** A value comes back within half a scale step, or at the end of the range it lies beyond. */
  lemma DecodeAfterEncode(v: real, typ: ValueType, k: nat)
    requires k <= 6
    ensures var raw := Round(v / Scale(k));
            var back := DecodeValue(EncodeValue(v, typ, Scale(k)), typ, Scale(k));
            if Lowest(typ) <= raw <= Highest(typ) then -(Scale(k) / 2.0) <= back - v <= Scale(k) / 2.0
            else back == Scaled(if raw < Lowest(typ) then Lowest(typ) else Highest(typ), k)
  {
    ScaleCancels(0, k);
    var raw := Round(v / Scale(k));
    var sent := Clamp(raw, typ);
    assert EncodeValue(v, typ, Scale(k)) == RawWords(sent, typ);
    WordsAndRawsCorrespond(RawWords(sent, typ), sent, typ);
    DecodeIsExact(RawWords(sent, typ), typ, k);
    RoundIsNearest(v / Scale(k));
    HalfScale(v, k, raw);
    hide Round, Scaled, Scale, DecodeValue, EncodeValue, RawWords, WordsRaw;
  }

  // ---------- decimal text ----------

  function Digit(d: nat): char
    requires d < 10
  {
    ['0', '1', '2', '3', '4', '5', '6', '7', '8', '9'][d]
  }

  predicate IsDigit(c: char) { '0' <= c <= '9' }

  function DigitValue(c: char): nat
    requires IsDigit(c)
  {
    c as int - '0' as int
  }

  /** Plain decimal notation without leading zeros. */
  function Numeral(n: nat): (s: string)
    ensures s != "" && forall i :: 0 <= i < |s| ==> IsDigit(s[i])
  {
    if n < 10 then [Digit(n)] else Numeral(n / 10) + [Digit(n % 10)]
  }

  /** The last k decimal digits, zeros included. */
  function Padded(n: nat, k: nat): (s: string)
    decreases k
    ensures |s| == k && forall i :: 0 <= i < |s| ==> IsDigit(s[i])
  {
    if k == 0 then "" else Padded(n / 10, k - 1) + [Digit(n % 10)]
  }

  function ReadDigits(s: string): nat
    requires forall i :: 0 <= i < |s| ==> IsDigit(s[i])
  {
    if s == "" then 0 else 10 * ReadDigits(s[..|s| - 1]) + DigitValue(s[|s| - 1])
  }

  lemma {:induction false} ReadNumeral(n: nat)
    ensures ReadDigits(Numeral(n)) == n
  {
    if n >= 10 {
      ReadNumeral(n / 10);
      assert Numeral(n)[..|Numeral(n)| - 1] == Numeral(n / 10);
    } else {
      assert Numeral(n)[..0] == "";
    }
  }

  /** All but the last k decimal digits. */
  function Leading(n: nat, k: nat): nat
    decreases k
  {
    if k == 0 then n else Leading(n / 10, k - 1)
  }

  lemma {:induction false} ReadPadded(n: nat, k: nat)
    ensures Leading(n, k) * Pow10(k) + ReadDigits(Padded(n, k)) == n
    decreases k
  {
    if k > 0 {
      ReadPadded(n / 10, k - 1);
      var read := ReadDigits(Padded(n / 10, k - 1));
      assert Padded(n, k)[..k - 1] == Padded(n / 10, k - 1);
      assert ReadDigits(Padded(n, k)) == 10 * read + n % 10;
      TenTimes(Leading(n / 10, k - 1), Pow10(k - 1));
    }
  }

  lemma TenTimes(a: int, b: int)
    ensures a * (10 * b) == 10 * (a * b)
  {
  }

  /** The decimal m / 10^k with k decimals. */
  function Fixed(m: nat, k: nat): string {
    Numeral(Leading(m, k)) + (if k == 0 then "" else "." + Padded(m, k))
  }

  function Abs(v: real): real {
    if v < 0.0 then -v else v
  }

  function Natural(n: int): nat {
    if n < 0 then 0 else n
  }

  /** `f"{v:.kf}"` */
  function FormatFixed(v: real, k: nat): string {
    (if v < 0.0 then "-" else "") + Fixed(Natural(Round(Abs(v) * Pow10(k) as real)), k)
  }

  /** `fmt_value` of a register item with scale 10^-k. */
  function FmtValue(v: real, k: nat): string {
    if k == 0 then (if Round(v) < 0 then "-" + Numeral(-Round(v)) else Numeral(Round(v)))
    else FormatFixed(v, k)
  }

  function Find(s: string, c: char): (i: nat)
    ensures i <= |s| && (i < |s| ==> s[i] == c) && forall j :: 0 <= j < i ==> s[j] != c
  {
    if s == "" || s[0] == c then 0 else 1 + Find(s[1..], c)
  }

  predicate AllDigits(s: string) {
    forall i :: 0 <= i < |s| ==> IsDigit(s[i])
  }

  /** `float(text)` on plain decimals: an optional sign, digits, and optionally a point and digits. */
  function ParseDecimal(s: string): Option<real> {
    if s != "" && s[0] == '-' then
      match ParseUnsigned(s[1..])
      case None => None
      case Some(x) => Some(-x)
    else ParseUnsigned(s)
  }

  function ParseUnsigned(s: string): Option<real> {
    var dot := Find(s, '.');
    DecimalOf(s[..dot], if dot < |s| then s[dot + 1..] else "")
  }

  function DecimalOf(whole: string, fraction: string): Option<real> {
    if (whole == "" && fraction == "") || !AllDigits(whole) || !AllDigits(fraction) then None
    else Some((ReadDigits(whole) * Pow10(|fraction|) + ReadDigits(fraction)) as real / Pow10(|fraction|) as real)
  }

  lemma FindPast(s: string, rest: string)
    requires AllDigits(s) && (rest == "" || rest[0] == '.')
    ensures Find(s + rest, '.') == |s|
  {
    var dot := Find(s + rest, '.');
    assert dot < |s| ==> IsDigit((s + rest)[dot]);
    assert rest != "" ==> (s + rest)[|s|] == '.';
  }

  lemma ParseParts(whole: string, fraction: string)
    requires AllDigits(whole)
    ensures ParseUnsigned(whole + (if fraction == "" then "" else "." + fraction)) == DecimalOf(whole, fraction)
  {
    hide DecimalOf, Find, AllDigits;
    var rest := if fraction == "" then "" else "." + fraction;
    var s := whole + rest;
    FindPast(whole, rest);
    assert s[..|whole|] == whole;
    assert fraction != "" ==> s[|whole| + 1..] == fraction;
  }

  lemma ParseFixed(m: nat, k: nat)
    ensures ParseUnsigned(Fixed(m, k)) == Some(m as real / Pow10(k) as real)
  {
    ReadNumeral(Leading(m, k));
    ReadPadded(m, k);
    hide Leading, Numeral, Padded, ReadDigits, Pow10, ParseUnsigned;
    var fraction := Padded(m, k);
    ParseParts(Numeral(Leading(m, k)), fraction);
    assert k == 0 <==> fraction == "";
  }

  lemma FixedStartsWithDigit(m: nat, k: nat)
    ensures Fixed(m, k) != "" && Fixed(m, k)[0] != '-'
    ensures ("-" + Fixed(m, k))[1..] == Fixed(m, k)
  {
    assert IsDigit(Numeral(Leading(m, k))[0]);
  }

  lemma ScaledProperties(n: int, k: nat)
    requires k <= 6
    ensures Scaled(n, k) * Pow10(k) as real == n as real
    ensures n as real / Pow10(k) as real == Scaled(n, k)
    ensures Scaled(n, k) < 0.0 <==> n < 0
    ensures Scaled(-n, k) == -Scaled(n, k)
  {
    assert Pow10(1) == 10 && Pow10(2) == 100 && Pow10(3) == 1000 && Pow10(4) == 10000;
    assert Pow10(5) == 100000 && Pow10(6) == 1000000;
    match k {
      case 0 => case 1 => case 2 => case 3 => case 4 => case 5 => case 6 =>
    }
  }

  function Magnitude(n: int): nat {
    if n < 0 then -n else n
  }

  /** The text of an exact decimal parses back to exactly that decimal. */
  lemma FmtParses(raw: int, k: nat)
    requires k <= 6
    ensures ParseDecimal(FmtValue(Scaled(raw, k), k)) == Some(Scaled(raw, k))
  {
    hide Fixed, Scaled, Pow10, ParseUnsigned, FmtValue;
    var m := Magnitude(raw);
    FmtIsFixed(raw, k);
    ParseFixed(m, k);
    FixedStartsWithDigit(m, k);
    ScaledProperties(m, k);
    assert "" + Fixed(m, k) == Fixed(m, k);
  }

  lemma FormatFixedText(v: real, k: nat, m: nat)
    requires Abs(v) * Pow10(k) as real == m as real
    ensures FormatFixed(v, k) == (if v < 0.0 then "-" else "") + Fixed(m, k)
  {
    RoundOfInteger(m);
    hide Pow10, Fixed, Abs, Round;
    assert Round(Abs(v) * Pow10(k) as real) == m;
  }

  lemma FmtIsFixed(raw: int, k: nat)
    requires k <= 6
    ensures FmtValue(Scaled(raw, k), k) == (if raw < 0 then "-" else "") + Fixed(Magnitude(raw), k)
  {
    if k == 0 {
      assert Scaled(raw, 0) == raw as real;
      hide Scaled, Round;
      RoundOfInteger(raw);
      FixedWhole(Magnitude(raw));
    } else {
      hide Scaled, Pow10, Round, Fixed, FormatFixed;
      ScaledProperties(raw, k);
      NegatedProduct(Scaled(raw, k), Pow10(k) as real);
      FormatFixedText(Scaled(raw, k), k, Magnitude(raw));
    }
  }

  lemma NegatedProduct(x: real, y: real)
    ensures -x * y == -(x * y)
  {
  }

  lemma FixedWhole(m: nat)
    ensures Fixed(m, 0) == Numeral(m) == "" + Numeral(m)
    ensures "-" + Fixed(m, 0) == "-" + Numeral(m)
  {
    assert Numeral(m) + "" == Numeral(m);
  }

  /** From register words to the number the ledger row parses to: nothing is lost, for every word
      pattern of every type and every scale 10^-k. */
  lemma LosslessPath(words: seq<Word>, typ: ValueType, k: nat)
    requires k <= 6 && |words| == WordCount(typ)
    ensures ParseDecimal(FmtValue(DecodeValue(words, typ, Scale(k)), k)) == Some(Scaled(WordsRaw(words, typ), k))
    ensures EncodeValue(Scaled(WordsRaw(words, typ), k), typ, Scale(k)) == words
  {
    hide Scaled, FmtValue, ParseDecimal, EncodeValue, DecodeValue;
    DecodeIsExact(words, typ, k);
    FmtParses(WordsRaw(words, typ), k);
    EncodeUndoesDecode(words, typ, k);
  }
}
