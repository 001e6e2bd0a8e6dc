/**
 * The bounded formatter (work/util/snprintf.c).
 *
 * The meaning of a format is given without a buffer: Directives parses it, Render is the
 * unbounded text.  Vsnprintf is the character loop of the source with its two mode flags, its
 * guarded writes and its backwards decimal loop.  The source fetches the argument of a %c only
 * when the character fits, so what it emits is Written; InStep says exactly when every conversion
 * still gets its own argument, and what survives when it does not.
 */
module Snprintf {
  import opened Collections

  /** An argument of the variable list: a register-sized number, or a C string. */
  datatype Arg = Num(v: int) | Text(s: string)

  datatype Option<T> = None | Some(value: T)

  /** What C sees of a character array: the characters before the first NUL. */
  function BeforeNul(s: string): (t: string)
    ensures |t| <= |s| && t == s[..|t|]
    ensures '\0' !in t && (|t| < |s| ==> s[|t|] == '\0')
  {
    if s == [] || s[0] == '\0' then [] else [s[0]] + BeforeNul(s[1..])
  }

  // ---- Machine arithmetic ---------------------------------------------------------------------

  const HALF_32: int := 0x8000_0000
  const HALF_64: int := 0x8000_0000_0000_0000

  /** The two's complement value of the low bits of v, where half is the weight of the sign bit. */
  function Signed(v: int, half: int): (r: int)
    requires half > 0
    ensures -half <= r < half
  {
    (v + half) % (2 * half) - half
  }

  /** Which number va_arg yields: a long or a sign-extended int. */
  function Numeric(v: int, long: bool): int {
    Signed(v, if long then HALF_64 else HALF_32)
  }

  /** C division and remainder by ten, which truncate toward zero. */
  function Tenth(m: int): int {
    if m >= 0 then m / 10 else -((-m) / 10)
  }

  function LastDigit(m: int): (d: int)
    ensures -10 < d < 10
  {
    if m >= 0 then m % 10 else -((-m) % 10)
  }

  function DigitChar(d: int): char
    requires -10 < d < 16
  {
    if d < 10 then (48 + d) as char else (87 + d) as char
  }

  // ---- Numbers as text ------------------------------------------------------------------------

  function Pow16(k: nat): (r: nat)
    ensures r > 0
  {
    if k == 0 then 1 else 16 * Pow16(k - 1)
  }

  /** The low k hexadecimal digits of v, most significant first; shifts are arithmetic. */
  function HexText(v: int, k: nat): (t: string)
    ensures |t| == k
  {
    if k == 0 then [] else [DigitChar((v / Pow16(k - 1)) % 16)] + HexText(v, k - 1)
  }

  /** The decimal digits of m; a negative m gives characters below '0'. */
  function DigitsText(m: int): (t: string)
    ensures |t| >= 1
    decreases if m >= 0 then m else -m
  {
    if Tenth(m) == 0 then [DigitChar(LastDigit(m))]
    else DigitsText(Tenth(m)) + [DigitChar(LastDigit(m))]
  }

  /** -m in 64 bits: the most negative long is its own negation. */
  function Negated(m: int): int {
    Signed(-m, HALF_64)
  }

  function DecimalText(m: int): string {
    if m < 0 then "-" + DigitsText(Negated(m)) else DigitsText(m)
  }

  /** Reads a digit of the given base. */
  function DigitValue(c: char, base: nat): Option<nat> {
    var d := if '0' <= c <= '9' then c as int - 48 else if 'a' <= c <= 'f' then c as int - 87 else base;
    if d < base then Some(d) else None
  }

  function JoinDigit(high: Option<nat>, low: Option<nat>, base: nat): Option<nat> {
    if high.Some? && low.Some? then Some(high.value * base + low.value) else None
  }

  /** Reads an unsigned numeral, most significant digit first. */
  function ReadNumeral(t: string, base: nat): Option<nat>
    requires base > 0
  {
    if t == [] then Some(0)
    else JoinDigit(ReadNumeral(t[..|t| - 1], base), DigitValue(t[|t| - 1], base), base)
  }

  /** Reads a signed decimal numeral. */
  function ReadDecimal(t: string): Option<int> {
    if t != [] && t[0] == '-' then Flipped(ReadNumeral(t[1..], 10)) else ReadNumeral(t, 10)
  }

  function Flipped(m: Option<int>): Option<int> {
    if m.Some? then Some(-m.value) else None
  }

  lemma ReadNumeralAppend(t: string, c: char, base: nat)
    requires base > 0
    ensures ReadNumeral(t + [c], base) == JoinDigit(ReadNumeral(t, base), DigitValue(c, base), base)
  {
    assert (t + [c])[..|t|] == t;
  }

  lemma SplitDigit(v: int, p: int)
    requires p > 0
    ensures v % (16 * p) == (v / p) % 16 * p + v % p
  {
    var q := v / p;
    var r := v % p;
    Regroup(q / 16, q % 16, p, r);
    Remainder(v, 16 * p, q / 16, q % 16 * p + r);
  }

  lemma Regroup(top: int, d: int, p: int, r: int)
    requires p > 0 && 0 <= d < 16 && 0 <= r < p
    ensures (16 * top + d) * p + r == top * (16 * p) + (d * p + r)
    ensures 0 <= d * p + r < 16 * p
  {
    assert (15 - d) * p >= 0;
    assert (15 - d) * p == 15 * p - d * p;
    assert d * p >= 0;
  }

  lemma Remainder(v: int, n: int, q: int, r: int)
    requires n > 0 && 0 <= r < n && v == q * n + r
    ensures v % n == r
  {
    var e := v / n - q;
    assert v == (v / n) * n + v % n;
    assert e * n == r - v % n by { assert (v / n - q) * n == (v / n) * n - q * n; }
    assert e >= 1 ==> e * n >= n;
    assert e <= -1 ==> e * n <= -n;
  }

  /** A numeral with one more leading digit. */
  lemma {:induction false} ReadNumeralPrepend(c: char, t: string)
    requires DigitValue(c, 16).Some? && ReadNumeral(t, 16).Some?
    ensures ReadNumeral([c] + t, 16)
         == Some(DigitValue(c, 16).value * Pow16(|t|) + ReadNumeral(t, 16).value)
  {
    if t == [] {
      ReadNumeralAppend([], c, 16);
      assert [c] + t == [] + [c];
    } else {
      var init := t[..|t| - 1];
      var last := t[|t| - 1];
      ReadNumeralPrepend(c, init);
      assert [c] + t == ([c] + init) + [last];
      ReadNumeralAppend([c] + init, last, 16);
      var d: nat := DigitValue(c, 16).value;
      var h: nat := ReadNumeral(init, 16).value;
      ShiftedSum(d, Pow16(|init|), h);
    }
  }

  lemma ShiftedSum(d: nat, p: nat, h: nat)
    ensures (d * p + h) * 16 == d * (16 * p) + h * 16
  {
    assert d * (16 * p) == (d * p) * 16;
  }

  /** Hexadecimal digits decode to the number modulo 16^k: 2^32 for eight, 2^64 for sixteen. */
  lemma {:induction false} HexDecodes(v: int, k: nat)
    ensures ReadNumeral(HexText(v, k), 16) == Some(v % Pow16(k))
  {
    if k > 0 {
      var d := (v / Pow16(k - 1)) % 16;
      HexDecodes(v, k - 1);
      DigitRoundTrip(d);
      ReadNumeralPrepend(DigitChar(d), HexText(v, k - 1));
      SplitDigit(v, Pow16(k - 1));
    }
  }

  lemma DigitRoundTrip(d: int)
    requires 0 <= d < 16
    ensures DigitValue(DigitChar(d), 16) == Some(d)
  {
  }

  lemma {:induction false} DigitsDecode(m: nat)
    ensures ReadNumeral(DigitsText(m), 10) == Some(m)
    ensures DigitsText(m)[0] != '-'
    ensures |DigitsText(m)| > 1 ==> DigitsText(m)[0] != '0'
    ensures m > 0 ==> DigitsText(m)[0] != '0'
  {
    if m < 10 {
      ReadNumeralAppend([], DigitChar(m), 10);
      assert [DigitChar(m)] == [] + [DigitChar(m)];
    } else {
      DigitsDecode(m / 10);
      ReadNumeralAppend(DigitsText(m / 10), DigitChar(m % 10), 10);
    }
  }

  lemma SignedIdentity(v: int, half: int)
    requires -half <= v < half
    ensures Signed(v, half) == v
  {
    Remainder(v + half, 2 * half, 0, v + half);
  }

  /** A negative last remainder is not a digit, so nothing ending in it is a numeral. */
  lemma NegativeIsNoNumeral(m: int)
    requires m < 0 && LastDigit(m) < 0
    ensures ReadNumeral(DigitsText(m), 10) == None
  {
    var c := DigitChar(LastDigit(m));
    if Tenth(m) == 0 {
      assert DigitsText(m) == [] + [c];
      ReadNumeralAppend([], c, 10);
    } else {
      ReadNumeralAppend(DigitsText(Tenth(m)), c, 10);
    }
  }

  lemma DecimalDecodes(m: int)
    requires m < 0 ==> Negated(m) == -m
    ensures ReadDecimal(DecimalText(m)) == Some(m)
  {
    if m >= 0 {
      DigitsDecode(m);
    } else {
      DigitsDecode(-m);
      ReadMinus(DigitsText(-m));
    }
  }

  lemma ReadMinus(t: string)
    ensures ReadDecimal("-" + t) == Flipped(ReadNumeral(t, 10))
  {
    assert ("-" + t)[1..] == t;
  }

  lemma DecimalFails(m: int)
    requires m < 0 && LastDigit(m) < 0 && Negated(m) == m
    ensures ReadDecimal(DecimalText(m)) == None
  {
    NegativeIsNoNumeral(m);
    assert DecimalText(m)[1..] == DigitsText(m);
  }

  /**
   * Decimal text decodes to the number, for every long except the most negative one, which has no
   * negation: there the remainders are negative and the characters are not digits.
   */
  lemma DecimalDecodesIff(m: int)
    requires -HALF_64 <= m < HALF_64
    ensures ReadDecimal(DecimalText(m)) == Some(m) <==> m != -HALF_64
  {
    if m == -HALF_64 {
      Remainder(-m + HALF_64, 2 * HALF_64, 1, 0);
      DecimalFails(m);
    } else {
      if m < 0 {
        SignedIdentity(-m, HALF_64);
      }
      DecimalDecodes(m);
    }
  }

  // ---- Formats and their unbounded rendering --------------------------------------------------

  datatype Directive = Plain(c: char) | Conversion(kind: char, long: bool)

  predicate IsKind(c: char) {
    c == 'p' || c == 'x' || c == 'd' || c == 's' || c == 'c'
  }

  /** How many characters precede the first conversion letter; |t| when there is none. */
  function KindAt(t: string): (k: nat)
    ensures k <= |t|
    ensures k < |t| ==> IsKind(t[k])
    ensures forall j :: 0 <= j < k ==> !IsKind(t[j])
  {
    if t == [] || IsKind(t[0]) then 0 else 1 + KindAt(t[1..])
  }

  /**
   * What a format asks for.  A percent sign reaches to the next conversion letter; of what lies
   * between only an 'l' matters, so "%%" prints nothing and a percent sign with no letter after it
   * swallows the rest.
   */
  function Directives(fmt: string): seq<Directive>
    decreases |fmt|
  {
    if fmt == [] then []
    else if fmt[0] != '%' then [Plain(fmt[0])] + Directives(fmt[1..])
    else
      var k := KindAt(fmt[1..]);
      if k == |fmt| - 1 then []
      else [Conversion(fmt[k + 1], 'l' in fmt[1..k + 1])] + Directives(fmt[k + 2..])
  }

  /** There is an argument for every conversion: a string for 's', a number for the others. */
  predicate Typed(ds: seq<Directive>, args: seq<Arg>) {
    ds == []
    || (ds[0].Plain? && Typed(ds[1..], args))
    || (ds[0].Conversion? && args != [] && (ds[0].kind == 's' <==> args[0].Text?) && Typed(ds[1..], args[1..]))
  }

  /** The text of one conversion. */
  function Converted(kind: char, long: bool, arg: Arg): string
    requires kind == 's' <==> arg.Text?
  {
    if kind == 's' then BeforeNul(arg.s)
    else if kind == 'd' then DecimalText(Numeric(arg.v, long))
    else if kind == 'c' then [(arg.v % 256) as char]
    else (if kind == 'p' then "0x" else "") + HexNumber(arg.v, long || kind == 'p')
  }

  /** All the hexadecimal digits of an int or a long. */
  function HexNumber(v: int, long: bool): string {
    HexText(Numeric(v, long), Nibbles(long))
  }

  function Nibbles(long: bool): nat {
    if long then 16 else 8
  }

  function Render(ds: seq<Directive>, args: seq<Arg>): string
    requires Typed(ds, args)
  {
    if ds == [] then []
    else if ds[0].Plain? then [ds[0].c] + Render(ds[1..], args)
    else Converted(ds[0].kind, ds[0].long, args[0]) + Render(ds[1..], args[1..])
  }

  // ---- What formats and conversions mean --------------------------------------------------------

  const WORD_32: int := 0x1_0000_0000
  const WORD_64: int := 0x1_0000_0000_0000_0000

  lemma PowersOf16()
    ensures Pow16(8) == WORD_32 && Pow16(16) == WORD_64
  {
    assert Pow16(4) == 0x1_0000;
    assert Pow16(8) == 0x1_0000_0000;
    assert Pow16(12) == 0x1_0000_0000_0000;
  }

  /** Truncating to a machine word and reading it as signed keeps the low bits. */
  lemma SignedLowBits(v: int, half: int)
    requires half > 0
    ensures Signed(v, half) % (2 * half) == v % (2 * half)
  {
    var n := 2 * half;
    var q := (v + half) / n;
    assert Signed(v, half) == v - q * n;
    Remainder(Signed(v, half), n, v / n - q, v % n) by {
      assert v == v / n * n + v % n;
      assert (v / n - q) * n == v / n * n - q * n;
    }
  }

  /** %x prints eight digits, %lx sixteen, which read back are the number modulo 2^32 or 2^64. */
  lemma HexLaw(long: bool, v: int)
    ensures |Converted('x', long, Num(v))| == if long then 16 else 8
    ensures ReadNumeral(Converted('x', long, Num(v)), 16) == Some(v % if long then WORD_64 else WORD_32)
  {
    PowersOf16();
    var half := if long then HALF_64 else HALF_32;
    HexDecodes(Signed(v, half), if long then 16 else 8);
    SignedLowBits(v, half);
    assert Converted('x', long, Num(v)) == HexText(Signed(v, half), if long then 16 else 8);
  }

  /** %p prints "0x" and the sixteen digits of the whole register, whether or not an 'l' came before. */
  lemma PointerLaw(long: bool, v: int)
    ensures var t := Converted('p', long, Num(v));
            && |t| == 18 && t[..2] == "0x" && ReadNumeral(t[2..], 16) == Some(v % WORD_64)
  {
    HexLaw(true, v);
    assert Converted('p', long, Num(v))[2..] == Converted('x', true, Num(v));
  }

  /** %d prints an int, %ld a long; read back it is the number, but for the most negative long. */
  lemma DecimalLaw(long: bool, v: int)
    requires if long then -HALF_64 < v < HALF_64 else -HALF_32 <= v < HALF_32
    ensures ReadDecimal(Converted('d', long, Num(v))) == Some(v)
  {
    SignedIdentity(v, if long then HALF_64 else HALF_32);
    DecimalDecodesIff(v);
  }

  /** %c prints the low byte, %s the characters before the first NUL. */
  lemma TextLaw(long: bool, v: int, s: string)
    ensures var t := Converted('c', long, Num(v)); |t| == 1 && t[0] as int == v % 256
    ensures Converted('s', long, Text(s)) == BeforeNul(s)
  {
  }

  /** The length returned is the length, as long as an int can hold it. */
  lemma LengthLaw(len: nat)
    ensures AsInt32(len) == len <==> len < HALF_32
  {
    if len < HALF_32 {
      SignedIdentity(len, HALF_32);
    }
  }

  /** A plain character stands for itself; a percent sign, an 'l' perhaps, and a letter are a conversion. */
  lemma FormatLaw(c: char, rest: string)
    ensures c != '%' ==> Directives([c] + rest) == [Plain(c)] + Directives(rest)
    ensures c in "pxdsc" ==> Directives("%" + [c] + rest) == [Conversion(c, false)] + Directives(rest)
    ensures c in "pxdsc" ==> Directives("%l" + [c] + rest) == [Conversion(c, true)] + Directives(rest)
    ensures Directives("%") == Directives("") == []
  {
    assert ([c] + rest)[1..] == rest;
    if c in "pxdsc" {
      var short, long := "%" + [c] + rest, "%l" + [c] + rest;
      assert short[1..] == [c] + rest && short[2..] == rest && short[1..1] == "";
      assert long[1..] == "l" + [c] + rest && long[3..] == rest && long[1..2] == "l";
      assert long[1..][1..] == [c] + rest;
      assert KindAt(short[1..]) == 0 && KindAt(long[1..]) == 1 + KindAt(long[1..][1..]) == 1;
    }
  }

  /** Between a percent sign and its letter every other character is skipped. */
  lemma SkipLaw(c: char, rest: string)
    requires c !in "pxdscl"
    ensures Directives("%" + [c] + rest) == Directives("%" + rest)
  {
    var f, g := "%" + [c] + rest, "%" + rest;
    assert f[1..] == [c] + rest && g[1..] == rest && f[1..][1..] == rest;
    PendingOpens(f);
    PendingSkips(f[1..], false);
    PendingOpens(g);
  }

  // ---- Arguments as the source fetches them ---------------------------------------------------

  /** Whether a conversion reached at position pos fetches its argument: %c only if its character fits. */
  predicate Fetches(kind: char, n: nat, pos: nat) {
    kind != 'c' || pos + 1 < n
  }

  /** Every argument fetched exists and is of the right kind. */
  predicate WellFed(ds: seq<Directive>, args: seq<Arg>, n: nat, pos: nat) {
    ds == []
    || (ds[0].Plain? && WellFed(ds[1..], args, n, pos + 1))
    || (ds[0].Conversion? && !Fetches(ds[0].kind, n, pos) && WellFed(ds[1..], args, n, pos + 1))
    || (ds[0].Conversion? && Fetches(ds[0].kind, n, pos) && args != [] && (ds[0].kind == 's' <==> args[0].Text?)
        && WellFed(ds[1..], args[1..], n, pos + |Converted(ds[0].kind, ds[0].long, args[0])|))
  }

  /** What the source emits from position pos on; NUL stands for a character it counts without fetching. */
  function Written(ds: seq<Directive>, args: seq<Arg>, n: nat, pos: nat): string
    requires WellFed(ds, args, n, pos)
  {
    if ds == [] then []
    else if ds[0].Plain? then [ds[0].c] + Written(ds[1..], args, n, pos + 1)
    else if !Fetches(ds[0].kind, n, pos) then ['\0'] + Written(ds[1..], args, n, pos + 1)
    else
      var piece := Converted(ds[0].kind, ds[0].long, args[0]);
      piece + Written(ds[1..], args[1..], n, pos + |piece|)
  }

  /** No conversion but a %c in what follows. */
  predicate OnlyChars(ds: seq<Directive>) {
    forall i | 0 <= i < |ds| :: ds[i].Conversion? ==> ds[i].kind == 'c'
  }

  /** No conversion but a %c follows a %c whose character lands at index n - 1 or later. */
  predicate InStep(ds: seq<Directive>, args: seq<Arg>, n: nat, pos: nat)
    requires Typed(ds, args)
  {
    ds == []
    || (ds[0].Plain? && InStep(ds[1..], args, n, pos + 1))
    || (ds[0].Conversion? && !Fetches(ds[0].kind, n, pos) && OnlyChars(ds[1..]))
    || (ds[0].Conversion? && Fetches(ds[0].kind, n, pos)
        && InStep(ds[1..], args[1..], n, pos + |Converted(ds[0].kind, ds[0].long, args[0])|))
  }

  /** A fetch: which conversion took which argument. */
  datatype Fetch = Fetch(conversion: nat, arg: nat)

  /** The length a fetched argument gives, 0 where C leaves it undefined. */
  function TakenLength(kind: char, long: bool, args: seq<Arg>, a: nat): nat {
    if a < |args| && (kind == 's' <==> args[a].Text?) then |Converted(kind, long, args[a])| else 0
  }

  /** The fetches from position pos on, with conversion j and argument a next. */
  function Taken(ds: seq<Directive>, args: seq<Arg>, n: nat, pos: nat, j: nat, a: nat): seq<Fetch> {
    if ds == [] then []
    else if ds[0].Plain? then Taken(ds[1..], args, n, pos + 1, j, a)
    else if !Fetches(ds[0].kind, n, pos) then Taken(ds[1..], args, n, pos + 1, j + 1, a)
    else [Fetch(j, a)] + Taken(ds[1..], args, n, pos + TakenLength(ds[0].kind, ds[0].long, args, a), j + 1, a + 1)
  }

  predicate OwnArguments(fetches: seq<Fetch>) {
    forall i | 0 <= i < |fetches| :: fetches[i].conversion == fetches[i].arg
  }

  /** Behind by some arguments and past the end of the buffer, exactly the next non-%c conversion goes wrong. */
  lemma {:induction false} BehindTakesWrong(ds: seq<Directive>, args: seq<Arg>, n: nat, pos: nat, j: nat, a: nat)
    requires pos + 1 >= n && a < j
    ensures OwnArguments(Taken(ds, args, n, pos, j, a)) <==> OnlyChars(ds)
    decreases |ds|
  {
    if ds != [] {
      var rest := ds[1..];
      assert OnlyChars(ds) <==> (ds[0].Conversion? ==> ds[0].kind == 'c') && OnlyChars(rest) by {
        assert forall i | 0 <= i < |rest| :: rest[i] == ds[i + 1];
        assert forall i | 1 <= i < |ds| :: ds[i] == rest[i - 1];
      }
      if ds[0].Plain? {
        BehindTakesWrong(rest, args, n, pos + 1, j, a);
      } else if ds[0].kind == 'c' {
        BehindTakesWrong(rest, args, n, pos + 1, j + 1, a);
      } else {
        assert Taken(ds, args, n, pos, j, a)[0] == Fetch(j, a);
      }
    }
  }

  lemma OwnCons(f: Fetch, fs: seq<Fetch>)
    ensures OwnArguments([f] + fs) <==> f.conversion == f.arg && OwnArguments(fs)
  {
    assert ([f] + fs)[0] == f;
    assert forall i | 0 <= i < |fs| :: ([f] + fs)[i + 1] == fs[i];
  }

  /**
   * Every conversion that fetches gets its own argument exactly when no conversion but a %c
   * follows a %c whose character does not fit.  Conversion j is the j-th, its argument args[j].
   */
  lemma {:induction false} OwnArgumentsIff(ds: seq<Directive>, args: seq<Arg>, n: nat, pos: nat, j: nat)
    requires j <= |args| && Typed(ds, args[j..])
    ensures OwnArguments(Taken(ds, args, n, pos, j, j)) <==> InStep(ds, args[j..], n, pos)
    decreases |ds|
  {
    if ds != [] {
      if ds[0].Plain? {
        OwnArgumentsIff(ds[1..], args, n, pos + 1, j);
      } else if !Fetches(ds[0].kind, n, pos) {
        BehindTakesWrong(ds[1..], args, n, pos + 1, j + 1, j);
      } else {
        var len := TakenLength(ds[0].kind, ds[0].long, args, j);
        assert args[j..][1..] == args[j + 1..];
        OwnArgumentsIff(ds[1..], args, n, pos + len, j + 1);
        OwnCons(Fetch(j, j), Taken(ds[1..], args, n, pos + len, j + 1, j + 1));
      }
    }
  }

  /** The two texts agree at every index that is delivered, pos being the index of their first character. */
  predicate SameVisible(t: string, u: string, n: nat, pos: nat) {
    forall k: nat | pos + k + 1 < n :: SameAt(t, u, k)
  }

  predicate SameAt(t: string, u: string, k: nat) {
    (k < |t| <==> k < |u|) && (k < |t| ==> t[k] == u[k])
  }

  lemma VisiblePrefix(a: string, t: string, u: string, n: nat, pos: nat)
    requires SameVisible(t, u, n, pos + |a|)
    ensures SameVisible(a + t, a + u, n, pos)
  {
    forall k: nat | pos + k + 1 < n
      ensures SameAt(a + t, a + u, k)
    {
      if k >= |a| {
        assert SameAt(t, u, k - |a|);
      }
    }
  }

  /** Whatever is fetched past the end of the buffer, the visible characters are the intended ones. */
  lemma {:induction false} WrittenVisible(ds: seq<Directive>, args: seq<Arg>, n: nat, pos: nat)
    requires Typed(ds, args) && WellFed(ds, args, n, pos)
    ensures SameVisible(Written(ds, args, n, pos), Render(ds, args), n, pos)
    decreases |ds|
  {
    if ds != [] {
      if ds[0].Plain? {
        WrittenVisible(ds[1..], args, n, pos + 1);
        VisiblePrefix([ds[0].c], Written(ds[1..], args, n, pos + 1), Render(ds[1..], args), n, pos);
      } else if Fetches(ds[0].kind, n, pos) {
        var piece := Converted(ds[0].kind, ds[0].long, args[0]);
        WrittenVisible(ds[1..], args[1..], n, pos + |piece|);
        VisiblePrefix(piece, Written(ds[1..], args[1..], n, pos + |piece|), Render(ds[1..], args[1..]), n, pos);
      }
    }
  }

  /** In step, nothing undefined is fetched and the length is the intended one. */
  lemma {:induction false} InStepKeepsLength(ds: seq<Directive>, args: seq<Arg>, n: nat, pos: nat)
    requires Typed(ds, args) && InStep(ds, args, n, pos)
    ensures WellFed(ds, args, n, pos) && |Written(ds, args, n, pos)| == |Render(ds, args)|
    decreases |ds|
  {
    if ds != [] {
      if ds[0].Plain? {
        InStepKeepsLength(ds[1..], args, n, pos + 1);
      } else if !Fetches(ds[0].kind, n, pos) {
        OnlyCharsLength(ds[1..], args, args[1..], n, pos + 1);
      } else {
        var piece := Converted(ds[0].kind, ds[0].long, args[0]);
        InStepKeepsLength(ds[1..], args[1..], n, pos + |piece|);
      }
    }
  }

  lemma {:induction false} OnlyCharsLength(ds: seq<Directive>, args: seq<Arg>, typed: seq<Arg>, n: nat, pos: nat)
    requires Typed(ds, typed) && OnlyChars(ds) && pos + 1 >= n
    ensures WellFed(ds, args, n, pos) && |Written(ds, args, n, pos)| == |Render(ds, typed)|
    decreases |ds|
  {
    if ds != [] {
      assert OnlyChars(ds[1..]) by {
        assert forall i | 0 <= i < |ds[1..]| :: ds[1..][i] == ds[i + 1];
      }
      OnlyCharsLength(ds[1..], args, if ds[0].Plain? then typed else typed[1..], n, pos + 1);
    }
  }

  lemma CharThenDecimalFormat()
    ensures Directives("%c%d") == [Conversion('c', false), Conversion('d', false)]
  {
    var f := "%c%d";
    assert f[2..] == "%d" && f[4..] == "";
    assert Directives("%d") == [Conversion('d', false)] + Directives("%d"[2..]);
    assert f[1..2] == "c";
  }

  /** A %c that does not fit hands its argument to the %d after it. */
  lemma CharThenDecimalText(c: int, v: int)
    ensures var ds, args := [Conversion('c', false), Conversion('d', false)], [Num(c), Num(v)];
            && Typed(ds, args) && WellFed(ds, args, 1, 0)
            && Taken(ds, args, 1, 0, 0, 0) == [Fetch(1, 0)]
            && Written(ds, args, 1, 0) == ['\0'] + DecimalText(Numeric(c, false))
            && Render(ds, args) == [(c % 256) as char] + DecimalText(Numeric(v, false))
  {
    var ds, args := [Conversion('c', false), Conversion('d', false)], [Num(c), Num(v)];
    assert ds[1..] == [ds[1]] && ds[1..][1..] == [] && args[1..] == [args[1]];
    assert WellFed(ds[1..], args, 1, 1) && Typed(ds[1..], args[1..]);
    assert Taken(ds[1..], args, 1, 1, 1, 0) == [Fetch(1, 0)];
    assert Written(ds[1..], args, 1, 1) == DecimalText(Numeric(c, false)) + [];
    assert Render(ds[1..], args[1..]) == DecimalText(Numeric(v, false)) + [];
  }

  lemma OneDigit(v: int)
    requires 0 <= v < 10
    ensures |DigitsText(v)| == 1
  {
  }

  lemma TwoDigits(v: int)
    requires 10 <= v < 100
    ensures |DigitsText(v)| == 2
  {
    OneDigit(v / 10);
  }

  /**
   * The failing family at its smallest: with n = 1 the character of "%c%d" does not fit, %d prints
   * the code of the character instead of its own argument, and the length returned is 3, not 2.
   */
  lemma CharThenDecimal(c: int, v: int)
    requires 10 <= c < 100 && 0 <= v < 10
    ensures var ds, args := Directives("%c%d"), [Num(c), Num(v)];
            && Typed(ds, args) && WellFed(ds, args, 1, 0)
            && |Written(ds, args, 1, 0)| == 3 && |Render(ds, args)| == 2
  {
    CharThenDecimalFormat();
    CharThenDecimalText(c, v);
    SignedIdentity(c, HALF_32);
    SignedIdentity(v, HALF_32);
    TwoDigits(c);
    OneDigit(v);
  }

  /** The directives still to come in the middle of the loop, given its two mode flags. */
  function Pending(fmt: string, format: bool, long: bool): seq<Directive> {
    if !format then Directives(fmt)
    else
      var k := KindAt(fmt);
      if k == |fmt| then [] else [Conversion(fmt[k], long || 'l' in fmt[..k])] + Directives(fmt[k + 1..])
  }

  lemma PendingSkips(fmt: string, long: bool)
    requires fmt != [] && !IsKind(fmt[0])
    ensures Pending(fmt, true, long) == Pending(fmt[1..], true, long || fmt[0] == 'l')
  {
    var k := KindAt(fmt[1..]);
    if k < |fmt| - 1 {
      assert fmt[..k + 1] == [fmt[0]] + fmt[1..][..k];
      assert fmt[1..][k + 1..] == fmt[k + 2..];
    }
  }

  lemma PendingOpens(fmt: string)
    requires fmt != [] && fmt[0] == '%'
    ensures Pending(fmt, false, false) == Pending(fmt[1..], true, false)
  {
    var k := KindAt(fmt[1..]);
    if k < |fmt| - 1 {
      assert fmt[1..][..k] == fmt[1..k + 1];
      assert fmt[1..][k + 1..] == fmt[k + 2..];
    }
  }

  /** A plain character, or the letter of a conversion, is the head of what is pending. */
  lemma PendingHead(fmt: string, format: bool, long: bool)
    requires fmt != [] && (if format then IsKind(fmt[0]) else fmt[0] != '%')
    ensures Pending(fmt, format, long)
         == [if format then Conversion(fmt[0], long) else Plain(fmt[0])] + Pending(fmt[1..], false, false)
  {
  }

  /** The text so far, with what the directives still to come emit, is the whole text. */
  predicate Left(text: string, ds: seq<Directive>, args: seq<Arg>, n: nat, whole: string) {
    WellFed(ds, args, n, |text|) && text + Written(ds, args, n, |text|) == whole
  }

  /** What a conversion adds to the text, and the arguments it leaves. */
  function Piece(kind: char, long: bool, args: seq<Arg>, n: nat, pos: nat): string
    requires Fetches(kind, n, pos) ==> args != [] && (kind == 's' <==> args[0].Text?)
  {
    if Fetches(kind, n, pos) then Converted(kind, long, args[0]) else ['\0']
  }

  function Leftover(kind: char, args: seq<Arg>, n: nat, pos: nat): seq<Arg>
    requires Fetches(kind, n, pos) ==> args != []
  {
    if Fetches(kind, n, pos) then args[1..] else args
  }

  lemma LeftConversion(text: string, d: Directive, next: seq<Directive>, args: seq<Arg>, n: nat, whole: string)
    requires d.Conversion? && Left(text, [d] + next, args, n, whole)
    ensures Fetches(d.kind, n, |text|) ==> args != [] && (d.kind == 's' <==> args[0].Text?)
    ensures Left(text + Piece(d.kind, d.long, args, n, |text|), next, Leftover(d.kind, args, n, |text|), n, whole)
  {
    WrittenHead(d, next, args, n, |text|);
    var piece, rest := Piece(d.kind, d.long, args, n, |text|), Leftover(d.kind, args, n, |text|);
    Reassociate(text, piece, Written(next, rest, n, |text| + |piece|));
  }

  lemma WrittenHead(d: Directive, next: seq<Directive>, args: seq<Arg>, n: nat, pos: nat)
    requires d.Conversion? && WellFed([d] + next, args, n, pos)
    ensures Fetches(d.kind, n, pos) ==> args != [] && (d.kind == 's' <==> args[0].Text?)
    ensures var piece, rest := Piece(d.kind, d.long, args, n, pos), Leftover(d.kind, args, n, pos);
            && WellFed(next, rest, n, pos + |piece|)
            && Written([d] + next, args, n, pos) == piece + Written(next, rest, n, pos + |piece|)
  {
    assert ([d] + next)[1..] == next;
  }

  lemma LeftPlain(text: string, c: char, next: seq<Directive>, args: seq<Arg>, n: nat, whole: string)
    requires Left(text, [Plain(c)] + next, args, n, whole)
    ensures Left(text + [c], next, args, n, whole)
  {
    assert ([Plain(c)] + next)[1..] == next;
    Reassociate(text, [c], Written(next, args, n, |text| + 1));
  }

  lemma LeftNothing(text: string, args: seq<Arg>, n: nat, whole: string)
    requires Left(text, [], args, n, whole)
    ensures text == whole
  {
  }

  /** The length handed back when a size_t is returned as a 32-bit int. */
  function AsInt32(len: nat): int {
    Signed(len, HALF_32)
  }

  // ---- The buffer -----------------------------------------------------------------------------

  /** What cell k holds once the text has been emitted under the guard against n. */
  predicate Emitted(now: seq<char>, was: seq<char>, n: nat, text: string) {
    && |now| == |was|
    && forall k :: 0 <= k < |now| ==> now[k] == if k < |text| && k + 1 < n then text[k] else was[k]
  }

  method Put(out: array<char>, n: nat, pos: nat, c: char, ghost was: seq<char>, ghost text: string) returns (after: nat)
    requires n <= out.Length && pos == |text|
    requires Emitted(out[..], was, n, text)
    modifies out
    ensures after == pos + 1
    ensures Emitted(out[..], was, n, text + [c])
  {
    after := pos + 1;
    if after < n {
      out[after - 1] := c;
    }
  }

  method PutString(out: array<char>, n: nat, start: nat, s: string, ghost was: seq<char>, ghost text: string)
    returns (pos: nat)
    requires n <= out.Length && start == |text|
    requires Emitted(out[..], was, n, text)
    modifies out
    ensures pos == start + |BeforeNul(s)|
    ensures Emitted(out[..], was, n, text + BeforeNul(s))
  {
    pos := start;
    var i := 0;
    ghost var t := BeforeNul(s);
    assert text + t[..0] == text;
    while i < |s| && s[i] != '\0'
      invariant 0 <= i <= |t| && pos == start + i
      invariant Emitted(out[..], was, n, text + t[..i])
    {
      assert i < |t| && t[i] == s[i];
      pos := Put(out, n, pos, s[i], was, text + t[..i]);
      assert text + t[..i] + [t[i]] == text + t[..i + 1];
      i := i + 1;
    }
    assert i == |t| && t[..|t|] == t;
  }

  method PutHex(out: array<char>, n: nat, start: nat, num: int, digits: nat, ghost was: seq<char>, ghost text: string)
    returns (pos: nat)
    requires n <= out.Length && start == |text|
    requires Emitted(out[..], was, n, text)
    modifies out
    ensures pos == start + digits
    ensures Emitted(out[..], was, n, text + HexText(num, digits))
  {
    pos := start;
    var i: int := digits - 1;
    ghost var done: string := [];
    assert text + done == text;
    while i >= 0
      invariant -1 <= i < digits && pos == start + |done|
      invariant done + HexText(num, i + 1) == HexText(num, digits)
      invariant Emitted(out[..], was, n, text + done)
    {
      var d := (num / Pow16(i)) % 16;
      pos := Put(out, n, pos, DigitChar(d), was, text + done);
      assert text + done + [DigitChar(d)] == text + (done + [DigitChar(d)]);
      Reassociate(done, [DigitChar(d)], HexText(num, i));
      done := done + [DigitChar(d)];
      i := i - 1;
    }
    assert done + [] == done;
  }

  method CountDigits(num: int) returns (digits: nat)
    ensures digits == |DigitsText(num)|
  {
    digits := 1;
    var nn := Tenth(num);
    while nn != 0
      invariant digits - 1 + (if nn == 0 then 1 else 1 + |DigitsText(nn)|) == |DigitsText(num)|
      decreases if nn >= 0 then nn else -nn
    {
      nn := Tenth(nn);
      digits := digits + 1;
    }
  }

  /** The digits are written from the last one backwards, each under its own guard. */
  method PutDigits(out: array<char>, n: nat, pos: nat, value: int, ghost was: seq<char>, ghost text: string)
    returns (after: nat)
    requires n <= out.Length && pos == |text|
    requires Emitted(out[..], was, n, text)
    modifies out
    ensures after == pos + |DigitsText(value)|
    ensures Emitted(out[..], was, n, text + DigitsText(value))
  {
    var num := value;
    ghost var t := DigitsText(value);
    var digits := CountDigits(value);
    var i: int := digits - 1;
    while i >= 0
      invariant -1 <= i < digits == |t|
      invariant i >= 0 ==> DigitsText(num) == t[..i + 1]
      invariant |out[..]| == |was|
      invariant forall k :: 0 <= k < |was| ==>
        out[k] == if k < pos then (if k + 1 < n then text[k] else was[k])
                  else if pos + i < k < pos + digits && k + 1 < n then t[k - pos] else was[k]
    {
      assert t[i] == DigitChar(LastDigit(num)) by { assert t[i] == t[..i + 1][i]; }
      if pos + i + 1 < n {
        out[pos + i] := DigitChar(LastDigit(num));
      }
      if i > 0 {
        assert DigitsText(Tenth(num)) == t[..i + 1][..i] == t[..i];
      }
      num := Tenth(num);
      i := i - 1;
    }
    after := pos + digits;
  }

  method PutDecimal(out: array<char>, n: nat, start: nat, value: int, ghost was: seq<char>, ghost text: string)
    returns (pos: nat)
    requires n <= out.Length && start == |text|
    requires Emitted(out[..], was, n, text)
    modifies out
    ensures pos == start + |DecimalText(value)|
    ensures Emitted(out[..], was, n, text + DecimalText(value))
  {
    pos := start;
    var num := value;
    ghost var sofar := text;
    if num < 0 {
      num := Negated(num);
      pos := Put(out, n, pos, '-', was, text);
      sofar := text + "-";
    }
    pos := PutDigits(out, n, pos, num, was, sofar);
    assert sofar + DigitsText(num) == text + DecimalText(value);
  }

  /** The conversions that always fetch; 'p' falls through to 'x'. */
  method PutFetched(out: array<char>, n: nat, start: nat, kind: char, long: bool, arg: Arg,
                    ghost was: seq<char>, ghost text: string)
    returns (pos: nat)
    requires n <= out.Length && start == |text|
    requires IsKind(kind) && kind != 'c' && (kind == 's' <==> arg.Text?)
    requires Emitted(out[..], was, n, text)
    modifies out
    ensures pos == start + |Converted(kind, long, arg)|
    ensures Emitted(out[..], was, n, text + Converted(kind, long, arg))
  {
    pos := start;
    if kind == 's' {
      pos := PutString(out, n, pos, arg.s, was, text);
    } else if kind == 'd' {
      pos := PutDecimal(out, n, pos, Numeric(arg.v, long), was, text);
    } else {
      var longarg := long;
      ghost var prefix := "";
      if kind == 'p' {
        longarg := true;
        pos := Put(out, n, pos, '0', was, text);
        pos := Put(out, n, pos, 'x', was, text + "0");
        prefix := "0x";
      }
      assert text + "0" + "x" == text + "0x" && text + "" == text;
      pos := PutHex(out, n, pos, Numeric(arg.v, longarg), Nibbles(longarg), was, text + prefix);
      Reassociate(text, prefix, HexNumber(arg.v, longarg));
    }
  }

  /** The switch on a conversion letter.  %c counts its character first and fetches it only if it fits. */
  method PutConversion(out: array<char>, n: nat, start: nat, kind: char, long: bool, args: seq<Arg>, next: nat,
                       ghost was: seq<char>, ghost text: string)
    returns (pos: nat, a: nat)
    requires n <= out.Length && start == |text| && next <= |args| && IsKind(kind)
    requires Fetches(kind, n, start) ==> next < |args| && (kind == 's' <==> args[next].Text?)
    requires Emitted(out[..], was, n, text)
    modifies out
    ensures a <= |args| && args[a..] == Leftover(kind, args[next..], n, start)
    ensures pos == start + |Piece(kind, long, args[next..], n, start)|
    ensures Emitted(out[..], was, n, text + Piece(kind, long, args[next..], n, start))
  {
    a := next;
    if kind == 'c' {
      pos := start + 1;
      if pos < n {
        out[pos - 1] := (args[a].v % 256) as char;
        a := a + 1;
      }
    } else {
      pos := PutFetched(out, n, start, kind, long, args[a], was, text);
      a := a + 1;
    }
  }

  /** The closing NUL: after the text when it fits, else in the last cell of the n. */
  method Terminate(out: array<char>, n: nat, pos: nat, ghost was: seq<char>, ghost text: string)
    requires n <= out.Length && pos == |text|
    requires Emitted(out[..], was, n, text)
    modifies out
    ensures Delivered(out[..], was, n, text)
  {
    if pos < n {
      out[pos] := '\0';
    } else if n > 0 {
      out[n - 1] := '\0';
    }
  }

  /** The first min(|text|, n - 1) characters, then NUL, and nothing else touched; nothing at all for n = 0. */
  predicate Delivered(now: seq<char>, was: seq<char>, n: nat, text: string) {
    && |now| == |was|
    && (n == 0 ==> now == was)
    && (0 < n <= |was| ==>
          var m := if |text| < n then |text| else n - 1;
          now[..m] == text[..m] && now[m] == '\0' && now[m + 1..] == was[m + 1..])
  }

  /** One turn of the loop, on character i of the format; f is what C sees of it. */
  method Turn(out: array<char>, n: nat, start: nat, fmt: string, i: nat, args: seq<Arg>, next: nat,
              inFormat: bool, long: bool, ghost f: string, ghost ds: seq<Directive>,
              ghost was: seq<char>, ghost text: string, ghost whole: string)
    returns (pos: nat, a: nat, format: bool, longarg: bool, ghost after: string, ghost ds': seq<Directive>)
    requires n <= out.Length && i < |f| <= |fmt| && fmt[i] == f[i] && next <= |args| && start == |text|
    requires (!inFormat ==> !long) && ds == Pending(f[i..], inFormat, long) && Left(text, ds, args[next..], n, whole)
    requires Emitted(out[..], was, n, text)
    modifies out
    ensures a <= |args| && pos == |after|
    ensures (!format ==> !longarg) && ds' == Pending(f[i + 1..], format, longarg) && Left(after, ds', args[a..], n, whole)
    ensures Emitted(out[..], was, n, after)
  {
    pos, a, format, longarg, after, ds' := start, next, inFormat, long, text, ds;
    ghost var rest := f[i..];
    assert rest[1..] == f[i + 1..];
    if format {
      if IsKind(fmt[i]) {
        PendingHead(rest, true, longarg);
        ds' := Pending(f[i + 1..], false, false);
        LeftConversion(text, Conversion(fmt[i], longarg), ds', args[a..], n, whole);
        after := text + Piece(fmt[i], longarg, args[a..], n, |text|);
        pos, a := PutConversion(out, n, pos, fmt[i], longarg, args, a, was, text);
        longarg := false;
        format := false;
      } else {
        PendingSkips(rest, longarg);
        if fmt[i] == 'l' {
          longarg := true;
        }
      }
    } else if fmt[i] == '%' {
      PendingOpens(rest);
      format := true;
    } else {
      PendingHead(rest, false, false);
      ds' := Pending(f[i + 1..], false, false);
      LeftPlain(text, fmt[i], ds', args[a..], n, whole);
      pos := Put(out, n, pos, fmt[i], was, text);
      after := text + [fmt[i]];
    }
  }

  /** The text is determined, for delivery, by its visible part. */
  lemma VisibleDelivers(now: seq<char>, was: seq<char>, n: nat, t: string, u: string)
    requires SameVisible(t, u, n, 0) && Delivered(now, was, n, t)
    ensures Delivered(now, was, n, u)
  {
    if 0 < n <= |was| {
      var m := if |t| < n then |t| else n - 1;
      var m' := if |u| < n then |u| else n - 1;
      assert m < n - 1 ==> SameAt(t, u, m);
      assert m' < n - 1 ==> SameAt(t, u, m');
      assert m == m';
      forall k | 0 <= k < m
        ensures t[..m][k] == u[..m][k]
      {
        assert SameAt(t, u, k);
      }
      assert t[..m] == u[..m];
    }
  }

  /** What the format asks for, and what is promised of the call. */
  ghost predicate Promised(ds: seq<Directive>, args: seq<Arg>, n: nat, was: seq<char>, now: seq<char>, r: int)
    requires WellFed(ds, args, n, 0)
  {
    && r == AsInt32(|Written(ds, args, n, 0)|)
    && Delivered(now, was, n, Written(ds, args, n, 0))
    && (Typed(ds, args) ==> Delivered(now, was, n, Render(ds, args)))
    && (Typed(ds, args) && InStep(ds, args, n, 0) ==> r == AsInt32(|Render(ds, args)|))
  }

  lemma PromiseKept(ds: seq<Directive>, args: seq<Arg>, n: nat, was: seq<char>, now: seq<char>, r: int)
    requires WellFed(ds, args, n, 0)
    requires r == AsInt32(|Written(ds, args, n, 0)|) && Delivered(now, was, n, Written(ds, args, n, 0))
    ensures Promised(ds, args, n, was, now, r)
  {
    if Typed(ds, args) {
      WrittenVisible(ds, args, n, 0);
      VisibleDelivers(now, was, n, Written(ds, args, n, 0), Render(ds, args));
      if InStep(ds, args, n, 0) {
        InStepKeepsLength(ds, args, n, 0);
      }
    }
  }

  /**
   * For every format and every n, given arguments for what is fetched: truncation of the unbounded
   * rendering is delivered whenever that rendering is defined, and its length is returned whenever
   * no conversion but a %c follows a %c that does not fit.
   */
  method Vsnprintf(out: array<char>, n: nat, fmt: string, args: seq<Arg>) returns (r: int)
    requires n <= out.Length
    requires WellFed(Directives(BeforeNul(fmt)), args, n, 0)
    modifies out
    ensures Promised(Directives(BeforeNul(fmt)), args, n, old(out[..]), out[..], r)
  {
    ghost var was := out[..];
    ghost var f := BeforeNul(fmt);
    ghost var ds := Directives(f);
    ghost var whole := Written(ds, args, n, 0);
    ghost var text: string := [];
    var format, longarg := false, false;
    var pos: nat, i: nat, a: nat := 0, 0, 0;
    assert f[0..] == f && args[0..] == args;
    while i < |fmt| && fmt[i] != '\0'
      invariant i <= |f| && a <= |args| && pos == |text| && (!format ==> !longarg)
      invariant ds == Pending(f[i..], format, longarg) && Left(text, ds, args[a..], n, whole)
      invariant Emitted(out[..], was, n, text)
    {
      assert i < |f| && f[i] == fmt[i];
      pos, a, format, longarg, text, ds := Turn(out, n, pos, fmt, i, args, a, format, longarg, f, ds, was, text, whole);
      i := i + 1;
    }
    assert f[i..] == [] && ds == [];
    LeftNothing(text, args[a..], n, whole);
    Terminate(out, n, pos, was, text);
    r := AsInt32(pos);
    PromiseKept(Directives(f), args, n, was, out[..], r);
  }
}
