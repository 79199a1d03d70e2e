/** pset4/lib.c: numbers to digits, fields of a formatted output, and the
    bounded string printer. */
module Printf {
  import opened Basics
  import opened Modular

  const NUMBUFSIZ := 24
  const SPACE: byte := 32
  const ZERO: byte := 48
  const MINUS: byte := 45
  const PLUS: byte := 43

  // ---------------------------------------------------------------- digits

  /** `lower_digits` and `upper_digits` */
  function Digit(d: nat, lower: bool): (c: byte)
    requires d < 16
    ensures IsDigit(c, 16) && DigitValue(c) == d && (d < 10 ==> IsDigit(c, 10)) && (c == ZERO <==> d == 0)
  {
    if d < 10 then 48 + d else if lower then 97 + d - 10 else 65 + d - 10
  }

  function DigitValue(c: byte): int {
    if c <= 57 then c - 48 else if c <= 70 then c - 65 + 10 else c - 97 + 10
  }

  predicate IsDigit(c: byte, base: nat) {
    48 <= c <= 57 || (base == 16 && (65 <= c <= 70 || 97 <= c <= 102))
  }

  predicate AllDigits(s: seq<byte>, base: nat) { forall k :: 0 <= k < |s| ==> IsDigit(s[k], base) }

  /** The number that digits denote. */
  function Value(s: seq<byte>, base: nat): int {
    if s == [] then 0 else Value(s[..|s| - 1], base) * base + DigitValue(s[|s| - 1])
  }

  /** The shortest digits of a number. */
  function DigitsOf(num: nat, base: nat, lower: bool): (s: seq<byte>)
    requires base == 10 || base == 16
    ensures s != []
  {
    (if num < base then [] else DigitsOf(num / base, base, lower)) + [Digit(num % base, lower)]
  }

  lemma ValueSnoc(s: seq<byte>, c: byte, base: nat)
    ensures Value(s + [c], base) == Value(s, base) * base + DigitValue(c)
  {
  }

  lemma DivideBy(num: nat, base: nat)
    requires base == 10 || base == 16
    ensures num == num / base * base + num % base && (num >= base ==> 0 < num / base < num)
  {
  }

  /** They denote the number ... */
  lemma {:induction false} DigitsValue(num: nat, base: nat, lower: bool)
    requires base == 10 || base == 16
    ensures Value(DigitsOf(num, base, lower), base) == num
  {
    var c := Digit(num % base, lower);
    DigitsShort(num, base, lower);
    DivideBy(num, base);
    if num >= base { DigitsValue(num / base, base, lower); }
    ValueSnoc(Higher(num / base, base, lower), c, base);
    hide DigitsOf, Digit;
  }

  /** ... and have no leading zero. */
  lemma {:induction false} DigitsShape(num: nat, base: nat, lower: bool)
    requires base == 10 || base == 16
    ensures var s := DigitsOf(num, base, lower); AllDigits(s, base) && (s[0] == ZERO ==> num == 0 && |s| == 1)
  {
    DigitsShort(num, base, lower);
    DivideBy(num, base);
    if num >= base { DigitsShape(num / base, base, lower); }
    hide DigitsOf, Digit;
  }

  function PowerOfTen(k: nat): nat { if k == 0 then 1 else 10 * PowerOfTen(k - 1) }

  /** A number below 10^k has at most k digits. */
  lemma {:induction false} DigitsLength(num: nat, base: nat, lower: bool, k: nat)
    requires (base == 10 || base == 16) && num < PowerOfTen(k) && k > 0
    ensures |DigitsOf(num, base, lower)| <= k
  {
    if num >= base {
      DigitsLength(num / base, base, lower, k - 1);
    }
  }

  lemma TwentyDigits()
    ensures PowerOfTen(20) > WORD
  {
    assert PowerOfTen(5) == 100000;
    assert PowerOfTen(10) == 10000000000;
    assert PowerOfTen(15) == 1000000000000000;
  }

  function Base(base: int): int { if base < 0 then -base else base }

  /** `fill_numbuf`: of the 24 bytes at most 21 are used, for the digits and
      a NUL. */
  method FillNumbuf(numbuf: array<byte>, num: nat, base0: int) returns (start: nat)
    requires numbuf.Length == NUMBUFSIZ && num < WORD && base0 in {10, 16, -16}
    modifies numbuf
    ensures NUMBUFSIZ - 21 <= start < NUMBUFSIZ - 1 && numbuf[NUMBUFSIZ - 1] == 0
    ensures numbuf[start..NUMBUFSIZ - 1] == DigitsOf(num, Base(base0), base0 < 0)
  {
    var lower, base: nat := base0 < 0, Base(base0);
    TwentyDigits();
    DigitsLength(num, base, lower, 20);
    var end: nat, val: nat := NUMBUFSIZ - 1, num;
    numbuf[end] := 0;
    assert DigitsOf(num, base, lower) + numbuf[23..23] == DigitsOf(num, base, lower);
    end, val := FillDigit(numbuf, num, end, val, base, lower);
    while val != 0
      invariant 3 <= end < 23 && numbuf[23] == 0
      invariant DigitsOf(num, base, lower) == Higher(val, base, lower) + numbuf[end..23]
      decreases end
    {
      end, val := FillDigit(numbuf, num, end, val, base, lower);
      hide *;
    }
    start := end;
  }

  /** The body of that loop: `*--numbuf_end = digits[val % base]`. */
  method FillDigit(numbuf: array<byte>, ghost num: nat, end0: nat, val0: nat, base: nat, lower: bool)
      returns (end: nat, val: nat)
    requires numbuf.Length == NUMBUFSIZ && 3 <= end0 <= 23 && (base == 10 || base == 16)
    requires DigitsOf(num, base, lower) == DigitsOf(val0, base, lower) + numbuf[end0..23]
      && |DigitsOf(num, base, lower)| <= 20
    modifies numbuf
    ensures 3 <= end == end0 - 1 && val == val0 / base && numbuf[23] == old(numbuf[23])
    ensures DigitsOf(num, base, lower) == Higher(val, base, lower) + numbuf[end..23]
  {
    ghost var below := numbuf[end0..23];
    DigitsShort(val0, base, lower);
    var digit := Digit(val0 % base, lower);
    end, val := end0 - 1, val0 / base;
    assert Higher(val, base, lower) + [digit] + below == Higher(val, base, lower) + ([digit] + below);
    hide *;
    numbuf[end] := digit;
    assert numbuf[end..23] == [digit] + below;
  }

  /** The digits of what is left of a number. */
  function Higher(val: nat, base: nat, lower: bool): (s: seq<byte>)
    requires base == 10 || base == 16
    ensures val > 0 ==> s != []
  {
    if val == 0 then [] else DigitsOf(val, base, lower)
  }

  lemma DigitsShort(val: nat, base: nat, lower: bool)
    requires base == 10 || base == 16
    ensures DigitsOf(val, base, lower) == Higher(val / base, base, lower) + [Digit(val % base, lower)]
  {
  }

  // ---------------------------------------------------------------- fields

  datatype Flags = Flags(alt: bool, zero: bool, left: bool, space: bool, plus: bool)

  /** A directive of the format with its argument. */
  datatype Directive =
    | Char(c: byte)
    | Signed(x: int, flags: Flags, width: int, precision: int)
    | Unsigned(num: nat, base: int, pointer: bool, flags: Flags, width: int, precision: int)
    | Text(s: seq<byte>, flags: Flags, width: int, precision: int)

  /** Arguments are 64 bits wide; an absent precision is -1. */
  predicate DirectiveOK(d: Directive) {
    match d
    case Char(c) => true
    case Signed(x, _, _, _) => -WORD / 2 <= x < WORD / 2
    case Unsigned(num, base, pointer, _, _, _) => num < WORD && base in {10, 16, -16} && (pointer ==> base == -16)
    case Text(_, _, _, _) => true
  }

  function Repeat(c: byte, n: int): (s: seq<byte>)
    ensures |s| == (if n > 0 then n else 0) && forall k :: 0 <= k < |s| ==> s[k] == c
  {
    seq(if n > 0 then n else 0, _ => c)
  }

  function Sign(x: int, flags: Flags): seq<byte> {
    if x < 0 then [MINUS] else if flags.plus then [PLUS] else if flags.space then [SPACE] else []
  }

  /** "0x" and "0X" */
  function Radix(num: nat, base: int, pointer: bool, flags: Flags): seq<byte> {
    if (flags.alt || pointer) && (base == 16 || base == -16) && (num != 0 || pointer) then
      if base == -16 then [ZERO, 120] else [ZERO, 88]
    else []
  }

  /** Zeros of a number of `len` digits. */
  function Zeroes(flags: Flags, width: int, precision: int, len: nat, prefix: nat): (z: nat) {
    if precision >= 0 then (if precision > len then precision - len else 0)
    else if flags.zero && !flags.left && len + prefix < width then width - len - prefix
    else 0
  }

  /** Padding to the width. */
  function Pad(body: seq<byte>, flags: Flags, width: int): (s: seq<byte>)
    ensures |s| == if width > |body| then width else |body|
  {
    if flags.left then body + Repeat(SPACE, width - |body|) else Repeat(SPACE, width - |body|) + body
  }

  /** A number in its field. */
  function NumberField(prefix: seq<byte>, digits: seq<byte>, flags: Flags, width: int, precision: int): (s: seq<byte>)
    ensures var body := |prefix| + Zeroes(flags, width, precision, |digits|, |prefix|) + |digits|;
      |s| == if width > body then width else body
  {
    Pad(prefix + Repeat(ZERO, Zeroes(flags, width, precision, |digits|, |prefix|)) + digits, flags, width)
  }

  function TextField(s: seq<byte>, flags: Flags, width: int, precision: int): seq<byte> {
    Pad(if precision >= 0 then s[..Min(precision, |s|)] else s, flags, width)
  }

  /** What a directive prints. */
  function Formatted(d: Directive): seq<byte>
    requires DirectiveOK(d)
  {
    match d
    case Char(c) => [c]
    case Text(s, flags, width, precision) => TextField(s, flags, width, precision)
    case Signed(x, flags, width, precision) =>
      NumberField(Sign(x, flags), DigitsOf(if x < 0 then -x else x, 10, false), flags, width, precision)
    case Unsigned(num, base, pointer, flags, width, precision) =>
      NumberField(Radix(num, base, pointer, flags), DigitsOf(num, Base(base), base < 0), flags, width, precision)
  }

  // ------------------------------------------------------------- read back

  function Skip(s: seq<byte>): (t: seq<byte>)
    ensures |t| <= |s|
  {
    if s != [] && s[0] == SPACE then Skip(s[1..]) else s
  }

  function Leading(s: seq<byte>, base: nat): (n: nat)
    ensures n <= |s|
  {
    if s != [] && IsDigit(s[0], base) then 1 + Leading(s[1..], base) else 0
  }

  /** The number at the start of `s`. */
  function ReadDigits(s: seq<byte>, base: nat): int { Value(s[..Leading(s, base)], base) }

  /** What `strtol` reads in base 10: spaces, a sign, and digits. */
  function ReadNumber(s: seq<byte>): int {
    var t := Skip(s);
    if t != [] && t[0] == MINUS then -ReadDigits(t[1..], 10)
    else ReadDigits(if t != [] && t[0] == PLUS then t[1..] else t, 10)
  }

  /** What `strtoul` reads of an unsigned number: spaces, "0x" in base 16,
      and digits. */
  function ReadUnsigned(s: seq<byte>, base: nat): int {
    var t := Skip(s);
    if base == 16 && |t| > 1 && t[0] == ZERO && (t[1] == 120 || t[1] == 88) then ReadDigits(t[2..], base)
    else ReadDigits(t, base)
  }

  lemma {:induction false} SkipSpaces(n: nat, s: seq<byte>)
    ensures Skip(Repeat(SPACE, n) + s) == Skip(s)
  {
    if n == 0 {
      assert Repeat(SPACE, n) + s == s;
    } else {
      SkipSpaces(n - 1, s);
      assert (Repeat(SPACE, n) + s)[1..] == Repeat(SPACE, n - 1) + s;
    }
  }

  lemma {:induction false} LeadingDigits(digits: seq<byte>, tail: seq<byte>, base: nat)
    requires AllDigits(digits, base) && Spaced(tail)
    ensures Leading(digits + tail, base) == |digits| && ReadDigits(digits + tail, base) == Value(digits, base)
  {
    assert (digits + tail)[..|digits|] == digits;
    if digits == [] {
      assert digits + tail == tail;
    } else {
      LeadingDigits(digits[1..], tail, base);
      assert (digits + tail)[1..] == digits[1..] + tail;
    }
  }

  predicate Spaced(tail: seq<byte>) { tail == [] || tail[0] == SPACE }

  lemma {:induction false} ValueZeros(n: nat, digits: seq<byte>, base: nat)
    ensures Value(Repeat(ZERO, n) + digits, base) == Value(digits, base)
  {
    if digits != [] {
      var t, c := digits[..|digits| - 1], digits[|digits| - 1];
      ValueZeros(n, t, base);
      ValueSnoc(t, c, base);
      ValueSnoc(Repeat(ZERO, n) + t, c, base);
      assert digits == t + [c] && Repeat(ZERO, n) + digits == (Repeat(ZERO, n) + t) + [c];
    } else if n > 0 {
      ValueZeros(n - 1, [], base);
      ValueSnoc(Repeat(ZERO, n - 1), ZERO, base);
      assert Repeat(ZERO, n) + [] == Repeat(ZERO, n - 1) + [ZERO] && Repeat(ZERO, n - 1) + [] == Repeat(ZERO, n - 1);
    }
  }

  /** Reading back sign and digits before a space. */
  lemma ReadSigned(x: int, flags: Flags, digits: seq<byte>, tail: seq<byte>)
    requires digits != [] && AllDigits(digits, 10) && Value(digits, 10) == (if x < 0 then -x else x) && Spaced(tail)
    ensures ReadNumber(Sign(x, flags) + digits + tail) == x
  {
    var sign := Sign(x, flags);
    var s := sign + digits + tail;
    LeadingDigits(digits, tail, 10);
    assert digits + tail != [] && (digits + tail)[0] == digits[0] && IsDigit(digits[0], 10);
    assert Skip(digits + tail) == digits + tail;
    if sign == [] {
      assert s == digits + tail;
    } else {
      assert s[1..] == digits + tail;
    }
  }

  lemma SkipNone(s: seq<byte>)
    requires s != [] && s[0] != SPACE
    ensures Skip(s) == s
  {
  }

  /** Digits before a space do not look like a prefix. */
  lemma ReadPlain(digits: seq<byte>, tail: seq<byte>, base: nat)
    requires digits != [] && AllDigits(digits, base) && Spaced(tail)
    ensures ReadUnsigned(digits + tail, base) == Value(digits, base)
  {
    var s := digits + tail;
    LeadingDigits(digits, tail, base);
    assert s[0] == digits[0] && IsDigit(digits[0], base);
    if |s| > 1 { assert s[1] == (if |digits| > 1 then digits[1] else tail[0]); }
    SkipNone(s);
    hide ReadDigits, Value, Leading, Skip;
  }

  /** Reading back prefix and digits before a space. */
  lemma ReadPrefixed(prefix: seq<byte>, digits: seq<byte>, tail: seq<byte>, base: nat)
    requires digits != [] && AllDigits(digits, base) && (base == 10 || base == 16) && Spaced(tail)
    requires prefix == [] || (base == 16 && (prefix == [ZERO, 120] || prefix == [ZERO, 88]))
    ensures ReadUnsigned(prefix + digits + tail, base) == Value(digits, base)
  {
    hide ReadDigits, Value, Leading, Skip, AllDigits;
    var s := prefix + digits + tail;
    if prefix == [] {
      ReadPlain(digits, tail, base);
      assert s == digits + tail;
    } else {
      LeadingDigits(digits, tail, base);
      SkipNone(s);
      assert s[2..] == digits + tail && s[0] == prefix[0] && s[1] == prefix[1];
    }
  }

  lemma ReadPadded(n: nat, s: seq<byte>, base: nat)
    ensures ReadNumber(Repeat(SPACE, n) + s) == ReadNumber(s)
    ensures ReadUnsigned(Repeat(SPACE, n) + s, base) == ReadUnsigned(s, base)
  {
    SkipSpaces(n, s);
    hide ReadDigits, Skip;
  }

  lemma PadIs(body: seq<byte>, flags: Flags, width: int) returns (n: nat)
    ensures Pad(body, flags, width) == (if flags.left then body + Repeat(SPACE, n) else Repeat(SPACE, n) + body)
    ensures Spaced(Repeat(SPACE, n)) && body + [] == body
  {
    n := if width > |body| then width - |body| else 0;
    assert Repeat(SPACE, width - |body|) == Repeat(SPACE, n);
  }

  /** Padding on either side does not change what is read. */
  lemma ReadSignedField(x: int, flags: Flags, digits: seq<byte>, width: int)
    requires digits != [] && AllDigits(digits, 10) && Value(digits, 10) == (if x < 0 then -x else x)
    ensures ReadNumber(Pad(Sign(x, flags) + digits, flags, width)) == x
  {
    hide Value, ReadNumber, Sign, AllDigits, Pad;
    var n := PadIs(Sign(x, flags) + digits, flags, width);
    ReadSigned(x, flags, digits, Repeat(SPACE, n));
    ReadSigned(x, flags, digits, []);
    ReadPadded(n, Sign(x, flags) + digits, 10);
  }

  lemma ReadUnsignedField(prefix: seq<byte>, digits: seq<byte>, flags: Flags, width: int, base: nat)
    requires digits != [] && AllDigits(digits, base) && (base == 10 || base == 16)
    requires prefix == [] || (base == 16 && (prefix == [ZERO, 120] || prefix == [ZERO, 88]))
    ensures ReadUnsigned(Pad(prefix + digits, flags, width), base) == Value(digits, base)
  {
    hide Value, ReadUnsigned, AllDigits, Pad;
    var n := PadIs(prefix + digits, flags, width);
    ReadPrefixed(prefix, digits, Repeat(SPACE, n), base);
    ReadPrefixed(prefix, digits, [], base);
    ReadPadded(n, prefix + digits, base);
  }

  /** A number field is a padded prefix and digits with zeros before them. */
  lemma FieldIs(prefix: seq<byte>, digits: seq<byte>, flags: Flags, width: int, precision: int, base: nat)
      returns (all: seq<byte>)
    requires AllDigits(digits, base) && digits != []
    ensures NumberField(prefix, digits, flags, width, precision) == Pad(prefix + all, flags, width)
    ensures all != [] && AllDigits(all, base) && Value(all, base) == Value(digits, base)
    ensures forall c :: c in all ==> c == ZERO || c in digits
    ensures |all| >= precision && (flags.zero && !flags.left && precision < 0 ==> |prefix| + |all| >= width)
  {
    hide Value, Pad;
    var z := Zeroes(flags, width, precision, |digits|, |prefix|);
    all := Repeat(ZERO, z) + digits;
    ValueZeros(z, digits, base);
    assert prefix + Repeat(ZERO, z) + digits == prefix + all;
  }

  /** For every flag, width and precision, a printed signed number reads
      back. */
  lemma SignedRoundTrip(x: int, flags: Flags, width: int, precision: int)
    requires DirectiveOK(Signed(x, flags, width, precision))
    ensures ReadNumber(Formatted(Signed(x, flags, width, precision))) == x
  {
    hide ReadNumber, NumberField, DigitsOf, AllDigits, Value, Pad, Sign;
    var num := if x < 0 then -x else x;
    DigitsValue(num, 10, false);
    DigitsShape(num, 10, false);
    var all := FieldIs(Sign(x, flags), DigitsOf(num, 10, false), flags, width, precision, 10);
    ReadSignedField(x, flags, all, width);
  }

  /** So does an unsigned one or a pointer, in base 10 or 16. */
  lemma UnsignedRoundTrip(num: nat, base: int, pointer: bool, flags: Flags, width: int, precision: int)
    requires DirectiveOK(Unsigned(num, base, pointer, flags, width, precision))
    ensures ReadUnsigned(Formatted(Unsigned(num, base, pointer, flags, width, precision)), Base(base)) == num
  {
    hide ReadUnsigned, NumberField, DigitsOf, AllDigits, Value, Pad;
    DigitsValue(num, Base(base), base < 0);
    DigitsShape(num, Base(base), base < 0);
    var prefix := Radix(num, base, pointer, flags);
    var all := FieldIs(prefix, DigitsOf(num, Base(base), base < 0), flags, width, precision, Base(base));
    ReadUnsignedField(prefix, all, flags, width, Base(base));
  }

  // ---------------------------------------------------------- the format

  const PERCENT: byte := 37
  const STAR: byte := 42
  const DOT: byte := 46

  /** An argument: eight bytes, of which a conversion may use fewer, or a
      pointer to a C string. */
  datatype Arg = Number(raw: nat) | CharPointer(text: seq<byte>)

  function SignedBits(x: nat, range: nat): int
    requires range > 0
  {
    var m := x % range;
    if m < range / 2 then m else m - range
  }

  function IntOf(raw: nat): int { SignedBits(raw, 0x1_0000_0000) }

  const NO_FLAGS := Flags(false, false, false, false, false)

  predicate IsFlag(c: byte) { c in {35, 48, 45, 32, 43} }   // "#0- +"

  predicate IsDecimal(c: byte) { 48 <= c <= 57 }

  function WithFlag(flags: Flags, c: byte): Flags {
    if c == 35 then flags.(alt := true)
    else if c == 48 then flags.(zero := true)
    else if c == 45 then flags.(left := true)
    else if c == 32 then flags.(space := true) else flags.(plus := true)
  }

  function TakeFlags(f: seq<byte>, flags: Flags): (Flags, seq<byte>) {
    if f != [] && IsFlag(f[0]) then TakeFlags(f[1..], WithFlag(flags, f[0])) else (flags, f)
  }

  function TakeNumber(f: seq<byte>, n: nat): (nat, seq<byte>) {
    if f != [] && IsDecimal(f[0]) then TakeNumber(f[1..], 10 * n + (f[0] - 48)) else (n, f)
  }

  /** A width or precision, and what follows it. */
  datatype Scan = Scan(number: int, rest: seq<byte>, args: seq<Arg>)

  function TakeStar(f: seq<byte>, args: seq<Arg>): Option<Scan>
    requires f != []
  {
    if args != [] && args[0].Number? then Some(Scan(IntOf(args[0].raw), f[1..], args[1..])) else None
  }

  function TakeWidth(f: seq<byte>, args: seq<Arg>): Option<Scan> {
    if f != [] && IsDecimal(f[0]) && f[0] != ZERO then
      var (n, rest) := TakeNumber(f, 0);
      Some(Scan(n, rest, args))
    else if f != [] && f[0] == STAR then TakeStar(f, args)
    else Some(Scan(-1, f, args))
  }

  function TakePrecision(f: seq<byte>, args: seq<Arg>): Option<Scan> {
    if f != [] && f[0] == DOT then TakeDotted(f[1..], args) else Some(Scan(-1, f, args))
  }

  /** A precision behind its dot: without a number it is 0, and so is a
      negative one. */
  function TakeDotted(f: seq<byte>, args: seq<Arg>): Option<Scan> {
    if f != [] && IsDecimal(f[0]) then
      var (n, rest) := TakeNumber(f, 0);
      Some(Scan(n, rest, args))
    else if f != [] && f[0] == STAR then
      match TakeStar(f, args)
      case Some(scan) => Some(if scan.number < 0 then scan.(number := 0) else scan)
      case None => None
    else Some(Scan(0, f, args))
  }

  function TakeLength(f: seq<byte>, long: bool): (bool, seq<byte>) {
    if f != [] && (f[0] == 108 || f[0] == 122) then TakeLength(f[1..], true) else (long, f)   // 'l', 'z'
  }

  predicate TakesNumber(c: byte) { c in {100, 117, 120, 88, 112, 67, 99} }   // d u x X p C c

  /** The directive of a conversion character with its argument; "%C" sets
      the colour and prints nothing. */
  function Conversion(c: byte, arg: Arg, flags: Flags, width: int, precision: int, long: bool): (d: Option<Directive>)
    requires TakesNumber(c) ==> arg.Number?
    requires c == 115 ==> arg.CharPointer?
    ensures d.Some? ==> DirectiveOK(d.value)
  {
    var range := if long || c == 112 then WORD else 0x1_0000_0000;
    if c == 100 then Some(Signed(SignedBits(arg.raw, range), flags, width, precision))
    else if c == 117 || c == 120 || c == 88 || c == 112 then
      Some(Unsigned(arg.raw % range, if c == 117 then 10 else if c == 88 then 16 else -16, c == 112, flags, width,
        precision))
    else if c == 115 then Some(Text(arg.text, flags, width, precision))
    else if c == 67 then None
    else if c == 99 then Some(Text(if arg.raw % 256 == 0 then [] else [arg.raw % 256], flags, width, precision))
    else Some(Text([c], flags, width, precision))
  }

  /** The argument that a conversion takes fits. */
  predicate Fits(c: byte, args: seq<Arg>) {
    (TakesNumber(c) ==> args != [] && args[0].Number?) && (c == 115 ==> args != [] && args[0].CharPointer?)
  }

  predicate TakesArg(c: byte) { TakesNumber(c) || c == 115 }

  /** A directive, and what follows it. */
  datatype Step = Step(d: Option<Directive>, rest: seq<byte>, args: seq<Arg>)

  /** One directive, behind its '%'; None when the arguments do not fit the
      format.  A format that ends here stands for a percent sign. */
  function TakeDirective(f: seq<byte>, args: seq<Arg>): (s: Option<Step>)
    ensures s.Some? ==> |s.value.rest| <= |f| && (s.value.d.Some? ==> DirectiveOK(s.value.d.value))
  {
    var (flags, f1) := TakeFlags(f, NO_FLAGS);
    TakeShorter(f, NO_FLAGS);
    match TakeWidth(f1, args)
    case None => None
    case Some(width) =>
      ScanShorter(f1, args);
      match TakePrecision(width.rest, width.args)
      case None => None
      case Some(precision) =>
        ScanShorter(width.rest, width.args);
        LengthShorter(precision.rest, false);
        var (long, f4) := TakeLength(precision.rest, false);
        if f4 == [] then Some(Step(Some(Text([PERCENT], flags, width.number, precision.number)), [], precision.args))
        else if !Fits(f4[0], precision.args) then None
        else
          Some(Step(
            Conversion(f4[0], if TakesArg(f4[0]) then precision.args[0] else Number(0), flags, width.number,
              precision.number, long),
            f4[1..], if TakesArg(f4[0]) then precision.args[1..] else precision.args))
  }

  lemma {:induction false} TakeShorter(f: seq<byte>, flags: Flags)
    ensures |TakeFlags(f, flags).1| <= |f|
  {
    if f != [] && IsFlag(f[0]) { TakeShorter(f[1..], WithFlag(flags, f[0])); }
  }

  lemma {:induction false} NumberShorter(f: seq<byte>, n: nat)
    ensures |TakeNumber(f, n).1| <= |f|
  {
    if f != [] && IsDecimal(f[0]) { NumberShorter(f[1..], 10 * n + (f[0] - 48)); }
  }

  lemma ScanShorter(f: seq<byte>, args: seq<Arg>)
    ensures TakeWidth(f, args).Some? ==> |TakeWidth(f, args).value.rest| <= |f|
    ensures TakePrecision(f, args).Some? ==> |TakePrecision(f, args).value.rest| <= |f|
  {
    NumberShorter(f, 0);
    if f != [] { NumberShorter(f[1..], 0); }
  }

  lemma {:induction false} LengthShorter(f: seq<byte>, long: bool)
    ensures |TakeLength(f, long).1| <= |f|
  {
    if f != [] && (f[0] == 108 || f[0] == 122) { LengthShorter(f[1..], true); }
  }

  /** The directives of a format; None when the arguments do not fit. */
  function Parse(f: seq<byte>, args: seq<Arg>): (ds: Option<seq<Directive>>)
    ensures ds.Some? ==> AllOK(ds.value)
    decreases |f|
  {
    if f == [] then Some([])
    else if f[0] != PERCENT then
      match Parse(f[1..], args)
      case Some(more) => Some([Char(f[0])] + more)
      case None => None
    else
      match TakeDirective(f[1..], args)
      case None => None
      case Some(step) =>
        match Parse(step.rest, step.args)
        case Some(more) => Some((if step.d.Some? then [step.d.value] else []) + more)
        case None => None
  }

  predicate AllOK(ds: seq<Directive>) { forall d :: d in ds ==> DirectiveOK(d) }

  // ----------------------------------------------------- writing a format

  /** A width or precision as written: not at all, in digits, or as a star
      with an argument. */
  datatype Count = Absent | Literal(digits: seq<byte>) | Star(raw: nat)
  {
    function Written(): seq<byte> { match this case Absent => [] case Literal(digits) => digits case Star(_) => [STAR] }
    function Args(): seq<Arg> { if Star? then [Number(raw)] else [] }
    predicate OK() { Literal? ==> digits != [] && AllDigits(digits, 10) }
    /** What it stands for when it is there. */
    function Meaning(): int
      requires OK() && !Absent?
    {
      if Literal? then Value(digits, 10) else IntOf(raw)
    }
  }

  /** A part of a format: a character, or a directive with flags in any
      order, repeated or not, and any number of length characters. */
  datatype Item = Plain(c: byte)
    | Directed(flags: seq<byte>, width: Count, dot: bool, precision: Count, length: seq<byte>, conv: byte, arg: Arg)

  predicate GoodItem(item: Item) {
    match item
    case Plain(c) => c != PERCENT
    case Directed(flags, width, dot, precision, length, conv, arg) =>
      (forall c :: c in flags ==> IsFlag(c)) && width.OK() && (width.Literal? ==> width.digits[0] != ZERO)
      && precision.OK() && (!dot ==> precision.Absent?) && (forall c :: c in length ==> c == 108 || c == 122)
      && !IsFlag(conv) && !IsDecimal(conv) && conv !in {STAR, DOT, 108, 122} && Fits(conv, [arg])
  }

  function Written(item: Item): seq<byte> {
    match item
    case Plain(c) => [c]
    case Directed(flags, width, dot, precision, length, conv, _) =>
      [PERCENT] + flags + width.Written() + Dotted(dot, precision) + length + [conv]
  }

  function ItemArgs(item: Item): seq<Arg> {
    match item
    case Plain(_) => []
    case Directed(_, width, dot, precision, _, conv, arg) =>
      width.Args() + (if dot then precision.Args() else []) + (if TakesArg(conv) then [arg] else [])
  }

  function FlagsOf(flags: seq<byte>): Flags {
    Flags(35 in flags, 48 in flags, 45 in flags, 32 in flags, 43 in flags)
  }

  /** The width of a directive, and its precision; -1 stands for none. */
  function Wide(item: Item): int
    requires GoodItem(item) && item.Directed?
  {
    if item.width.Absent? then -1 else item.width.Meaning()
  }

  function Precise(item: Item): int
    requires GoodItem(item) && item.Directed?
  {
    if !item.dot then -1
    else if item.precision.Absent? || item.precision.Meaning() < 0 then 0
    else item.precision.Meaning()
  }

  /** What a directive means, read off its parts. */
  function Meaning(item: Item): Option<Directive>
    requires GoodItem(item)
  {
    match item
    case Plain(c) => Some(Char(c))
    case Directed(flags, _, _, _, length, conv, arg) =>
      Conversion(conv, arg, FlagsOf(flags), Wide(item), Precise(item), length != [])
  }

  function WrittenAll(items: seq<Item>): seq<byte>
  {
    if items == [] then [] else Written(items[0]) + WrittenAll(items[1..])
  }

  function AllArgs(items: seq<Item>): seq<Arg> { if items == [] then [] else ItemArgs(items[0]) + AllArgs(items[1..]) }

  function Meanings(items: seq<Item>): seq<Directive>
    requires forall item :: item in items ==> GoodItem(item)
  {
    if items == [] then []
    else (if Meaning(items[0]).Some? then [Meaning(items[0]).value] else []) + Meanings(items[1..])
  }

  lemma {:induction false} FlagsRead(flags: seq<byte>, tail: seq<byte>, before: Flags)
    requires (forall c :: c in flags ==> IsFlag(c)) && (tail == [] || !IsFlag(tail[0]))
    ensures TakeFlags(flags + tail, before) ==
      (Flags(before.alt || 35 in flags, before.zero || 48 in flags, before.left || 45 in flags,
             before.space || 32 in flags, before.plus || 43 in flags), tail)
  {
    if flags == [] {
      assert flags + tail == tail;
    } else {
      assert (flags + tail)[1..] == flags[1..] + tail;
      FlagsRead(flags[1..], tail, WithFlag(before, flags[0]));
      assert forall c: byte :: c in flags <==> c == flags[0] || c in flags[1..];
    }
  }

  /** A decimal number is read as its value. */
  lemma {:induction false} NumberRead(before: seq<byte>, digits: seq<byte>, tail: seq<byte>, n: nat)
    requires AllDigits(digits, 10) && (tail == [] || !IsDecimal(tail[0])) && n == Value(before, 10)
    ensures Value(before + digits, 10) >= 0 && TakeNumber(digits + tail, n) == (Value(before + digits, 10), tail)
    decreases |digits|
  {
    if digits == [] {
      assert digits + tail == tail && before + digits == before;
    } else {
      ValueSnoc(before, digits[0], 10);
      assert (digits + tail)[1..] == digits[1..] + tail && before + digits == (before + [digits[0]]) + digits[1..];
      hide Value;
      NumberRead(before + [digits[0]], digits[1..], tail, 10 * n + (digits[0] - 48));
    }
  }

  lemma {:induction false} LengthRead(length: seq<byte>, tail: seq<byte>, long: bool)
    requires (forall c :: c in length ==> c == 108 || c == 122) && tail != [] && tail[0] != 108 && tail[0] != 122
    ensures TakeLength(length + tail, long) == (long || length != [], tail)
  {
    if length == [] {
      assert length + tail == tail;
    } else {
      assert (length + tail)[1..] == length[1..] + tail && length[0] in length;
      assert forall c :: c in length[1..] ==> c in length;
      LengthRead(length[1..], tail, true);
    }
  }

  lemma WidthRead(width: Count, tail: seq<byte>, args: seq<Arg>)
    requires width.OK() && (width.Literal? ==> width.digits[0] != ZERO)
    requires tail != [] && !IsDecimal(tail[0]) && tail[0] != STAR
    ensures TakeWidth(width.Written() + tail, width.Args() + args) ==
      Some(Scan(if width.Absent? then -1 else width.Meaning(), tail, args))
  {
    var f := width.Written() + tail;
    match width
    case Absent => assert f == tail && width.Args() + args == args;
    case Star(raw) => assert f[1..] == tail && (width.Args() + args)[1..] == args;
    case Literal(digits) =>
      assert [] + digits == digits && width.Args() + args == args && IsDigit(digits[0], 10);
      hide Value;
      NumberRead([], digits, tail, 0);
  }

  /** Behind the dot. */
  lemma DottedRead(precision: Count, tail: seq<byte>, args: seq<Arg>)
    requires precision.OK() && tail != [] && !IsDecimal(tail[0]) && tail[0] != STAR
    ensures TakeDotted(precision.Written() + tail, precision.Args() + args) ==
      Some(Scan(if precision.Absent? || precision.Meaning() < 0 then 0 else precision.Meaning(), tail, args))
  {
    var f := precision.Written() + tail;
    match precision
    case Absent => assert f == tail && precision.Args() + args == args;
    case Star(raw) => assert f[1..] == tail && (precision.Args() + args)[1..] == args;
    case Literal(digits) =>
      assert [] + digits == digits && precision.Args() + args == args && IsDigit(digits[0], 10);
      hide Value;
      NumberRead([], digits, tail, 0);
  }

  function Dotted(dot: bool, precision: Count): seq<byte> { if dot then [DOT] + precision.Written() else [] }

  lemma PrecisionRead(dot: bool, precision: Count, tail: seq<byte>, args: seq<Arg>)
    requires precision.OK() && tail != [] && !IsDecimal(tail[0]) && tail[0] != STAR && tail[0] != DOT
    ensures TakePrecision(Dotted(dot, precision) + tail, (if dot then precision.Args() else []) + args) ==
      Some(Scan(if !dot then -1 else if precision.Absent? || precision.Meaning() < 0 then 0 else precision.Meaning(),
        tail, args))
  {
    if dot {
      hide TakeDotted;
      DottedRead(precision, tail, args);
      assert (Dotted(dot, precision) + tail)[1..] == precision.Written() + tail;
    } else {
      assert Dotted(dot, precision) + tail == tail && [] + args == args;
    }
  }

  lemma Regrouped(percent: byte, a: seq<byte>, b: seq<byte>, c: seq<byte>, d: seq<byte>, e: byte, tail: seq<byte>)
    ensures ([percent] + a + b + c + d + [e])[1..] + tail == a + (b + (c + (d + ([e] + tail))))
  {
  }

  lemma RegroupedArgs(a: seq<Arg>, b: seq<Arg>, c: seq<Arg>, args: seq<Arg>)
    ensures a + b + c + args == a + (b + (c + args))
  {
  }

  /** Every notation of a directive is read as what it means. */
  lemma DirectiveRead(item: Item, tail: seq<byte>, args: seq<Arg>)
    requires item.Directed? && GoodItem(item)
    ensures TakeDirective(Written(item)[1..] + tail, ItemArgs(item) + args) == Some(Step(Meaning(item), tail, args))
  {
    var Directed(flags, width, dot, precision, length, conv, arg) := item;
    var own := if TakesArg(conv) then [arg] else [];
    var args3 := (if dot then precision.Args() else []) + (own + args);
    var f3 := length + ([conv] + tail);
    var f2 := Dotted(dot, precision) + f3;
    Regrouped(PERCENT, flags, width.Written(), Dotted(dot, precision), length, conv, tail);
    RegroupedArgs(width.Args(), if dot then precision.Args() else [], own, args);
    assert length != [] ==> length[0] in length;
    assert f3[0] == (if length == [] then conv else length[0]);
    assert f2[0] == (if dot then DOT else f3[0]);
    StartOf(width, f2);
    FlagsRead(flags, width.Written() + f2, NO_FLAGS);
    WidthRead(width, f2, args3);
    PrecisionRead(dot, precision, f3, own + args);
    LengthRead(length, [conv] + tail, false);
    ArgRead(conv, arg, args);
    assert ([conv] + tail)[1..] == tail;
    hide *;
    Assembled(item, tail, args, f2, f3, args3, own + args);
  }

  lemma ArgRead(conv: byte, arg: Arg, args: seq<Arg>)
    requires Fits(conv, [arg])
    ensures var all := (if TakesArg(conv) then [arg] else []) + args;
      Fits(conv, all) && if TakesArg(conv) then all[0] == arg && all[1..] == args else all == args
  {
  }

  /** The parts put together. */
  lemma Assembled(item: Item, tail: seq<byte>, args: seq<Arg>, f2: seq<byte>, f3: seq<byte>, args3: seq<Arg>,
                  args4: seq<Arg>)
    requires item.Directed? && GoodItem(item)
    requires Written(item)[1..] + tail == item.flags + (item.width.Written() + f2)
      && ItemArgs(item) + args == item.width.Args() + args3
    requires TakeFlags(item.flags + (item.width.Written() + f2), NO_FLAGS) ==
      (Flags(35 in item.flags, 48 in item.flags, 45 in item.flags, 32 in item.flags, 43 in item.flags),
        item.width.Written() + f2)
    requires TakeWidth(item.width.Written() + f2, item.width.Args() + args3) ==
      Some(Scan(if item.width.Absent? then -1 else item.width.Meaning(), f2, args3))
    requires TakePrecision(f2, args3) ==
      Some(Scan(if !item.dot then -1 else if item.precision.Absent? || item.precision.Meaning() < 0 then 0
        else item.precision.Meaning(), f3, args4))
    requires TakeLength(f3, false) == (item.length != [], [item.conv] + tail) && ([item.conv] + tail)[1..] == tail
    requires Fits(item.conv, args4) && if TakesArg(item.conv) then args4[0] == item.arg && args4[1..] == args
      else args4 == args
    ensures TakeDirective(Written(item)[1..] + tail, ItemArgs(item) + args) == Some(Step(Meaning(item), tail, args))
  {
    hide Written, ItemArgs, Count.Written, Count.Args, Count.Meaning, TakeFlags, TakeWidth, TakePrecision, TakeLength,
      IsFlag;
  }

  /** What follows the flags is none. */
  lemma StartOf(width: Count, f: seq<byte>)
    requires width.OK() && f != [] && (width.Absent? ==> !IsFlag(f[0])) && (width.Literal? ==> width.digits[0] != ZERO)
    ensures width.Written() + f != [] && !IsFlag((width.Written() + f)[0])
  {
    if width.Literal? { assert IsDigit(width.digits[0], 10); }
  }

  lemma JoinWritten(item: Item, rest: seq<Item>)
    requires GoodItem(item)
    ensures var f := WrittenAll([item] + rest);
      f != [] && f[0] == (if item.Plain? then item.c else PERCENT) && f[1..] == Written(item)[1..] + WrittenAll(rest)
    ensures AllArgs([item] + rest) == ItemArgs(item) + AllArgs(rest)
  {
    assert ([item] + rest)[1..] == rest;
  }

  /** Parsing undoes writing, for every list of characters and directives in
      every notation. */
  lemma {:induction false} ParseWritten(items: seq<Item>)
    requires forall item :: item in items ==> GoodItem(item)
    ensures Parse(WrittenAll(items), AllArgs(items)) == Some(Meanings(items))
    decreases |items|
  {
    if items != [] {
      var item, rest := items[0], items[1..];
      assert items == [item] + rest;
      JoinWritten(item, rest);
      ParseWritten(rest);
      hide Written, ItemArgs, Meaning, TakeDirective;
      if item.Plain? {
        PlainRead(item, rest);
      } else {
        DirectiveRead(item, WrittenAll(rest), AllArgs(rest));
      }
    }
  }

  lemma PlainRead(item: Item, rest: seq<Item>)
    requires item.Plain? && GoodItem(item)
    ensures Written(item)[1..] + WrittenAll(rest) == WrittenAll(rest) && ItemArgs(item) + AllArgs(rest) == AllArgs(rest)
    ensures Meaning(item) == Some(Char(item.c))
  {
  }

  // ------------------------------------------- what a format prints

  /** The whole output of a format. */
  function Output(f: seq<byte>, args: seq<Arg>): seq<byte>
    requires Parse(f, args).Some?
  {
    FormattedAll(Parse(f, args).value)
  }

  /** Everything that the parts print, one after the other. */
  function Outputs(items: seq<Item>): seq<byte>
    requires forall item :: item in items ==> GoodItem(item) && Parse(Written(item), ItemArgs(item)).Some?
  {
    if items == [] then [] else Output(Written(items[0]), ItemArgs(items[0])) + Outputs(items[1..])
  }

  lemma ItemPrinted(item: Item)
    requires GoodItem(item)
    ensures Parse(Written(item), ItemArgs(item)) == Some(OneOrNone(Meaning(item)))
    ensures Output(Written(item), ItemArgs(item)) ==
      if Meaning(item).Some? then Formatted(Meaning(item).value) else []
  {
    hide Written, ItemArgs, Meaning, Parse, Formatted, FormattedAll, GoodItem, DirectiveOK;
    ItemParsed(item);
    OneFormatted(Meaning(item));
  }

  function OneOrNone(d: Option<Directive>): seq<Directive> { if d.Some? then [d.value] else [] }

  lemma ItemParsed(item: Item)
    requires GoodItem(item)
    ensures Parse(Written(item), ItemArgs(item)) == Some(OneOrNone(Meaning(item)))
  {
    hide Written, ItemArgs, Meaning, Parse, GoodItem;
    ParseWritten([item]);
    assert [item][1..] == [] && WrittenAll([]) == [] && AllArgs([]) == [] && Meanings([]) == [];
    assert Written(item) + [] == Written(item) && ItemArgs(item) + [] == ItemArgs(item);
    assert OneOrNone(Meaning(item)) + [] == OneOrNone(Meaning(item));
  }

  lemma OneFormatted(d: Option<Directive>)
    requires d.Some? ==> DirectiveOK(d.value)
    ensures AllOK(OneOrNone(d)) && FormattedAll(OneOrNone(d)) == if d.Some? then Formatted(d.value) else []
  {
    hide Formatted, DirectiveOK;
    if d.Some? {
      assert [d.value][..0] == [] && FormattedAll([]) == [] && [] + Formatted(d.value) == Formatted(d.value);
    }
  }

  /** A format prints what its parts print. */
  lemma {:induction false} PrintedAll(items: seq<Item>)
    requires forall item :: item in items ==> GoodItem(item)
    ensures Parse(WrittenAll(items), AllArgs(items)).Some?
    ensures forall item :: item in items ==> Parse(Written(item), ItemArgs(item)).Some?
    ensures Output(WrittenAll(items), AllArgs(items)) == Outputs(items)
    decreases |items|
  {
    forall item | item in items ensures Parse(Written(item), ItemArgs(item)).Some? { ItemPrinted(item); }
    ParseWritten(items);
    if items != [] {
      var d, more := OneOrNone(Meaning(items[0])), Meanings(items[1..]);
      assert Meanings(items) == d + more;
      hide Written, ItemArgs, Meaning, Parse, Formatted, WrittenAll, AllArgs, Meanings, DirectiveOK;
      ItemParsed(items[0]);
      ParseWritten(items[1..]);
      PrintedAll(items[1..]);
      FormattedJoin(d, more);
    }
  }

  lemma {:induction false} FormattedJoin(ds: seq<Directive>, more: seq<Directive>)
    requires AllOK(ds) && AllOK(more)
    ensures AllOK(ds + more) && FormattedAll(ds + more) == FormattedAll(ds) + FormattedAll(more)
    decreases |more|
  {
    if more == [] {
      assert ds + more == ds && FormattedAll(ds) + [] == FormattedAll(ds);
    } else {
      var most, last := more[..|more| - 1], more[|more| - 1];
      assert more == most + [last] && ds + more == (ds + most) + [last];
      assert AllOK(most) && DirectiveOK(last);
      hide *;
      FormattedJoin(ds, most);
      Snoc(ds + most, last);
      Snoc(most, last);
      Grouped(FormattedAll(ds), FormattedAll(most), Formatted(last));
    }
  }

  lemma Grouped(a: seq<byte>, b: seq<byte>, c: seq<byte>)
    ensures (a + b) + c == a + (b + c)
  {
  }

  /** `x` is the signed number with the low bits of `raw`; there are 2 * `half`
      such numbers. */
  predicate SameBits(x: int, raw: nat, half: int)
    requires half > 0
  {
    -half <= x < half && (raw - x) % (2 * half) == 0
  }

  lemma SignedBitsIs(x: nat, half: int)
    requires half > 0
    ensures SameBits(SignedBits(x, 2 * half), x, half)
  {
    var q, m := x / (2 * half), x % (2 * half);
    assert x - m == q * (2 * half);
    ModUnique(2 * half, q, 0, x - m);
    if m >= half { ModUnique(2 * half, q + 1, 0, x - m + 2 * half); }
  }

  /** From the first byte that is no space: prefix, digits, spaces. */
  lemma Shown(prefix: seq<byte>, all: seq<byte>, flags: Flags, width: int, base: nat) returns (tail: seq<byte>)
    requires all != [] && (base == 10 || base == 16) && AllDigits(all, base) && (prefix == [] || prefix[0] != SPACE)
    ensures Skip(Pad(prefix + all, flags, width)) == prefix + (all + tail) && Spaced(tail)
    ensures Leading(all + tail, base) == |all|
  {
    var n := PadIs(prefix + all, flags, width);
    var body := prefix + all;
    assert IsDigit(all[0], base);
    assert body[0] == if prefix == [] then all[0] else prefix[0];
    SkipSpaces(n, body);
    SkipNone(body);
    tail := if flags.left then Repeat(SPACE, n) else [];
    SkipNone(body + tail);
    assert body + tail == prefix + (all + tail);
    assert body + [] == body;
    LeadingDigits(all, tail, base);
    hide Skip, Leading, ReadDigits, Pad;
  }

  /** What the format of one part prints. */
  function Printed(item: Item): seq<byte>
    requires GoodItem(item)
  {
    ItemPrinted(item);
    Output(Written(item), ItemArgs(item))
  }

  /** "%d" with any flags, width and precision prints a number that reads
      back as the signed 32-bit value of its argument, with 'l' or 'z' as the
      64-bit value, with the sign that its flags ask for. */
  lemma SignedPrinted(item: Item)
    requires GoodItem(item) && item.Directed? && item.conv == 100
    ensures
      var out, half: int := Printed(item), if item.length == [] then 0x8000_0000 else 0x8000_0000_0000_0000;
      var x, t := ReadNumber(out), Skip(out);
      SameBits(x, item.arg.raw, half) && |out| >= Wide(item)
      && t != [] && (t[0] == MINUS <==> x < 0) && (t[0] == PLUS <==> x >= 0 && 43 in item.flags)
      && var digits := Leading(if t[0] in {MINUS, PLUS} then t[1..] else t, 10);
         digits >= Precise(item)
         && (48 in item.flags && 45 !in item.flags && Precise(item) < 0 ==>
               digits + (if x < 0 || 43 in item.flags || 32 in item.flags then 1 else 0) >= Wide(item))
  {
    var half: int := if item.length == [] then 0x8000_0000 else 0x8000_0000_0000_0000;
    var x, flags, width, precision :=
      SignedBits(item.arg.raw, 2 * half), FlagsOf(item.flags), Wide(item), Precise(item);
    SignedMeans(item);
    PrintedIs(item);
    assert flags == Flags(35 in item.flags, 48 in item.flags, 45 in item.flags, 32 in item.flags, 43 in item.flags);
    hide *;
    SignedBitsIs(item.arg.raw, half);
    SignedRoundTrip(x, flags, width, precision);
    SignShown(x, flags, width, precision);
  }

  lemma SignedMeans(item: Item)
    requires GoodItem(item) && item.Directed? && item.conv == 100
    ensures
      var half: int := if item.length == [] then 0x8000_0000 else 0x8000_0000_0000_0000;
      var d := Signed(SignedBits(item.arg.raw, 2 * half), FlagsOf(item.flags), Wide(item), Precise(item));
      Meaning(item) == Some(d) && var ok := DirectiveOK(d); ok
  {
    hide SignedBits, FlagsOf, Wide, Precise, Value, Count.Meaning;
  }

  lemma PrintedIs(item: Item)
    requires GoodItem(item)
    ensures Printed(item) == if Meaning(item).Some? then Formatted(Meaning(item).value) else []
  {
    ItemPrinted(item);
    hide Meaning, Formatted, Written, ItemArgs, Parse;
  }

  lemma SignShown(x: int, flags: Flags, width: int, precision: int)
    requires DirectiveOK(Signed(x, flags, width, precision))
    ensures var out := Formatted(Signed(x, flags, width, precision)); var t := Skip(out);
      t != [] && (t[0] == MINUS <==> x < 0) && (t[0] == PLUS <==> x >= 0 && flags.plus) && |out| >= width
      && var digits := Leading(if t[0] in {MINUS, PLUS} then t[1..] else t, 10);
         digits >= precision
         && (flags.zero && !flags.left && precision < 0 ==>
               digits + (if x < 0 || flags.plus || flags.space then 1 else 0) >= width)
  {
    hide NumberField, DigitsOf, Value, Pad, Skip, Leading;
    var num, prefix := if x < 0 then -x else x, Sign(x, flags);
    DigitsShape(num, 10, false);
    var all := FieldIs(prefix, DigitsOf(num, 10, false), flags, width, precision, 10);
    PadContents(prefix + all, flags, width);
    assert IsDigit(all[0], 10);
    if prefix == [SPACE] {
      var tail := SpaceShown(all, flags, width);
      assert (all + tail)[0] == all[0];
    } else {
      var tail := Shown(prefix, all, flags, width, 10);
      assert (all + tail)[0] == all[0] && prefix + (all + tail) != [];
      if prefix == [] { assert prefix + (all + tail) == all + tail; }
      else { assert (prefix + (all + tail))[1..] == all + tail; }
    }
  }

  /** A space for a sign is skipped too. */
  lemma SpaceShown(all: seq<byte>, flags: Flags, width: int) returns (tail: seq<byte>)
    requires all != [] && AllDigits(all, 10)
    ensures Skip(Pad([SPACE] + all, flags, width)) == all + tail && Spaced(tail)
    ensures Leading(all + tail, 10) == |all|
  {
    var body := [SPACE] + all;
    var n := PadIs(body, flags, width);
    assert IsDigit(all[0], 10) && body[1..] == all && all + [] == all;
    tail := if flags.left then Repeat(SPACE, n) else [];
    SkipSpaces(n, body);
    SkipNone(all);
    SkipNone(all + tail);
    assert (body + tail)[1..] == all + tail;
    LeadingDigits(all, tail, 10);
    hide Leading, ReadDigits, Pad;
  }

  /** The base of a conversion of an unsigned number. */
  function Radix10(conv: byte): nat { if conv == 117 then 10 else 16 }

  /** "%u", "%x", "%X" and "%p" with any flags, width and precision print a
      number that reads back as the low 32 bits of the argument, with 'l' or
      'z' and for a pointer as all 64; capitals are for 'X' only; and "0x" or
      "0X" is there for a pointer, and in base 16 when '#' asks for it and the
      number is not 0. */
  lemma UnsignedPrinted(item: Item)
    requires GoodItem(item) && item.Directed? && item.conv in {117, 120, 88, 112}
    ensures
      var out, num := Printed(item), if item.length == [] && item.conv != 112 then LowBits(item.arg.raw, 0x1_0000_0000)
        else LowBits(item.arg.raw, WORD);
      var t := Skip(out);
      ReadUnsigned(out, Radix10(item.conv)) == num && |out| >= Wide(item)
      && (forall c :: c in out ==> c == SPACE || InDigits(c, item.conv))
      && var prefixed := |t| > 1 && t[0] == ZERO && t[1] == if item.conv == 88 then 88 else 120;
         (prefixed <==> item.conv == 112 || (item.conv != 117 && 35 in item.flags && num != 0))
         && var digits := Leading(if prefixed then t[2..] else t, Radix10(item.conv));
            digits >= Precise(item)
            && (48 in item.flags && 45 !in item.flags && Precise(item) < 0 ==>
                  digits + (if prefixed then 2 else 0) >= Wide(item))
  {
    var pointer, base := item.conv == 112, if item.conv == 117 then 10 else if item.conv == 88 then 16 else -16;
    var num := if item.length == [] && !pointer then LowBits(item.arg.raw, 0x1_0000_0000)
      else LowBits(item.arg.raw, WORD);
    var flags, width, precision := FlagsOf(item.flags), Wide(item), Precise(item);
    UnsignedMeans(item);
    PrintedIs(item);
    assert flags == Flags(35 in item.flags, 48 in item.flags, 45 in item.flags, 32 in item.flags, 43 in item.flags);
    hide *;
    UnsignedRoundTrip(num, base, pointer, flags, width, precision);
    PrefixShown(num, base, pointer, flags, width, precision);
  }

  function LowBits(raw: nat, range: nat): nat
    requires range > 0
  {
    raw % range
  }

  /** The bytes of a number: digits, small or capital, and the letter of the
      prefix. */
  predicate InDigits(c: byte, conv: byte) {
    48 <= c <= 57
    || (conv == 88 && (65 <= c <= 70 || c == 88))
    || (conv in {120, 112} && (97 <= c <= 102 || c == 120))
  }

  lemma UnsignedMeans(item: Item)
    requires GoodItem(item) && item.Directed? && item.conv in {117, 120, 88, 112}
    ensures
      var pointer, base := item.conv == 112, if item.conv == 117 then 10 else if item.conv == 88 then 16 else -16;
      var num := if item.length == [] && !pointer then LowBits(item.arg.raw, 0x1_0000_0000)
        else LowBits(item.arg.raw, WORD);
      var d := Unsigned(num, base, pointer, FlagsOf(item.flags), Wide(item), Precise(item));
      Meaning(item) == Some(d) && var ok := DirectiveOK(d); ok && Base(base) == Radix10(item.conv)
  {
    hide FlagsOf, Wide, Precise, Value, Count.Meaning;
  }

  lemma PrefixShown(num: nat, base: int, pointer: bool, flags: Flags, width: int, precision: int)
    requires DirectiveOK(Unsigned(num, base, pointer, flags, width, precision))
    ensures var out := Formatted(Unsigned(num, base, pointer, flags, width, precision)); var t := Skip(out);
      |out| >= width
      && (forall c :: c in out ==>
            c == SPACE || 48 <= c <= 57 || (base == 16 && (65 <= c <= 70 || c == 88))
            || (base == -16 && (97 <= c <= 102 || c == 120)))
      && var prefixed := |t| > 1 && t[0] == ZERO && t[1] == if base == 16 then 88 else 120;
         (prefixed <==> pointer || (base != 10 && flags.alt && num != 0))
         && var digits := Leading(if prefixed then t[2..] else t, Base(base));
            digits >= precision
            && (flags.zero && !flags.left && precision < 0 ==> digits + (if prefixed then 2 else 0) >= width)
  {
    hide NumberField, DigitsOf, Value, Pad, Skip, Leading;
    var prefix, digits := Radix(num, base, pointer, flags), DigitsOf(num, Base(base), base < 0);
    DigitsShape(num, Base(base), base < 0);
    DigitsCase(num, Base(base), base < 0);
    var all := FieldIs(prefix, digits, flags, width, precision, Base(base));
    PadContents(prefix + all, flags, width);
    var tail := Shown(prefix, all, flags, width, Base(base));
    var t := prefix + (all + tail);
    if prefix == [] {
      assert t == all + tail;
      assert |t| > 1 ==> t[1] == SPACE || t[1] in all;
    } else {
      assert t[2..] == all + tail && t[0] == prefix[0] && t[1] == prefix[1];
    }
  }

  /** Digits are small or capital as asked for. */
  lemma {:induction false} DigitsCase(num: nat, base: nat, lower: bool)
    requires base == 10 || base == 16
    ensures forall c :: c in DigitsOf(num, base, lower) ==>
      48 <= c <= 57 || (base == 16 && if lower then 97 <= c <= 102 else 65 <= c <= 70)
  {
    if num >= base { DigitsCase(num / base, base, lower); }
  }

  lemma PadContents(body: seq<byte>, flags: Flags, width: int)
    ensures forall c :: c in Pad(body, flags, width) ==> c == SPACE || c in body
    ensures |Pad(body, flags, width)| >= width
  {
  }

  /** The characters of any other directive: the argument's string, its byte,
      or the conversion character itself. */
  function TextOf(item: Item): seq<byte>
    requires GoodItem(item) && item.Directed?
  {
    if item.conv == 115 then item.arg.text
    else if item.conv == 99 then (if item.arg.raw % 256 == 0 then [] else [item.arg.raw % 256])
    else [item.conv]
  }

  /** "%s", "%c" and any other character print the first of their characters,
      as many as the precision allows, with spaces on the one side that the
      flags ask for. */
  lemma TextPrinted(item: Item)
    requires GoodItem(item) && item.Directed? && item.conv !in {100, 117, 120, 88, 112, 67}
    ensures
      var out, text, wide := Printed(item), TextOf(item), Wide(item);
      var n := if Precise(item) >= 0 then Min(Precise(item), |text|) else |text|;
      |out| == (if wide > n then wide else n)
      && if 45 in item.flags then out[..n] == text[..n] && AllSpaces(out[n..])
         else out[|out| - n..] == text[..n] && AllSpaces(out[..|out| - n])
  {
    hide Wide, Precise, Value, Count.Meaning, Written, ItemArgs;
    PrintedIs(item);
    var text, flags := TextOf(item), FlagsOf(item.flags);
    assert Meaning(item) == Some(Text(text, flags, Wide(item), Precise(item)));
    assert flags.left <==> 45 in item.flags;
    TextPadded(text, flags, Wide(item), Precise(item));
  }

  predicate AllSpaces(s: seq<byte>) { forall k :: 0 <= k < |s| ==> s[k] == SPACE }

  lemma TextPadded(text: seq<byte>, flags: Flags, width: int, precision: int)
    ensures
      var out, n := TextField(text, flags, width, precision), if precision >= 0 then Min(precision, |text|) else |text|;
      |out| == (if width > n then width else n)
      && if flags.left then out[..n] == text[..n] && AllSpaces(out[n..])
         else out[|out| - n..] == text[..n] && AllSpaces(out[..|out| - n])
  {
  }

  /** A character outside directives prints itself, and so does a percent
      sign at the end of the format. */
  lemma PlainPrinted(item: Item)
    requires GoodItem(item) && item.Plain?
    ensures Printed(item) == [item.c]
    ensures Parse([PERCENT], []).Some? && Output([PERCENT], []) == [PERCENT]
  {
    PrintedIs(item);
    var d := Text([PERCENT], NO_FLAGS, -1, -1);
    assert TakeDirective([], []) == Some(Step(Some(d), [], []));
    assert [PERCENT][1..] == [] && Parse([], []) == Some([]);
    var none: seq<Directive> := [];
    assert [d] + none == OneOrNone(Some(d));
    OneFormatted(Some(d));
    assert Formatted(d) == [PERCENT] by { assert Repeat(SPACE, -2) == []; }
  }

  /** "%C" prints nothing. */
  lemma ColourPrinted(item: Item)
    requires GoodItem(item) && item.Directed? && item.conv == 67
    ensures Printed(item) == []
  {
    PrintedIs(item);
    hide Wide, Precise, Value, Count.Meaning, Written, ItemArgs;
  }

  // ---------------------------------------------------- reading a format

  /** The loop over the flags. */
  method ReadFlags(format: seq<byte>, start: nat) returns (flags: Flags, i: nat)
    requires start <= |format|
    ensures i <= |format| && (flags, format[i..]) == TakeFlags(format[start..], NO_FLAGS)
  {
    flags, i := NO_FLAGS, start;
    while i < |format| && IsFlag(format[i])
      invariant i <= |format| && TakeFlags(format[start..], NO_FLAGS) == TakeFlags(format[i..], flags)
    {
      assert format[i..][1..] == format[i + 1..];
      flags, i := WithFlag(flags, format[i]), i + 1;
    }
  }

  /** The loops over decimal digits. */
  method ReadNumber10(format: seq<byte>, start: nat) returns (n: nat, i: nat)
    requires start <= |format|
    ensures i <= |format| && (n, format[i..]) == TakeNumber(format[start..], 0)
  {
    n, i := 0, start;
    while i < |format| && IsDecimal(format[i])
      invariant i <= |format| && TakeNumber(format[start..], 0) == TakeNumber(format[i..], n)
    {
      assert format[i..][1..] == format[i + 1..];
      n, i := 10 * n + (format[i] - 48), i + 1;
    }
  }

  method ReadWidth(format: seq<byte>, i: nat, args: seq<Arg>, a: nat) returns (width: int, j: nat, b: nat)
    requires i <= |format| && a <= |args| && TakeWidth(format[i..], args[a..]).Some?
    ensures j <= |format| && b <= |args|
      && TakeWidth(format[i..], args[a..]).value == Scan(width, format[j..], args[b..])
  {
    width, j, b := -1, i, a;
    if i < |format| && IsDecimal(format[i]) && format[i] != ZERO {
      width, j := ReadNumber10(format, i);
    } else if i < |format| && format[i] == STAR {
      width, j, b := IntOf(args[a].raw), i + 1, a + 1;
    }
  }

  method ReadPrecision(format: seq<byte>, i: nat, args: seq<Arg>, a: nat) returns (precision: int, j: nat, b: nat)
    requires i <= |format| && a <= |args| && TakePrecision(format[i..], args[a..]).Some?
    ensures j <= |format| && b <= |args|
      && TakePrecision(format[i..], args[a..]).value == Scan(precision, format[j..], args[b..])
  {
    precision, j, b := -1, i, a;
    if i < |format| && format[i] == DOT {
      assert format[i..][1..] == format[i + 1..];
      j := i + 1;
      if j < |format| && IsDecimal(format[j]) {
        precision, j := ReadNumber10(format, j);
      } else if j < |format| && format[j] == STAR {
        precision, j, b := IntOf(args[a].raw), j + 1, a + 1;
      }
      if precision < 0 { precision := 0; }
    }
  }

  /** The jumps back to `again`. */
  method ReadLength(format: seq<byte>, start: nat) returns (long: bool, i: nat)
    requires start <= |format|
    ensures i <= |format| && (long, format[i..]) == TakeLength(format[start..], false)
  {
    long, i := false, start;
    while i < |format| && (format[i] == 108 || format[i] == 122)
      invariant i <= |format| && TakeLength(format[start..], false) == TakeLength(format[i..], long)
    {
      assert format[i..][1..] == format[i + 1..];
      long, i := true, i + 1;
    }
  }

  /** Flags, width, precision, length and conversion character. */
  method ReadDirective(format: seq<byte>, i: nat, args: seq<Arg>, a: nat) returns (d: Option<Directive>, j: nat, b: nat)
    requires i <= |format| && a <= |args| && TakeDirective(format[i..], args[a..]).Some?
    ensures j <= |format| && b <= |args|
    ensures TakeDirective(format[i..], args[a..]).value == Step(d, format[j..], args[b..])
  {
    hide TakeFlags, TakeWidth, TakePrecision, TakeLength, Conversion, IsFlag;
    var flags, width, precision, long;
    flags, j := ReadFlags(format, i);
    width, j, b := ReadWidth(format, j, args, a);
    precision, j, b := ReadPrecision(format, j, args, b);
    long, j := ReadLength(format, j);
    if j == |format| {
      d := Some(Text([PERCENT], flags, width, precision));
    } else {
      var c := format[j];
      assert format[j..][0] == c && format[j..][1..] == format[j + 1..];
      assert Fits(c, args[b..]);
      d := Conversion(c, if TakesArg(c) then args[b] else Number(0), flags, width, precision, long);
      j := j + 1;
      if TakesArg(c) {
        assert args[b..][1..] == args[b + 1..];
        b := b + 1;
      }
    }
  }

  /** The whole output. */
  function FormattedAll(ds: seq<Directive>): seq<byte>
    requires AllOK(ds)
  {
    if ds == [] then [] else FormattedAll(ds[..|ds| - 1]) + Formatted(ds[|ds| - 1])
  }

  lemma ParseNext(f: seq<byte>, args: seq<Arg>)
    requires f != [] && Parse(f, args).Some?
    ensures f[0] != PERCENT ==>
      Parse(f[1..], args).Some? && Parse(f, args).value == [Char(f[0])] + Parse(f[1..], args).value
    ensures f[0] == PERCENT ==>
      TakeDirective(f[1..], args).Some?
      && var step := TakeDirective(f[1..], args).value;
         Parse(step.rest, step.args).Some?
         && Parse(f, args).value == (if step.d.Some? then [step.d.value] else []) + Parse(step.rest, step.args).value
  {
    hide TakeDirective;
  }

  lemma ShorterRest(format: seq<byte>, i: nat, j: nat, args: seq<Arg>, a: nat)
    requires i <= |format| && j <= |format| && a <= |args|
    requires TakeDirective(format[i..], args[a..]).Some?
      && TakeDirective(format[i..], args[a..]).value.rest == format[j..]
    ensures i <= j && (TakeDirective(format[i..], args[a..]).value.d.Some? ==>
      DirectiveOK(TakeDirective(format[i..], args[a..]).value.d.value))
  {
    assert |format[j..]| <= |format[i..]|;
  }

  /** `next` is what one round prints, at most one directive; `more` follows. */
  lemma OneMoreDirective(done: seq<Directive>, next: Option<Directive>, more: seq<Directive>, start: seq<byte>)
    requires AllOK(done) && (next.Some? ==> DirectiveOK(next.value))
    ensures
      var d := if next.Some? then [next.value] else [];
      AllOK(done + d) && done + (d + more) == (done + d) + more
      && start + FormattedAll(done + d)
           == start + FormattedAll(done) + (if next.Some? then Formatted(next.value) else [])
    ensures next.Some? && next.value.Char? ==> Formatted(next.value) == [next.value.c]
  {
    hide Formatted, DirectiveOK;
    if next.Some? {
      Snoc(done, next.value);
      hide FormattedAll, AllOK;
      assert done + ([next.value] + more) == (done + [next.value]) + more;
    } else {
      hide FormattedAll, AllOK;
      assert done + [] == done && start + FormattedAll(done) + [] == start + FormattedAll(done) && [] + more == more;
    }
    CharFormatted(next);
  }

  lemma CharFormatted(next: Option<Directive>)
    ensures next.Some? && next.value.Char? ==> Formatted(next.value) == [next.value.c]
  {
  }

  lemma Snoc(done: seq<Directive>, d: Directive)
    requires AllOK(done) && DirectiveOK(d)
    ensures AllOK(done + [d]) && FormattedAll(done + [d]) == FormattedAll(done) + Formatted(d)
  {
    assert (done + [d])[..|done|] == done;
    hide Formatted, DirectiveOK;
  }

  // -------------------------------------------------------------- printing

  /** `string_printer`: `full` is everything printed, stored or not. */
  class StringPrinter {
    const s: array<byte>
    const end: nat
    var pos: nat
    ghost var full: seq<byte>

    constructor (s: array<byte>, end: nat)
      requires end < s.Length
      ensures this.s == s && this.end == end && Valid() && full == []
    {
      this.s, this.end, pos, full := s, end, 0, [];
    }

    /** What is stored is the beginning of what was printed. */
    ghost predicate Valid()
      reads this, s
    {
      end < s.Length && pos == Min(end, |full|) && s[..pos] == full[..pos]
    }

    /** `string_putc` */
    method Putc(c: byte)
      requires Valid()
      modifies this, s
      ensures Valid() && full == old(full) + [c]
    {
      if pos < end {
        s[pos] := c;
        pos := pos + 1;
      }
      full := full + [c];
      assert full[..pos] == if pos == |full| then full else old(full)[..pos];
    }

    /** A loop that puts the same character `n` times. */
    method PutRepeat(c: byte, n: int)
      requires Valid()
      modifies this, s
      ensures Valid() && full == old(full) + Repeat(c, n)
    {
      var k := 0;
      while k < n
        invariant Valid() && 0 <= k && (k <= n || k == 0) && full == old(full) + Repeat(c, k)
      {
        Putc(c);
        assert Repeat(c, k) + [c] == Repeat(c, k + 1);
        k := k + 1;
      }
      assert Repeat(c, n) == Repeat(c, k);
    }

    /** A loop that puts the first `n` characters of `data`. */
    method PutAll(data: seq<byte>)
      requires Valid()
      modifies this, s
      ensures Valid() && full == old(full) + data
    {
      for k := 0 to |data|
        invariant Valid() && full == old(full) + data[..k]
      {
        Putc(data[k]);
        assert data[..k] + [data[k]] == data[..k + 1];
      }
      assert data[..|data|] == data;
    }

    /** The end of a conversion in `printer_vprintf`: spaces, prefix, zeros,
        characters, spaces. */
    method PutField(prefix: seq<byte>, zeros: nat, data: seq<byte>, flags: Flags, width0: int)
      requires Valid()
      modifies this, s
      ensures Valid() && full == old(full) + Pad(prefix + Repeat(ZERO, zeros) + data, flags, width0)
    {
      var width := width0 - (|data| + zeros + |prefix|);
      ghost var start, before := full, if flags.left then [] else Repeat(SPACE, width);
      if !flags.left {
        PutRepeat(SPACE, width);
        width := 0;
      }
      hide *;
      PutAll(prefix);
      PutRepeat(ZERO, zeros);
      PutAll(data);
      PutRepeat(SPACE, width);
      Regroup(start, before, prefix, Repeat(ZERO, zeros), data, Repeat(SPACE, width));
    }

    /** A directive of `printer_vprintf`, once it is parsed. */
    method Print(d: Directive)
      requires Valid() && DirectiveOK(d)
      modifies this, s
      ensures Valid() && full == old(full) + Formatted(d)
    {
      match d {
        case Char(c) => Putc(c);
        case Text(data, flags, width, precision) =>
          assert [] + Repeat(ZERO, 0) == [];
          var len := if precision >= 0 then Min(precision, |data|) else |data|;
          assert data[..|data|] == data && [] + Repeat(ZERO, 0) + data[..len] == data[..len];
          PutField([], 0, data[..len], flags, width);
        case Signed(x, flags, width, precision) =>
          PutNumber(Sign(x, flags), if x < 0 then -x else x, 10, flags, width, precision);
        case Unsigned(num, base, pointer, flags, width, precision) =>
          PutNumber(Radix(num, base, pointer, flags), num, base, flags, width, precision);
      }
    }

    /** One round of `printer_vprintf`: the directive behind the '%' at
        `i - 1`, with the arguments from `a` on. */
    method PrintDirective(format: seq<byte>, i: nat, args: seq<Arg>, a: nat) returns (j: nat, b: nat)
      requires Valid() && i <= |format| && a <= |args| && TakeDirective(format[i..], args[a..]).Some?
      modifies this, s
      ensures Valid() && j <= |format| && b <= |args|
      ensures var step := TakeDirective(format[i..], args[a..]).value;
        format[j..] == step.rest && args[b..] == step.args
        && full == old(full) + (if step.d.Some? then Formatted(step.d.value) else [])
    {
      var step;
      step, j, b := ReadDirective(format, i, args, a);
      hide TakeDirective;
      if step.Some? { Print(step.value); } else { assert full + [] == full; }
    }

    /** Between two rounds of `printer_vprintf`: `done` is printed and the rest
        of `all` is still to be read. */
    ghost predicate Printing(format: seq<byte>, i: nat, args: seq<Arg>, a: nat, done: seq<Directive>, start: seq<byte>,
                             all: seq<Directive>)
      reads this, s
    {
      Valid() && i <= |format| && a <= |args| && AllOK(done) && full == start + FormattedAll(done)
      && Parse(format[i..], args[a..]).Some? && all == done + Parse(format[i..], args[a..]).value
    }

    /** One round of `printer_vprintf`. */
    method PrintNext(format: seq<byte>, i: nat, args: seq<Arg>, a: nat, ghost done: seq<Directive>,
                     ghost start: seq<byte>, ghost all: seq<Directive>)
        returns (j: nat, b: nat, ghost done': seq<Directive>)
      requires i < |format| && Printing(format, i, args, a, done, start, all)
      modifies this, s
      ensures i < j <= |format| && Printing(format, j, args, b, done', start, all)
    {
      ParseNext(format[i..], args[a..]);
      assert format[i..][0] == format[i] && format[i..][1..] == format[i + 1..];
      hide TakeDirective, Formatted, FormattedAll, DirectiveOK, AllOK, Parse;
      ghost var next;
      if format[i] != PERCENT {
        next := Some(Char(format[i]));
        Putc(format[i]);
        j, b := i + 1, a;
      } else {
        next := TakeDirective(format[i + 1..], args[a..]).value.d;
        j, b := PrintDirective(format, i + 1, args, a);
        ShorterRest(format, i + 1, j, args, a);
      }
      OneMoreDirective(done, next, Parse(format[j..], args[b..]).value, start);
      done' := done + (if next.Some? then [next.value] else []);
    }

    /** `printer_vprintf` */
    method Vprintf(format: seq<byte>, args: seq<Arg>)
      requires Valid() && Parse(format, args).Some?
      modifies this, s
      ensures Valid() && full == old(full) + Output(format, args)
    {
      var i, a := 0, 0;
      ghost var done: seq<Directive> := [];
      ghost var start, all := full, Parse(format, args).value;
      assert format[0..] == format && args[0..] == args && start + FormattedAll([]) == start && [] + all == all;
      while i < |format|
        invariant Printing(format, i, args, a, done, start, all)
        decreases |format| - i
      {
        hide *;
        i, a, done := PrintNext(format, i, args, a, done, start, all);
      }
      assert format[i..] == [] && done + [] == done;
    }

    /** A numeric conversion. */
    method PutNumber(prefix: seq<byte>, num: nat, base: int, flags: Flags, width: int, precision: int)
      requires Valid() && num < WORD && base in {10, 16, -16}
      modifies this, s
      ensures Valid() && full == old(full)
        + NumberField(prefix, DigitsOf(num, Base(base), base < 0), flags, width, precision)
    {
      var numbuf := new byte[NUMBUFSIZ];
      var start := FillNumbuf(numbuf, num, base);
      var digits := numbuf[start..NUMBUFSIZ - 1];
      PutField(prefix, Zeroes(flags, width, precision, |digits|, |prefix|), digits, flags, width);
    }
  }

  lemma Regroup(a: seq<byte>, b: seq<byte>, p: seq<byte>, z: seq<byte>, d: seq<byte>, e: seq<byte>)
    ensures a + b + p + z + d + e == a + (b + (p + z + d) + e)
  {
  }

  /** `vsnprintf`: a buffer that is not empty gets the beginning of the whole
      output and a NUL. */
  method Vsnprintf(s: array<byte>, size: nat, format: seq<byte>, args: seq<Arg>) returns (n: nat)
    requires size <= s.Length && Parse(format, args).Some?
    modifies s
    ensures size == 0 ==> n == 0 && s[..] == old(s[..])
    ensures size > 0 ==>
      var all := Output(format, args);
      n == Min(size - 1, |all|) && s[..n] == all[..n] && s[n] == 0
  {
    n := 0;
    if size != 0 {
      var p := new StringPrinter(s, size - 1);
      assert [] + FormattedAll(Parse(format, args).value) == FormattedAll(Parse(format, args).value);
      hide Parse, FormattedAll;
      p.Vprintf(format, args);
      s[p.pos] := 0;
      n := p.pos;
    }
  }
}
