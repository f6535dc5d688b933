/** One line of a memory trace, split into its fields and checked the way
    `processTraceFile` does it (csim.c:135-141). The two numeric fields are
    read with `strtoul`, modelled here after section 7.22.1.4 of ISO/IEC
    9899:2011 for the bases 2 to 36, with a 64-bit `unsigned long`. */
module TraceLine {

  /** `ULONG_MAX` for a 64-bit `unsigned long`. */
  const ULONG_MAX: nat := 0xFFFF_FFFF_FFFF_FFFF

  /** The character at position `i` of the C string whose characters before
      the terminating NUL are `s`; every position from `|s|` on reads as the
      terminator. */
  function At(s: seq<char>, i: nat): char {
    if i < |s| then s[i] else '\0'
  }

  /** `isspace` in the "C" locale: space, and tab through carriage return. */
  predicate IsSpace(c: char) {
    c == ' ' || '\t' <= c <= '\r'
  }

  /** The value of `c` as a digit: `0`-`9` are 0-9 and the letters of either
      case are 10-35; anything else is 36, a digit in no base. */
  function DigitValue(c: char): (d: nat)
    ensures d <= 36
    ensures d < 10 <==> '0' <= c <= '9'
  {
    if '0' <= c <= '9' then c as int - '0' as int
    else if 'a' <= c <= 'z' then c as int - 'a' as int + 10
    else if 'A' <= c <= 'Z' then c as int - 'A' as int + 10
    else 36
  }

  predicate IsDigit(c: char, base: nat) {
    DigitValue(c) < base
  }

  /** The value of the numeral `ds` in `base`, most significant digit first. */
  function NumeralValue(ds: seq<char>, base: nat): nat {
    if ds == [] then 0
    else NumeralValue(ds[..|ds| - 1], base) * base + DigitValue(ds[|ds| - 1])
  }

  /** The end of the maximal run of `base` digits that starts at `i`. */
  function DigitsEnd(s: seq<char>, i: nat, base: nat): (e: nat)
    requires base <= 36
    decreases |s| - i
    ensures i <= e && (i < e ==> e <= |s|)
    ensures forall j :: i <= j < e ==> IsDigit(s[j], base)
    ensures !IsDigit(At(s, e), base)
  {
    if i < |s| && IsDigit(s[i], base) then DigitsEnd(s, i + 1, base) else i
  }

  /** The first position at or after `i` that is not white space. */
  function SkipSpace(s: seq<char>, i: nat): (e: nat)
    decreases |s| - i
    ensures i <= e && (i < e ==> e <= |s|)
    ensures forall j :: i <= j < e ==> IsSpace(s[j])
    ensures !IsSpace(At(s, e))
  {
    if i < |s| && IsSpace(s[i]) then SkipSpace(s, i + 1) else i
  }

  /** Whether `s` holds the prefix `0x` or `0X` at `i`, followed by a
      hexadecimal digit, so that `strtoul` in base 16 skips it. */
  predicate HexPrefixAt(s: seq<char>, i: nat) {
    At(s, i) == '0' && (At(s, i + 1) == 'x' || At(s, i + 1) == 'X') && IsDigit(At(s, i + 2), 16)
  }

  /** What `strtoul` returns and where it leaves its end pointer. */
  datatype Conversion = Conversion(value: nat, end: nat)

  /** `strtoul(s + start, &end, base)`: skips white space, takes an optional
      sign and, in base 16, an optional `0x` prefix, then the longest run of
      digits. Without any digit it converts nothing: the value is 0 and the
      end pointer is `start` itself. A value above `ULONG_MAX` saturates to
      it; a minus sign negates in unsigned arithmetic. */
  function StrToUL(s: seq<char>, start: nat, base: nat): (r: Conversion)
    requires 2 <= base <= 36
    ensures r.value <= ULONG_MAX
    ensures r.end == start || start < r.end <= |s|
  {
    var i := SkipSpace(s, start);
    var negative := At(s, i) == '-';
    var j := if negative || At(s, i) == '+' then i + 1 else i;
    var k := if base == 16 && HexPrefixAt(s, j) then j + 2 else j;
    var e := DigitsEnd(s, k, base);
    if e == k then Conversion(0, start)
    else
      var v := NumeralValue(s[k..e], base);
      var value :=
        if v > ULONG_MAX then ULONG_MAX
        else if negative then (ULONG_MAX + 1 - v) % (ULONG_MAX + 1)
        else v;
      Conversion(value, e)
  }

  /** `v`, or `ULONG_MAX` when `v` does not fit. */
  function Saturate(v: nat): (r: nat)
    ensures r <= ULONG_MAX && (v <= ULONG_MAX ==> r == v)
    ensures v > ULONG_MAX ==> r == ULONG_MAX
  {
    if v > ULONG_MAX then ULONG_MAX else v
  }

  /** Two maximal digit runs from the same position end at the same place. */
  lemma DigitsEndIs(s: seq<char>, i: nat, e: nat, base: nat)
    requires base <= 36
    requires i <= e <= |s| || e == i
    requires forall j :: i <= j < e ==> IsDigit(s[j], base)
    requires !IsDigit(At(s, e), base)
    ensures DigitsEnd(s, i, base) == e
  {
  }

  /** The plain case: a run of digits right at `start`, with no sign, no
      white space and no `0x` prefix before it, converts to its value
      (saturated) and leaves the end pointer just after the run. */
  lemma StrToULDigitRun(s: seq<char>, start: nat, e: nat, base: nat)
    requires 2 <= base <= 36
    requires start < e <= |s|
    requires forall j :: start <= j < e ==> IsDigit(s[j], base)
    requires !IsDigit(At(s, e), base)
    requires base == 16 ==> !HexPrefixAt(s, start)
    ensures StrToUL(s, start, base) == Conversion(Saturate(NumeralValue(s[start..e], base)), e)
  {
    assert IsDigit(s[start], base);
    assert SkipSpace(s, start) == start;
    DigitsEndIs(s, start, e, base);
  }

  /** Nothing that can begin a number after the white space at `start`:
      the value is 0 and the end pointer stays at `start`, before the white
      space. */
  lemma StrToULNoDigits(s: seq<char>, start: nat, base: nat)
    requires 2 <= base <= 36
    requires var i := SkipSpace(s, start);
      At(s, i) != '+' && At(s, i) != '-' && !IsDigit(At(s, i), base)
    ensures StrToUL(s, start, base) == Conversion(0, start)
  {
    assert !HexPrefixAt(s, SkipSpace(s, start));
  }

  /** The fields of one trace line: the operation letter, the address, the
      access size, and whether the line is reported as malformed. */
  datatype Fields = Fields(op: char, address: nat, size: nat, flagged: bool)

  /** The split and check of csim.c:135-141. The letter is character 0; the
      address is read in base 16 from position 2 and its end pointer is
      `left`; the size is read in base 10 from `left + 1`; the line is
      flagged when the letter is neither `S` nor `L` or when `left` is not at
      a comma. C requires two characters before index 2 can be addressed. */
  function ParseLine(line: seq<char>): (f: Fields)
    requires |line| >= 2
    ensures f.op == line[0]
    ensures f.address <= ULONG_MAX && f.size <= ULONG_MAX
  {
    var address := StrToUL(line, 2, 16);
    var left := address.end;
    var size := StrToUL(line, left + 1, 10);
    Fields(line[0], address.value, size.value, (line[0] != 'S' && line[0] != 'L') || At(line, left) != ',')
  }

  /** A line whose address is a plain hexadecimal run `line[2..k]` and
      whose size is a plain decimal run `line[k + 1..m]`: the address and
      size are the values of those runs, and the line is flagged exactly
      when the letter is neither `S` nor `L` or the character after the
      address is not a comma. */
  lemma ParseLineRuns(line: seq<char>, k: nat, m: nat)
    requires 2 < k && k + 1 < m <= |line|
    requires forall j :: 2 <= j < k ==> IsDigit(line[j], 16)
    requires !IsDigit(At(line, k), 16) && !HexPrefixAt(line, 2)
    requires forall j :: k + 1 <= j < m ==> IsDigit(line[j], 10)
    requires !IsDigit(At(line, m), 10)
    ensures ParseLine(line).address == Saturate(NumeralValue(line[2..k], 16))
    ensures ParseLine(line).size == Saturate(NumeralValue(line[k + 1..m], 10))
    ensures ParseLine(line).flagged <==> (line[0] != 'S' && line[0] != 'L') || line[k] != ','
  {
    StrToULDigitRun(line, 2, k, 16);
    StrToULDigitRun(line, k + 1, m, 10);
  }

  /** A line with no address digits after the white space at index 2: the
      address is 0, `left` stays at index 2, and the line is flagged exactly
      when the letter is wrong or index 2 does not hold a comma. */
  lemma ParseLineNoAddress(line: seq<char>)
    requires |line| >= 2
    requires var i := SkipSpace(line, 2);
      At(line, i) != '+' && At(line, i) != '-' && !IsDigit(At(line, i), 16)
    ensures ParseLine(line).address == 0
    ensures ParseLine(line).size == StrToUL(line, 3, 10).value
    ensures ParseLine(line).flagged <==> (line[0] != 'S' && line[0] != 'L') || At(line, 2) != ','
  {
    StrToULNoDigits(line, 2, 16);
  }

  /** `"L  ,5"`: white space but no digits at index 2, so the address is
      0, `left` stays on the second space, the size is read from the comma
      after it and is 0, and the line is flagged. */
  lemma SpaceBeforeAddressFlagged()
    ensures ParseLine("L  ,5") == Fields('L', 0, 0, true)
  {
    var line := "L  ,5";
    assert SkipSpace(line, 2) == 3;
    ParseLineNoAddress(line);
    StrToULNoDigits(line, 3, 10);
  }

  /** A line whose address is a plain hexadecimal run `line[2..k]` and
      whose size field holds no digits: the size is 0, and the line is
      flagged exactly when the letter is neither `S` nor `L` or the
      character after the address is not a comma. */
  lemma ParseLineNoSize(line: seq<char>, k: nat)
    requires 2 < k <= |line|
    requires forall j :: 2 <= j < k ==> IsDigit(line[j], 16)
    requires !IsDigit(At(line, k), 16) && !HexPrefixAt(line, 2)
    requires var i := SkipSpace(line, k + 1);
      At(line, i) != '+' && At(line, i) != '-' && !IsDigit(At(line, i), 10)
    ensures ParseLine(line).address == Saturate(NumeralValue(line[2..k], 16))
    ensures ParseLine(line).size == 0
    ensures ParseLine(line).flagged <==> (line[0] != 'S' && line[0] != 'L') || At(line, k) != ','
  {
    StrToULDigitRun(line, 2, k, 16);
    StrToULNoDigits(line, k + 1, 10);
  }

  /** `"L 10,\n"`: the size field is empty, so the size is 0, and the line
      is not flagged. */
  lemma EmptySizeAccepted()
    ensures ParseLine("L 10,\n") == Fields('L', 16, 0, false)
  {
    var line := "L 10,\n";
    assert line[2..4] == "10" && NumeralValue("10", 16) == 16;
    assert SkipSpace(line, 5) == 6;
    ParseLineNoSize(line, 4);
  }

  /** `"L ,5"`: no address digits, so the address is 0 and, since the end
      pointer stays on the comma, the line is not flagged. */
  lemma EmptyAddressAccepted()
    ensures ParseLine("L ,5") == Fields('L', 0, 5, false)
  {
    var line := "L ,5";
    StrToULNoDigits(line, 2, 16);
    StrToULDigitRun(line, 3, 4, 10);
    assert line[3..4] == "5";
  }

  /** `"L -1,4"`: `strtoul` accepts a sign, so the address is -1 negated in
      unsigned arithmetic, `ULONG_MAX`, and the line is not flagged. */
  lemma NegativeAddressAccepted()
    ensures ParseLine("L -1,4") == Fields('L', ULONG_MAX, 4, false)
  {
    var line := "L -1,4";
    assert SkipSpace(line, 2) == 2;
    DigitsEndIs(line, 3, 4, 16);
    assert line[3..4] == "1" && !HexPrefixAt(line, 3);
    assert NumeralValue("1", 16) == 1;
    assert StrToUL(line, 2, 16) == Conversion(ULONG_MAX, 4);
    StrToULDigitRun(line, 5, 6, 10);
    assert line[5..6] == "4";
  }

  /** The digit for `d` in the lower-case alphabet. */
  function DigitChar(d: nat): (c: char)
    requires d < 36
    ensures DigitValue(c) == d
  {
    if d < 10 then ('0' as int + d) as char else ('a' as int + d - 10) as char
  }

  /** The shortest numeral for `v` in `base`, as a trace writer prints it. */
  function Numeral(v: nat, base: nat): (ds: seq<char>)
    requires 2 <= base <= 36
    ensures |ds| > 0
    ensures forall j :: 0 <= j < |ds| ==> IsDigit(ds[j], base)
    decreases v
  {
    if v < base then [DigitChar(v)]
    else
      DivMod(v, base);
      Numeral(v / base, base) + [DigitChar(v % base)]
  }

  /** Euclidean division of `v` by `base`, for a `v` of at least one digit
      more than `base`. */
  lemma DivMod(v: nat, base: nat)
    requires 2 <= base <= v
    ensures v / base < v && v % base < base
    ensures v == v / base * base + v % base
  {
  }

  /** Reading back a printed numeral gives the number. */
  lemma {:induction false} NumeralRoundTrip(v: nat, base: nat)
    requires 2 <= base <= 36
    ensures NumeralValue(Numeral(v, base), base) == v
  {
    if v >= base {
      DivMod(v, base);
      var ds := Numeral(v, base);
      assert ds == Numeral(v / base, base) + [DigitChar(v % base)];
      assert ds[..|ds| - 1] == Numeral(v / base, base);
      NumeralRoundTrip(v / base, base);
      calc {
        NumeralValue(ds, base);
        NumeralValue(Numeral(v / base, base), base) * base + DigitValue(DigitChar(v % base));
        v / base * base + v % base;
      }
    }
  }

  /** The trace line `op address,size` with the address in hexadecimal and
      the size in decimal. */
  function FormatLine(op: char, address: nat, size: nat): seq<char> {
    [op, ' '] + Numeral(address, 16) + [','] + Numeral(size, 10)
  }

  /** Where the pieces of `op ' ' hex ',' dec rest` sit. */
  lemma Layout(op: char, hex: seq<char>, dec: seq<char>, rest: seq<char>)
    requires hex != []
    ensures var line := [op, ' '] + hex + [','] + dec + rest;
      var k, m := 2 + |hex|, 3 + |hex| + |dec|;
      && |line| == m + |rest| && line[0] == op && line[k] == ','
      && line[2..k] == hex && line[k + 1..m] == dec
      && At(line, m) == (if rest == [] then '\0' else rest[0])
      && At(line, 3) == if |hex| == 1 then ',' else hex[1]
  {
  }

  /** The digits of a numeral stay digits where it sits inside a line. */
  lemma SliceDigits(line: seq<char>, a: nat, b: nat, ds: seq<char>, base: nat)
    requires a <= b <= |line| && line[a..b] == ds
    requires forall j :: 0 <= j < |ds| ==> IsDigit(ds[j], base)
    ensures forall j :: a <= j < b ==> IsDigit(line[j], base)
  {
    forall j | a <= j < b ensures IsDigit(line[j], base) {
      assert line[j] == ds[j - a];
    }
  }

  /** A line `op ' ' hex ',' dec rest` made of a load or store letter, a
      hexadecimal and a decimal numeral, and a `rest` that does not continue
      the size, parses to the letter and the two numerals' values. */
  lemma ParseWellFormed(op: char, hex: seq<char>, dec: seq<char>, rest: seq<char>)
    requires op == 'L' || op == 'S'
    requires hex != [] && forall j :: 0 <= j < |hex| ==> IsDigit(hex[j], 16)
    requires dec != [] && forall j :: 0 <= j < |dec| ==> IsDigit(dec[j], 10)
    requires rest == [] || !IsDigit(rest[0], 10)
    ensures ParseLine([op, ' '] + hex + [','] + dec + rest)
         == Fields(op, Saturate(NumeralValue(hex, 16)), Saturate(NumeralValue(dec, 10)), false)
  {
    var line := [op, ' '] + hex + [','] + dec + rest;
    var k, m := 2 + |hex|, 3 + |hex| + |dec|;
    Layout(op, hex, dec, rest);
    assert !HexPrefixAt(line, 2) by {
      assert At(line, 3) == ',' || IsDigit(hex[1], 16);
    }
    SliceDigits(line, 2, k, hex, 16);
    SliceDigits(line, k + 1, m, dec, 10);
    ParseLineRuns(line, k, m);
  }

  /** Round trip: a load or store line as a trace writer prints it, followed
      by anything that does not continue the size (such as the newline that
      `fgets` keeps), parses back to its letter, address and size and is not
      flagged. */
  lemma ParseFormatLine(op: char, address: nat, size: nat, rest: seq<char>)
    requires op == 'L' || op == 'S'
    requires address <= ULONG_MAX && size <= ULONG_MAX
    requires rest == [] || !IsDigit(rest[0], 10)
    ensures ParseLine(FormatLine(op, address, size) + rest) == Fields(op, address, size, false)
  {
    var hex, dec := Numeral(address, 16), Numeral(size, 10);
    assert FormatLine(op, address, size) + rest == [op, ' '] + hex + [','] + dec + rest;
    ParseWellFormed(op, hex, dec, rest);
    NumeralRoundTrip(address, 16);
    NumeralRoundTrip(size, 10);
  }
}
