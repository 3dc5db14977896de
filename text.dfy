/**
 * The JavaScript string and number primitives the tool handlers rely on:
 * `Number.prototype.toString(16)`, `String.prototype.padStart`, `toUpperCase`,
 * `substring`, `split` with a string separator, `parseInt` and decimal rendering.
 */
module Text {
  import opened Wrappers

  /** One element of a `Uint8Array`. */
  type Byte = b: int | 0 <= b < 256

  // ---------------------------------------------------------------------------
  // Hexadecimal digits

  const LowerHexDigits: string := "0123456789abcdef"

  function HexDigit(n: int): char
    requires 0 <= n < 16
  {
    LowerHexDigits[n]
  }

  predicate IsLowerHexDigit(c: char) {
    '0' <= c <= '9' || 'a' <= c <= 'f'
  }

  /** The value of a hex digit of either case (0 for any other character). */
  function HexDigitValue(c: char): (v: int)
    ensures 0 <= v < 16
  {
    if '0' <= c <= '9' then c as int - '0' as int
    else if 'a' <= c <= 'f' then c as int - 'a' as int + 10
    else if 'A' <= c <= 'F' then c as int - 'A' as int + 10
    else 0
  }

  /** Every digit `HexDigit` produces is a lower-case hex digit that reads back as itself. */
  lemma HexDigitRoundTrip(n: int)
    requires 0 <= n < 16
    ensures IsLowerHexDigit(HexDigit(n)) && HexDigitValue(HexDigit(n)) == n
  {
  }

  /** An upper-cased digit of `HexDigit` still reads back as itself. */
  lemma UpperHexDigitRoundTrip(n: int)
    requires 0 <= n < 16
    ensures HexDigitValue(UpperChar(HexDigit(n))) == n
  {
  }

  /** `n.toString(16)`: lower-case digits, most significant first, no leading zeros. */
  function Radix16(n: nat): string
  {
    if n < 16 then [HexDigit(n)] else Radix16(n / 16) + [HexDigit(n % 16)]
  }

  /** `s.padStart(width, fill)` for a one-character fill string. */
  function PadStart(s: string, width: nat, fill: char): string
  {
    if |s| >= width then s else seq(width - |s|, _ => fill) + s
  }

  /** The value of a string of hex digits, most significant first. */
  function HexDigitsValue(s: string): nat {
    if s == [] then 0 else HexDigitsValue(s[..|s| - 1]) * 16 + HexDigitValue(s[|s| - 1])
  }

  /**
   * `n.toString(16)` is the hex numeral of `n`: lower-case digits worth `n`,
   * without leading zeros, a single digit exactly when `n < 16`.
   */
  lemma {:induction false} Radix16Value(n: nat)
    ensures HexDigitsValue(Radix16(n)) == n
    ensures |Radix16(n)| >= 1 && AllLowerHex(Radix16(n))
    ensures |Radix16(n)| > 1 ==> Radix16(n)[0] != '0'
    ensures |Radix16(n)| == 1 <==> n < 16
  {
    HexDigitRoundTrip(n % 16);
    if n >= 16 {
      Radix16Value(n / 16);
      HexDigitRoundTrip(n / 16 % 16);
      var s := Radix16(n);
      assert s == Radix16(n / 16) + [HexDigit(n % 16)];
      assert s[..|s| - 1] == Radix16(n / 16);
      assert s[0] == Radix16(n / 16)[0];
    } else {
      HexDigitRoundTrip(n);
    }
  }

  /** `s.padStart(width, fill)` is `s` preceded by just enough copies of `fill` to reach `width`. */
  lemma PadStartShape(s: string, width: nat, fill: char)
    ensures var r := PadStart(s, width, fill);
      && |r| == (if |s| >= width then |s| else width)
      && r[|r| - |s|..] == s
      && forall i :: 0 <= i < |r| - |s| ==> r[i] == fill
  {
  }

  /** `b.toString(16).padStart(2, '0')` is always the two digits of `b`, high nibble first. */
  function ByteHex(b: Byte): (s: string)
    ensures s == [HexDigit(b / 16), HexDigit(b % 16)]
  {
    assert HexDigit(0) == '0';
    if b < 16 then
      assert PadStart(Radix16(b), 2, '0') == ['0', HexDigit(b)];
      PadStart(Radix16(b), 2, '0')
    else
      assert Radix16(b / 16) == [HexDigit(b / 16)];
      PadStart(Radix16(b), 2, '0')
  }

  /** `bytes.map(b => b.toString(16).padStart(2, '0')).join('')`. */
  function Hex(bytes: seq<Byte>): (s: string)
    ensures |s| == 2 * |bytes|
  {
    if bytes == [] then "" else ByteHex(bytes[0]) + Hex(bytes[1..])
  }

  /** Byte `i` of the digest is rendered at positions `2i` (high nibble) and `2i + 1` (low nibble). */
  lemma {:induction false} HexAt(bytes: seq<Byte>, i: nat)
    requires i < |bytes|
    ensures Hex(bytes)[2 * i] == HexDigit(bytes[i] / 16)
    ensures Hex(bytes)[2 * i + 1] == HexDigit(bytes[i] % 16)
  {
    var h := Hex(bytes);
    assert h == ByteHex(bytes[0]) + Hex(bytes[1..]);
    if i > 0 {
      HexAt(bytes[1..], i - 1);
      assert bytes[1..][i - 1] == bytes[i];
      assert h[2 * i] == Hex(bytes[1..])[2 * (i - 1)];
    }
  }

  predicate AllLowerHex(s: string) {
    forall i :: 0 <= i < |s| ==> IsLowerHexDigit(s[i])
  }

  /** Reads pairs of hex digits back into bytes: the inverse of `Hex`. */
  function Unhex(s: string): seq<Byte>
  {
    if |s| < 2 then [] else [HexDigitValue(s[0]) * 16 + HexDigitValue(s[1])] + Unhex(s[2..])
  }

  /** `Hex` renders only lower-case hex digits. */
  lemma {:induction false} HexIsLowerHex(bytes: seq<Byte>)
    ensures AllLowerHex(Hex(bytes))
  {
    if bytes != [] {
      HexIsLowerHex(bytes[1..]);
      HexDigitRoundTrip(bytes[0] / 16);
      HexDigitRoundTrip(bytes[0] % 16);
      assert Hex(bytes) == ByteHex(bytes[0]) + Hex(bytes[1..]);
    }
  }

  /** `Hex` loses nothing: its output decodes to the input bytes. */
  lemma {:induction false} UnhexHex(bytes: seq<Byte>)
    ensures Unhex(Hex(bytes)) == bytes
  {
    if bytes != [] {
      var s := Hex(bytes);
      var hi, lo := bytes[0] / 16, bytes[0] % 16;
      var c0, c1 := HexDigit(hi), HexDigit(lo);
      assert s == [c0, c1] + Hex(bytes[1..]);
      HexDigitRoundTrip(hi);
      HexDigitRoundTrip(lo);
      assert s[0] == c0 && s[1] == c1;
      assert s[2..] == Hex(bytes[1..]);
      UnhexHex(bytes[1..]);
      assert Unhex(s) == [HexDigitValue(c0) * 16 + HexDigitValue(c1)] + Unhex(s[2..]);
      assert hi * 16 + lo == bytes[0];
    }
  }

  // ---------------------------------------------------------------------------
  // Case and substrings

  /** `toUpperCase` on one character; only ASCII letters change. */
  function UpperChar(c: char): char {
    if 'a' <= c <= 'z' then (c as int - 32) as char else c
  }

  function ToUpperCase(s: string): (r: string)
    ensures |r| == |s|
    ensures forall i :: 0 <= i < |s| ==> r[i] == UpperChar(s[i])
  {
    seq(|s|, i requires 0 <= i < |s| => UpperChar(s[i]))
  }

  /** Upper-casing distributes over concatenation. */
  lemma ToUpperCaseAppend(a: string, b: string)
    ensures ToUpperCase(a + b) == ToUpperCase(a) + ToUpperCase(b)
  {
  }

  /** Upper-casing the hex rendering loses nothing either: it still decodes to the input bytes. */
  lemma {:induction false} UnhexUpperHex(bytes: seq<Byte>)
    ensures Unhex(ToUpperCase(Hex(bytes))) == bytes
  {
    if bytes != [] {
      var hi, lo := bytes[0] / 16, bytes[0] % 16;
      var c0, c1 := HexDigit(hi), HexDigit(lo);
      var rest := ToUpperCase(Hex(bytes[1..]));
      var s := ToUpperCase(Hex(bytes));
      assert Hex(bytes) == [c0, c1] + Hex(bytes[1..]);
      ToUpperCaseAppend([c0, c1], Hex(bytes[1..]));
      assert s == [UpperChar(c0), UpperChar(c1)] + rest;
      UpperHexDigitRoundTrip(hi);
      UpperHexDigitRoundTrip(lo);
      assert s[2..] == rest;
      UnhexUpperHex(bytes[1..]);
      assert Unhex(s) == [HexDigitValue(UpperChar(c0)) * 16 + HexDigitValue(UpperChar(c1))] + Unhex(s[2..]);
      assert hi * 16 + lo == bytes[0];
    }
  }

  function Min(a: int, b: int): int {
    if a <= b then a else b
  }

  /** `s.substring(start, end)`: both bounds are clamped to the string, then ordered. */
  function Substring(s: string, start: nat, end: nat): (r: string)
    ensures |r| <= |s|
  {
    var a := Min(start, |s|);
    var b := Min(end, |s|);
    if a <= b then s[a..b] else s[b..a]
  }

  // ---------------------------------------------------------------------------
  // Splitting on a string separator

  predicate OccursAt(s: string, sep: string, i: nat) {
    i + |sep| <= |s| && s[i..i + |sep|] == sep
  }

  /** `s` contains no occurrence of `sep`. */
  predicate Free(s: string, sep: string) {
    forall j: nat :: j <= |s| ==> !OccursAt(s, sep, j)
  }

  /** The first occurrence of `sep` in `s` at or after index `k`. */
  function FindFrom(s: string, sep: string, k: nat): (r: Option<nat>)
    requires sep != [] && k <= |s|
    ensures r.Some? ==> k <= r.value && OccursAt(s, sep, r.value)
    ensures r.Some? ==> forall j: nat :: k <= j < r.value ==> !OccursAt(s, sep, j)
    ensures r.None? ==> forall j: nat :: k <= j ==> !OccursAt(s, sep, j)
    decreases |s| - k
  {
    if OccursAt(s, sep, k) then Some(k)
    else if k == |s| then None
    else FindFrom(s, sep, k + 1)
  }

  /** `s.split(sep)` for a non-empty separator: the pieces between occurrences, left to right. */
  function Split(s: string, sep: string): (parts: seq<string>)
    requires sep != []
    ensures |parts| >= 1
    decreases |s|
  {
    match FindFrom(s, sep, 0)
    case None => [s]
    case Some(i) => [s[..i]] + Split(s[i + |sep|..], sep)
  }

  /** No piece of a split contains the separator. */
  lemma {:induction false} SplitPiecesFree(s: string, sep: string)
    requires sep != []
    ensures forall k :: 0 <= k < |Split(s, sep)| ==> Free(Split(s, sep)[k], sep)
    decreases |s|
  {
    match FindFrom(s, sep, 0)
    case None =>
    case Some(i) =>
      var rest := s[i + |sep|..];
      SplitPiecesFree(rest, sep);
      forall j: nat | j <= i ensures !OccursAt(s[..i], sep, j) {
        if OccursAt(s[..i], sep, j) {
          assert s[..i][j..j + |sep|] == s[j..j + |sep|];
          assert OccursAt(s, sep, j);
        }
      }
      assert Split(s, sep) == [s[..i]] + Split(rest, sep);
  }

  /** `parts.join(sep)`. */
  function Join(parts: seq<string>, sep: string): string
    requires |parts| >= 1
  {
    if |parts| == 1 then parts[0] else parts[0] + sep + Join(parts[1..], sep)
  }

  /** Splitting loses nothing: joining the pieces with the separator gives the input back. */
  lemma {:induction false} JoinSplit(s: string, sep: string)
    requires sep != []
    ensures Join(Split(s, sep), sep) == s
    decreases |s|
  {
    var found := FindFrom(s, sep, 0);
    if found.Some? {
      var i := found.value;
      var rest := s[i + |sep|..];
      var parts := Split(s, sep);
      assert parts == [s[..i]] + Split(rest, sep);
      JoinSplit(rest, sep);
      assert parts[1..] == Split(rest, sep);
      assert Join(parts, sep) == s[..i] + sep + rest;
      assert s == s[..i] + s[i..i + |sep|] + rest;
    }
  }

  // ---------------------------------------------------------------------------
  // Decimal numbers

  predicate IsDigit(c: char) {
    '0' <= c <= '9'
  }

  predicate AllDigits(s: string) {
    forall i :: 0 <= i < |s| ==> IsDigit(s[i])
  }

  function DigitChar(d: int): char
    requires 0 <= d < 10
  {
    ('0' as int + d) as char
  }

  /** The decimal rendering of a natural number (`String(n)`). */
  function DecimalString(n: nat): (s: string)
    ensures |s| >= 1 && AllDigits(s)
    ensures |s| > 1 ==> s[0] != '0'
  {
    if n < 10 then [DigitChar(n)] else DecimalString(n / 10) + [DigitChar(n % 10)]
  }

  /** The decimal rendering of an integer, with a leading '-' when negative. */
  function IntToString(i: int): string {
    if i < 0 then "-" + DecimalString(-i) else DecimalString(i)
  }

  /** The value of a string of decimal digits, most significant first. */
  function DigitsValue(d: string): nat
    requires AllDigits(d)
  {
    if d == [] then 0 else DigitsValue(d[..|d| - 1]) * 10 + (d[|d| - 1] as int - '0' as int)
  }

  /** The longest prefix of `s` made of decimal digits. */
  function LeadingDigits(s: string): (d: string)
    ensures d <= s && AllDigits(d)
    ensures |d| < |s| ==> !IsDigit(s[|d|])
  {
    if s == [] || !IsDigit(s[0]) then [] else [s[0]] + LeadingDigits(s[1..])
  }

  /**
   * `parseInt(s)` with no radix: an optional sign, then the longest run of decimal
   * digits; `None` stands for NaN, the result when no digit follows.
   */
  function ParseInt(s: string): (r: Option<int>)
    ensures |s| == 0 || (!IsDigit(s[0]) && s[0] != '-' && s[0] != '+') ==> r.None?
    ensures |s| > 0 && IsDigit(s[0]) ==> r.Some? && r.value >= 0
  {
    var signed := |s| > 0 && (s[0] == '-' || s[0] == '+');
    var d := LeadingDigits(if signed then s[1..] else s);
    if d == [] then None
    else if signed && s[0] == '-' then Some(0 - DigitsValue(d) as int)
    else Some(DigitsValue(d))
  }

  lemma {:induction false} DigitsValueDecimal(n: nat)
    ensures DigitsValue(DecimalString(n)) == n
  {
    if n >= 10 {
      DigitsValueDecimal(n / 10);
      var s := DecimalString(n);
      assert s[..|s| - 1] == DecimalString(n / 10);
    }
  }

  lemma {:induction false} LeadingDigitsStops(d: string, rest: string)
    requires AllDigits(d)
    requires rest == [] || !IsDigit(rest[0])
    ensures LeadingDigits(d + rest) == d
  {
    if d != [] {
      LeadingDigitsStops(d[1..], rest);
      assert (d + rest)[1..] == d[1..] + rest;
    }
  }

  /**
   * `parseInt` reads back what `String(n)` wrote, whatever non-digit text follows
   * (except an `x` after a lone `0`, which JavaScript would take as a hex prefix).
   */
  lemma ParseIntDecimal(n: nat, rest: string)
    requires rest == [] || !IsDigit(rest[0])
    requires n == 0 && rest != [] ==> rest[0] != 'x' && rest[0] != 'X'
    ensures ParseInt(DecimalString(n) + rest) == Some(n)
  {
    var s := DecimalString(n);
    LeadingDigitsStops(s, rest);
    DigitsValueDecimal(n);
  }
}
