/** Text as the wire sees it: separator splitting, decimal numbers, UTF-8 and hex. */
module Text {
  import opened Prelude

  // ---------------------------------------------------------------- split and join

  /** Rust's `str::split` on one separator: always at least one part. */
  function Split<T(==)>(s: seq<T>, sep: T): (parts: seq<seq<T>>)
    ensures |parts| > 0
  {
    if s == [] then [[]]
    else
      var rest := Split(s[1..], sep);
      if s[0] == sep then [[]] + rest
      else [[s[0]] + rest[0]] + rest[1..]
  }

  /** Rust's `join` with one separator between the parts. */
  function Join<T>(parts: seq<seq<T>>, sep: T): seq<T> {
    if parts == [] then []
    else if |parts| == 1 then parts[0]
    else parts[0] + [sep] + Join(parts[1..], sep)
  }

  ghost predicate SeparatorFree<T(!new)>(parts: seq<seq<T>>, sep: T) {
    forall i :: 0 <= i < |parts| ==> sep !in parts[i]
  }

  lemma {:induction false} JoinSplit<T>(s: seq<T>, sep: T)
    ensures Join(Split(s, sep), sep) == s
  {
    if s != [] {
      JoinSplit(s[1..], sep);
      var rest := Split(s[1..], sep);
      if s[0] == sep {
        assert ([[]] + rest)[1..] == rest;
      } else {
        var parts := [[s[0]] + rest[0]] + rest[1..];
        assert parts[1..] == rest[1..];
        assert Join(parts, sep) == [s[0]] + Join(rest, sep);
      }
    }
  }

  lemma {:induction false} SplitWithoutSeparator<T>(p: seq<T>, sep: T)
    requires sep !in p
    ensures Split(p, sep) == [p]
  {
    if p != [] {
      SplitWithoutSeparator(p[1..], sep);
      assert [p[0]] + p[1..] == p;
    }
  }

  lemma {:induction false} SplitHead<T>(p: seq<T>, t: seq<T>, sep: T)
    requires sep !in p
    ensures Split(p + [sep] + t, sep) == [p] + Split(t, sep)
  {
    var s := p + [sep] + t;
    if p == [] {
      assert s[1..] == t;
    } else {
      assert s[1..] == p[1..] + [sep] + t;
      SplitHead(p[1..], t, sep);
      var rest := Split(s[1..], sep);
      assert rest == [p[1..]] + Split(t, sep);
      assert [s[0]] + rest[0] == p;
    }
  }

  lemma {:induction false} SplitJoin<T(!new)>(parts: seq<seq<T>>, sep: T)
    requires parts != []
    requires SeparatorFree(parts, sep)
    ensures Split(Join(parts, sep), sep) == parts
  {
    assert sep !in parts[0];
    if |parts| == 1 {
      SplitWithoutSeparator(parts[0], sep);
    } else {
      assert SeparatorFree(parts[1..], sep) by {
        forall i | 0 <= i < |parts| - 1 ensures sep !in parts[1..][i] {
          assert parts[1..][i] == parts[i + 1];
        }
      }
      SplitJoin(parts[1..], sep);
      SplitHead(parts[0], Join(parts[1..], sep), sep);
      assert [parts[0]] + parts[1..] == parts;
    }
  }

  // ---------------------------------------------------------------- decimal numbers

  function DigitChar(d: nat): (c: char)
    requires d < 10
  {
    '0' + d as char
  }

  function Digits(n: nat): string {
    if n < 10 then [DigitChar(n)] else Digits(n / 10) + [DigitChar(n % 10)]
  }

  /** `i64::to_string`, for every integer. */
  function Decimal(n: int): string {
    if n < 0 then "-" + Digits(-n) else Digits(n)
  }

  predicate IsDigitChar(c: char) { '0' <= c <= '9' }

  /** Reads a text as digits, from the left. */
  function DigitsValue(t: string): int {
    if t == "" then 0 else 10 * DigitsValue(t[..|t| - 1]) + (t[|t| - 1] as int - '0' as int)
  }

  /** The number a decimal text stands for. */
  function Value(t: string): int {
    if t != "" && t[0] == '-' then -DigitsValue(t[1..]) else DigitsValue(t)
  }

  lemma {:induction false} DigitsReadBack(n: nat)
    ensures |Digits(n)| > 0 && DigitsValue(Digits(n)) == n
    ensures forall i :: 0 <= i < |Digits(n)| ==> IsDigitChar(Digits(n)[i])
    ensures Digits(n)[0] == '0' ==> n == 0 && Digits(n) == "0"
  {
    var d := Digits(n);
    if n < 10 {
      assert d[..0] == "";
    } else {
      DigitsReadBack(n / 10);
      assert d[..|d| - 1] == Digits(n / 10);
    }
  }

  /** The one decimal text of a number: digits only, no leading zero, a minus sign exactly for negative numbers. */
  lemma DecimalReadsBack(n: int)
    ensures Value(Decimal(n)) == n
    ensures var t := Decimal(n);
            var digits := if n < 0 then t[1..] else t;
            && (n < 0 <==> t != "" && t[0] == '-')
            && |digits| > 0 && (digits[0] == '0' ==> t == "0")
            && forall i :: 0 <= i < |digits| ==> IsDigitChar(digits[i])
  {
    DigitsReadBack(if n < 0 then -n else n);
    if n < 0 {
      assert Decimal(n)[1..] == Digits(-n);
    }
  }

  lemma DecimalInjective(a: int, b: int)
    requires Decimal(a) == Decimal(b)
    ensures a == b
  {
    DecimalReadsBack(a);
    DecimalReadsBack(b);
  }

  lemma DecimalHasNoNewline(n: int)
    ensures '\n' !in Decimal(n)
  {
    DigitsReadBack(if n < 0 then -n else n);
  }

  // ---------------------------------------------------------------- UTF-8 (section 3 of RFC 3629)

  function Utf8Char(c: char): (b: Bytes)
    ensures 1 <= |b| <= 4
  {
    var u := c as int;
    if u < 0x80 then [u]
    else if u < 0x800 then [0xC0 + u / 64, 0x80 + u % 64]
    else if u < 0x10000 then [0xE0 + u / 64 / 64, 0x80 + u / 64 % 64, 0x80 + u % 64]
    else [0xF0 + u / 64 / 64 / 64, 0x80 + u / 64 / 64 % 64, 0x80 + u / 64 % 64, 0x80 + u % 64]
  }

  /** The code point an encoding stands for; decides which character was encoded. */
  function Utf8Value(b: seq<int>): int {
    if |b| == 1 then b[0]
    else if |b| == 2 then (b[0] - 0xC0) * 64 + (b[1] - 0x80)
    else if |b| == 3 then ((b[0] - 0xE0) * 64 + (b[1] - 0x80)) * 64 + (b[2] - 0x80)
    else if |b| == 4 then
      (((b[0] - 0xF0) * 64 + (b[1] - 0x80)) * 64 + (b[2] - 0x80)) * 64 + (b[3] - 0x80)
    else 0
  }

  lemma Utf8ValueOfChar(c: char)
    ensures Utf8Value(Utf8Char(c)) == c as int
  {
  }

  /** The shortest of the four shapes that holds the code point. */
  lemma Utf8Shape(c: char)
    ensures var (u, b) := (c as int, Utf8Char(c));
            && |b| == (if u <= 0x7F then 1 else if u <= 0x7FF then 2 else if u <= 0xFFFF then 3 else 4)
            && (|b| == 1 ==> b[0] <= 0x7F) && (|b| == 2 ==> 0xC2 <= b[0] <= 0xDF)
            && (|b| == 3 ==> 0xE0 <= b[0] <= 0xEF) && (|b| == 4 ==> 0xF0 <= b[0] <= 0xF4)
            && forall i :: 1 <= i < |b| ==> 0x80 <= b[i] <= 0xBF
  {
  }

  function Utf8(s: string): Bytes {
    if s == [] then [] else Utf8Char(s[0]) + Utf8(s[1..])
  }

  /** The lead byte tells the length, so an encoded character is never a prefix of another. */
  lemma Utf8CharPrefixFree(c: char, x: Bytes, d: char, y: Bytes)
    requires Utf8Char(c) + x == Utf8Char(d) + y
    ensures c == d && x == y
  {
    var (p, q) := (Utf8Char(c), Utf8Char(d));
    var s := p + x;
    assert s[0] == p[0] == q[0];
    assert |p| == |q|;
    assert p == s[..|p|] == q;
    assert x == s[|p|..] == y;
    Utf8ValueOfChar(c);
    Utf8ValueOfChar(d);
  }

  lemma {:induction false} Utf8Injective(s: string, t: string)
    requires Utf8(s) == Utf8(t)
    ensures s == t
  {
    if s != [] && t != [] {
      Utf8CharPrefixFree(s[0], Utf8(s[1..]), t[0], Utf8(t[1..]));
      Utf8Injective(s[1..], t[1..]);
      assert s == [s[0]] + s[1..];
      assert t == [t[0]] + t[1..];
    }
  }

  // ---------------------------------------------------------------- lowercase hex

  predicate IsLowerHex(c: char) { '0' <= c <= '9' || 'a' <= c <= 'f' }

  function HexChar(d: nat): (c: char)
    requires d < 16
    ensures IsLowerHex(c)
  {
    if d < 10 then '0' + d as char else 'a' + (d - 10) as char
  }

  function HexValue(c: char): (d: nat)
    requires IsLowerHex(c)
    ensures d < 16
  {
    if c <= '9' then (c - '0') as int else 10 + (c - 'a') as int
  }

  /** `krypto::hex::encode`. */
  function HexEncode(b: Bytes): string {
    if b == [] then [] else [HexChar(b[0] / 16), HexChar(b[0] % 16)] + HexEncode(b[1..])
  }

  /** `krypto::hex::decode`: lowercase only, even length, nothing guessed. */
  function HexDecode(s: string): Result<Bytes> {
    if s == [] then Ok([])
    else if |s| == 1 then Err(Proof)
    else if !IsLowerHex(s[0]) || !IsLowerHex(s[1]) then Err(Proof)
    else
      var rest :- HexDecode(s[2..]);
      Ok([16 * HexValue(s[0]) + HexValue(s[1])] + rest)
  }

  lemma HexAlphabet(d: nat)
    requires d < 16
    ensures HexChar(d) == "0123456789abcdef"[d]
  {
  }

  /** High nibble first. */
  lemma {:induction false} HexEncodeAt(b: Bytes, i: nat)
    requires i < |b|
    ensures var t := HexEncode(b);
            |t| == 2 * |b| && t[2 * i] == "0123456789abcdef"[b[i] / 16] && t[2 * i + 1] == "0123456789abcdef"[b[i] % 16]
  {
    HexAlphabet(b[0] / 16);
    HexAlphabet(b[0] % 16);
    if i > 0 {
      HexEncodeAt(b[1..], i - 1);
    } else if |b| > 1 {
      HexEncodeAt(b[1..], 0);
    }
  }

  lemma {:induction false} HexDecodeEncode(b: Bytes)
    ensures HexDecode(HexEncode(b)) == Ok(b)
  {
    if b != [] {
      HexDecodeEncode(b[1..]);
      assert HexEncode(b)[2..] == HexEncode(b[1..]);
      assert b == [b[0]] + b[1..];
    }
  }

  lemma {:induction false} HexRefusals(s: string)
    ensures HexDecode(s).Err? ==> HexDecode(s).error == Proof
  {
    if |s| > 1 {
      HexRefusals(s[2..]);
    }
  }

  lemma {:induction false} HexEncodeDecode(s: string)
    requires HexDecode(s).Ok?
    ensures HexEncode(HexDecode(s).value) == s
  {
    if s != [] {
      HexEncodeDecode(s[2..]);
      var b := HexDecode(s).value;
      assert b[1..] == HexDecode(s[2..]).value;
      assert s == [s[0], s[1]] + s[2..];
    }
  }
}
