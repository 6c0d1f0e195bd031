/**
 Base64 (section 4 of RFC 4648) and PEM blocks with 64-column lines (section 3 of RFC 7468, src/pem.rs:28-45), with the
 reader that undoes them. All of it is ASCII text.
 */
module PemText {
  import opened Prelude
  import opened Text

  // ---------------------------------------------------------------- base64

  type Sextet = x: int | 0 <= x < 64

  function SextetChar(v: Sextet): char {
    if v < 26 then 'A' + v as char
    else if v < 52 then 'a' + (v - 26) as char
    else if v < 62 then '0' + (v - 52) as char
    else if v == 62 then '+'
    else '/'
  }

  predicate IsBase64Char(c: char) {
    'A' <= c <= 'Z' || 'a' <= c <= 'z' || '0' <= c <= '9' || c == '+' || c == '/'
  }

  function CharSextet(c: char): (v: Sextet)
    requires IsBase64Char(c)
  {
    if 'A' <= c <= 'Z' then (c - 'A') as int
    else if 'a' <= c <= 'z' then 26 + (c - 'a') as int
    else if '0' <= c <= '9' then 52 + (c - '0') as int
    else if c == '+' then 62
    else 63
  }

  lemma SextetRoundTrip(v: Sextet)
    ensures IsBase64Char(SextetChar(v)) && CharSextet(SextetChar(v)) == v
    ensures v == 0 ==> SextetChar(v) == 'A'
  {
  }

  /** The alphabet of table 1 in section 4 of RFC 4648, as three runs of consecutive characters and two single ones. */
  lemma SextetAlphabet(v: Sextet)
    ensures SextetChar(0) == 'A' && SextetChar(25) == 'Z' && SextetChar(26) == 'a' && SextetChar(51) == 'z'
    ensures SextetChar(52) == '0' && SextetChar(61) == '9' && SextetChar(62) == '+' && SextetChar(63) == '/'
    ensures v !in {25, 51, 61, 62, 63} ==> SextetChar(v + 1) as int == SextetChar(v) as int + 1
  {
  }

  lemma SextetIsNoPadding(v: Sextet)
    ensures SextetChar(v) != '='
  {
  }

  function Group(a: Byte, b: Byte, c: Byte): (g: string)
    ensures |g| == 4
  {
    [SextetChar(a / 4), SextetChar(a % 4 * 16 + b / 16), SextetChar(b % 16 * 4 + c / 64), SextetChar(c % 64)]
  }

  function Base64(b: Bytes): string {
    if b == [] then ""
    else if |b| == 1 then Group(b[0], 0, 0)[..2] + "=="
    else if |b| == 2 then Group(b[0], b[1], 0)[..3] + "="
    else Group(b[0], b[1], b[2]) + Base64(b[3..])
  }

  function Ungroup(p: char, q: char, r: char, s: char): (int, int, int)
    requires IsBase64Char(p) && IsBase64Char(q) && IsBase64Char(r) && IsBase64Char(s)
  {
    (CharSextet(p) * 4 + CharSextet(q) / 16,
     CharSextet(q) % 16 * 16 + CharSextet(r) / 4,
     CharSextet(r) % 4 * 64 + CharSextet(s))
  }

  /** Four characters at a time; padding only at the very end, with no stray bits under it. */
  function Unbase64(t: string): Result<Bytes> {
    if t == "" then Ok([])
    else if |t| < 4 || !IsBase64Char(t[0]) || !IsBase64Char(t[1]) then Err(Error.Pem)
    else if t[2] == '=' then
      var (a, b, c) := Ungroup(t[0], t[1], 'A', 'A');
      if |t| == 4 && t[3] == '=' && b == 0 then Ok([a]) else Err(Error.Pem)
    else if !IsBase64Char(t[2]) then Err(Error.Pem)
    else if t[3] == '=' then
      var (a, b, c) := Ungroup(t[0], t[1], t[2], 'A');
      if |t| == 4 && c == 0 then Ok([a, b]) else Err(Error.Pem)
    else if !IsBase64Char(t[3]) then Err(Error.Pem)
    else
      var (a, b, c) := Ungroup(t[0], t[1], t[2], t[3]);
      var rest :- Unbase64(t[4..]);
      Ok([a, b, c] + rest)
  }

  lemma HighAndLow(h: nat, l: nat, base: nat)
    requires base == 4 || base == 16
    requires l < base
    ensures (h * base + l) / base == h && (h * base + l) % base == l
  {
  }

  lemma GroupRoundTrip(a: Byte, b: Byte, c: Byte)
    ensures var g := Group(a, b, c);
            && (forall i :: 0 <= i < 4 ==> IsBase64Char(g[i]))
            && Ungroup(g[0], g[1], g[2], g[3]) == (a, b, c)
            && (b == c == 0 ==> g[2] == 'A')
            && (c == 0 ==> g[3] == 'A')
  {
    hide SextetChar, CharSextet, IsBase64Char;
    var (ah, al, bh, bl, ch, cl) := (a / 4, a % 4, b / 16, b % 16, c / 64, c % 64);
    HighAndLow(al, bh, 16);
    HighAndLow(bl, ch, 4);
    SextetRoundTrip(ah);
    SextetRoundTrip(al * 16 + bh);
    SextetRoundTrip(bl * 4 + ch);
    SextetRoundTrip(cl);
  }

  /** Four characters are the digits, to base 64, of the number whose digits to base 256 are the three bytes. */
  lemma GroupValue(a: Byte, b: Byte, c: Byte)
    ensures var g := Group(a, b, c);
            && (forall i :: 0 <= i < 4 ==> IsBase64Char(g[i]))
            && ((CharSextet(g[0]) * 64 + CharSextet(g[1])) * 64 + CharSextet(g[2])) * 64 + CharSextet(g[3])
               == (a * 256 + b) * 256 + c
  {
    hide SextetChar, CharSextet, IsBase64Char;
    SextetRoundTrip(a / 4);
    SextetRoundTrip(a % 4 * 16 + b / 16);
    SextetRoundTrip(b % 16 * 4 + c / 64);
    SextetRoundTrip(c % 64);
  }

  /** Four characters for every three bytes begun; two or one of them are padding if one or two bytes are left over. */
  lemma {:induction false} Base64Length(b: Bytes)
    ensures |Base64(b)| == 4 * ((|b| + 2) / 3)
    ensures forall i :: 0 <= i < |Base64(b)| ==>
                          (Base64(b)[i] == '=' <==> i >= |Base64(b)| - (3 - |b| % 3) % 3)
  {
    hide SextetChar, CharSextet, IsBase64Char, Group;
    if b != [] {
      var (x, y) := (if |b| > 1 then b[1] else 0, if |b| > 2 then b[2] else 0);
      NoPaddingInGroup(b[0], x, y);
      if |b| > 2 {
        Base64Length(b[3..]);
      }
    }
  }

  lemma NoPaddingInGroup(a: Byte, b: Byte, c: Byte)
    ensures '=' !in Group(a, b, c)
  {
    hide SextetChar, CharSextet, IsBase64Char;
    SextetIsNoPadding(a / 4);
    SextetIsNoPadding(a % 4 * 16 + b / 16);
    SextetIsNoPadding(b % 16 * 4 + c / 64);
    SextetIsNoPadding(c % 64);
  }

  lemma {:induction false} Base64RoundTrip(b: Bytes)
    ensures Unbase64(Base64(b)) == Ok(b)
  {
    hide Group, Ungroup, SextetChar, CharSextet;
    if |b| == 1 {
      GroupRoundTrip(b[0], 0, 0);
      assert b == [b[0]];
    } else if |b| == 2 {
      GroupRoundTrip(b[0], b[1], 0);
      assert b == [b[0], b[1]];
    } else if |b| > 2 {
      GroupRoundTrip(b[0], b[1], b[2]);
      Base64RoundTrip(b[3..]);
      assert Base64(b)[4..] == Base64(b[3..]);
      assert b == [b[0], b[1], b[2]] + b[3..];
    }
  }

  lemma SextetHasOneChar(c: char)
    requires IsBase64Char(c)
    ensures SextetChar(CharSextet(c)) == c
  {
  }

  lemma GroupHasOneSpelling(p: char, q: char, r: char, s: char)
    requires IsBase64Char(p) && IsBase64Char(q) && IsBase64Char(r) && IsBase64Char(s)
    ensures var (a, b, c) := Ungroup(p, q, r, s);
            0 <= a < 256 && 0 <= b < 256 && 0 <= c < 256 && Group(a, b, c) == [p, q, r, s]
  {
    hide SextetChar, IsBase64Char, CharSextet;
    SextetHasOneChar(p);
    SextetHasOneChar(q);
    SextetHasOneChar(r);
    SextetHasOneChar(s);
    var (w, x, y, z) := (CharSextet(p), CharSextet(q), CharSextet(r), CharSextet(s));
    HighAndLow(w, x / 16, 4);
    HighAndLow(x % 16, y / 4, 16);
  }

  lemma StandInIsZero(p: char, q: char)
    requires IsBase64Char(p) && IsBase64Char(q)
    ensures IsBase64Char('A') && Ungroup(p, q, 'A', 'A').2 == 0
  {
  }

  /** Strict reading: a text is read as given bytes if and only if it is their encoding. */
  lemma {:induction false} Base64HasOneSpelling(t: string, b: Bytes)
    ensures Unbase64(t) == Ok(b) <==> t == Base64(b)
    decreases |t|
  {
    hide Group, Ungroup, SextetChar, CharSextet, IsBase64Char;
    Base64RoundTrip(b);
    if Unbase64(t) == Ok(b) && t != "" {
      StandInIsZero(t[0], t[1]);
      if t[2] == '=' {
        GroupHasOneSpelling(t[0], t[1], 'A', 'A');
        assert t == [t[0], t[1]] + "==";
      } else if t[3] == '=' {
        GroupHasOneSpelling(t[0], t[1], t[2], 'A');
      } else {
        GroupHasOneSpelling(t[0], t[1], t[2], t[3]);
        Base64HasOneSpelling(t[4..], b[3..]);
        assert t == t[..4] + t[4..];
      }
    }
  }

  predicate IsBodyChar(c: char) { IsBase64Char(c) || c == '=' }

  lemma {:induction false} Base64IsBody(b: Bytes)
    ensures forall i :: 0 <= i < |Base64(b)| ==> IsBodyChar(Base64(b)[i])
  {
    hide Group, Ungroup, SextetChar, CharSextet;
    if b != [] {
      var (x, y) := (if |b| > 1 then b[1] else 0, if |b| > 2 then b[2] else 0);
      GroupRoundTrip(b[0], x, y);
      if |b| > 2 {
        Base64IsBody(b[3..]);
      }
    }
  }

  // ---------------------------------------------------------------- lines

  /** Each line followed by LF. */
  function Unlines(lines: seq<string>): string {
    if lines == [] then "" else lines[0] + "\n" + Unlines(lines[1..])
  }

  lemma {:induction false} UnlinesConcat(a: seq<string>, b: seq<string>)
    ensures Unlines(a + b) == Unlines(a) + Unlines(b)
  {
    if a == [] {
      assert a + b == b;
    } else {
      UnlinesConcat(a[1..], b);
      assert (a + b)[1..] == a[1..] + b;
    }
  }

  lemma {:induction false} SplitUnlines(lines: seq<string>)
    requires SeparatorFree(lines, '\n')
    ensures Split(Unlines(lines), '\n') == lines + [""]
  {
    if lines != [] {
      hide Split;
      var tail := lines[1..];
      assert '\n' !in lines[0];
      assert SeparatorFree(tail, '\n') by {
        forall i | 0 <= i < |tail| ensures '\n' !in tail[i] {
          assert tail[i] == lines[i + 1];
        }
      }
      SplitUnlines(tail);
      SplitHead(lines[0], Unlines(tail), '\n');
      assert [lines[0]] + (tail + [""]) == lines + [""];
    }
  }

  /** At most 64 characters to a line. */
  function Wrapped(t: string): seq<string>
    decreases |t|
  {
    if t == "" then [] else if |t| <= 64 then [t] else [t[..64]] + Wrapped(t[64..])
  }

  lemma WrappedHead(t: string)
    requires t != ""
    ensures var n := if |t| < 64 then |t| else 64;
            Wrapped(t) == [t[..n]] + Wrapped(t[n..])
  {
    if |t| <= 64 {
      assert t[|t|..] == "" && t[..|t|] == t;
    }
  }

  function Unwrapped(lines: seq<string>): string {
    if lines == [] then "" else lines[0] + Unwrapped(lines[1..])
  }

  lemma {:induction false} WrappedLines(t: string)
    requires forall i :: 0 <= i < |t| ==> IsBodyChar(t[i])
    ensures Unwrapped(Wrapped(t)) == t
    ensures forall k :: 0 <= k < |Wrapped(t)| ==> IsBodyLine(Wrapped(t)[k])
    ensures forall k :: 0 <= k < |Wrapped(t)| - 1 ==> |Wrapped(t)[k]| == 64
    decreases |t|
  {
    if |t| > 64 {
      WrappedLines(t[64..]);
      assert t == t[..64] + t[64..];
    }
  }

  predicate IsBodyLine(line: string) {
    0 < |line| <= 64 && forall i :: 0 <= i < |line| ==> IsBodyChar(line[i])
  }

  // ---------------------------------------------------------------- one block

  function BeginLine(tag: string): string { "-----BEGIN " + tag + "-----" }

  function EndLine(tag: string): string { "-----END " + tag + "-----" }

  function BlockLines(tag: string, der: Bytes): seq<string> {
    [BeginLine(tag)] + Wrapped(Base64(der)) + [EndLine(tag)]
  }

  function PemBlock(tag: string, der: Bytes): string { Unlines(BlockLines(tag, der)) }

  /** `pem::encode`: header, body in chunks of 64, footer, all into one buffer. */
  method Encode(tag: string, der: Bytes) returns (out: string)
    ensures out == PemBlock(tag, der)
    ensures out == "-----BEGIN " + tag + "-----\n" + Unlines(Wrapped(Base64(der))) + "-----END " + tag + "-----\n"
  {
    var b64 := Base64(der);
    out := "-----BEGIN " + tag + "-----\n";
    ghost var head := out;
    var rest := b64;
    while rest != ""
      invariant out + Unlines(Wrapped(rest)) == head + Unlines(Wrapped(b64))
      decreases |rest|
    {
      var n := if |rest| < 64 then |rest| else 64;
      WrappedHead(rest);
      out := out + rest[..n];
      out := out + "\n";
      rest := rest[n..];
    }
    out := out + ("-----END " + tag + "-----\n");
    var begin, body, end := [BeginLine(tag)], Wrapped(b64), [EndLine(tag)];
    assert Unlines(begin) == head;
    assert Unlines(end) == EndLine(tag) + "\n" == "-----END " + tag + "-----\n";
    UnlinesConcat(begin + body, end);
    UnlinesConcat(begin, body);
  }

  // ---------------------------------------------------------------- reading

  datatype Block = Block(tag: string, der: Bytes)

  /** The tag of a `BEGIN` line. */
  function BeginTag(line: string): Option<string> {
    if |line| >= 16 && line[..11] == "-----BEGIN " && line[|line| - 5..] == "-----"
    then Some(line[11..|line| - 5]) else None
  }

  lemma BeginTagExactly(line: string, tag: string)
    ensures BeginTag(line) == Some(tag) <==> line == BeginLine(tag)
  {
    var begin := BeginLine(tag);
    assert begin[..11] == "-----BEGIN " && begin[11..|begin| - 5] == tag && begin[|begin| - 5..] == "-----";
    if |line| >= 16 {
      assert line == line[..11] + line[11..|line| - 5] + line[|line| - 5..];
    }
  }

  /** Lines outside a block are skipped; inside one, everything up to the matching footer is its body. */
  function ReadOutside(lines: seq<string>): Result<seq<Block>>
    decreases |lines|
  {
    if lines == [] then Ok([])
    else
      var tag := BeginTag(lines[0]);
      if tag.None? then ReadOutside(lines[1..]) else ReadInside(tag.value, "", lines[1..])
  }

  function ReadInside(tag: string, body: string, lines: seq<string>): Result<seq<Block>>
    decreases |lines|
  {
    if lines == [] then Err(Error.Pem)
    else if lines[0] == EndLine(tag) then
      var der :- Unbase64(body);
      var rest :- ReadOutside(lines[1..]);
      Ok([Block(tag, der)] + rest)
    else ReadInside(tag, body + lines[0], lines[1..])
  }

  function ReadPem(t: string): Result<seq<Block>> { ReadOutside(Split(t, '\n')) }

  lemma {:induction false} ReadBody(tag: string, sofar: string, body: seq<string>, rest: seq<string>)
    requires forall k :: 0 <= k < |body| ==> IsBodyLine(body[k])
    ensures ReadInside(tag, sofar, body + rest) == ReadInside(tag, sofar + Unwrapped(body), rest)
    decreases |body|
  {
    if body == [] {
      assert body + rest == rest && sofar + "" == sofar;
    } else {
      assert IsBodyLine(body[0]) && EndLine(tag)[0] == '-';
      assert (body + rest)[1..] == body[1..] + rest;
      ReadBody(tag, sofar + body[0], body[1..], rest);
      assert sofar + body[0] + Unwrapped(body[1..]) == sofar + Unwrapped(body);
    }
  }

  /** A block whose footer is missing is no block: a text that breaks off is refused. */
  lemma {:induction false} BrokenOff(tag: string, body: string, lines: seq<string>)
    requires EndLine(tag) !in lines
    ensures ReadInside(tag, body, lines) == Err(Error.Pem)
    decreases |lines|
  {
    if lines != [] {
      BrokenOff(tag, body + lines[0], lines[1..]);
    }
  }

  /** The reader undoes the encoder, whatever follows. */
  lemma BlockIsRead(tag: string, der: Bytes, rest: seq<string>)
    ensures ReadOutside(BlockLines(tag, der) + rest)
            == (var r := ReadOutside(rest); if r.Ok? then Ok([Block(tag, der)] + r.value) else r)
  {
    hide Base64, Unbase64, Wrapped;
    var body := Wrapped(Base64(der));
    var begin, end := BeginLine(tag), EndLine(tag);
    Base64IsBody(der);
    WrappedLines(Base64(der));
    Base64RoundTrip(der);
    var lines := BlockLines(tag, der) + rest;
    assert begin[..11] == "-----BEGIN " && begin[|begin| - 5..] == "-----" && begin[11..|begin| - 5] == tag;
    assert lines[0] == begin && lines[1..] == body + ([end] + rest);
    ReadBody(tag, "", body, [end] + rest);
    assert "" + Unwrapped(body) == Base64(der);
    assert ([end] + rest)[1..] == rest;
  }

  lemma BlockLinesHaveNoNewline(tag: string, der: Bytes)
    requires '\n' !in tag
    ensures SeparatorFree(BlockLines(tag, der), '\n')
  {
    Base64IsBody(der);
    WrappedLines(Base64(der));
    var lines := BlockLines(tag, der);
    forall i | 0 <= i < |lines| ensures '\n' !in lines[i] {
      if 0 < i < |lines| - 1 {
        assert lines[i] == Wrapped(Base64(der))[i - 1];
      }
    }
  }
}
