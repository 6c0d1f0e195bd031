/**
 Reading a fingerprint the way a person writes one (src/fingerprint.rs:31-64), against a description of everything that
 reads as a given 32-byte value.
 */
module Fingerprints {
  import opened Prelude
  import opened Text

  // ---------------------------------------------------------------- characters

  /** Unicode `White_Space`, what `str::trim` removes. */
  predicate IsSpace(c: char) {
    var u := c as int;
    || 0x09 <= u <= 0x0D || u == 0x20 || u == 0x85 || u == 0xA0 || u == 0x1680
    || 0x2000 <= u <= 0x200A || u == 0x2028 || u == 0x2029 || u == 0x202F || u == 0x205F || u == 0x3000
  }

  /** The 25 characters, written out. */
  lemma SpacesAre(c: char)
    ensures IsSpace(c)
            <==> c as int in {9, 10, 11, 12, 13, 32, 133, 160, 5760, 8192, 8193, 8194, 8195, 8196, 8197, 8198, 8199,
                              8200, 8201, 8202, 8232, 8233, 8239, 8287, 12288}
  {
  }

  predicate IsSeparator(c: char) {
    c == ':' || c == ' ' || c == '-' || c == '\n' || c == '\r' || c == '\t'
  }

  /** `char::to_digit(16)`. */
  function DigitValue(c: char): (d: Option<nat>)
    ensures d.Some? ==> d.value < 16
  {
    if '0' <= c <= '9' then Some((c - '0') as int)
    else if 'a' <= c <= 'f' then Some(10 + (c - 'a') as int)
    else if 'A' <= c <= 'F' then Some(10 + (c - 'A') as int)
    else None
  }

  function Lower(c: char): char { if 'A' <= c <= 'Z' then 'a' + (c - 'A') else c }

  function LowerAll(s: string): string { seq(|s|, i requires 0 <= i < |s| => Lower(s[i])) }

  lemma DigitIsLoweredHex(c: char, d: nat)
    ensures DigitValue(c) == Some(d) <==> d < 16 && Lower(c) == HexChar(d)
    ensures IsSeparator(c) ==> DigitValue(c).None?
  {
  }

  // ---------------------------------------------------------------- trimming

  function TrimStart(s: string): string { if s != "" && IsSpace(s[0]) then TrimStart(s[1..]) else s }

  function TrimEnd(s: string): string
    decreases |s|
  {
    if s != "" && IsSpace(s[|s| - 1]) then TrimEnd(s[..|s| - 1]) else s
  }

  function Trim(s: string): string { TrimEnd(TrimStart(s)) }

  predicate AllSpace(s: string) { forall i :: 0 <= i < |s| ==> IsSpace(s[i]) }

  lemma {:induction false} TrimStartCuts(s: string) returns (w: string)
    ensures s == w + TrimStart(s) && AllSpace(w)
    ensures TrimStart(s) != "" ==> !IsSpace(TrimStart(s)[0])
  {
    if s != "" && IsSpace(s[0]) {
      var v := TrimStartCuts(s[1..]);
      w := [s[0]] + v;
    } else {
      w := "";
    }
  }

  lemma {:induction false} TrimEndCuts(s: string) returns (w: string)
    ensures s == TrimEnd(s) + w && AllSpace(w)
    ensures TrimEnd(s) != "" ==> !IsSpace(TrimEnd(s)[|TrimEnd(s)| - 1])
    decreases |s|
  {
    if s != "" && IsSpace(s[|s| - 1]) {
      var v := TrimEndCuts(s[..|s| - 1]);
      w := v + [s[|s| - 1]];
    } else {
      w := "";
    }
  }

  lemma {:induction false} TrimStartIs(w: string, t: string)
    requires AllSpace(w) && (t != "" ==> !IsSpace(t[0]))
    ensures TrimStart(w + t) == t
  {
    if w == "" {
      assert w + t == t;
    } else {
      TrimStartIs(w[1..], t);
      assert (w + t)[1..] == w[1..] + t;
    }
  }

  lemma {:induction false} TrimEndIs(t: string, w: string)
    requires AllSpace(w) && (t != "" ==> !IsSpace(t[|t| - 1]))
    ensures TrimEnd(t + w) == t
    decreases |w|
  {
    if w == "" {
      assert t + w == t;
    } else {
      var v := w[..|w| - 1];
      TrimEndIs(t, v);
      assert (t + w)[..|t + w| - 1] == t + v;
    }
  }

  // ---------------------------------------------------------------- the parser

  /** The accepted prefixes, tried in this order; the last is the absence of one. */
  const PREFIXES: seq<string> := ["sha256:", "SHA256:", "sha256-", ""]

  function StripPrefix(t: string): string {
    if "sha256:" <= t then t[7..]
    else if "SHA256:" <= t then t[7..]
    else if "sha256-" <= t then t[7..]
    else t
  }

  function Nibbles(body: string): Result<seq<nat>> {
    if body == "" then Ok([])
    else if IsSeparator(body[0]) then Nibbles(body[1..])
    else
      var d := DigitValue(body[0]);
      if d.None? then Err(Fingerprint)
      else
        var rest :- Nibbles(body[1..]);
        Ok([d.value] + rest)
  }

  /** Two nibbles to a byte, high nibble first. */
  function Pack(ns: seq<nat>): (b: Bytes)
    requires |ns| % 2 == 0 && forall i :: 0 <= i < |ns| ==> ns[i] < 16
    ensures |b| == |ns| / 2
    ensures forall i :: 0 <= i < |b| ==> b[i] == 16 * ns[2 * i] + ns[2 * i + 1]
  {
    if ns == [] then [] else [16 * ns[0] + ns[1]] + Pack(ns[2..])
  }

  function Parsed(s: string): Result<Bytes> {
    var ns :- Nibbles(StripPrefix(Trim(s)));
    NibblesAreDigits(StripPrefix(Trim(s)), ns);
    if |ns| != 64 then Err(Fingerprint) else Ok(Pack(ns))
  }

  function Prepended(ns: seq<nat>, r: Result<seq<nat>>): Result<seq<nat>> {
    if r.Ok? then Ok(ns + r.value) else r
  }

  lemma NoNibbles()
    ensures Nibbles("") == Ok([])
  {
  }

  lemma NibblesStep(body: string, k: nat, ns: seq<nat>)
    requires k < |body|
    ensures var (c, rest) := (body[k], Nibbles(body[k + 1..]));
            Prepended(ns, Nibbles(body[k..]))
            == if IsSeparator(c) then Prepended(ns, rest)
               else if DigitValue(c).None? then Err(Fingerprint)
               else Prepended(ns + [DigitValue(c).value], rest)
  {
    hide DigitValue, IsSeparator;
    assert body[k..][1..] == body[k + 1..];
    var (d, rest) := (DigitValue(body[k]), Nibbles(body[k + 1..]));
    if d.Some? && rest.Ok? {
      assert ns + ([d.value] + rest.value) == ns + [d.value] + rest.value;
    }
  }

  /** The 32 cells, filled two nibbles at a time. */
  method PackAll(nibbles: seq<nat>) returns (b: Bytes)
    requires |nibbles| == 64 && forall i :: 0 <= i < |nibbles| ==> nibbles[i] < 16
    ensures b == Pack(nibbles)
  {
    var out := new Byte[32](_ => 0);
    for i := 0 to 32
      invariant forall k :: 0 <= k < i ==> out[k] == 16 * nibbles[2 * k] + nibbles[2 * k + 1]
    {
      out[i] := 16 * nibbles[2 * i] + nibbles[2 * i + 1];
    }
    b := out[..];
  }

  /** `parse_fingerprint`: a loop over the characters, collecting the nibbles. */
  method ParseFingerprint(s: string) returns (r: Result<Bytes>)
    ensures r == Parsed(s)
  {
    hide Nibbles, IsSeparator, DigitValue, Trim, StripPrefix, Pack;
    var body := StripPrefix(Trim(s));
    ghost var all := Nibbles(body);
    assert body[0..] == body && (all.Ok? ==> [] + all.value == all.value);
    var nibbles: seq<nat> := [];
    for k := 0 to |body|
      invariant forall i :: 0 <= i < |nibbles| ==> nibbles[i] < 16
      invariant all == Prepended(nibbles, Nibbles(body[k..]))
    {
      NibblesStep(body, k, nibbles);
      if IsSeparator(body[k]) {
        continue;
      }
      var d := DigitValue(body[k]);
      if d.None? {
        return Err(Fingerprint);
      }
      nibbles := nibbles + [d.value];
    }
    NoNibbles();
    assert body[|body|..] == "" && nibbles + [] == nibbles;
    if |nibbles| != 64 {
      return Err(Fingerprint);
    }
    var out := PackAll(nibbles);
    r := Ok(out);
  }

  // ---------------------------------------------------------------- what a text says

  /** The characters that are not separators. */
  function Significant(s: string): string {
    if s == "" then "" else (if IsSeparator(s[0]) then "" else [s[0]]) + Significant(s[1..])
  }

  lemma SignificantStep(s: string)
    requires s != ""
    ensures Significant(s) == (if IsSeparator(s[0]) then "" else [s[0]]) + Significant(s[1..])
  {
  }

  lemma {:induction false} SignificantConcat(s: string, t: string)
    ensures Significant(s + t) == Significant(s) + Significant(t)
  {
    hide Significant, IsSeparator;
    if s == "" {
      NothingSignificant();
      assert s + t == t;
    } else {
      SignificantConcat(s[1..], t);
      SignificantStep(s);
      SignificantStep(s + t);
      assert (s + t)[1..] == s[1..] + t;
      var head := if IsSeparator(s[0]) then "" else [s[0]];
      Associative(head, Significant(s[1..]), Significant(t));
    }
  }

  lemma Associative(a: string, b: string, c: string)
    ensures a + (b + c) == a + b + c
  {
  }

  /** The hex digits of a nibble sequence. */
  function Hexes(ns: seq<nat>): string
    requires forall i :: 0 <= i < |ns| ==> ns[i] < 16
  {
    seq(|ns|, i requires 0 <= i < |ns| => HexChar(ns[i]))
  }

  lemma {:induction false} NibblesAreDigits(body: string, ns: seq<nat>)
    ensures Nibbles(body) == Ok(ns)
            <==> (forall i :: 0 <= i < |ns| ==> ns[i] < 16) && LowerAll(Significant(body)) == Hexes(ns)
    decreases |body|
  {
    if body == "" {
    } else if IsSeparator(body[0]) {
      NibblesAreDigits(body[1..], ns);
      assert "" + Significant(body[1..]) == Significant(body);
    } else {
      var (c, tail) := (body[0], body[1..]);
      assert Significant(body) == [c] + Significant(tail);
      assert LowerAll(Significant(body)) == [Lower(c)] + LowerAll(Significant(tail));
      if ns == [] {
        assert LowerAll(Significant(body))[0] == Lower(c);
      } else {
        NibblesAreDigits(tail, ns[1..]);
        DigitIsLoweredHex(c, ns[0]);
        DigitsSplit(ns, Lower(c), LowerAll(Significant(tail)));
        assert ns == [ns[0]] + ns[1..];
      }
    }
  }

  lemma DigitsSplit(ns: seq<nat>, c: char, t: string)
    requires ns != []
    ensures (forall i :: 0 <= i < |ns| ==> ns[i] < 16) && [c] + t == Hexes(ns)
            <==> ns[0] < 16 && c == HexChar(ns[0]) && (forall i :: 0 <= i < |ns[1..]| ==> ns[1..][i] < 16)
                 && t == Hexes(ns[1..])
  {
    if ns[0] < 16 && forall i :: 0 <= i < |ns[1..]| ==> ns[1..][i] < 16 {
      forall i | 0 <= i < |ns| ensures ns[i] < 16 {
        assert i > 0 ==> ns[i] == ns[1..][i - 1];
      }
      assert Hexes(ns) == [HexChar(ns[0])] + Hexes(ns[1..]);
      assert ([c] + t)[1..] == t && Hexes(ns)[1..] == Hexes(ns[1..]);
    }
  }

  lemma {:induction false} PackedHex(ns: seq<nat>)
    requires |ns| % 2 == 0 && forall i :: 0 <= i < |ns| ==> ns[i] < 16
    ensures HexEncode(Pack(ns)) == Hexes(ns)
  {
    if ns != [] {
      PackedHex(ns[2..]);
      var b := Pack(ns);
      assert b[1..] == Pack(ns[2..]);
      assert b[0] / 16 == ns[0] && b[0] % 16 == ns[1];
      assert Hexes(ns) == [HexChar(ns[0]), HexChar(ns[1])] + Hexes(ns[2..]);
    }
  }

  function Unpack(b: Bytes): (ns: seq<nat>)
    ensures |ns| == 2 * |b| && forall i :: 0 <= i < |ns| ==> ns[i] < 16
    ensures Hexes(ns) == HexEncode(b)
  {
    if b == [] then [] else [b[0] / 16, b[0] % 16] + Unpack(b[1..])
  }

  // ---------------------------------------------------------------- main results

  /** Everything that reads as `b`: space, a prefix, the hex digits in any case among separators, space. */
  ghost predicate Spells(s: string, b: Bytes, w: string, p: string, body: string, v: string) {
    && s == w + p + body + v
    && AllSpace(w) && AllSpace(v) && p in PREFIXES
    && LowerAll(Significant(body)) == HexEncode(b)
  }

  lemma PrefixIsStripped(t: string) returns (p: string)
    ensures p in PREFIXES && t == p + StripPrefix(t)
  {
    PrefixesAre();
    p := if "sha256:" <= t then "sha256:" else if "SHA256:" <= t then "SHA256:" else if "sha256-" <= t then "sha256-"
         else "";
  }

  lemma PrefixesAre()
    ensures forall p :: p in PREFIXES <==> p == "sha256:" || p == "SHA256:" || p == "sha256-" || p == ""
  {
  }

  /** An accepted text is decoration around 64 hex digits, and they are the digits of the result. */
  lemma AcceptedIsDecorated(s: string, b: Bytes)
    requires Parsed(s) == Ok(b)
    ensures |b| == 32 && exists w, p, body, v :: Spells(s, b, w, p, body, v)
  {
    hide AllSpace, IsSpace, TrimStart, TrimEnd, StripPrefix, Nibbles, Significant, LowerAll, HexEncode;
    var w := TrimStartCuts(s);
    var v := TrimEndCuts(TrimStart(s));
    var p := PrefixIsStripped(Trim(s));
    var body := StripPrefix(Trim(s));
    var ns := Nibbles(body).value;
    NibblesAreDigits(body, ns);
    PackedHex(ns);
    assert s == w + p + body + v;
    assert Spells(s, b, w, p, body, v);
  }

  /** Space that does not spoil the digits consists of separators. */
  lemma {:induction false} SpaceSaysNothing(u: string)
    requires AllSpace(u) && IsHexText(LowerAll(Significant(u)))
    ensures Significant(u) == ""
  {
    if u != "" {
      if !IsSeparator(u[0]) {
        assert Significant(u)[0] == u[0];
        assert LowerAll(Significant(u))[0] == Lower(u[0]);
        SpaceIsNoHex(u[0]);
      } else {
        assert Significant(u) == Significant(u[1..]);
        SpaceSaysNothing(u[1..]);
      }
    }
  }

  predicate IsHexText(s: string) { forall i :: 0 <= i < |s| ==> IsLowerHex(s[i]) }

  lemma SpaceIsNoHex(c: char)
    requires IsSpace(c)
    ensures !IsLowerHex(Lower(c))
  {
  }

  /** Every decoration of the 64 digits parses back to the value. */
  lemma DecoratedIsAccepted(s: string, b: Bytes, w: string, p: string, body: string, v: string)
    requires |b| == 32 && Spells(s, b, w, p, body, v)
    ensures Parsed(s) == Ok(b)
  {
    hide Significant, Trim, StripPrefix, LowerAll, Nibbles, HexEncode, Hexes, Spells;
    var ns := Unpack(b);
    var core := TrimmedBody(s, b, w, p, body, v);
    NibblesAreDigits(core, ns);
    PackedHex(ns);
    HexDecodeEncode(b);
    HexDecodeEncode(Pack(ns));
  }

  lemma {:induction false} HexEncodeIsHex(b: Bytes)
    ensures IsHexText(HexEncode(b)) && |HexEncode(b)| == 2 * |b|
  {
    if b != [] {
      HexEncodeIsHex(b[1..]);
    }
  }

  /** A body is its core between spaces that say nothing. */
  lemma CoreOf(body: string) returns (u: string, c: string, v: string)
    requires IsHexText(LowerAll(Significant(body))) && Significant(body) != ""
    ensures body == u + c + v && AllSpace(u) && AllSpace(v)
    ensures c != "" && !IsSpace(c[0]) && !IsSpace(c[|c| - 1])
    ensures Significant(u) == "" && Significant(c) == Significant(body)
  {
    hide IsSpace, Significant, TrimStart, TrimEnd;
    u := TrimStartCuts(body);
    var m := TrimStart(body);
    v := TrimEndCuts(m);
    c := TrimEnd(m);
    SpaceAround(u, c, v);
    assert c != "" by {
      NothingSignificant();
    }
    assert c[0] == m[0];
  }

  lemma NothingSignificant()
    ensures Significant("") == ""
  {
  }

  lemma SpaceAround(u: string, c: string, v: string)
    requires AllSpace(u) && AllSpace(v) && IsHexText(LowerAll(Significant(u + (c + v))))
    ensures Significant(u) == "" && Significant(c) == Significant(u + (c + v)) && u + (c + v) == u + c + v
  {
    hide IsSpace, Significant, IsLowerHex, Lower;
    var all := Significant(u + (c + v));
    SignificantConcat(u, c + v);
    SignificantConcat(c, v);
    var (x, y) := (|Significant(u)|, |all| - |Significant(v)|);
    assert all[..x] == Significant(u) && all[y..] == Significant(v);
    assert LowerAll(Significant(u)) == LowerAll(all)[..x];
    assert LowerAll(Significant(v)) == LowerAll(all)[y..];
    SpaceSaysNothing(u);
    SpaceSaysNothing(v);
  }

  lemma NoPrefixOnDigits(c: string)
    requires c != "" && IsHexText(LowerAll(Significant(c)))
    ensures StripPrefix(c) == c
  {
    if !IsSeparator(c[0]) {
      assert Significant(c)[0] == c[0];
      assert LowerAll(Significant(c))[0] == Lower(c[0]);
    }
    assert c[0] != 's' && c[0] != 'S';
  }

  lemma PrefixGoesAway(p: string, t: string)
    requires p in PREFIXES && p != ""
    ensures StripPrefix(p + t) == t && !IsSpace(p[0])
  {
  }

  lemma TrimmedBody(s: string, b: Bytes, w: string, p: string, body: string, v: string) returns (core: string)
    requires |b| == 32 && Spells(s, b, w, p, body, v)
    ensures core == StripPrefix(Trim(s)) && LowerAll(Significant(core)) == HexEncode(b)
  {
    hide IsSpace, Significant, TrimStart, TrimEnd, HexEncode, StripPrefix;
    HexEncodeIsHex(b);
    var u, c, x := CoreOf(body);
    assert AllSpace(x + v);
    if p == "" {
      core := c;
      assert s == (w + u) + (c + (x + v));
      TrimStartIs(w + u, c + (x + v));
      TrimEndIs(c, x + v);
      NoPrefixOnDigits(c);
    } else {
      core := u + c;
      var t := p + core;
      assert s == w + (t + (x + v));
      PrefixGoesAway(p, core);
      TrimStartIs(w, t + (x + v));
      TrimEndIs(t, x + v);
      SignificantConcat(u, c);
    }
  }

  /** `parse_fingerprint` reads `b` from exactly the decorated spellings of `b`, over all strings. */
  lemma ParsesExactlyItsSpellings(s: string, b: Bytes)
    ensures Parsed(s) == Ok(b) <==> |b| == 32 && exists w, p, body, v :: Spells(s, b, w, p, body, v)
  {
    if Parsed(s) == Ok(b) {
      AcceptedIsDecorated(s, b);
    }
    if |b| == 32 && exists w, p, body, v :: Spells(s, b, w, p, body, v) {
      var w, p, body, v :| Spells(s, b, w, p, body, v);
      DecoratedIsAccepted(s, b, w, p, body, v);
    }
  }
}
