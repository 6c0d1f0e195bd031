/**
 The canonical strings that get signed (src/canonical.rs): LF between lines, no trailing LF, UTF-8.
 Five message forms; the bytes of any two determine the form and every field.
 */
module Canonical {
  import opened Prelude
  import opened Text

  const APPROVE_V1 := "nettls-approve/v1"
  const ROTATE_V2 := "nettls-rotate/v2"
  const ROTATE_ACK_V2 := "nettls-rotate-ack/v2"
  const PAIRSECRET_V1 := "nettls-pairsecret/v1"
  const ALGSUPPORT_V1 := "nettls-algsupport/v1"

  // ---------------------------------------------------------------- field rules

  predicate IsFingerprint(v: string) {
    |v| == 64 && forall i :: 0 <= i < 64 ==> IsLowerHex(v[i])
  }

  predicate IsComponentChar(c: char) { 'a' <= c <= 'z' || '0' <= c <= '9' || c == '-' }

  predicate IsComponentName(v: string) {
    1 <= |v| <= 32 && forall i :: 0 <= i < |v| ==> IsComponentChar(v[i])
  }

  /** Unicode category Cc, what `char::is_control` answers. */
  predicate IsControl(c: char) { c as int < 0x20 || 0x7F <= c as int <= 0x9F }

  predicate IsName(v: string, max: nat) {
    1 <= |v| <= max && forall i :: 0 <= i < |v| ==> !IsControl(v[i])
  }

  /** The field rules by code point: a-z, 0-9 and the hyphen; 0-9 and a-f; anything but the two control blocks. */
  lemma FieldRules(v: string)
    ensures IsComponentName(v)
            <==> 0 < |v| <= 32
                 && forall i :: 0 <= i < |v| ==>
                      97 <= v[i] as int <= 122 || 48 <= v[i] as int <= 57 || v[i] as int == 45
    ensures IsFingerprint(v)
            <==> |v| == 64
                 && forall i :: 0 <= i < |v| ==> 48 <= v[i] as int <= 57 || 97 <= v[i] as int <= 102
    ensures IsName(v, 64)
            <==> 0 < |v| <= 64 && forall i :: 0 <= i < |v| ==> 32 <= v[i] as int < 127 || v[i] as int >= 160
  {
  }

  function Require(condition: bool): Result<Unit> {
    if condition then Ok(Unit) else Err(Params)
  }

  function RequireFingerprint(v: string): Result<Unit> { Require(IsFingerprint(v)) }

  function RequireComponentName(v: string): Result<Unit> { Require(IsComponentName(v)) }

  function RequireName(v: string, max: nat): Result<Unit> { Require(IsName(v, max)) }

  function Assemble(lines: seq<string>): Bytes { Utf8(Join(lines, '\n')) }

  // ---------------------------------------------------------------- the builders

  function ApproveV1(peer: string, fingerprint: string, approvedBy: string, timestamp: int): Result<Bytes> {
    var _ :- RequireComponentName(peer);
    var _ :- RequireFingerprint(fingerprint);
    var _ :- RequireName(approvedBy, 64);
    Ok(Assemble([APPROVE_V1, peer, fingerprint, approvedBy, Decimal(timestamp)]))
  }

  /** Absent `prev` becomes the line `-`, so the line count is fixed. */
  function PrevLine(prev: Option<string>): string {
    if prev.Some? then prev.value else "-"
  }

  function RotateV2(announcer: string, prev: Option<string>, curr: string, newFp: string, sentAt: int)
    : Result<Bytes>
  {
    var _ :- RequireComponentName(announcer);
    var _ :- (if prev.Some? then RequireFingerprint(prev.value) else Ok(Unit));
    var _ :- RequireFingerprint(curr);
    var _ :- RequireFingerprint(newFp);
    Ok(Assemble([ROTATE_V2, announcer, PrevLine(prev), curr, newFp, Decimal(sentAt)]))
  }

  function RotateAckV2(acker: string, announcer: string, newFp: string, sentAt: int): Result<Bytes> {
    var _ :- RequireComponentName(acker);
    var _ :- RequireComponentName(announcer);
    var _ :- RequireFingerprint(newFp);
    Ok(Assemble([ROTATE_ACK_V2, acker, announcer, newFp, Decimal(sentAt)]))
  }

  function PairSecretV1(a: string, b: string, sealedA: string, sealedB: string, sentAt: int): Result<Bytes> {
    var _ :- RequireComponentName(a);
    var _ :- RequireComponentName(b);
    var _ :- RequireFingerprint(sealedA);
    var _ :- RequireFingerprint(sealedB);
    Ok(Assemble([PAIRSECRET_V1, a, b, sealedA, sealedB, Decimal(sentAt)]))
  }

  // ---------------------------------------------------------------- the token loop of algsupport

  /** The fixed token order, which is also the preference order. */
  const ORDER: seq<string> := ["aegis256", "xchacha20", "aes256gcm"]

  function TokenPosition(token: string): (p: Option<nat>)
    ensures p.Some? <==> token in ORDER
    ensures p.Some? ==> p.value < 3 && ORDER[p.value] == token
  {
    if token == ORDER[0] then Some(0)
    else if token == ORDER[1] then Some(1)
    else if token == ORDER[2] then Some(2)
    else None
  }

  /** A strictly increasing choice of positions in the token order. */
  predicate IsSelection(ps: seq<nat>) {
    && (forall i :: 0 <= i < |ps| ==> ps[i] < 3)
    && (forall i, j :: 0 <= i < j < |ps| ==> ps[i] < ps[j])
  }

  function TokensAt(ps: seq<nat>): (tokens: seq<string>)
    requires forall i :: 0 <= i < |ps| ==> ps[i] < 3
    ensures |tokens| == |ps|
    ensures forall i :: 0 <= i < |ps| ==> tokens[i] == ORDER[ps[i]]
  {
    seq(|ps|, i requires 0 <= i < |ps| => ORDER[ps[i]])
  }

  /** The one spelling of a non-empty support set: its tokens in the fixed order, comma-joined. */
  ghost predicate IsSupportList(algs: string) {
    exists ps: seq<nat> :: ps != [] && IsSelection(ps) && algs == Join(TokensAt(ps), ',')
  }

  lemma TokensHaveNoComma(ps: seq<nat>)
    requires forall i :: 0 <= i < |ps| ==> ps[i] < 3
    ensures SeparatorFree(TokensAt(ps), ',')
  {
  }

  /** Known tokens only, each strictly after the one before it. */
  predicate InTokenOrder(tokens: seq<string>) {
    && (forall i :: 0 <= i < |tokens| ==> TokenPosition(tokens[i]).Some?)
    && (forall i :: 0 < i < |tokens| ==> TokenPosition(tokens[i - 1]).value < TokenPosition(tokens[i]).value)
  }

  function AlgSupportBytes(component: string, algs: string, timestamp: int): Result<Bytes> {
    var _ :- RequireComponentName(component);
    var _ :- Require(InTokenOrder(Split(algs, ',')));
    Ok(Assemble([ALGSUPPORT_V1, component, algs, Decimal(timestamp)]))
  }

  lemma EmptyListIsNotInOrder()
    ensures !InTokenOrder(Split("", ','))
  {
    assert Split("", ',')[0] == "";
  }

  lemma NoTokensAreInOrder(tokens: seq<string>)
    requires tokens == []
    ensures InTokenOrder(tokens)
  {
  }

  lemma NextInOrder(tokens: seq<string>, i: nat)
    requires i < |tokens| && InTokenOrder(tokens[..i])
    ensures InTokenOrder(tokens[..i + 1])
            <==> TokenPosition(tokens[i]).Some?
                 && (i > 0 ==> TokenPosition(tokens[i - 1]).Some?
                               && TokenPosition(tokens[i - 1]).value < TokenPosition(tokens[i]).value)
    ensures i > 0 ==> TokenPosition(tokens[i - 1]).Some?
    ensures InTokenOrder(tokens) ==> InTokenOrder(tokens[..i + 1])
  {
    hide TokenPosition;
    assert i > 0 ==> tokens[..i][i - 1] == tokens[i - 1];
  }

  /** `algsupport_v1`: the loop over the tokens, remembering the last position. */
  method AlgSupportV1(component: string, algs: string, timestamp: int) returns (r: Result<Bytes>)
    ensures r == AlgSupportBytes(component, algs, timestamp)
  {
    hide Assemble, Decimal, TokenPosition, IsComponentName, InTokenOrder;
    if !IsComponentName(component) {
      return Err(Params);
    }
    var tokens := Split(algs, ',');
    if algs == "" {
      EmptyListIsNotInOrder();
      return Err(Params);
    }
    var lastPos: Option<nat> := None;
    NoTokensAreInOrder(tokens[..0]);
    for i := 0 to |tokens|
      invariant InTokenOrder(tokens[..i])
      invariant lastPos == if i == 0 then None else TokenPosition(tokens[i - 1])
    {
      NextInOrder(tokens, i);
      var pos := TokenPosition(tokens[i]);
      if pos.None? || (lastPos.Some? && pos.value <= lastPos.value) {
        return Err(Params);
      }
      lastPos := pos;
    }
    assert tokens[..|tokens|] == tokens;
    r := Ok(Assemble([ALGSUPPORT_V1, component, algs, Decimal(timestamp)]));
  }

  lemma {:induction false} PositionsIncrease(tokens: seq<string>, i: nat, j: nat)
    requires InTokenOrder(tokens) && i < j < |tokens|
    ensures TokenPosition(tokens[i]).value < TokenPosition(tokens[j]).value
    decreases j
  {
    if i < j - 1 {
      PositionsIncrease(tokens, i, j - 1);
    }
  }

  /** The positions of tokens in order; the only selection that yields them. */
  lemma OrderedTokensAreASelection(tokens: seq<string>)
    requires InTokenOrder(tokens)
    ensures exists ps: seq<nat> :: IsSelection(ps) && TokensAt(ps) == tokens
  {
    var ps: seq<nat> := seq(|tokens|, i requires 0 <= i < |tokens| => TokenPosition(tokens[i]).value);
    forall i, j | 0 <= i < j < |ps| ensures ps[i] < ps[j] {
      PositionsIncrease(tokens, i, j);
    }
    assert IsSelection(ps) && TokensAt(ps) == tokens;
  }

  lemma SelectionsAreOrdered(ps: seq<nat>)
    requires IsSelection(ps)
    ensures InTokenOrder(TokensAt(ps))
  {
  }

  /**
   Over all strings, the token loop accepts exactly the comma-joins of non-empty strictly increasing selections of the
   token order.
   */
  lemma SupportListGrammar(component: string, algs: string, timestamp: int)
    ensures AlgSupportBytes(component, algs, timestamp).Ok? <==> IsComponentName(component) && IsSupportList(algs)
  {
    if InTokenOrder(Split(algs, ',')) {
      OrderedTokensAreASelection(Split(algs, ','));
      JoinSplit(algs, ',');
    }
    if IsSupportList(algs) {
      var ps: seq<nat> :| ps != [] && IsSelection(ps) && algs == Join(TokensAt(ps), ',');
      SupportListSplits(ps);
      SelectionsAreOrdered(ps);
    }
  }

  lemma SupportListSplits(ps: seq<nat>)
    requires ps != [] && IsSelection(ps)
    ensures Split(Join(TokensAt(ps), ','), ',') == TokensAt(ps)
  {
    TokensHaveNoComma(ps);
    SplitJoin(TokensAt(ps), ',');
  }

  // ---------------------------------------------------------------- one view of all five forms

  datatype Message =
    | Approval(peer: string, fingerprint: string, approvedBy: string, timestamp: int)
    | Rotate(announcer: string, prev: Option<string>, curr: string, newFp: string, sentAt: int)
    | RotateAck(acker: string, announcer: string, newFp: string, sentAt: int)
    | PairSecret(a: string, b: string, sealedA: string, sealedB: string, sentAt: int)
    | AlgSupport(component: string, algs: string, timestamp: int)

  /** The value a successful builder call returns, for every form. */
  predicate Builds(m: Message, bytes: Bytes) {
    match m
    case Approval(p, f, who, t) => ApproveV1(p, f, who, t) == Ok(bytes)
    case Rotate(a, p, c, f, t) => RotateV2(a, p, c, f, t) == Ok(bytes)
    case RotateAck(k, a, f, t) => RotateAckV2(k, a, f, t) == Ok(bytes)
    case PairSecret(a, b, x, y, t) => PairSecretV1(a, b, x, y, t) == Ok(bytes)
    case AlgSupport(c, algs, t) => AlgSupportBytes(c, algs, t) == Ok(bytes)
  }

  function Lines(m: Message): (lines: seq<string>)
    ensures |lines| > 0
  {
    match m
    case Approval(p, f, who, t) => [APPROVE_V1, p, f, who, Decimal(t)]
    case Rotate(a, p, c, f, t) => [ROTATE_V2, a, PrevLine(p), c, f, Decimal(t)]
    case RotateAck(k, a, f, t) => [ROTATE_ACK_V2, k, a, f, Decimal(t)]
    case PairSecret(a, b, x, y, t) => [PAIRSECRET_V1, a, b, x, y, Decimal(t)]
    case AlgSupport(c, algs, t) => [ALGSUPPORT_V1, c, algs, Decimal(t)]
  }

  /** What each form demands of its fields. */
  ghost predicate FieldsOk(m: Message) {
    match m
    case Approval(p, f, who, _) => IsComponentName(p) && IsFingerprint(f) && IsName(who, 64)
    case Rotate(a, p, c, f, _) =>
      IsComponentName(a) && (p.Some? ==> IsFingerprint(p.value)) && IsFingerprint(c) && IsFingerprint(f)
    case RotateAck(k, a, f, _) => IsComponentName(k) && IsComponentName(a) && IsFingerprint(f)
    case PairSecret(a, b, x, y, _) =>
      IsComponentName(a) && IsComponentName(b) && IsFingerprint(x) && IsFingerprint(y)
    case AlgSupport(c, algs, _) => IsComponentName(c) && IsSupportList(algs)
  }

  function Line(text: string, rest: string): string { text + "\n" + rest }

  /** The text each form signs, written out. */
  function Signable(m: Message): string {
    match m
    case Approval(p, f, who, t) => Line("nettls-approve/v1", Line(p, Line(f, Line(who, Decimal(t)))))
    case Rotate(a, p, c, f, t) =>
      Line("nettls-rotate/v2", Line(a, Line(if p.Some? then p.value else "-", Line(c, Line(f, Decimal(t))))))
    case RotateAck(k, a, f, t) => Line("nettls-rotate-ack/v2", Line(k, Line(a, Line(f, Decimal(t)))))
    case PairSecret(a, b, x, y, t) =>
      Line("nettls-pairsecret/v1", Line(a, Line(b, Line(x, Line(y, Decimal(t))))))
    case AlgSupport(c, algs, t) => Line("nettls-algsupport/v1", Line(c, Line(algs, Decimal(t))))
  }

  lemma JoinLine(text: string, rest: seq<string>)
    requires rest != []
    ensures Join([text] + rest, '\n') == Line(text, Join(rest, '\n'))
  {
    assert ([text] + rest)[1..] == rest;
  }

  lemma FourLines(a: string, b: string, c: string, d: string)
    ensures Join([a, b, c, d], '\n') == Line(a, Line(b, Line(c, d)))
  {
    hide Join, Line;
    JoinLine(a, [b, c, d]);
    JoinLine(b, [c, d]);
    JoinLine(c, [d]);
    LastLine(d);
    assert [a] + [b, c, d] == [a, b, c, d] && [b] + [c, d] == [b, c, d] && [c] + [d] == [c, d];
  }

  lemma LastLine(d: string)
    ensures Join([d], '\n') == d
  {
  }

  lemma FiveLines(a: string, b: string, c: string, d: string, e: string)
    ensures Join([a, b, c, d, e], '\n') == Line(a, Line(b, Line(c, Line(d, e))))
  {
    hide Join, Line;
    JoinLine(a, [b, c, d, e]);
    FourLines(b, c, d, e);
    assert [a] + [b, c, d, e] == [a, b, c, d, e];
  }

  lemma SixLines(a: string, b: string, c: string, d: string, e: string, f: string)
    ensures Join([a, b, c, d, e, f], '\n') == Line(a, Line(b, Line(c, Line(d, Line(e, f)))))
  {
    hide Join, Line;
    JoinLine(a, [b, c, d, e, f]);
    FiveLines(b, c, d, e, f);
    assert [a] + [b, c, d, e, f] == [a, b, c, d, e, f];
  }

  lemma LinesAreSignable(m: Message)
    ensures Join(Lines(m), '\n') == Signable(m)
  {
    hide Join, Decimal, Line;
    match m
    case Approval(p, f, who, t) => FiveLines(APPROVE_V1, p, f, who, Decimal(t));
    case Rotate(a, p, c, f, t) => SixLines(ROTATE_V2, a, PrevLine(p), c, f, Decimal(t));
    case RotateAck(k, a, f, t) => FiveLines(ROTATE_ACK_V2, k, a, f, Decimal(t));
    case PairSecret(a, b, x, y, t) => SixLines(PAIRSECRET_V1, a, b, x, y, Decimal(t));
    case AlgSupport(c, algs, t) => FourLines(ALGSUPPORT_V1, c, algs, Decimal(t));
  }

  /** A builder returns bytes exactly when the fields are legal, and then the UTF-8 form of exactly that text. */
  lemma BuiltIsSignable(m: Message, bytes: Bytes)
    ensures Builds(m, bytes) <==> FieldsOk(m) && bytes == Utf8(Signable(m))
  {
    hide Join, Decimal, IsFingerprint, IsComponentName, IsName, IsSupportList, InTokenOrder, Utf8, Signable;
    LinesAreSignable(m);
    if m.AlgSupport? {
      SupportListGrammar(m.component, m.algs, m.timestamp);
    }
  }

  lemma AssembledLines(m: Message)
    ensures Assemble(Lines(m)) == Utf8(Signable(m))
  {
    hide Signable, Utf8, Join, Lines;
    LinesAreSignable(m);
  }

  /** The same for each builder, with the error it returns otherwise. */
  lemma ApproveResult(p: string, f: string, who: string, t: int)
    ensures var m := Approval(p, f, who, t);
            ApproveV1(p, f, who, t) == if FieldsOk(m) then Ok(Utf8(Signable(m))) else Err(Params)
  {
    hide Signable, Utf8, Join, Assemble, Decimal, IsFingerprint, IsComponentName, IsName;
    AssembledLines(Approval(p, f, who, t));
  }

  lemma RotateResult(a: string, p: Option<string>, c: string, f: string, t: int)
    ensures var m := Rotate(a, p, c, f, t);
            RotateV2(a, p, c, f, t) == if FieldsOk(m) then Ok(Utf8(Signable(m))) else Err(Params)
  {
    hide Signable, Utf8, Join, Assemble, Decimal, IsFingerprint, IsComponentName, IsName;
    AssembledLines(Rotate(a, p, c, f, t));
  }

  lemma RotateAckResult(k: string, a: string, f: string, t: int)
    ensures var m := RotateAck(k, a, f, t);
            RotateAckV2(k, a, f, t) == if FieldsOk(m) then Ok(Utf8(Signable(m))) else Err(Params)
  {
    hide Signable, Utf8, Join, Assemble, Decimal, IsFingerprint, IsComponentName, IsName;
    AssembledLines(RotateAck(k, a, f, t));
  }

  lemma PairSecretResult(a: string, b: string, x: string, y: string, t: int)
    ensures var m := PairSecret(a, b, x, y, t);
            PairSecretV1(a, b, x, y, t) == if FieldsOk(m) then Ok(Utf8(Signable(m))) else Err(Params)
  {
    hide Signable, Utf8, Join, Assemble, Decimal, IsFingerprint, IsComponentName, IsName;
    AssembledLines(PairSecret(a, b, x, y, t));
  }

  lemma AlgSupportResult(c: string, algs: string, t: int)
    ensures var m := AlgSupport(c, algs, t);
            AlgSupportBytes(c, algs, t) == if FieldsOk(m) then Ok(Utf8(Signable(m))) else Err(Params)
  {
    hide Signable, Utf8, Join, Assemble, Decimal, IsComponentName, IsSupportList, InTokenOrder;
    SupportListGrammar(c, algs, t);
    AssembledLines(AlgSupport(c, algs, t));
  }

  /** No field can carry a newline into the format. */
  lemma BuiltLinesHaveNoNewline(m: Message, bytes: Bytes)
    requires Builds(m, bytes)
    ensures SeparatorFree(Lines(m), '\n')
    ensures bytes == Assemble(Lines(m))
  {
    hide Assemble, Decimal;
    match m {
      case Approval(p, f, who, t) =>
        DecimalHasNoNewline(t);
        assert '\n' !in f && '\n' !in p && '\n' !in who;
      case Rotate(a, p, c, f, t) =>
        DecimalHasNoNewline(t);
        assert '\n' !in c && '\n' !in f && '\n' !in a;
      case RotateAck(k, a, f, t) =>
        DecimalHasNoNewline(t);
        assert '\n' !in f && '\n' !in k && '\n' !in a;
      case PairSecret(a, b, x, y, t) =>
        DecimalHasNoNewline(t);
        assert '\n' !in x && '\n' !in y && '\n' !in a && '\n' !in b;
      case AlgSupport(c, algs, t) =>
        DecimalHasNoNewline(t);
        SupportListGrammar(c, algs, t);
        SupportListHasNoNewline(algs);
    }
  }

  lemma SupportListHasNoNewline(algs: string)
    requires IsSupportList(algs)
    ensures '\n' !in algs
  {
    var ps: seq<nat> :| ps != [] && IsSelection(ps) && algs == Join(TokensAt(ps), ',');
    assert '\n' !in ORDER[0] && '\n' !in ORDER[1] && '\n' !in ORDER[2];
    JoinAvoids(TokensAt(ps), ',', '\n');
  }

  lemma {:induction false} JoinAvoids(parts: seq<string>, sep: char, c: char)
    requires SeparatorFree(parts, c) && c != sep
    ensures c !in Join(parts, sep)
  {
    if |parts| > 1 {
      assert forall i :: 0 <= i < |parts| - 1 ==> parts[1..][i] == parts[i + 1];
      JoinAvoids(parts[1..], sep, c);
      assert c !in parts[0];
    } else if |parts| == 1 {
      assert c !in parts[0];
    }
  }

  lemma LinesInjective(m: Message, n: Message, b: Bytes)
    requires Builds(m, b) && Builds(n, b)
    requires Lines(m) == Lines(n)
    ensures m == n
  {
    var (x, y) := (Lines(m), Lines(n));
    assert x[0] == y[0];
    assert APPROVE_V1 != ALGSUPPORT_V1 && ROTATE_ACK_V2 != APPROVE_V1 && ROTATE_ACK_V2[14] != ROTATE_V2[13];
    if m.Approval? {
      assert n.Approval? by { assert |y| == 5; }
      DecimalInjective(m.timestamp, n.timestamp) by { assert x[4] == y[4]; }
      assert x[1] == y[1] && x[2] == y[2] && x[3] == y[3];
    } else if m.Rotate? {
      assert n.Rotate? by { assert |y| == 6; assert |y[0]| == 16; }
      DecimalInjective(m.sentAt, n.sentAt) by { assert x[5] == y[5]; }
      assert x[1] == y[1] && x[2] == y[2] && x[3] == y[3] && x[4] == y[4];
      assert |"-"| != 64;
    } else if m.RotateAck? {
      assert n.RotateAck? by { assert |y| == 5; }
      DecimalInjective(m.sentAt, n.sentAt) by { assert x[4] == y[4]; }
      assert x[1] == y[1] && x[2] == y[2] && x[3] == y[3];
    } else if m.PairSecret? {
      assert n.PairSecret? by { assert |y| == 6; assert |y[0]| == 20; }
      DecimalInjective(m.sentAt, n.sentAt) by { assert x[5] == y[5]; }
      assert x[1] == y[1] && x[2] == y[2] && x[3] == y[3] && x[4] == y[4];
    } else {
      assert n.AlgSupport? by { assert |y| == 4; }
      DecimalInjective(m.timestamp, n.timestamp) by { assert x[3] == y[3]; }
      assert x[1] == y[1] && x[2] == y[2];
    }
  }

  /** Equal bytes mean the same message form and the same value in every field. */
  lemma CanonicalInjective(m: Message, n: Message, bytes: Bytes)
    requires Builds(m, bytes) && Builds(n, bytes)
    ensures m == n
  {
    BuiltLinesHaveNoNewline(m, bytes);
    BuiltLinesHaveNoNewline(n, bytes);
    Utf8Injective(Join(Lines(m), '\n'), Join(Lines(n), '\n'));
    SplitJoin(Lines(m), '\n');
    SplitJoin(Lines(n), '\n');
    LinesInjective(m, n, bytes);
  }
}
