/**
 SAN names (src/material.rs:717-783) and the Python validator of the same rule (python/nettls.py:1157-1200), both
 against one grammar: sections 2.3.1 and 2.3.4 of RFC 1035, section 2.1 of RFC 1123.
 */
module San {
  import opened Prelude
  import opened Text

  const MAX_DNS_NAME := 253
  const MAX_DNS_LABEL := 63

  predicate IsAsciiAlphanumeric(c: char) { 'a' <= c <= 'z' || 'A' <= c <= 'Z' || '0' <= c <= '9' }

  predicate IsLabelChar(c: char) { IsAsciiAlphanumeric(c) || c == '-' }

  /** By code point: digits, upper and lower case letters, hyphen. */
  lemma LabelAlphabet(c: char)
    ensures var u := c as int;
            IsLabelChar(c) <==> 48 <= u <= 57 || 65 <= u <= 90 || 97 <= u <= 122 || u == 45
  {
  }

  // ---------------------------------------------------------------- the grammar

  predicate IsLabel(part: string) {
    && 1 <= |part| <= 63
    && (forall i :: 0 <= i < |part| ==> IsLabelChar(part[i]))
    && part[0] != '-' && part[|part| - 1] != '-'
  }

  /** A wildcard may stand for the whole first label and nowhere else. */
  predicate AreLabels(parts: seq<string>, first: bool) {
    forall i :: 0 <= i < |parts| ==> (first && i == 0 && parts[i] == "*") || IsLabel(parts[i])
  }

  function Dotted(parts: seq<string>, absolute: bool): string {
    Join(parts, '.') + if absolute then "." else ""
  }

  ghost predicate IsDnsName(name: string) {
    && |name| <= 253
    && exists parts, absolute :: parts != [] && AreLabels(parts, true) && name == Dotted(parts, absolute)
  }

  // ---------------------------------------------------------------- the Rust validator

  function StripDot(name: string): string {
    if name != "" && name[|name| - 1] == '.' then name[..|name| - 1] else name
  }

  /** The first character that may not stand in a label. */
  function IllegalChar(part: string): Option<char> {
    if part == "" then None
    else if !(IsAsciiAlphanumeric(part[0]) || part[0] == '-') then Some(part[0])
    else IllegalChar(part[1..])
  }

  function CheckLabels(parts: seq<string>, first: bool): Result<Unit> {
    if parts == [] then Ok(Unit)
    else
      var part := parts[0];
      if part == "" then Err(Params)
      else if |Utf8(part)| > MAX_DNS_LABEL then Err(Params)
      else if part == "*" then (if first then CheckLabels(parts[1..], false) else Err(Params))
      else if part[0] == '-' || part[|part| - 1] == '-' then Err(Params)
      else if IllegalChar(part).Some? then Err(Params)
      else CheckLabels(parts[1..], false)
  }

  /** `isIp` is what the standard library's address parser answers for this name. */
  function ValidateSanName(name: string, isIp: bool): Result<Unit> {
    if name == "" then Err(Params)
    else if isIp then Ok(Unit)
    else if |Utf8(name)| > MAX_DNS_NAME then Err(Params)
    else if StripDot(name) == "" then Err(Params)
    else CheckLabels(Split(StripDot(name), '.'), true)
  }

  // ---------------------------------------------------------------- the Python validator

  /** Lengths are in characters here, and in bytes above. */
  function PyCheckLabels(parts: seq<string>, i: nat): Result<Unit>
    requires i <= |parts|
    decreases |parts| - i
  {
    if i == |parts| then Ok(Unit)
    else
      var part := parts[i];
      if part == "" then Err(Params)
      else if |part| > MAX_DNS_LABEL then Err(Params)
      else if part == "*" then (if i != 0 then Err(Params) else PyCheckLabels(parts, i + 1))
      else if part[0] == '-' || part[|part| - 1] == '-' then Err(Params)
      else if exists k :: 0 <= k < |part|
                     && !(part[k] as int < 0x80 && (IsAsciiAlphanumeric(part[k]) || part[k] == '-'))
      then Err(Params)
      else PyCheckLabels(parts, i + 1)
  }

  function PyValidateDnsSan(name: string): Result<Unit> {
    if name == "" then Err(Params)
    else if |name| > MAX_DNS_NAME then Err(Params)
    else
      var parts := Split(StripDot(name), '.');
      if forall k :: 0 <= k < |parts| ==> parts[k] == "" then Err(Params)
      else PyCheckLabels(parts, 0)
  }

  // ---------------------------------------------------------------- bytes and characters

  lemma {:induction false} Utf8IsNotShorter(s: string)
    ensures |s| <= |Utf8(s)|
    ensures (forall i :: 0 <= i < |s| ==> s[i] as int < 0x80) ==> |Utf8(s)| == |s|
  {
    if s != "" {
      Utf8IsNotShorter(s[1..]);
    }
  }

  lemma {:induction false} NoIllegalChar(part: string)
    ensures IllegalChar(part).None? <==> forall i :: 0 <= i < |part| ==> IsLabelChar(part[i])
  {
    if part != "" {
      NoIllegalChar(part[1..]);
      assert forall i :: 0 < i < |part| ==> part[i] == part[1..][i - 1];
    }
  }

  /** One round of the label loop: the byte length only ever differs for a label that is refused anyway. */
  lemma LabelIsLegal(part: string)
    requires part != "*"
    ensures IsLabel(part)
            <==> part != "" && |Utf8(part)| <= MAX_DNS_LABEL && part[0] != '-' && part[|part| - 1] != '-'
                 && IllegalChar(part).None?
  {
    Utf8IsNotShorter(part);
    NoIllegalChar(part);
  }

  lemma {:induction false} CheckLabelsDecides(parts: seq<string>, first: bool)
    ensures CheckLabels(parts, first).Ok? <==> AreLabels(parts, first)
  {
    hide Utf8, IllegalChar, IsLabel;
    if parts != [] {
      CheckLabelsDecides(parts[1..], false);
      AreLabelsStep(parts, first);
      StarIsNotALabel();
      if parts[0] != "*" {
        LabelIsLegal(parts[0]);
      } else {
        StarIsShort();
      }
    }
  }

  lemma StarIsNotALabel()
    ensures !IsLabel("*")
  {
  }

  lemma StarIsShort()
    ensures |Utf8("*")| <= MAX_DNS_LABEL
  {
  }

  lemma AreLabelsStep(parts: seq<string>, first: bool)
    requires parts != []
    ensures AreLabels(parts, first)
            <==> ((first && parts[0] == "*") || IsLabel(parts[0])) && AreLabels(parts[1..], false)
  {
  }

  lemma {:induction false} PyCheckLabelsDecides(parts: seq<string>, i: nat)
    requires i <= |parts|
    ensures PyCheckLabels(parts, i).Ok? <==> AreLabels(parts[i..], i == 0)
    decreases |parts| - i
  {
    if i < |parts| {
      PyCheckLabelsDecides(parts, i + 1);
      AreLabelsStep(parts[i..], i == 0);
      StarIsNotALabel();
      assert parts[i..][1..] == parts[i + 1..];
    }
  }

  // ---------------------------------------------------------------- splitting a name

  lemma LabelsHaveNoDot(parts: seq<string>)
    requires AreLabels(parts, true)
    ensures SeparatorFree(parts, '.')
  {
  }

  lemma {:induction false} JoinEnds(parts: seq<string>)
    requires parts != [] && parts[|parts| - 1] != ""
    ensures var (j, end) := (Join(parts, '.'), parts[|parts| - 1]);
            j != "" && j[|j| - 1] == end[|end| - 1]
  {
    if |parts| > 1 {
      JoinEnds(parts[1..]);
    }
  }

  /** Stripping one final dot and splitting undoes every way of writing labels down. */
  lemma DottedIsSplit(parts: seq<string>, absolute: bool)
    requires parts != [] && AreLabels(parts, true)
    ensures StripDot(Dotted(parts, absolute)) == Join(parts, '.') != ""
    ensures Split(StripDot(Dotted(parts, absolute)), '.') == parts
  {
    var end := parts[|parts| - 1];
    assert end == "*" || IsLabel(end);
    assert end[|end| - 1] != '.';
    JoinEnds(parts);
    LabelsHaveNoDot(parts);
    SplitJoin(parts, '.');
  }

  lemma WrittenNameSplits(name: string)
    requires IsDnsName(name)
    ensures AreLabels(Split(StripDot(name), '.'), true) && StripDot(name) != ""
  {
    hide AreLabels, Split, StripDot;
    var parts, absolute :| parts != [] && AreLabels(parts, true) && name == Dotted(parts, absolute);
    DottedIsSplit(parts, absolute);
  }

  lemma SplitNameIsWritten(name: string)
    requires |name| <= MAX_DNS_NAME && AreLabels(Split(StripDot(name), '.'), true)
    ensures IsDnsName(name)
  {
    hide AreLabels, Split, Join;
    JoinSplit(StripDot(name), '.');
    var absolute := name != "" && name[|name| - 1] == '.';
    assert name == Dotted(Split(StripDot(name), '.'), absolute);
  }

  /** A name is in the grammar exactly when the labels it splits into are. */
  lemma NameIffLabels(name: string)
    ensures IsDnsName(name) <==> |name| <= MAX_DNS_NAME && AreLabels(Split(StripDot(name), '.'), true)
    ensures IsDnsName(name) ==> StripDot(name) != ""
  {
    hide AreLabels, Split, StripDot;
    if IsDnsName(name) {
      WrittenNameSplits(name);
    }
    if |name| <= MAX_DNS_NAME && AreLabels(Split(StripDot(name), '.'), true) {
      SplitNameIsWritten(name);
    }
  }

  lemma {:induction false} JoinIsAscii(parts: seq<string>)
    requires AreLabels(parts, true)
    ensures forall i :: 0 <= i < |Join(parts, '.')| ==> Join(parts, '.')[i] as int < 0x80
    decreases |parts|
  {
    if parts != [] {
      AreLabelsStep(parts, true);
      assert AreLabels(parts[1..], true);
      JoinIsAscii(parts[1..]);
    }
  }

  lemma NamesAreAscii(name: string)
    requires IsDnsName(name)
    ensures |Utf8(name)| == |name|
  {
    var parts, absolute :| parts != [] && AreLabels(parts, true) && name == Dotted(parts, absolute);
    JoinIsAscii(parts);
    Utf8IsNotShorter(name);
  }

  // ---------------------------------------------------------------- main results

  /** The Rust validator decides the grammar, and lets addresses through. */
  lemma ValidatorDecidesGrammar(name: string, isIp: bool)
    ensures ValidateSanName(name, isIp).Ok? <==> if isIp then name != "" else IsDnsName(name)
  {
    hide AreLabels, CheckLabels, IsDnsName, Utf8, Split;
    NameIffLabels(name);
    CheckLabelsDecides(Split(StripDot(name), '.'), true);
    Utf8IsNotShorter(name);
    if IsDnsName(name) {
      NamesAreAscii(name);
    }
  }

  /** The Python validator decides the same grammar, so the two accept the same strings that are not addresses. */
  lemma ValidatorsAgree(name: string)
    ensures PyValidateDnsSan(name).Ok? <==> IsDnsName(name)
    ensures PyValidateDnsSan(name) == ValidateSanName(name, false)
  {
    hide AreLabels, CheckLabels, PyCheckLabels, IsDnsName, Utf8, Split;
    NameIffLabels(name);
    var parts := Split(StripDot(name), '.');
    PyCheckLabelsDecides(parts, 0);
    assert parts[0..] == parts;
    if AreLabels(parts, true) {
      FirstLabelIsNotEmpty(parts);
    }
    ValidatorDecidesGrammar(name, false);
    ErrorsAreParams(parts, true);
    PyErrorsAreParams(parts, 0);
  }

  lemma FirstLabelIsNotEmpty(parts: seq<string>)
    requires parts != [] && AreLabels(parts, true)
    ensures parts[0] != ""
  {
  }

  lemma {:induction false} ErrorsAreParams(parts: seq<string>, first: bool)
    ensures CheckLabels(parts, first) in {Ok(Unit), Err(Params)}
  {
    if parts != [] {
      ErrorsAreParams(parts[1..], false);
    }
  }

  lemma {:induction false} PyErrorsAreParams(parts: seq<string>, i: nat)
    requires i <= |parts|
    ensures PyCheckLabels(parts, i) in {Ok(Unit), Err(Params)}
    decreases |parts| - i
  {
    if i < |parts| {
      PyErrorsAreParams(parts, i + 1);
    }
  }
}
