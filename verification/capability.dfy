/** Signed support statements and the fallback rule (src/capability.rs), over ideal signatures. */
module Capability {
  import opened Prelude
  import opened Text
  import opened Canonical
  import opened Announcements

  /** `Other` stands for any algorithm a later `krypto` adds to its non-exhaustive enum. */
  datatype Alg = Aegis256 | XChaCha20Poly1305 | Aes256Gcm | Other

  /** The preference order, which is also the token order. */
  const PREFERENCE: seq<Alg> := [Aegis256, XChaCha20Poly1305, Aes256Gcm]

  function AlgToken(alg: Alg): string {
    match alg
    case Aegis256 => "aegis256"
    case XChaCha20Poly1305 => "xchacha20"
    case Aes256Gcm => "aes256gcm"
    case Other => "unknown"
  }

  function AlgFromToken(token: string): Result<Alg> {
    if token == "aegis256" then Ok(Aegis256)
    else if token == "xchacha20" then Ok(XChaCha20Poly1305)
    else if token == "aes256gcm" then Ok(Aes256Gcm)
    else Err(Params)
  }

  /** Over all strings: a token is read exactly as the algorithm it is written for. */
  lemma TokensReadBack(token: string, alg: Alg)
    ensures AlgFromToken(token) == Ok(alg) <==> alg != Other && token == AlgToken(alg)
    ensures AlgFromToken(token).Err? ==> AlgFromToken(token).error == Params
    ensures AlgFromToken(AlgToken(Other)).Err?
  {
  }

  datatype SupportStatement = SupportStatement(component: string, supported: seq<string>, timestamp: int, sig: Sig)

  // ---------------------------------------------------------------- signing

  /** `PREFERENCE.iter().filter(|a| supported.contains(a))`, from the front. */
  function Filtered(order: seq<Alg>, supported: seq<Alg>): seq<Alg> {
    if order == [] then []
    else (if order[0] in supported then [order[0]] else []) + Filtered(order[1..], supported)
  }

  function Tokens(algs: seq<Alg>): (tokens: seq<string>)
    ensures |tokens| == |algs|
    ensures forall i :: 0 <= i < |algs| ==> tokens[i] == AlgToken(algs[i])
  {
    seq(|algs|, i requires 0 <= i < |algs| => AlgToken(algs[i]))
  }

  function Signed(component: string, supported: seq<Alg>, timestamp: int, anchor: Key): Result<SupportStatement> {
    if supported == [] then Err(Params)
    else
      var tokens := Tokens(Filtered(PREFERENCE, supported));
      if |tokens| != |supported| then Err(Params)
      else
        var bytes :- AlgSupportBytes(component, Join(tokens, ','), timestamp);
        Ok(SupportStatement(component, tokens, timestamp, Sig(anchor, bytes)))
  }

  // ---------------------------------------------------------------- verifying

  function AlgsFromTokens(tokens: seq<string>): Result<seq<Alg>> {
    if tokens == [] then Ok([])
    else
      var alg :- AlgFromToken(tokens[0]);
      var rest :- AlgsFromTokens(tokens[1..]);
      Ok([alg] + rest)
  }

  function VerifyStatement(s: SupportStatement, signer: Cert): Result<seq<Alg>> {
    var bytes :- AlgSupportBytes(s.component, Join(s.supported, ','), s.timestamp);
    var _ :- VerifySig(signer.key, bytes, s.sig);
    AlgsFromTokens(s.supported)
  }

  // ---------------------------------------------------------------- the fallback rule

  function FirstIn(order: seq<Alg>, supported: seq<Alg>): Option<Alg> {
    if order == [] then None
    else if order[0] in supported then Some(order[0])
    else FirstIn(order[1..], supported)
  }

  function Choose(requested: Alg, verified: Option<seq<Alg>>): Result<Alg> {
    if verified.None? then Ok(requested)
    else if requested in verified.value then Ok(requested)
    else
      var best := FirstIn(PREFERENCE, verified.value);
      if best.Some? then Ok(best.value) else Err(Negotiation)
  }

  // ---------------------------------------------------------------- lists in preference order

  /** The algorithms at a strictly increasing choice of places in the preference order. */
  function AlgsAt(ps: seq<nat>): (algs: seq<Alg>)
    requires IsSelection(ps)
    ensures |algs| == |ps|
  {
    seq(|ps|, i requires 0 <= i < |ps| => PREFERENCE[ps[i]])
  }

  predicate NoRepeats(algs: seq<Alg>) {
    forall i, j :: 0 <= i < j < |algs| ==> algs[i] != algs[j]
  }

  function AsSet(algs: seq<Alg>): set<Alg> { set a | a in algs }

  lemma TokensOfSelection(ps: seq<nat>)
    requires IsSelection(ps)
    ensures Tokens(AlgsAt(ps)) == TokensAt(ps)
  {
  }

  lemma {:induction false} AlgsFromTokensOfSelection(ps: seq<nat>)
    requires IsSelection(ps)
    ensures AlgsFromTokens(TokensAt(ps)) == Ok(AlgsAt(ps))
  {
    if ps == [] {
    } else {
      assert IsSelection(ps[1..]);
      AlgsFromTokensOfSelection(ps[1..]);
      assert TokensAt(ps)[1..] == TokensAt(ps[1..]);
      assert AlgsAt(ps) == [PREFERENCE[ps[0]]] + AlgsAt(ps[1..]);
    }
  }

  lemma {:induction false} FilteredFrom(k: nat, supported: seq<Alg>) returns (ps: seq<nat>)
    requires k <= 3
    ensures IsSelection(ps) && (forall i :: 0 <= i < |ps| ==> k <= ps[i])
    ensures Filtered(PREFERENCE[k..], supported) == AlgsAt(ps)
    ensures forall i :: k <= i < 3 ==> (PREFERENCE[i] in supported <==> i in ps)
    decreases 3 - k
  {
    hide Filtered;
    if k == 3 {
      ps := [];
      assert PREFERENCE[3..] == [];
      NothingFiltered(supported);
    } else {
      var tail := FilteredFrom(k + 1, supported);
      FilteredStep(PREFERENCE, k, supported);
      if PREFERENCE[k] in supported {
        ps := [k] + tail;
        assert AlgsAt(ps) == [PREFERENCE[k]] + AlgsAt(tail);
      } else {
        ps := tail;
      }
    }
  }

  lemma NothingFiltered(supported: seq<Alg>)
    ensures Filtered([], supported) == []
  {
  }

  lemma FilteredStep(order: seq<Alg>, k: nat, supported: seq<Alg>)
    requires k < |order|
    ensures Filtered(order[k..], supported)
            == (if order[k] in supported then [order[k]] else []) + Filtered(order[k + 1..], supported)
  {
  }

  /** The filter is the selection of exactly the declared algorithms. */
  lemma FilteredIsSelection(supported: seq<Alg>) returns (ps: seq<nat>)
    ensures IsSelection(ps) && Filtered(PREFERENCE, supported) == AlgsAt(ps)
    ensures AsSet(AlgsAt(ps)) == AsSet(supported) - {Other}
  {
    ps := FilteredFrom(0, supported);
    assert PREFERENCE[0..] == PREFERENCE;
    forall x ensures x in AlgsAt(ps) <==> x in supported && x != Other {
      PlaceOf(x, ps);
    }
  }

  lemma PlaceOf(x: Alg, ps: seq<nat>)
    requires IsSelection(ps)
    ensures x in AlgsAt(ps) <==> exists k :: 0 <= k < 3 && PREFERENCE[k] == x && k in ps
    ensures x != Other <==> exists k :: 0 <= k < 3 && PREFERENCE[k] == x
  {
    if k :| 0 <= k < 3 && PREFERENCE[k] == x && k in ps {
      var i :| 0 <= i < |ps| && ps[i] == k;
      assert AlgsAt(ps)[i] == x;
    }
    assert PREFERENCE[0] == Aegis256 && PREFERENCE[1] == XChaCha20Poly1305 && PREFERENCE[2] == Aes256Gcm;
  }

  lemma {:induction false} SizeOfSet(algs: seq<Alg>)
    ensures |AsSet(algs)| <= |algs|
    ensures |AsSet(algs)| == |algs| <==> NoRepeats(algs)
  {
    if algs != [] {
      var (head, tail) := (algs[0], algs[1..]);
      SizeOfSet(tail);
      assert AsSet(algs) == AsSet(tail) + {head};
      assert NoRepeats(algs) <==> NoRepeats(tail) && head !in tail by {
        if NoRepeats(tail) && head !in tail {
          forall i, j | 0 <= i < j < |algs| ensures algs[i] != algs[j] {
            assert algs[j] == tail[j - 1] && (i > 0 ==> algs[i] == tail[i - 1]);
          }
        }
        if NoRepeats(algs) {
          forall i, j | 0 <= i < j < |tail| ensures tail[i] != tail[j] {
            assert tail[i] == algs[i + 1] && tail[j] == algs[j + 1];
          }
        }
      }
    }
  }

  // ---------------------------------------------------------------- main results

  lemma SelectionsDoNotRepeat(ps: seq<nat>)
    requires IsSelection(ps)
    ensures NoRepeats(AlgsAt(ps))
  {
  }

  /** `signed` accepts exactly the non-empty lists of known algorithms without a repeat, from a well-named component. */
  lemma SignedAccepts(component: string, supported: seq<Alg>, timestamp: int, anchor: Key)
    ensures Signed(component, supported, timestamp, anchor).Ok?
            <==> IsComponentName(component) && supported != [] && NoRepeats(supported) && Other !in supported
    ensures Signed(component, supported, timestamp, anchor).Err? ==>
              Signed(component, supported, timestamp, anchor).error == Params
  {
    hide TokensAt, IsComponentName, AlgsAt, IsSelection, NoRepeats, Filtered, Join, AlgSupportBytes;
    var ps := FilteredIsSelection(supported);
    TokensOfSelection(ps);
    SizeOfSet(supported);
    SizeOfSet(AlgsAt(ps));
    SelectionsDoNotRepeat(ps);
    assert Other in supported ==> |AsSet(supported) - {Other}| == |AsSet(supported)| - 1;
    if ps != [] {
      SupportListGrammar(component, Join(TokensAt(ps), ','), timestamp);
    }
    AlgSupportResult(component, Join(TokensAt(ps), ','), timestamp);
  }

  /** What `signed` makes: component and time as given, the tokens of the list, signed with the anchor's key. */
  lemma SignedFields(component: string, supported: seq<Alg>, timestamp: int, anchor: Key)
    requires Signed(component, supported, timestamp, anchor).Ok?
    ensures var s := Signed(component, supported, timestamp, anchor).value;
            && s.component == component && s.timestamp == timestamp
            && (set t | t in s.supported) == (set a | a in supported :: AlgToken(a))
            && s.sig == Sig(anchor, Utf8(Signable(AlgSupport(component, Join(s.supported, ','), timestamp))))
  {
    var s := Signed(component, supported, timestamp, anchor).value;
    SignedAccepts(component, supported, timestamp, anchor);
    var ps := FilteredIsSelection(supported);
    TokensOfSelection(ps);
    BuiltIsSignable(AlgSupport(component, Join(s.supported, ','), timestamp), s.sig.message);
    TokensOfSet(AlgsAt(ps), supported);
  }

  lemma TokensOfSet(algs: seq<Alg>, supported: seq<Alg>)
    requires AsSet(algs) == AsSet(supported)
    ensures (set t | t in Tokens(algs)) == (set a | a in supported :: AlgToken(a))
  {
    forall t ensures t in Tokens(algs) <==> exists a :: a in supported && AlgToken(a) == t {
      if t in Tokens(algs) {
        var i :| 0 <= i < |algs| && Tokens(algs)[i] == t;
        assert algs[i] in AsSet(algs);
      }
      if a :| a in supported && AlgToken(a) == t {
        assert a in AsSet(algs);
        var i :| 0 <= i < |algs| && algs[i] == a;
        assert Tokens(algs)[i] == t;
      }
    }
  }

  /** `verify` after `signed`: the declared set, in preference order, under exactly the signer's key. */
  lemma VerifyAfterSigned(component: string, supported: seq<Alg>, timestamp: int, anchor: Key, signer: Cert)
    requires Signed(component, supported, timestamp, anchor).Ok?
    ensures var r := VerifyStatement(Signed(component, supported, timestamp, anchor).value, signer);
            && (r.Ok? <==> signer.key == Some(anchor))
            && (r.Ok? ==> AsSet(r.value) == AsSet(supported) && |r.value| == |supported|
                          && exists ps :: IsSelection(ps) && r.value == AlgsAt(ps))
  {
    var ps := FilteredIsSelection(supported);
    TokensOfSelection(ps);
    AlgsFromTokensOfSelection(ps);
    SignedAccepts(component, supported, timestamp, anchor);
  }

  /**
   What `verify` accepts, over all statements: the canonical token list of one non-empty selection, signed by the
   signer. A list that merely joins to a canonical string, with two tokens in one element, is refused.
   */
  lemma VerifyAccepts(s: SupportStatement, signer: Cert, algs: seq<Alg>)
    ensures VerifyStatement(s, signer) == Ok(algs)
            <==> (exists ps :: IsSelection(ps) && ps != [] && s.supported == TokensAt(ps) && algs == AlgsAt(ps))
                 && IsComponentName(s.component)
                 && signer.key == Some(s.sig.key)
                 && Ok(s.sig.message) == AlgSupportBytes(s.component, Join(s.supported, ','), s.timestamp)
  {
    SupportListGrammar(s.component, Join(s.supported, ','), s.timestamp);
    if exists ps :: IsSelection(ps) && ps != [] && s.supported == TokensAt(ps) && algs == AlgsAt(ps) {
      var ps :| IsSelection(ps) && ps != [] && s.supported == TokensAt(ps) && algs == AlgsAt(ps);
      AlgsFromTokensOfSelection(ps);
    }
    if VerifyStatement(s, signer) == Ok(algs) {
      var qs: seq<nat> :| qs != [] && IsSelection(qs) && Join(s.supported, ',') == Join(TokensAt(qs), ',');
      KnownTokensHaveNoComma(s.supported);
      TokensHaveNoComma(qs);
      assert s.supported != [] by {
        SupportListSplits(qs);
      }
      SplitJoin(s.supported, ',');
      SupportListSplits(qs);
      AlgsFromTokensOfSelection(qs);
    }
  }

  lemma {:induction false} KnownTokensHaveNoComma(tokens: seq<string>)
    requires AlgsFromTokens(tokens).Ok?
    ensures SeparatorFree(tokens, ',')
  {
    if tokens != [] {
      KnownTokensHaveNoComma(tokens[1..]);
      forall i | 0 <= i < |tokens| ensures ',' !in tokens[i] {
        if i > 0 {
          assert tokens[i] == tokens[1..][i - 1];
        }
      }
    }
  }

  /**
   The fallback rule over a verified statement never fails: it is the requested algorithm if that was declared, and
   otherwise the best one declared. Hard failure needs a list that `verify` cannot return.
   */
  lemma FallbackAfterVerify(s: SupportStatement, signer: Cert, requested: Alg)
    requires VerifyStatement(s, signer).Ok?
    ensures var algs := VerifyStatement(s, signer).value;
            algs != [] && Choose(requested, Some(algs)) == Ok(if requested in algs then requested else algs[0])
  {
    hide VerifyStatement, AlgSupportBytes, TokensAt, IsComponentName;
    var algs := VerifyStatement(s, signer).value;
    VerifyAccepts(s, signer, algs);
    var ps :| IsSelection(ps) && ps != [] && s.supported == TokensAt(ps) && algs == AlgsAt(ps);
    assert algs[0] == PREFERENCE[ps[0]];
    EarlierIsAbsent(ps);
    FirstInOrder(PREFERENCE, algs, ps[0]);
  }

  /** The rule over any list: it fails exactly when neither the request nor any known algorithm was declared. */
  lemma {:induction false} ChooseFailsExactly(requested: Alg, declared: seq<Alg>)
    ensures Choose(requested, Some(declared)).Err?
            <==> requested !in declared && forall a :: a in declared ==> a == Other
    ensures Choose(requested, Some(declared)).Ok? ==> Choose(requested, Some(declared)).value in declared
    ensures Choose(requested, Some(declared)).Err? ==> Choose(requested, Some(declared)).error == Negotiation
    ensures requested in declared ==> Choose(requested, Some(declared)) == Ok(requested)
    ensures Choose(requested, None) == Ok(requested)
  {
    FirstInFinds(PREFERENCE, declared);
    assert PREFERENCE[0] == Aegis256 && PREFERENCE[1] == XChaCha20Poly1305 && PREFERENCE[2] == Aes256Gcm;
  }

  lemma {:induction false} FirstInFinds(order: seq<Alg>, algs: seq<Alg>)
    ensures FirstIn(order, algs).None? <==> forall a :: a in order ==> a !in algs
    ensures FirstIn(order, algs).Some? ==> FirstIn(order, algs).value in algs
  {
    if order != [] {
      FirstInFinds(order[1..], algs);
    }
  }

  lemma EarlierIsAbsent(ps: seq<nat>)
    requires IsSelection(ps) && ps != []
    ensures forall k :: 0 <= k < ps[0] ==> PREFERENCE[k] !in AlgsAt(ps)
  {
  }

  lemma {:induction false} FirstInOrder(order: seq<Alg>, algs: seq<Alg>, k: nat)
    requires k < |order| && order[k] in algs
    requires forall i :: 0 <= i < k ==> order[i] !in algs
    ensures FirstIn(order, algs) == Some(order[k])
  {
    if k > 0 {
      assert order[0] !in algs;
      FirstInOrder(order[1..], algs, k - 1);
    }
  }
}
