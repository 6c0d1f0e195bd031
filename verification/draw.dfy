/** Drawing the next roll time: rejection sampling over 64-bit words (src/announcer.rs:63-90). */
module Draw {
  import opened Prelude

  const DAY_S := 86400
  const NOMINAL_AGE_DAYS := 7
  const SPREAD_DAYS := 2

  const U64_MAX: nat := 0xFFFF_FFFF_FFFF_FFFF
  const ATTEMPTS: nat := 64

  /** Words at or above the limit are rejected. */
  function Limit(bound: nat): (limit: nat)
    requires 0 < bound
    ensures limit <= U64_MAX
  {
    U64_MAX - U64_MAX % bound
  }

  /** The first accepted word decides; a failing generator or 64 rejections in a row are errors. */
  function FirstAccepted(bound: nat, words: seq<Option<nat>>): Result<nat>
    requires 0 < bound
  {
    if words == [] || words[0].None? then Err(Generate)
    else if words[0].value < Limit(bound) then Ok(words[0].value % bound)
    else FirstAccepted(bound, words[1..])
  }

  /** The draw, said without the loop: word `i` decides, and every word before it was there and too large. */
  ghost predicate DecidedBy(bound: nat, words: seq<Option<nat>>, i: nat, v: nat)
    requires 0 < bound
  {
    && i < |words| && words[i].Some? && words[i].value < Limit(bound) && v == words[i].value % bound
    && forall j :: 0 <= j < i ==> words[j].Some? && words[j].value >= Limit(bound)
  }

  ghost predicate DecidedInTime(bound: nat, words: seq<Option<nat>>, v: nat)
    requires 0 < bound
  {
    exists i: nat :: i < 64 && DecidedBy(bound, words, i, v)
  }

  /** Whether a later word decides is a matter of the words after a rejected one. */
  lemma DecidedLater(bound: nat, words: seq<Option<nat>>, v: nat)
    requires 0 < bound && words != [] && words[0].Some? && words[0].value >= Limit(bound)
    ensures (exists i: nat :: DecidedBy(bound, words, i, v)) <==> exists i: nat :: DecidedBy(bound, words[1..], i, v)
  {
    hide Limit;
    var rest := words[1..];
    if i: nat :| DecidedBy(bound, rest, i, v) {
      forall j | 0 <= j < i + 1 ensures words[j].Some? && words[j].value >= Limit(bound) {
        assert j > 0 ==> words[j] == rest[j - 1];
      }
      assert words[i + 1] == rest[i];
      assert DecidedBy(bound, words, i + 1, v);
    }
    if i: nat :| DecidedBy(bound, words, i, v) {
      forall j | 0 <= j < i - 1 ensures rest[j].Some? && rest[j].value >= Limit(bound) {
        assert rest[j] == words[j + 1];
      }
      assert rest[i - 1] == words[i];
      assert DecidedBy(bound, rest, i - 1, v);
    }
  }

  lemma {:induction false} FirstAcceptedExactly(bound: nat, words: seq<Option<nat>>, v: nat)
    requires 0 < bound
    ensures FirstAccepted(bound, words) == Ok(v) <==> exists i: nat :: DecidedBy(bound, words, i, v)
  {
    hide Limit;
    if words != [] && words[0].Some? {
      if words[0].value < Limit(bound) {
        assert words[0].value % bound == v ==> DecidedBy(bound, words, 0, v);
      } else {
        FirstAcceptedExactly(bound, words[1..], v);
        DecidedLater(bound, words, v);
      }
    }
  }

  /** The limit is the largest multiple of the bound that the word range allows. */
  lemma LimitExactly(bound: nat)
    requires 0 < bound
    ensures Limit(bound) % bound == 0 && U64_MAX - Limit(bound) < bound
  {
    var q := U64_MAX / bound;
    assert U64_MAX == q * bound + U64_MAX % bound;
    ModOfMultiple(q, bound, 0);
  }

  /** `tilfeldig_under`; `words` is what the generator would answer, `None` for a failing call. */
  method RandomBelow(bound: nat, words: seq<Option<nat>>) returns (r: Result<nat>)
    requires ATTEMPTS <= |words|
    ensures bound == 0 ==> r == Ok(0)
    ensures bound > 0 ==> r == FirstAccepted(bound, words[..ATTEMPTS])
    ensures bound > 0 ==> forall v: nat :: DecidedInTime(bound, words, v) <==> r == Ok(v)
  {
    if bound > 0 {
      forall v: nat ensures FirstAccepted(bound, words[..ATTEMPTS]) == Ok(v) <==> DecidedInTime(bound, words, v) {
        AmongTheFirst(bound, words, v);
      }
    }
    if bound == 0 {
      return Ok(0);
    }
    var limit := Limit(bound);
    for i := 0 to ATTEMPTS
      invariant FirstAccepted(bound, words[..ATTEMPTS]) == FirstAccepted(bound, words[i..ATTEMPTS])
    {
      assert words[i..ATTEMPTS][1..] == words[i + 1..ATTEMPTS];
      if words[i].None? {
        return Err(Generate);
      }
      var x := words[i].value;
      if x < limit {
        return Ok(x % bound);
      }
    }
    r := Err(Generate);
  }

  lemma AmongTheFirst(bound: nat, words: seq<Option<nat>>, v: nat)
    requires 0 < bound && ATTEMPTS <= |words|
    ensures FirstAccepted(bound, words[..ATTEMPTS]) == Ok(v) <==> DecidedInTime(bound, words, v)
  {
    var first := words[..ATTEMPTS];
    FirstAcceptedExactly(bound, first, v);
    if i: nat :| DecidedBy(bound, first, i, v) {
      assert forall j :: 0 <= j < ATTEMPTS ==> first[j] == words[j];
      assert DecidedBy(bound, words, i, v);
    }
    if i: nat :| i < 64 && DecidedBy(bound, words, i, v) {
      assert DecidedBy(bound, first, i, v);
    }
  }

  const SPREAD_S: nat := 2 * SPREAD_DAYS * DAY_S

  function RollTime(issued: int, offset: nat): int {
    issued + NOMINAL_AGE_DAYS * DAY_S + (offset - SPREAD_DAYS * DAY_S)
  }

  method DrawRollTime(issued: int, words: seq<Option<nat>>) returns (r: Result<int>)
    requires ATTEMPTS <= |words|
    ensures r.Ok? ==> issued + 5 * 86400 <= r.value < issued + 9 * 86400
    ensures forall second: nat ::
              DecidedInTime(4 * 86400, words, second) <==> r == Ok(issued + 5 * 86400 + second)
  {
    var offset := RandomBelow(SPREAD_S, words);
    if offset.Err? {
      assert forall second: nat :: DecidedInTime(SPREAD_S, words, second) ==> offset == Ok(second);
      return Err(offset.error);
    }
    FirstAcceptedIsBelow(SPREAD_S, words[..ATTEMPTS]);
    r := Ok(RollTime(issued, offset.value));
  }

  lemma {:induction false} FirstAcceptedIsBelow(bound: nat, words: seq<Option<nat>>)
    requires 0 < bound
    ensures var r := FirstAccepted(bound, words);
            r.Ok? ==> r.value < bound
                      && exists i :: 0 <= i < |words| && words[i].Some? && words[i].value < Limit(bound)
                                     && words[i].value % bound == r.value
  {
    if words != [] && words[0].Some? {
      if words[0].value >= Limit(bound) {
        FirstAcceptedIsBelow(bound, words[1..]);
        if FirstAccepted(bound, words).Ok? {
          var i :| 0 <= i < |words[1..]| && words[1..][i].Some? && words[1..][i].value < Limit(bound)
                   && words[1..][i].value % bound == FirstAccepted(bound, words).value;
          assert words[i + 1] == words[1..][i];
        }
      }
    }
  }

  // ---------------------------------------------------------------- no residue is favoured

  /** The words below `limit` that give residue `r`. */
  function WordsFor(bound: nat, limit: nat, r: nat): set<nat>
    requires 0 < bound
  {
    set x: nat | 0 <= x < limit && x % bound == r
  }

  lemma {:induction false} MultiplesPerResidue(bound: nat, q: nat, r: nat)
    requires r < bound
    ensures |WordsFor(bound, q * bound, r)| == q
  {
    if q == 0 {
      assert WordsFor(bound, 0, r) == {};
    } else {
      MultiplesPerResidue(bound, q - 1, r);
      var limit := (q - 1) * bound;
      assert q * bound == limit + bound;
      forall x: nat | limit <= x < limit + bound ensures x % bound == x - limit {
        ModOfMultiple(q - 1, bound, x - limit);
      }
      NextBlock(bound, limit, r);
    }
  }

  /** One more full round of residues adds one word. */
  lemma NextBlock(bound: nat, limit: nat, r: nat)
    requires r < bound && forall x: nat :: limit <= x < limit + bound ==> x % bound == x - limit
    ensures WordsFor(bound, limit + bound, r) == WordsFor(bound, limit, r) + {limit + r}
    ensures |WordsFor(bound, limit + bound, r)| == |WordsFor(bound, limit, r)| + 1
  {
    assert limit + r !in WordsFor(bound, limit, r);
    assert WordsFor(bound, limit + bound, r) == WordsFor(bound, limit, r) + {limit + r};
  }

  lemma ModOfMultiple(q: nat, bound: nat, r: nat)
    requires r < bound
    ensures (q * bound + r) % bound == r
    ensures (q * bound + r) / bound == q
  {
    DivModUnique(q * bound + r, bound, q, r);
  }

  lemma DivModUnique(x: int, m: int, q: int, r: int)
    requires 0 <= r < m && x == q * m + r
    ensures x / m == q && x % m == r
  {
    var (a, b) := (x / m, x % m);
    assert x == a * m + b;
    assert (a - q) * m == r - b;
    assert a - q >= 1 ==> (a - q) * m >= m;
    assert a - q <= -1 ==> (a - q) * m <= -m;
  }

  /** The single words on which the draw gives `r`. */
  function DrawnBy(bound: nat, r: nat): set<nat>
    requires 0 < bound
  {
    set x: nat | 0 <= x <= U64_MAX && FirstAccepted(bound, [Some(x)]) == Ok(r)
  }

  lemma DrawnByWords(bound: nat, r: nat)
    requires r < bound
    ensures DrawnBy(bound, r) == WordsFor(bound, Limit(bound), r)
  {
    forall x: nat ensures FirstAccepted(bound, [Some(x)]) == Ok(r) <==> x < Limit(bound) && x % bound == r {
      assert [Some(x)][1..] == [];
    }
  }

  /** Every residue is drawn by exactly the same number of words, and no more than half of all words are rejected. */
  lemma DrawIsUnbiased(bound: nat, r: nat)
    requires r < bound <= U64_MAX
    ensures |DrawnBy(bound, r)| == Limit(bound) / bound
    ensures 2 * (U64_MAX + 1 - Limit(bound)) <= U64_MAX + 1
  {
    var q := U64_MAX / bound;
    assert U64_MAX == q * bound + U64_MAX % bound;
    assert Limit(bound) == q * bound;
    ModOfMultiple(q, bound, 0);
    MultiplesPerResidue(bound, q, r);
    DrawnByWords(bound, r);
    if 2 * bound > U64_MAX {
      assert q >= 1;
      assert q * bound >= bound;
    }
  }

  /** Every second of the four-day window is equally likely. */
  lemma EverySecondIsEquallyLikely(issued: int, t: int)
    requires issued + 5 * DAY_S <= t < issued + 9 * DAY_S
    ensures var offset := t - issued - 5 * DAY_S;
            RollTime(issued, offset) == t && |DrawnBy(SPREAD_S, offset)| == Limit(SPREAD_S) / SPREAD_S
  {
    DrawIsUnbiased(SPREAD_S, t - issued - 5 * DAY_S);
  }
}
