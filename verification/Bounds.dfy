/** Envelopes and the bound. */
module Bounds {
  // Which actions may run without a human.

  import opened Text

  datatype Reversibility = Lossless | SelfHealing | Recoverable | Irreversible
  datatype Impact = One | Service | Tenant | Node | Fleet
  datatype Envelope = Envelope(reversibility: Reversibility, impact: Impact)

  /** For each reversibility the highest impact that may run unattended, or never. */
  type BoundPolicy = map<Reversibility, Option<Impact>>

  function ImpactRank(i: Impact): nat {
    match i
    case One => 0
    case Service => 1
    case Tenant => 2
    case Node => 3
    case Fleet => 4
  }

  const DEFAULT_BOUND: BoundPolicy :=
    map[Lossless := Some(Tenant), SelfHealing := Some(Service), Recoverable := None, Irreversible := None]

  predicate WithinBounds(envelope: Envelope, policy: BoundPolicy) {
    && envelope.reversibility in policy
    && policy[envelope.reversibility].Some?
    && ImpactRank(envelope.impact) <= ImpactRank(policy[envelope.reversibility].value)
  }

  /** 0: within the bound; 1: a plain confirmation; 2: type the target's name. */
  function ConfirmationTier(envelope: Envelope, policy: BoundPolicy): nat {
    if WithinBounds(envelope, policy) then 0
    else if envelope.reversibility.Irreversible? || ImpactRank(envelope.impact) >= ImpactRank(Node) then 2
    else 1
  }

  // -- What the bound permits, by the list of impacts --------------------------------------

  /** The impacts, rising. */
  const IMPACTS: seq<Impact> := [One, Service, Tenant, Node, Fleet]

  /** `i` stands no later than `c` in the list. */
  predicate NoWorse(i: Impact, c: Impact) {
    exists m, n :: 0 <= m <= n < |IMPACTS| && IMPACTS[m] == i && IMPACTS[n] == c
  }

  /** The policy names a highest impact for the reversibility, and the envelope stays below it. */
  predicate Permits(policy: BoundPolicy, envelope: Envelope) {
    envelope.reversibility in policy && policy[envelope.reversibility].Some?
    && NoWorse(envelope.impact, policy[envelope.reversibility].value)
  }

  lemma ListedImpacts()
    ensures IMPACTS[0] == One && IMPACTS[1] == Service && IMPACTS[2] == Tenant && IMPACTS[3] == Node && IMPACTS[4] == Fleet
  {
  }

  /** The bound is the list: an envelope is within it exactly when its impact stands no later than
      the highest one permitted; and the default permits lossless actions up to a tenant,
      self-healing ones up to a service, and nothing else. */
  lemma WithinExactly(envelope: Envelope, policy: BoundPolicy)
    ensures WithinBounds(envelope, policy) <==> Permits(policy, envelope)
    ensures WithinBounds(envelope, DEFAULT_BOUND) <==>
            (envelope.reversibility.Lossless? && NoWorse(envelope.impact, Tenant))
            || (envelope.reversibility.SelfHealing? && NoWorse(envelope.impact, Service))
  {
    ListedImpacts();
    forall i: Impact, c: Impact ensures ImpactRank(i) <= ImpactRank(c) <==> NoWorse(i, c) {
      assert IMPACTS[ImpactRank(i)] == i && IMPACTS[ImpactRank(c)] == c;
    }
  }

  /** The typed confirmation is asked for exactly outside the bound, for what cannot be undone or
      reaches a node or the fleet; no confirmation at all exactly within it. */
  lemma TierExactly(envelope: Envelope, policy: BoundPolicy)
    ensures ConfirmationTier(envelope, policy) >= 2 <==>
            !Permits(policy, envelope) && (envelope.reversibility.Irreversible? || NoWorse(Node, envelope.impact))
    ensures ConfirmationTier(envelope, policy) == 0 <==> Permits(policy, envelope)
  {
    ListedImpacts();
    WithinExactly(envelope, policy);
    assert forall m :: 0 <= m < |IMPACTS| ==> ImpactRank(IMPACTS[m]) == m;
    assert IMPACTS[ImpactRank(envelope.impact)] == envelope.impact;
  }

  // -- The `STEADYSTATE_BOUND` overlay ---------------------------------------------------

  /** One `reversibility=impact` pair of the overlay, with the names already looked up:
      `impact` is None for a name that is not an impact, `Some(None)` for "none". */
  datatype Pair = Pair(reversibility: Option<Reversibility>, impact: Option<Option<Impact>>)

  /** `_apply_bound_pair`, the effect on the policy. */
  function ApplyPair(policy: BoundPolicy, pair: Pair): BoundPolicy {
    if pair.reversibility.Some? && pair.impact.Some?
    then policy[pair.reversibility.value := pair.impact.value]
    else policy
  }

  function Overlay(policy: BoundPolicy, pairs: seq<Pair>): BoundPolicy
    decreases |pairs|
  {
    if pairs == [] then policy else Overlay(ApplyPair(policy, pairs[0]), pairs[1..])
  }

  // -- The text of the overlay -------------------------------------------------------------

  function ReversibilityNamed(name: string): Option<Reversibility> {
    if name == "lossless" then Some(Lossless)
    else if name == "self_healing" then Some(SelfHealing)
    else if name == "recoverable" then Some(Recoverable)
    else if name == "irreversible" then Some(Irreversible)
    else None
  }

  function ImpactNamed(name: string): Option<Option<Impact>> {
    if name == "none" || name == "never" || name == "" then Some(None)
    else if name == "one" then Some(Some(One))
    else if name == "service" then Some(Some(Service))
    else if name == "tenant" then Some(Some(Tenant))
    else if name == "node" then Some(Some(Node))
    else if name == "fleet" then Some(Some(Fleet))
    else None
  }

  function PairOf(key: string, value: string): Pair {
    Pair(ReversibilityNamed(Lower(Strip(key))), ImpactNamed(Lower(Strip(value))))
  }

  const SEPARATORS := ",;"

  /** `s.replace(";", ",").split(",")` */
  function Pieces(s: string): seq<string> {
    var p := Before(s, SEPARATORS);
    if |p| == |s| then [p] else [p] + Pieces(s[|p| + 1..])
  }

  /** The pairs of the pieces that contain "="; a bare piece is skipped. */
  function PairsOf(pieces: seq<string>): seq<Pair> {
    if pieces == [] then []
    else
      var key := Before(pieces[0], "=");
      (if |key| < |pieces[0]| then [PairOf(key, pieces[0][|key| + 1..])] else []) + PairsOf(pieces[1..])
  }

  function TablePairs(table: seq<(string, string)>): seq<Pair> {
    if table == [] then [] else [PairOf(table[0].0, table[0].1)] + TablePairs(table[1..])
  }

  lemma {:induction false} OverlayConcat(policy: BoundPolicy, a: seq<Pair>, b: seq<Pair>)
    ensures Overlay(policy, a + b) == Overlay(Overlay(policy, a), b)
    decreases |a|
  {
    hide ApplyPair;
    if a == [] {
      assert a + b == b;
    } else {
      assert (a + b)[1..] == a[1..] + b;
      OverlayConcat(ApplyPair(policy, a[0]), a[1..], b);
    }
  }

  /** The bound in force: the default, the committed table, and the text over it. */
  function ActiveBound(table: seq<(string, string)>, raw: string): BoundPolicy {
    Overlay(DEFAULT_BOUND, TablePairs(table) + PairsOf(Pieces(raw)))
  }

  /** `bound_from_env`: the default, then the committed table (empty when the text is given by
      the caller), then the pieces of the text. */
  method BoundFromEnv(table: seq<(string, string)>, raw: string) returns (policy: BoundPolicy)
    ensures policy == ActiveBound(table, raw)
  {
    hide ApplyPair, PairOf, Pieces, Before;
    policy := DEFAULT_BOUND;
    for i := 0 to |table|
      invariant Overlay(policy, TablePairs(table[i..])) == Overlay(DEFAULT_BOUND, TablePairs(table))
    {
      assert table[i..][1..] == table[i + 1..];
      ghost var pairs := TablePairs(table[i..]);
      assert pairs[1..] == TablePairs(table[i + 1..]);
      policy := ApplyPair(policy, PairOf(table[i].0, table[i].1));
    }
    ghost var base := policy;
    var pieces := Pieces(raw);
    for i := 0 to |pieces|
      invariant Overlay(policy, PairsOf(pieces[i..])) == Overlay(base, PairsOf(pieces))
    {
      assert pieces[i..][1..] == pieces[i + 1..];
      var key := Before(pieces[i], "=");
      if |key| < |pieces[i]| {
        ghost var pairs := PairsOf(pieces[i..]);
        assert pairs[1..] == PairsOf(pieces[i + 1..]);
        policy := ApplyPair(policy, PairOf(key, pieces[i][|key| + 1..]));
      } else {
        assert PairsOf(pieces[i..]) == PairsOf(pieces[i + 1..]);
      }
    }
    OverlayConcat(DEFAULT_BOUND, TablePairs(table), PairsOf(pieces));
  }

  predicate Names(pair: Pair, r: Reversibility) {
    pair.reversibility == Some(r) && pair.impact.Some?
  }

  /** A misspelt pair never moves the bound, and the last well-spelt pair for a
      reversibility decides it: what an overlay allows is what its last word says, or the
      default when it says nothing. */
  lemma {:induction false} OverlayLastWord(policy: BoundPolicy, pairs: seq<Pair>, r: Reversibility)
    requires r in policy
    ensures r in Overlay(policy, pairs)
    ensures (forall i :: 0 <= i < |pairs| ==> !Names(pairs[i], r)) ==> Overlay(policy, pairs)[r] == policy[r]
    ensures forall i :: 0 <= i < |pairs| && Names(pairs[i], r)
              && (forall j :: i < j < |pairs| ==> !Names(pairs[j], r))
              ==> Overlay(policy, pairs)[r] == pairs[i].impact.value
    decreases |pairs|
  {
    if pairs != [] {
      var rest := pairs[1..];
      OverlayLastWord(ApplyPair(policy, pairs[0]), rest, r);
      assert forall i :: 0 < i < |pairs| ==> pairs[i] == rest[i - 1];
      assert forall i :: 0 <= i < |rest| ==> rest[i] == pairs[i + 1];
      forall i | 0 <= i < |pairs| && Names(pairs[i], r) && (forall j :: i < j < |pairs| ==> !Names(pairs[j], r))
        ensures Overlay(policy, pairs)[r] == pairs[i].impact.value
      {
        if i > 0 {
          assert Names(rest[i - 1], r);
        }
      }
    }
  }

  // -- What one more word does --------------------------------------------------------------

  const REVERSIBILITIES: seq<(string, Reversibility)> :=
    [("lossless", Lossless), ("self_healing", SelfHealing), ("recoverable", Recoverable), ("irreversible", Irreversible)]

  const WORDS: seq<(string, Option<Impact>)> :=
    [("one", Some(One)), ("service", Some(Service)), ("tenant", Some(Tenant)), ("node", Some(Node)), ("fleet", Some(Fleet)),
     ("none", None), ("never", None), ("", None)]

  /** The text, case and blanks aside, is the name of `r`. */
  predicate Spells(text: string, r: Reversibility) {
    (Lower(Strip(text)), r) in REVERSIBILITIES
  }

  /** The text is the word for a highest impact, or for never. */
  predicate Says(text: string, c: Option<Impact>) {
    (Lower(Strip(text)), c) in WORDS
  }

  lemma NamedExactly(name: string, r: Reversibility)
    ensures ReversibilityNamed(name) == Some(r) <==> (name, r) in REVERSIBILITIES
  {
    var all := REVERSIBILITIES;
    assert all[0] == ("lossless", Lossless) && all[1] == ("self_healing", SelfHealing)
        && all[2] == ("recoverable", Recoverable) && all[3] == ("irreversible", Irreversible);
  }

  lemma WordExactly(name: string, c: Option<Impact>)
    ensures ImpactNamed(name) == Some(c) <==> (name, c) in WORDS
  {
    var all := WORDS;
    assert all[0] == ("one", Some(One)) && all[1] == ("service", Some(Service)) && all[2] == ("tenant", Some(Tenant))
        && all[3] == ("node", Some(Node)) && all[4] == ("fleet", Some(Fleet))
        && all[5] == ("none", None) && all[6] == ("never", None) && all[7] == ("", None);
  }

  lemma {:induction false} BeforeNothing(s: string, stops: string)
    requires forall i :: 0 <= i < |s| ==> s[i] !in stops
    ensures Before(s, stops) == s
  {
    if s != "" { BeforeNothing(s[1..], stops); }
  }

  lemma {:induction false} BeforeStop(s: string, c: char, rest: string, stops: string)
    requires c in stops
    ensures Before(s + [c] + rest, stops) == Before(s, stops)
  {
    var all := s + [c] + rest;
    if s == "" {
      assert all[0] == c;
    } else {
      assert all[0] == s[0] && all[1..] == s[1..] + [c] + rest;
      BeforeStop(s[1..], c, rest, stops);
    }
  }

  /** A piece added behind a separator is one more piece. */
  lemma {:induction false} PiecesAppend(raw: string, c: char, piece: string)
    requires c in SEPARATORS && forall i :: 0 <= i < |piece| ==> piece[i] !in SEPARATORS
    ensures Pieces(raw + [c] + piece) == Pieces(raw) + [piece]
    decreases |raw|
  {
    hide Before, SEPARATORS;
    var all := raw + [c] + piece;
    var p := Before(raw, SEPARATORS);
    BeforeStop(raw, c, piece, SEPARATORS);
    if |p| == |raw| {
      assert all[|p| + 1..] == piece;
      BeforeNothing(piece, SEPARATORS);
    } else {
      assert all[|p| + 1..] == raw[|p| + 1..] + [c] + piece;
      PiecesAppend(raw[|p| + 1..], c, piece);
    }
  }

  lemma {:induction false} PairsAppend(pieces: seq<string>, piece: string)
    ensures PairsOf(pieces + [piece]) == PairsOf(pieces) + PairsOf([piece])
  {
    hide PairOf, Before;
    if pieces == [] {
      assert pieces + [piece] == [piece];
    } else {
      assert (pieces + [piece])[1..] == pieces[1..] + [piece];
      PairsAppend(pieces[1..], piece);
    }
  }

  lemma OnePair(key: string, value: string)
    requires '=' !in key
    ensures PairsOf([key + "=" + value]) == [PairOf(key, value)]
  {
    hide PairOf;
    var piece := key + ['='] + value;
    BeforeStop(key, '=', value, "=");
    BeforeNothing(key, "=");
    assert piece == key + "=" + value && piece[|key| + 1..] == value;
    assert PairsOf([piece][1..]) == [];
  }

  lemma LastPairApplies(table: seq<(string, string)>, raw: string, c: char, key: string, value: string)
    requires c in SEPARATORS && '=' !in key && forall i :: 0 <= i < |key + value| ==> (key + value)[i] !in SEPARATORS
    ensures ActiveBound(table, raw + [c] + (key + "=" + value)) == ApplyPair(ActiveBound(table, raw), PairOf(key, value))
  {
    hide PairOf, Pieces, ApplyPair;
    var piece := key + "=" + value;
    assert forall i :: 0 <= i < |piece| ==> piece[i] in key + value || piece[i] == '=';
    PiecesAppend(raw, c, piece);
    PairsAppend(Pieces(raw), piece);
    OnePair(key, value);
    var pairs := TablePairs(table) + PairsOf(Pieces(raw));
    assert TablePairs(table) + PairsOf(Pieces(raw) + [piece]) == pairs + [PairOf(key, value)];
    OverlayConcat(DEFAULT_BOUND, pairs, [PairOf(key, value)]);
    ghost var last := [PairOf(key, value)];
    assert last[1..] == [];
  }

  /** Free of what separates pairs. */
  predicate Unseparated(s: string) {
    forall i :: 0 <= i < |s| ==> s[i] != ',' && s[i] != ';'
  }

  /** A pair added at the end of the text decides its reversibility and nothing else; if either side
      is not a known word it decides nothing at all. */
  lemma LastPairDecides(
    table: seq<(string, string)>, raw: string, c: char, key: string, value: string, r: Reversibility, word: Option<Impact>)
    requires (c == ',' || c == ';') && '=' !in key && Unseparated(key) && Unseparated(value)
    ensures var before, after := ActiveBound(table, raw), ActiveBound(table, raw + [c] + (key + "=" + value));
            && (Spells(key, r) && Says(value, word) ==> after == before[r := word])
            && ((forall x :: !Spells(key, x)) || (forall x :: !Says(value, x)) ==> after == before)
  {
    assert forall d: char :: d in SEPARATORS <==> d == ',' || d == ';';
    hide SEPARATORS, ReversibilityNamed, ImpactNamed, REVERSIBILITIES, WORDS, Pieces, Lower, Strip;
    LastPairApplies(table, raw, c, key, value);
    forall x ensures ReversibilityNamed(Lower(Strip(key))) == Some(x) <==> Spells(key, x) { NamedExactly(Lower(Strip(key)), x); }
    forall x ensures ImpactNamed(Lower(Strip(value))) == Some(x) <==> Says(value, x) { WordExactly(Lower(Strip(value)), x); }
  }
}
