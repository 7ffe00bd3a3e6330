/** Declared against observed: the drifts between two lists of resources. */
module Diff {
  import opened Text

  type Identity = string
  type Props = map<string, string>

  datatype Resource = Resource(identity: Identity, kind: string, properties: Props, provenance: string)

  datatype Drift =
    | Added(identity: Identity, kind: string, provenance: string, declared: Props)
    | Modified(identity: Identity, kind: string, provenance: string, declared: Props, observed: Props)
    | Removed(identity: Identity, kind: string, provenance: string, observed: Props)

  // -- Dictionaries by identity ----------------------------------------------------------------------

  /** The last entry wins. */
  function ByIdentity(rs: seq<Resource>): map<Identity, Resource> {
    if rs == [] then map[] else ByIdentity(rs[..|rs| - 1])[rs[|rs| - 1].identity := rs[|rs| - 1]]
  }

  /** Dictionary order: where each identity first occurs. */
  function Keys(rs: seq<Resource>): seq<Identity> {
    if rs == [] then []
    else
      var before := Keys(rs[..|rs| - 1]);
      before + if rs[|rs| - 1].identity in before then [] else [rs[|rs| - 1].identity]
  }

  predicate NoRepeats(keys: seq<Identity>) {
    forall i, j :: 0 <= i < j < |keys| ==> keys[i] != keys[j]
  }

  lemma {:induction false} KeysExactly(rs: seq<Resource>)
    ensures NoRepeats(Keys(rs))
    ensures forall id :: id in Keys(rs) <==> id in ByIdentity(rs)
    ensures forall id :: id in ByIdentity(rs) ==> ByIdentity(rs)[id].identity == id
    decreases |rs|
  {
    if rs != [] { KeysExactly(rs[..|rs| - 1]); }
  }

  // -- The diff ------------------------------------------------------------------------------------------

  function AddedOf(id: Identity, r: Resource): Drift { Added(id, r.kind, r.provenance, r.properties) }

  function ModifiedOf(id: Identity, r: Resource, was: Resource): Drift {
    Modified(id, r.kind, r.provenance, r.properties, was.properties)
  }

  function RemovedOf(id: Identity, was: Resource): Drift { Removed(id, was.kind, was.provenance, was.properties) }

  /** The one drift an identity calls for, if any. */
  function DriftOf(d: map<Identity, Resource>, o: map<Identity, Resource>, id: Identity): Option<Drift> {
    if id in d && id !in o then Some(AddedOf(id, d[id]))
    else if id in d && id in o && d[id].properties != o[id].properties then
      Some(ModifiedOf(id, d[id], o[id]))
    else if id !in d && id in o then Some(RemovedOf(id, o[id]))
    else None
  }

  /** The first loop: what is declared but missing or different. */
  function Missing(keys: seq<Identity>, d: map<Identity, Resource>, o: map<Identity, Resource>): seq<Drift>
    requires forall i :: 0 <= i < |keys| ==> keys[i] in d
  {
    if keys == [] then []
    else
      var n := |keys| - 1;
      Missing(keys[..n], d, o) +
      if keys[n] !in o then [AddedOf(keys[n], d[keys[n]])]
      else if d[keys[n]].properties != o[keys[n]].properties then
        [ModifiedOf(keys[n], d[keys[n]], o[keys[n]])]
      else []
  }

  /** The second loop: what is observed but not declared. */
  function Extra(keys: seq<Identity>, d: map<Identity, Resource>, o: map<Identity, Resource>): seq<Drift>
    requires forall i :: 0 <= i < |keys| ==> keys[i] in o
  {
    if keys == [] then []
    else
      var n := |keys| - 1;
      Extra(keys[..n], d, o) +
      if keys[n] !in d then [RemovedOf(keys[n], o[keys[n]])] else []
  }

  function DiffOf(declared: seq<Resource>, observed: seq<Resource>): seq<Drift> {
    KeysExactly(declared);
    KeysExactly(observed);
    var d, o := ByIdentity(declared), ByIdentity(observed);
    Missing(Keys(declared), d, o) + Extra(Keys(observed), d, o)
  }

  method ReconcileLists(declared: seq<Resource>, observed: seq<Resource>) returns (drifts: seq<Drift>)
    ensures drifts == DiffOf(declared, observed)
  {
    KeysExactly(declared);
    KeysExactly(observed);
    var d, o := ByIdentity(declared), ByIdentity(observed);
    drifts := FindMissing(Keys(declared), d, o);
    drifts := FindExtra(Keys(observed), d, o, drifts);
  }

  method FindMissing(keys: seq<Identity>, d: map<Identity, Resource>, o: map<Identity, Resource>) returns (drifts: seq<Drift>)
    requires forall i :: 0 <= i < |keys| ==> keys[i] in d
    ensures drifts == Missing(keys, d, o)
  {
    hide AddedOf, ModifiedOf;
    drifts := [];
    for i := 0 to |keys|
      invariant drifts == Missing(keys[..i], d, o)
    {
      var id := keys[i];
      assert keys[..i + 1][..i] == keys[..i];
      if id !in o {
        drifts := drifts + [AddedOf(id, d[id])];
      } else if d[id].properties != o[id].properties {
        drifts := drifts + [ModifiedOf(id, d[id], o[id])];
      }
    }
    assert keys[..|keys|] == keys;
  }

  method FindExtra(keys: seq<Identity>, d: map<Identity, Resource>, o: map<Identity, Resource>, found: seq<Drift>)
    returns (drifts: seq<Drift>)
    requires forall i :: 0 <= i < |keys| ==> keys[i] in o
    ensures drifts == found + Extra(keys, d, o)
  {
    hide RemovedOf;
    drifts := found;
    for i := 0 to |keys|
      invariant drifts == found + Extra(keys[..i], d, o)
    {
      var id := keys[i];
      assert keys[..i + 1][..i] == keys[..i];
      if id !in d {
        drifts := drifts + [RemovedOf(id, o[id])];
      }
    }
    assert keys[..|keys|] == keys;
  }

  // -- Exactly one drift where the two sides differ ----------------------------------------------------------

  /** `ds` holds, for each identity of `keys` that calls for a drift, that drift and nothing
      else, once. */
  ghost predicate Covers(ds: seq<Drift>, wanted: set<Identity>, d: map<Identity, Resource>, o: map<Identity, Resource>) {
    && (forall i :: 0 <= i < |ds| ==> ds[i].identity in wanted && DriftOf(d, o, ds[i].identity) == Some(ds[i]))
    && (forall id :: id in wanted && DriftOf(d, o, id).Some? ==> exists i :: 0 <= i < |ds| && ds[i].identity == id)
    && (forall i, j :: 0 <= i < j < |ds| ==> ds[i].identity != ds[j].identity)
  }

  lemma CoversMore(ds: seq<Drift>, wanted: set<Identity>, id: Identity, d: map<Identity, Resource>, o: map<Identity, Resource>)
    requires Covers(ds, wanted, d, o) && id !in wanted
    ensures Covers(ds + if DriftOf(d, o, id).Some? then [DriftOf(d, o, id).value] else [], wanted + {id}, d, o)
  {
    var more := ds + if DriftOf(d, o, id).Some? then [DriftOf(d, o, id).value] else [];
    forall x | x in wanted + {id} && DriftOf(d, o, x).Some? ensures exists i :: 0 <= i < |more| && more[i].identity == x {
      if x == id {
        assert more[|ds|].identity == x;
      } else {
        var i :| 0 <= i < |ds| && ds[i].identity == x;
        assert more[i].identity == x;
      }
    }
  }

  lemma {:induction false} MissingCovers(keys: seq<Identity>, d: map<Identity, Resource>, o: map<Identity, Resource>)
    requires NoRepeats(keys) && forall i :: 0 <= i < |keys| ==> keys[i] in d
    ensures Covers(Missing(keys, d, o), (set id | id in keys), d, o)
    decreases |keys|
  {
    if keys != [] {
      var n := |keys| - 1;
      MissingCovers(keys[..n], d, o);
      CoversMore(Missing(keys[..n], d, o), (set id | id in keys[..n]), keys[n], d, o);
      assert (set id | id in keys) == (set id | id in keys[..n]) + {keys[n]};
    }
  }

  lemma {:induction false} ExtraCovers(keys: seq<Identity>, d: map<Identity, Resource>, o: map<Identity, Resource>)
    requires NoRepeats(keys) && forall i :: 0 <= i < |keys| ==> keys[i] in o
    ensures Covers(Extra(keys, d, o), (set id | id in keys && id !in d), d, o)
    decreases |keys|
  {
    if keys != [] {
      var n := |keys| - 1;
      ExtraCovers(keys[..n], d, o);
      if keys[n] !in d {
        CoversMore(Extra(keys[..n], d, o), (set id | id in keys[..n] && id !in d), keys[n], d, o);
        assert (set id | id in keys && id !in d) == (set id | id in keys[..n] && id !in d) + {keys[n]};
      } else {
        assert Extra(keys, d, o) == Extra(keys[..n], d, o);
        assert (set id | id in keys && id !in d) == (set id | id in keys[..n] && id !in d);
      }
    }
  }

  lemma CoversBoth(a: seq<Drift>, b: seq<Drift>, x: set<Identity>, y: set<Identity>, d: map<Identity, Resource>, o: map<Identity, Resource>)
    requires Covers(a, x, d, o) && Covers(b, y, d, o) && x !! y
    ensures Covers(a + b, x + y, d, o)
  {
    hide DriftOf;
    var ds := a + b;
    forall id | id in x + y && DriftOf(d, o, id).Some? ensures exists i :: 0 <= i < |ds| && ds[i].identity == id {
      if id in x {
        var i :| 0 <= i < |a| && a[i].identity == id;
        assert ds[i].identity == id;
      } else {
        var i :| 0 <= i < |b| && b[i].identity == id;
        assert ds[|a| + i].identity == id;
      }
    }
  }

  /** The diff holds exactly one drift for each identity on which the two dictionaries differ,
      of the right change type, and none for any other. */
  lemma {:induction false} DiffCovers(declared: seq<Resource>, observed: seq<Resource>)
    ensures Covers(DiffOf(declared, observed), ByIdentity(declared).Keys + ByIdentity(observed).Keys,
                   ByIdentity(declared), ByIdentity(observed))
  {
    hide Covers, Missing, Extra;
    KeysExactly(declared);
    KeysExactly(observed);
    var d, o := ByIdentity(declared), ByIdentity(observed);
    var x, y := (set id | id in Keys(declared)), (set id | id in Keys(observed) && id !in d);
    MissingCovers(Keys(declared), d, o);
    ExtraCovers(Keys(observed), d, o);
    CoversBoth(Missing(Keys(declared), d, o), Extra(Keys(observed), d, o), x, y, d, o);
    assert x + y == d.Keys + o.Keys;
  }

  lemma DriftNeedsKey(d: map<Identity, Resource>, o: map<Identity, Resource>, id: Identity)
    requires DriftOf(d, o, id).Some?
    ensures id in d || id in o
  {
  }

  // -- Applying the diff ------------------------------------------------------------------------------------------

  function PropsOf(m: map<Identity, Resource>): map<Identity, Props> {
    map id | id in m :: m[id].properties
  }

  function ApplyDrift(m: map<Identity, Props>, drift: Drift): map<Identity, Props> {
    match drift
    case Added(id, _, _, declared) => m[id := declared]
    case Modified(id, _, _, declared, _) => m[id := declared]
    case Removed(id, _, _, _) => m - {id}
  }

  function Apply(m: map<Identity, Props>, drifts: seq<Drift>): map<Identity, Props> {
    if drifts == [] then m else ApplyDrift(Apply(m, drifts[..|drifts| - 1]), drifts[|drifts| - 1])
  }

  function At(m: map<Identity, Props>, id: Identity): Option<Props> {
    if id in m then Some(m[id]) else None
  }

  function After(drift: Drift): Option<Props> {
    if drift.Removed? then None else Some(drift.declared)
  }

  lemma {:induction false} ApplyAt(m: map<Identity, Props>, drifts: seq<Drift>, id: Identity)
    requires forall i, j :: 0 <= i < j < |drifts| ==> drifts[i].identity != drifts[j].identity
    ensures forall i :: 0 <= i < |drifts| && drifts[i].identity == id ==> At(Apply(m, drifts), id) == After(drifts[i])
    ensures (forall i :: 0 <= i < |drifts| ==> drifts[i].identity != id) ==> At(Apply(m, drifts), id) == At(m, id)
    decreases |drifts|
  {
    if drifts != [] {
      var n := |drifts| - 1;
      ApplyAt(m, drifts[..n], id);
      assert drifts[n].identity != id ==> At(Apply(m, drifts), id) == At(Apply(m, drifts[..n]), id);
      assert forall i :: 0 <= i < n ==> drifts[..n][i] == drifts[i];
    }
  }

  /** Applying the drifts to what was observed gives what was declared; and there is no drift
      exactly when the two sides agree on every resource's properties. */
  lemma {:induction false} DiffApplies(declared: seq<Resource>, observed: seq<Resource>)
    ensures var d, o := PropsOf(ByIdentity(declared)), PropsOf(ByIdentity(observed));
            Apply(o, DiffOf(declared, observed)) == d && (DiffOf(declared, observed) == [] <==> d == o)
  {
    hide DiffOf, Apply, ByIdentity;
    var byD, byO := ByIdentity(declared), ByIdentity(observed);
    var d, o, ds := PropsOf(byD), PropsOf(byO), DiffOf(declared, observed);
    DiffCovers(declared, observed);
    forall id ensures At(Apply(o, ds), id) == At(d, id) {
      ApplyAt(o, ds, id);
      if DriftOf(byD, byO, id).Some? {
        DriftNeedsKey(byD, byO, id);
        var i :| 0 <= i < |ds| && ds[i].identity == id;
      } else {
        assert At(o, id) == At(d, id);
      }
    }
    SameEverywhere(Apply(o, ds), d);
    if ds == [] {
      forall id ensures At(o, id) == At(d, id) {
        if DriftOf(byD, byO, id).Some? { DriftNeedsKey(byD, byO, id); }
      }
      SameEverywhere(o, d);
    } else {
      assert DriftOf(byD, byO, ds[0].identity) == Some(ds[0]);
      assert At(o, ds[0].identity) != At(d, ds[0].identity);
    }
  }

  lemma SameEverywhere(m: map<Identity, Props>, n: map<Identity, Props>)
    requires forall id :: At(m, id) == At(n, id)
    ensures m == n
  {
    assert forall id :: id in m <==> At(m, id).Some?;
    assert forall id :: id in n <==> At(n, id).Some?;
    forall id | id in m ensures m[id] == n[id] { assert At(m, id) == At(n, id); }
  }

  // -- Reverting the diff ----------------------------------------------------------------------------------------------

  function RevertDrift(m: map<Identity, Props>, drift: Drift): map<Identity, Props> {
    match drift
    case Added(id, _, _, _) => m - {id}
    case Modified(id, _, _, _, observed) => m[id := observed]
    case Removed(id, _, _, observed) => m[id := observed]
  }

  /** The drifts undone, the last one first. */
  function Revert(m: map<Identity, Props>, drifts: seq<Drift>): map<Identity, Props>
    decreases |drifts|
  {
    if drifts == [] then m else Revert(RevertDrift(m, drifts[|drifts| - 1]), drifts[..|drifts| - 1])
  }

  function Was(drift: Drift): Option<Props> {
    if drift.Added? then None else Some(drift.observed)
  }

  lemma {:induction false} RevertAt(m: map<Identity, Props>, drifts: seq<Drift>, id: Identity)
    requires forall i, j :: 0 <= i < j < |drifts| ==> drifts[i].identity != drifts[j].identity
    ensures forall i :: 0 <= i < |drifts| && drifts[i].identity == id ==> At(Revert(m, drifts), id) == Was(drifts[i])
    ensures (forall i :: 0 <= i < |drifts| ==> drifts[i].identity != id) ==> At(Revert(m, drifts), id) == At(m, id)
    decreases |drifts|
  {
    if drifts != [] {
      var n := |drifts| - 1;
      RevertAt(RevertDrift(m, drifts[n]), drifts[..n], id);
      assert drifts[n].identity != id ==> At(RevertDrift(m, drifts[n]), id) == At(m, id);
      assert forall i :: 0 <= i < n ==> drifts[..n][i] == drifts[i];
    }
  }

  /** Undoing the drifts, each to its observed side, on what was declared gives what was observed. */
  lemma {:induction false} DiffReverts(declared: seq<Resource>, observed: seq<Resource>)
    ensures Revert(PropsOf(ByIdentity(declared)), DiffOf(declared, observed)) == PropsOf(ByIdentity(observed))
  {
    hide DiffOf, Revert, ByIdentity;
    var byD, byO := ByIdentity(declared), ByIdentity(observed);
    var d, o, ds := PropsOf(byD), PropsOf(byO), DiffOf(declared, observed);
    DiffCovers(declared, observed);
    forall id ensures At(Revert(d, ds), id) == At(o, id) {
      RevertAt(d, ds, id);
      if DriftOf(byD, byO, id).Some? {
        DriftNeedsKey(byD, byO, id);
        var i :| 0 <= i < |ds| && ds[i].identity == id;
      } else {
        assert At(o, id) == At(d, id);
      }
    }
    SameEverywhere(Revert(d, ds), o);
  }

  // -- Each drift against the two lists ------------------------------------------------------------------------------------

  predicate FirstAt(rs: seq<Resource>, id: Identity, j: int) {
    0 <= j < |rs| && rs[j].identity == id && forall k :: 0 <= k < j ==> rs[k].identity != id
  }

  predicate LastAt(rs: seq<Resource>, id: Identity, j: int) {
    0 <= j < |rs| && rs[j].identity == id && forall k :: j < k < |rs| ==> rs[k].identity != id
  }

  predicate Lists(rs: seq<Resource>, id: Identity) {
    exists j :: 0 <= j < |rs| && rs[j].identity == id
  }

  /** The drift shows what the last entries with its identity say: kind, provenance and declared
      side of the declared entry, observed side of the observed one. */
  ghost predicate Shows(drift: Drift, declared: seq<Resource>, observed: seq<Resource>) {
    match drift
    case Added(id, kind, provenance, props) =>
      !Lists(observed, id) && exists j :: LastAt(declared, id, j) && declared[j] == Resource(id, kind, props, provenance)
    case Modified(id, kind, provenance, props, was) =>
      && props != was
      && (exists j :: LastAt(declared, id, j) && declared[j] == Resource(id, kind, props, provenance))
      && exists k :: LastAt(observed, id, k) && observed[k].properties == was
    case Removed(id, kind, provenance, was) =>
      !Lists(declared, id) && exists k :: LastAt(observed, id, k) && observed[k] == Resource(id, kind, was, provenance)
  }

  /** The two lists disagree about the identity. */
  ghost predicate Disagree(declared: seq<Resource>, observed: seq<Resource>, id: Identity) {
    || (Lists(declared, id) && !Lists(observed, id))
    || (!Lists(declared, id) && Lists(observed, id))
    || exists j, k :: LastAt(declared, id, j) && LastAt(observed, id, k) && declared[j].properties != observed[k].properties
  }

  /** The last entry of a list with a listed identity, which is what the dictionary holds. */
  lemma {:induction false} LastEntry(rs: seq<Resource>, id: Identity) returns (j: int)
    ensures id !in ByIdentity(rs) ==> !Lists(rs, id)
    ensures id in ByIdentity(rs) ==> LastAt(rs, id, j) && ByIdentity(rs)[id] == rs[j]
    decreases |rs|
  {
    j := |rs| - 1;
    if rs != [] && rs[j].identity != id {
      var n := j;
      j := LastEntry(rs[..n], id);
      assert forall k :: 0 <= k < n ==> rs[..n][k] == rs[k];
      assert id !in ByIdentity(rs) ==> forall k :: 0 <= k < n ==> rs[..n][k].identity != id;
    }
  }

  lemma {:induction false} ByIdentityIsLast(rs: seq<Resource>, id: Identity)
    ensures id in ByIdentity(rs) <==> Lists(rs, id)
    ensures id in ByIdentity(rs) ==> exists j :: LastAt(rs, id, j) && ByIdentity(rs)[id] == rs[j]
    ensures forall j :: LastAt(rs, id, j) ==> id in ByIdentity(rs) && ByIdentity(rs)[id] == rs[j]
  {
    hide ByIdentity;
    var j := LastEntry(rs, id);
    if id in ByIdentity(rs) { assert Lists(rs, id); }
    forall k | LastAt(rs, id, k) ensures id in ByIdentity(rs) && k == j { assert Lists(rs, id); }
  }

  /** The diff, entry by entry of the two lists: every drift shows its last entries, and an identity
      has exactly one drift if the lists disagree about it and none otherwise. */
  lemma {:induction false} DriftsExactly(declared: seq<Resource>, observed: seq<Resource>)
    ensures var ds := DiffOf(declared, observed);
            && (forall i :: 0 <= i < |ds| ==> Shows(ds[i], declared, observed))
            && (forall i, j :: 0 <= i < j < |ds| ==> ds[i].identity != ds[j].identity)
            && (forall id :: (exists i :: 0 <= i < |ds| && ds[i].identity == id) <==> Disagree(declared, observed, id))
  {
    hide DiffOf, ByIdentity, Lists, LastAt;
    var byD, byO, ds := ByIdentity(declared), ByIdentity(observed), DiffOf(declared, observed);
    DiffCovers(declared, observed);
    KeysExactly(declared);
    KeysExactly(observed);
    forall i | 0 <= i < |ds| ensures Shows(ds[i], declared, observed) {
      ByIdentityIsLast(declared, ds[i].identity);
      ByIdentityIsLast(observed, ds[i].identity);
    }
    forall id ensures (exists i :: 0 <= i < |ds| && ds[i].identity == id) <==> Disagree(declared, observed, id) {
      ByIdentityIsLast(declared, id);
      ByIdentityIsLast(observed, id);
      if DriftOf(byD, byO, id).Some? { DriftNeedsKey(byD, byO, id); }
    }
  }

  // -- The order of the drifts ---------------------------------------------------------------------------------------------------

  /** `a` comes before `b`: what is declared first, each side in the order of first entries. */
  ghost predicate Precedes(a: Drift, b: Drift, declared: seq<Resource>, observed: seq<Resource>) {
    if !a.Removed? && !b.Removed? then
      exists j, k :: j < k && FirstAt(declared, a.identity, j) && FirstAt(declared, b.identity, k)
    else if a.Removed? && b.Removed? then
      exists j, k :: j < k && FirstAt(observed, a.identity, j) && FirstAt(observed, b.identity, k)
    else b.Removed?
  }

  lemma FirstOfPrefix(rs: seq<Resource>, id: Identity, j: int)
    requires rs != [] && FirstAt(rs[..|rs| - 1], id, j)
    ensures FirstAt(rs, id, j)
  {
    assert forall k :: 0 <= k < |rs| - 1 ==> rs[..|rs| - 1][k] == rs[k];
  }

  /** The first entries of two keys come in their order. */
  lemma {:induction false} TwoKeys(rs: seq<Resource>, p: nat, q: nat) returns (j: int, k: int)
    requires p < q < |Keys(rs)|
    ensures j < k && FirstAt(rs, Keys(rs)[p], j) && FirstAt(rs, Keys(rs)[q], k)
    decreases |rs|
  {
    hide FirstAt;
    var n := |rs| - 1;
    if q < |Keys(rs[..n])| {
      j, k := TwoKeys(rs[..n], p, q);
      FirstOfPrefix(rs, Keys(rs)[q], k);
    } else {
      j := OneKey(rs[..n], p);
      k := NewKey(rs);
    }
    FirstOfPrefix(rs, Keys(rs)[p], j);
  }

  lemma {:induction false} OneKey(rs: seq<Resource>, p: nat) returns (j: int)
    requires p < |Keys(rs)|
    ensures FirstAt(rs, Keys(rs)[p], j) && j < |rs|
    decreases |rs|
  {
    var n := |rs| - 1;
    if p < |Keys(rs[..n])| {
      j := OneKey(rs[..n], p);
      FirstOfPrefix(rs, Keys(rs)[p], j);
    } else {
      j := NewKey(rs);
    }
  }

  lemma NewKey(rs: seq<Resource>) returns (j: int)
    requires rs != [] && rs[|rs| - 1].identity !in Keys(rs[..|rs| - 1])
    ensures j == |rs| - 1 && FirstAt(rs, rs[j].identity, j)
  {
    j := |rs| - 1;
    KeysExactly(rs[..j]);
    ByIdentityIsLast(rs[..j], rs[j].identity);
    assert forall k :: 0 <= k < j ==> rs[..j][k].identity != rs[j].identity && rs[..j][k] == rs[k];
  }

  /** The drifts of the first loop come in the order of its keys. */
  lemma {:induction false} MissingInOrder(keys: seq<Identity>, d: map<Identity, Resource>, o: map<Identity, Resource>, a: nat, b: nat)
    returns (p: nat, q: nat)
    requires (forall i :: 0 <= i < |keys| ==> keys[i] in d) && a < b < |Missing(keys, d, o)|
    ensures p < q < |keys| && keys[p] == Missing(keys, d, o)[a].identity && keys[q] == Missing(keys, d, o)[b].identity
    decreases |keys|
  {
    var n := |keys| - 1;
    var before := Missing(keys[..n], d, o);
    if b < |before| {
      p, q := MissingInOrder(keys[..n], d, o, a, b);
    } else {
      p := MissingHasKey(keys[..n], d, o, a);
      q := n;
    }
  }

  lemma {:induction false} MissingHasKey(keys: seq<Identity>, d: map<Identity, Resource>, o: map<Identity, Resource>, a: nat)
    returns (p: nat)
    requires (forall i :: 0 <= i < |keys| ==> keys[i] in d) && a < |Missing(keys, d, o)|
    ensures p < |keys| && keys[p] == Missing(keys, d, o)[a].identity && !Missing(keys, d, o)[a].Removed?
    decreases |keys|
  {
    var n := |keys| - 1;
    if a < |Missing(keys[..n], d, o)| { p := MissingHasKey(keys[..n], d, o, a); } else { p := n; }
  }

  lemma {:induction false} ExtraInOrder(keys: seq<Identity>, d: map<Identity, Resource>, o: map<Identity, Resource>, a: nat, b: nat)
    returns (p: nat, q: nat)
    requires (forall i :: 0 <= i < |keys| ==> keys[i] in o) && a < b < |Extra(keys, d, o)|
    ensures p < q < |keys| && keys[p] == Extra(keys, d, o)[a].identity && keys[q] == Extra(keys, d, o)[b].identity
    decreases |keys|
  {
    var n := |keys| - 1;
    if b < |Extra(keys[..n], d, o)| {
      p, q := ExtraInOrder(keys[..n], d, o, a, b);
    } else {
      p := ExtraHasKey(keys[..n], d, o, a);
      q := n;
    }
  }

  lemma {:induction false} ExtraHasKey(keys: seq<Identity>, d: map<Identity, Resource>, o: map<Identity, Resource>, a: nat)
    returns (p: nat)
    requires (forall i :: 0 <= i < |keys| ==> keys[i] in o) && a < |Extra(keys, d, o)|
    ensures p < |keys| && keys[p] == Extra(keys, d, o)[a].identity && Extra(keys, d, o)[a].Removed?
    decreases |keys|
  {
    var n := |keys| - 1;
    if a < |Extra(keys[..n], d, o)| { p := ExtraHasKey(keys[..n], d, o, a); } else { p := n; }
  }

  lemma DriftsInOrder(declared: seq<Resource>, observed: seq<Resource>, a: nat, b: nat)
    requires a < b < |DiffOf(declared, observed)|
    ensures Precedes(DiffOf(declared, observed)[a], DiffOf(declared, observed)[b], declared, observed)
  {
    hide Keys, FirstAt, Missing, Extra;
    KeysExactly(declared);
    KeysExactly(observed);
    var d, o := ByIdentity(declared), ByIdentity(observed);
    var m := |Missing(Keys(declared), d, o)|;
    if b < m {
      var x := MissingHasKey(Keys(declared), d, o, a);
      var y := MissingHasKey(Keys(declared), d, o, b);
      var p, q := MissingInOrder(Keys(declared), d, o, a, b);
      var j, k := TwoKeys(declared, p, q);
    } else if a < m {
      var x := MissingHasKey(Keys(declared), d, o, a);
      var y := ExtraHasKey(Keys(observed), d, o, b - m);
    } else {
      var x := ExtraHasKey(Keys(observed), d, o, a - m);
      var y := ExtraHasKey(Keys(observed), d, o, b - m);
      var p, q := ExtraInOrder(Keys(observed), d, o, a - m, b - m);
      var j, k := TwoKeys(observed, p, q);
    }
  }
}
