/** `safe_kubectl`, the command checker. */
module Kubectl {
  // The order-independent checker every command passes before it runs. It is a token loop; its
  // language is given by a grammar of items.

  import opened Text

  type Pattern = string -> bool

  datatype NamespaceRule = Optional | Required | Forbidden

  /** The flags any vetted command may carry, each with the pattern its value must match,
      and which of them name a namespace. */
  datatype FlagTable = FlagTable(patterns: map<string, Pattern>, namespaces: set<string>)

  /** `-n`, `--namespace`, `--context`, `--kubeconfig`: the one table of flags. */
  function KubectlFlags(name: Pattern, context: Pattern, kubeconfig: Pattern): FlagTable {
    FlagTable(
      map["-n" := name, "--namespace" := name, "--context" := context, "--kubeconfig" := kubeconfig],
      {"-n", "--namespace"})
  }

  /** The keyword arguments of one `safe_kubectl` call. */
  datatype Shape = Shape(
    verb: seq<string>,
    positional: Option<Pattern>,
    required: map<string, string>,
    namespace: NamespaceRule,
    flags: FlagTable)

  const SHELL_META: string := ";&|`$<>(){}[]*?!\\'\"\n\r\t"

  predicate IsMeta(c: char) {
    c in SHELL_META
  }

  predicate HasMeta(s: string) {
    exists i :: 0 <= i < |s| && IsMeta(s[i])
  }

  // -- `tok.partition("=")` ------------------------------------------------------------

  function KeyOf(tok: string): (key: string)
    ensures key <= tok && '=' !in key
    ensures key == tok <==> '=' !in tok
    ensures key != tok ==> tok[|key|] == '='
  {
    if tok == "" || tok[0] == '=' then "" else [tok[0]] + KeyOf(tok[1..])
  }

  function Inline(tok: string): string
    requires '=' in tok
  {
    tok[|KeyOf(tok)| + 1..]
  }

  lemma {:induction false} PartitionInline(key: string, value: string)
    requires '=' !in key
    ensures KeyOf(key + "=" + value) == key
    ensures Inline(key + "=" + value) == value
  {
    if key == "" {
      assert (key + "=" + value)[0] == '=';
    } else {
      assert (key + "=" + value)[1..] == key[1..] + "=" + value;
      PartitionInline(key[1..], value);
    }
  }

  // -- The grammar ---------------------------------------------------------------------

  /** One argument of a vetted command: a flag with its value, written `k=v` (inline) or
      `k v`, or the positional resource. */
  datatype Item = Valued(key: string, value: string, inlined: bool) | Target(token: string)

  /** How many tokens an item takes. */
  function Width(item: Item): nat {
    if item.Valued? && !item.inlined then 2 else 1
  }

  function Render(item: Item): (toks: seq<string>)
    ensures |toks| == Width(item)
  {
    match item
    case Valued(k, v, inlined) => if inlined then [k + "=" + v] else [k, v]
    case Target(t) => [t]
  }

  function Flatten(items: seq<Item>): seq<string> {
    if items == [] then [] else Render(items[0]) + Flatten(items[1..])
  }

  predicate GoodValue(shape: Shape, key: string, value: string) {
    if key in shape.required then value == shape.required[key]
    else key in shape.flags.patterns && shape.flags.patterns[key](value)
  }

  predicate WellFormed(shape: Shape, item: Item) {
    match item
    case Valued(k, v, _) => '=' !in k && GoodValue(shape, k, v)
    case Target(t) =>
      && shape.positional.Some? && shape.positional.value(t) && !("-" <= t)
      && KeyOf(t) !in shape.required && KeyOf(t) !in shape.flags.patterns
  }

  predicate AllWellFormed(shape: Shape, items: seq<Item>) {
    forall i :: 0 <= i < |items| ==> WellFormed(shape, items[i])
  }

  function KeyOfItem(item: Item): set<string> {
    if item.Valued? then {item.key} else {}
  }

  function Keys(items: seq<Item>): set<string> {
    if items == [] then {} else KeyOfItem(items[0]) + Keys(items[1..])
  }

  lemma {:induction false} KeysMember(items: seq<Item>, key: string)
    ensures key in Keys(items) <==> exists i :: 0 <= i < |items| && key in KeyOfItem(items[i])
  {
    if items != [] {
      KeysMember(items[1..], key);
      assert forall i :: 0 < i < |items| ==> items[i] == items[1..][i - 1];
    }
  }

  predicate NamesNamespace(shape: Shape, items: seq<Item>) {
    Keys(items) * (shape.flags.namespaces - shape.required.Keys) != {}
  }

  function Targets(items: seq<Item>): nat {
    Count(items, (item: Item) => item.Target?)
  }

  /** The positional exactly once when the shape has one, every required flag at least
      once, and the namespace rule. Repeated flags are allowed. */
  predicate Complete(shape: Shape, items: seq<Item>) {
    && Targets(items) == (if shape.positional.Some? then 1 else 0)
    && shape.required.Keys <= Keys(items)
    && (shape.namespace.Required? ==> NamesNamespace(shape, items))
    && (shape.namespace.Forbidden? ==> !NamesNamespace(shape, items))
  }

  predicate Sentence(shape: Shape, items: seq<Item>) {
    AllWellFormed(shape, items) && Complete(shape, items)
  }

  // -- The deterministic reading of a token list -----------------------------------------

  /** The item a token starts, given the token's key and the value that goes with it. */
  function ItemAt(shape: Shape, key: string, tok: string, value: Option<string>): Option<Item> {
    if key in shape.required || key in shape.flags.patterns then
      if value.Some? && GoodValue(shape, key, value.value) then Some(Valued(key, value.value, '=' in tok)) else None
    else if shape.positional.Some? && !("-" <= tok) && shape.positional.value(tok) then Some(Target(tok))
    else None
  }

  /** The inline value, else the next token, else nothing. */
  function ValueOf(tok: string, next: Option<string>): Option<string> {
    if '=' in tok then Some(Inline(tok)) else next
  }

  function First(shape: Shape, toks: seq<string>): (r: Option<Item>)
    requires toks != []
    ensures r.Some? ==> Width(r.value) <= |toks|
  {
    ItemAt(shape, KeyOf(toks[0]), toks[0], ValueOf(toks[0], if |toks| > 1 then Some(toks[1]) else None))
  }

  function Parse(shape: Shape, toks: seq<string>): Option<seq<Item>> {
    if toks == [] then Some([])
    else
      match First(shape, toks)
      case None => None
      case Some(item) =>
        match Parse(shape, toks[Width(item)..])
        case None => None
        case Some(items) => Some([item] + items)
  }

  predicate AcceptsTokens(shape: Shape, toks: seq<string>) {
    && shape.verb <= toks
    && var items := Parse(shape, toks[|shape.verb|..]);
    items.Some? && Complete(shape, items.value)
  }

  predicate Accepts(shape: Shape, command: string) {
    !HasMeta(command) && AcceptsTokens(shape, Split(command))
  }

  lemma FirstIsSound(shape: Shape, toks: seq<string>)
    requires toks != [] && First(shape, toks).Some?
    ensures var item := First(shape, toks).value;
            WellFormed(shape, item) && toks == Render(item) + toks[Width(item)..]
  {
    var item, tok := First(shape, toks).value, toks[0];
    if item.Valued? && item.inlined {
      assert tok == KeyOf(tok) + "=" + Inline(tok);
    }
  }

  lemma FirstOfItem(shape: Shape, item: Item, rest: seq<string>)
    requires WellFormed(shape, item)
    ensures First(shape, Render(item) + rest) == Some(item)
  {
    match item
    case Valued(k, v, inlined) =>
      if inlined { PartitionInline(k, v); }
    case Target(t) =>
  }

  /** Reading recovers exactly the item list that was written: the grammar is unambiguous. */
  lemma {:induction false} ParseOfItems(shape: Shape, items: seq<Item>)
    requires AllWellFormed(shape, items)
    ensures Parse(shape, Flatten(items)) == Some(items)
  {
    if items != [] {
      var toks, rest := Flatten(items), Flatten(items[1..]);
      FirstOfItem(shape, items[0], rest);
      assert toks[Width(items[0])..] == rest;
      ParseOfItems(shape, items[1..]);
      assert items == [items[0]] + items[1..];
    }
  }

  lemma {:induction false} ParseIsSound(shape: Shape, toks: seq<string>)
    requires Parse(shape, toks).Some?
    ensures AllWellFormed(shape, Parse(shape, toks).value)
    ensures Flatten(Parse(shape, toks).value) == toks
  {
    if toks != [] {
      var item := First(shape, toks).value;
      FirstIsSound(shape, toks);
      var rest := toks[Width(item)..];
      ParseIsSound(shape, rest);
      var items := Parse(shape, toks).value;
      assert items[1..] == Parse(shape, rest).value;
    }
  }

  predicate Spells(shape: Shape, items: seq<Item>, toks: seq<string>) {
    Sentence(shape, items) && toks == shape.verb + Flatten(items)
  }

  /** The language of the checker: a metacharacter-free command is accepted exactly when its
      tokens are the verb followed by a sentence of the grammar. */
  lemma {:induction false} LanguageOfAccepts(shape: Shape, command: string)
    ensures Accepts(shape, command) <==>
            !HasMeta(command) && exists items :: Spells(shape, items, Split(command))
  {
    var toks := Split(command);
    LanguageOfTokens(shape, toks);
    assert Accepts(shape, command) <==> !HasMeta(command) && AcceptsTokens(shape, toks);
    assert AcceptsTokens(shape, toks) <==> exists items :: Spells(shape, items, toks);
  }

  lemma {:induction false} AcceptedSpells(shape: Shape, toks: seq<string>)
    requires AcceptsTokens(shape, toks)
    ensures Spells(shape, Parse(shape, toks[|shape.verb|..]).value, toks)
  {
    var rest := toks[|shape.verb|..];
    ParseIsSound(shape, rest);
    assert toks == shape.verb + rest;
  }

  lemma LanguageOfTokens(shape: Shape, toks: seq<string>)
    ensures AcceptsTokens(shape, toks) <==> exists items :: Spells(shape, items, toks)
  {
    if AcceptsTokens(shape, toks) {
      AcceptedSpells(shape, toks);
    }
    forall items | Spells(shape, items, toks) ensures AcceptsTokens(shape, toks) {
      SentenceAccepted(shape, items);
    }
  }

  lemma {:induction false} SentenceAccepted(shape: Shape, items: seq<Item>)
    requires AllWellFormed(shape, items)
    ensures AcceptsTokens(shape, shape.verb + Flatten(items)) <==> Complete(shape, items)
  {
    ParseOfItems(shape, items);
    assert (shape.verb + Flatten(items))[|shape.verb|..] == Flatten(items);
  }

  // -- The loop ----------------------------------------------------------------------

  /** The loop's verdict on the tokens still to read, given what it has seen. */
  predicate Scan(
    shape: Shape, toks: seq<string>, seenRequired: set<string>, seenNamespace: bool, gotPositional: bool)
    decreases |toks|
  {
    if toks == [] then
      && gotPositional
      && shape.required.Keys <= seenRequired
      && (shape.namespace.Required? ==> seenNamespace)
      && (shape.namespace.Forbidden? ==> !seenNamespace)
    else
      var tok := toks[0];
      var key := KeyOf(tok);
      var value := ValueOf(tok, if |toks| > 1 then Some(toks[1]) else None);
      var rest := if '=' in tok || |toks| == 1 then toks[1..] else toks[2..];
      if key in shape.required then
        value == Some(shape.required[key]) && Scan(shape, rest, seenRequired + {key}, seenNamespace, gotPositional)
      else if key in shape.flags.patterns then
        && value.Some? && shape.flags.patterns[key](value.value)
        && Scan(shape, rest, seenRequired, seenNamespace || key in shape.flags.namespaces, gotPositional)
      else
        && !gotPositional && shape.positional.Some? && !("-" <= tok) && shape.positional.value(tok)
        && Scan(shape, toks[1..], seenRequired, seenNamespace, true)
  }

  predicate NamesNamespaceItem(shape: Shape, item: Item) {
    item.Valued? && item.key !in shape.required && item.key in shape.flags.namespaces
  }

  lemma NamesNamespaceStep(shape: Shape, items: seq<Item>)
    requires items != []
    ensures NamesNamespace(shape, items) <==> NamesNamespaceItem(shape, items[0]) || NamesNamespace(shape, items[1..])
  {
    var keys := shape.flags.namespaces - shape.required.Keys;
    assert Keys(items) * keys == KeyOfItem(items[0]) * keys + Keys(items[1..]) * keys;
    assert NamesNamespaceItem(shape, items[0]) <==> KeyOfItem(items[0]) * keys != {} by {
      if items[0].Valued? {
        assert items[0].key in keys ==> items[0].key in KeyOfItem(items[0]) * keys;
      }
    }
  }

  /** The loop's verdict on the items still to read, given what it has seen. */
  predicate Verdict(
    shape: Shape, items: seq<Item>, seenRequired: set<string>, seenNamespace: bool, gotPositional: bool)
  {
    && Targets(items) == (if gotPositional then 0 else 1)
    && shape.required.Keys <= seenRequired + Keys(items)
    && (shape.namespace.Required? ==> seenNamespace || NamesNamespace(shape, items))
    && (shape.namespace.Forbidden? ==> !seenNamespace && !NamesNamespace(shape, items))
  }

  function SeenRequired(shape: Shape, item: Item, seen: set<string>): set<string> {
    if item.Valued? && item.key in shape.required then seen + {item.key} else seen
  }

  lemma ScanStep(shape: Shape, toks: seq<string>, seenRequired: set<string>, seenNamespace: bool, gotPositional: bool)
    requires toks != [] && (shape.positional.None? ==> gotPositional)
    ensures Scan(shape, toks, seenRequired, seenNamespace, gotPositional) <==>
            First(shape, toks).Some? &&
            var item := First(shape, toks).value;
            && !(item.Target? && gotPositional)
            && Scan(shape, toks[Width(item)..], SeenRequired(shape, item, seenRequired),
                    seenNamespace || NamesNamespaceItem(shape, item), gotPositional || item.Target?)
  {
    hide KeyOf;
  }

  lemma VerdictStep(
    shape: Shape, item: Item, tail: seq<Item>, seenRequired: set<string>, seenNamespace: bool, gotPositional: bool)
    requires WellFormed(shape, item)
    ensures Verdict(shape, [item] + tail, seenRequired, seenNamespace, gotPositional) <==>
            && !(item.Target? && gotPositional)
            && Verdict(shape, tail, SeenRequired(shape, item, seenRequired),
                       seenNamespace || NamesNamespaceItem(shape, item), gotPositional || item.Target?)
  {
    hide NamesNamespace, WellFormed;
    var items := [item] + tail;
    assert items[1..] == tail;
    NamesNamespaceStep(shape, items);
    assert Keys(items) == KeyOfItem(item) + Keys(tail);
    assert shape.required.Keys <= seenRequired + Keys(items) <==>
           shape.required.Keys <= SeenRequired(shape, item, seenRequired) + Keys(tail);
  }

  lemma {:induction false} ScanNothing(shape: Shape, seenRequired: set<string>, seenNamespace: bool, gotPositional: bool)
    ensures Scan(shape, [], seenRequired, seenNamespace, gotPositional) <==>
            Verdict(shape, [], seenRequired, seenNamespace, gotPositional)
  {
  }

  /** Scanning tokens after some have been read is parsing them and adding what was seen. */
  lemma {:induction false} ScanIsParse(
    shape: Shape, toks: seq<string>, seenRequired: set<string>, seenNamespace: bool, gotPositional: bool)
    requires shape.positional.None? ==> gotPositional
    ensures Scan(shape, toks, seenRequired, seenNamespace, gotPositional) <==>
            Parse(shape, toks).Some? && Verdict(shape, Parse(shape, toks).value, seenRequired, seenNamespace, gotPositional)
    decreases |toks|
  {
    hide Scan, Verdict, WellFormed, First, NamesNamespaceItem;
    if toks == [] {
      ScanNothing(shape, seenRequired, seenNamespace, gotPositional);
    } else {
      ScanStep(shape, toks, seenRequired, seenNamespace, gotPositional);
      if First(shape, toks).Some? {
        var item := First(shape, toks).value;
        var rest := toks[Width(item)..];
        FirstIsSound(shape, toks);
        ScanIsParse(shape, rest, SeenRequired(shape, item, seenRequired),
                    seenNamespace || NamesNamespaceItem(shape, item), gotPositional || item.Target?);
        if Parse(shape, rest).Some? {
          VerdictStep(shape, item, Parse(shape, rest).value, seenRequired, seenNamespace, gotPositional);
        }
      }
    }
  }

  /** The loop's verdict on the whole rest is the checker's. */
  lemma {:induction false} ScanDecides(shape: Shape, command: string)
    requires !HasMeta(command) && shape.verb <= Split(command)
    ensures Scan(shape, Split(command)[|shape.verb|..], {}, false, shape.positional.None?) <==> Accepts(shape, command)
  {
    hide Scan, Split, Parse, NamesNamespace;
    var rest := Split(command)[|shape.verb|..];
    ScanIsParse(shape, rest, {}, false, shape.positional.None?);
    if Parse(shape, rest).Some? { assert {} + Keys(Parse(shape, rest).value) == Keys(Parse(shape, rest).value); }
  }

  lemma {:induction false} ScanAt(
    shape: Shape, rest: seq<string>, i: nat, seenRequired: set<string>, seenNamespace: bool, gotPositional: bool)
    requires i < |rest|
    ensures var key, value := KeyOf(rest[i]), ValueOf(rest[i], if i + 1 < |rest| then Some(rest[i + 1]) else None);
            var next := if '=' in rest[i] || i + 1 == |rest| then i + 1 else i + 2;
            Scan(shape, rest[i..], seenRequired, seenNamespace, gotPositional) <==>
            if key in shape.required then
              value == Some(shape.required[key]) && Scan(shape, rest[next..], seenRequired + {key}, seenNamespace, gotPositional)
            else if key in shape.flags.patterns then
              && value.Some? && shape.flags.patterns[key](value.value)
              && Scan(shape, rest[next..], seenRequired, seenNamespace || key in shape.flags.namespaces, gotPositional)
            else
              && !gotPositional && !("-" <= rest[i]) && shape.positional.Some? && shape.positional.value(rest[i])
              && Scan(shape, rest[i + 1..], seenRequired, seenNamespace, true)
  {
    hide KeyOf, ValueOf;
    assert rest[i..][0] == rest[i] && rest[i..][1..] == rest[i + 1..];
    assert i + 1 < |rest| ==> rest[i..][1] == rest[i + 1] && rest[i..][2..] == rest[i + 2..];
  }

  lemma {:induction false} ScanEnd(shape: Shape, seenRequired: set<string>, seenNamespace: bool, gotPositional: bool)
    ensures Scan(shape, [], seenRequired, seenNamespace, gotPositional) <==>
            && gotPositional && !(exists k :: k in shape.required && k !in seenRequired)
            && (shape.namespace.Required? ==> seenNamespace) && (shape.namespace.Forbidden? ==> !seenNamespace)
  {
  }

  /** The checker itself. */
  method SafeKubectl(command: string, shape: Shape) returns (ok: bool)
    ensures ok <==> Accepts(shape, command)
  {
    hide Scan, Split, HasMeta, Complete;
    if HasMeta(command) {
      return false;
    }
    var toks := Split(command);
    if !(shape.verb <= toks) {
      return false;
    }
    ScanDecides(shape, command);
    ok := ScanTokens(shape, toks[|shape.verb|..]);
  }

  /** One pass over the tokens after the verb. */
  method ScanTokens(shape: Shape, rest: seq<string>) returns (ok: bool)
    ensures ok <==> Scan(shape, rest, {}, false, shape.positional.None?)
  {
    hide KeyOf, Inline, ValueOf, Scan;
    var seenRequired: set<string> := {};
    var seenNamespace := false;
    var gotPositional := shape.positional.None?;
    ghost var verdict := Scan(shape, rest, {}, false, gotPositional);
    var i := 0;
    assert rest[0..] == rest;
    while i < |rest|
      invariant i <= |rest|
      invariant verdict == Scan(shape, rest[i..], seenRequired, seenNamespace, gotPositional)
    {
      var tok := rest[i];
      var key, hasEq := KeyOf(tok), '=' in tok;
      var value := ValueOf(tok, if i + 1 < |rest| then Some(rest[i + 1]) else None);
      var isPositional := !gotPositional && !("-" <= tok) && shape.positional.Some? && shape.positional.value(tok);
      ScanAt(shape, rest, i, seenRequired, seenNamespace, gotPositional);
      if key in shape.required {
        if value != Some(shape.required[key]) {
          return false;
        }
        seenRequired := seenRequired + {key};
      } else if key in shape.flags.patterns {
        if value.None? || !shape.flags.patterns[key](value.value) {
          return false;
        }
        seenNamespace := seenNamespace || key in shape.flags.namespaces;
      } else if isPositional {
        gotPositional := true;
        i := i + 1;
        continue;
      } else {
        return false;
      }
      NeedsNext(tok, if i + 1 < |rest| then Some(rest[i + 1]) else None);
      i := i + (if hasEq then 1 else 2);
    }
    assert rest[i..] == [];
    ScanEnd(shape, seenRequired, seenNamespace, gotPositional);
    if !gotPositional || exists k :: k in shape.required && k !in seenRequired {
      return false;
    }
    if shape.namespace == Required && !seenNamespace {
      return false;
    }
    return !(shape.namespace == Forbidden && seenNamespace);
  }

  /** A flag without an inline value has one only if a token follows. */
  lemma NeedsNext(tok: string, next: Option<string>)
    ensures ValueOf(tok, next).Some? ==> '=' in tok || next.Some?
  {
  }

  // -- Spelling does not matter ----------------------------------------------------------

  /** An item with its spelling forgotten: `--k v` and `--k=v` become the same. */
  function Canonical(item: Item): Item {
    if item.Valued? then item.(inlined := true) else item
  }

  function Canonicals(items: seq<Item>): (r: seq<Item>)
    ensures |r| == |items|
    ensures forall i :: 0 <= i < |items| ==> r[i] == Canonical(items[i])
  {
    seq(|items|, i requires 0 <= i < |items| => Canonical(items[i]))
  }

  /** The same arguments in any order, each flag written inline or as two tokens. */
  predicate Respelling(a: seq<Item>, b: seq<Item>) {
    multiset(Canonicals(a)) == multiset(Canonicals(b))
  }

  lemma RespellingFinds(a: seq<Item>, b: seq<Item>, i: nat)
    requires Respelling(a, b) && i < |b|
    ensures exists j :: 0 <= j < |a| && Canonical(a[j]) == Canonical(b[i])
  {
    assert Canonicals(b)[i] in multiset(Canonicals(b));
    assert Canonicals(b)[i] in multiset(Canonicals(a));
    var j :| 0 <= j < |a| && Canonicals(a)[j] == Canonicals(b)[i];
    assert Canonical(a[j]) == Canonical(b[i]);
  }

  lemma {:induction false} TargetsOfCanonicals(items: seq<Item>)
    ensures Targets(Canonicals(items)) == Targets(items)
  {
    if items != [] {
      assert Canonicals(items)[1..] == Canonicals(items[1..]);
      TargetsOfCanonicals(items[1..]);
    }
  }

  lemma {:induction false} RespellingKeys(a: seq<Item>, b: seq<Item>)
    requires Respelling(a, b)
    ensures Keys(b) <= Keys(a)
  {
    forall k | k in Keys(b) ensures k in Keys(a) {
      KeysMember(b, k);
      var i :| 0 <= i < |b| && k in KeyOfItem(b[i]);
      RespellingFinds(a, b, i);
      KeysMember(a, k);
    }
  }

  lemma RespellingKeeps(shape: Shape, a: seq<Item>, b: seq<Item>)
    requires Respelling(a, b) && Sentence(shape, a)
    ensures Sentence(shape, b)
  {
    forall i | 0 <= i < |b| ensures WellFormed(shape, b[i]) {
      RespellingFinds(a, b, i);
      var j :| 0 <= j < |a| && Canonical(a[j]) == Canonical(b[i]);
      assert WellFormed(shape, a[j]);
    }
    TargetsOfCanonicals(a);
    TargetsOfCanonicals(b);
    CountPermutation(Canonicals(a), Canonicals(b), (item: Item) => item.Target?);
    RespellingKeys(a, b);
    RespellingKeys(b, a);
  }

  /** Acceptance of a token list does not depend on the order of its items, nor on whether a
      flag is written `--k=v` or `--k v`. */
  lemma {:induction false} AcceptanceIgnoresSpelling(shape: Shape, a: seq<Item>, b: seq<Item>)
    requires Respelling(a, b) && AllWellFormed(shape, a)
    ensures AllWellFormed(shape, b)
    ensures AcceptsTokens(shape, shape.verb + Flatten(a)) <==> AcceptsTokens(shape, shape.verb + Flatten(b))
  {
    forall i | 0 <= i < |b| ensures WellFormed(shape, b[i]) {
      RespellingFinds(a, b, i);
      var j :| 0 <= j < |a| && Canonical(a[j]) == Canonical(b[i]);
      assert WellFormed(shape, a[j]);
    }
    SentenceAccepted(shape, a);
    SentenceAccepted(shape, b);
    if Complete(shape, a) { RespellingKeeps(shape, a, b); }
    if Complete(shape, b) { RespellingKeeps(shape, b, a); }
  }

  /** No key and no accepted value is empty, so every item can be written as two tokens. */
  ghost predicate NothingEmpty(shape: Shape) {
    forall key, value :: GoodValue(shape, key, value) ==> key != "" && value != ""
  }

  predicate Clean(tok: string) {
    Token(tok) && !HasMeta(tok)
  }

  predicate AllClean(toks: seq<string>) {
    forall i :: 0 <= i < |toks| ==> Clean(toks[i])
  }

  lemma CleanParts(a: string, b: string)
    requires !HasMeta(a + b) && forall i :: 0 <= i < |a + b| ==> !IsSpace((a + b)[i])
    ensures a != "" ==> Clean(a)
    ensures b != "" ==> Clean(b)
  {
    assert forall i :: 0 <= i < |a| ==> a[i] == (a + b)[i];
    assert forall i :: 0 <= i < |b| ==> b[i] == (a + b)[|a| + i];
  }

  lemma CleanSpelling(shape: Shape, a: Item, b: Item)
    requires NothingEmpty(shape) && WellFormed(shape, a) && Canonical(a) == Canonical(b)
    requires AllClean(Render(a))
    ensures AllClean(Render(b))
  {
    if a.Valued? {
      var k, v := a.key, a.value;
      assert GoodValue(shape, k, v);
      if a.inlined {
        assert Render(a)[0] == (k + "=") + v == k + ("=" + v);
        CleanParts(k + "=", v);
        CleanParts(k, "=" + v);
      } else {
        assert Clean(Render(a)[0]) && Clean(Render(a)[1]);
        assert !IsMeta('=') && !IsSpace('=');
        assert Clean(k + "=" + v);
      }
    }
  }

  lemma {:induction false} CleanFlatten(items: seq<Item>)
    ensures AllClean(Flatten(items)) <==> forall i :: 0 <= i < |items| ==> AllClean(Render(items[i]))
  {
    if items != [] {
      var first, rest := Render(items[0]), Flatten(items[1..]);
      CleanFlatten(items[1..]);
      assert forall i :: 0 <= i < |first| ==> first[i] == Flatten(items)[i];
      assert forall i :: 0 <= i < |rest| ==> rest[i] == Flatten(items)[|first| + i];
      assert forall i :: 0 < i < |items| ==> items[i] == items[1..][i - 1];
    }
  }

  lemma {:induction false} CleanSplit(command: string)
    requires !HasMeta(command)
    ensures AllClean(Split(command))
  {
    var toks := Split(command);
    forall i, j | 0 <= i < |toks| && 0 <= j < |toks[i]| ensures !IsMeta(toks[i][j]) {
      SplitCharacters(command, i, toks[i][j]);
    }
  }

  lemma {:induction false} CleanJoin(toks: seq<string>)
    requires AllClean(toks)
    ensures !HasMeta(Join(toks)) && Split(Join(toks)) == toks
  {
    SplitJoin(toks);
    forall j | 0 <= j < |Join(toks)| ensures !IsMeta(Join(toks)[j]) {
      JoinCharacters(toks, Join(toks)[j]);
    }
  }

  /** The same at the level of the command string: rewriting an accepted command with its
      arguments in another order, or a flag in its other spelling, gives an accepted command. */
  lemma {:induction false} AcceptedCommandRespelled(shape: Shape, command: string, a: seq<Item>, b: seq<Item>)
    requires NothingEmpty(shape)
    requires !HasMeta(command) && Spells(shape, a, Split(command)) && Respelling(a, b)
    ensures Accepts(shape, command)
    ensures Accepts(shape, Join(shape.verb + Flatten(b)))
  {
    hide Clean, HasMeta, Split, Join, Respelling, NothingEmpty;
    SentenceAccepted(shape, a);
    AcceptanceIgnoresSpelling(shape, a, b);
    CleanSplit(command);
    var toks := shape.verb + Flatten(a);
    assert forall i :: 0 <= i < |Flatten(a)| ==> Flatten(a)[i] == toks[|shape.verb| + i];
    assert forall i :: 0 <= i < |shape.verb| ==> shape.verb[i] == toks[i];
    CleanRespelled(shape, a, b);
    CleanJoin(shape.verb + Flatten(b));
  }

  lemma {:induction false} CleanRespelled(shape: Shape, a: seq<Item>, b: seq<Item>)
    requires NothingEmpty(shape) && Sentence(shape, a) && Respelling(a, b) && AllClean(Flatten(a))
    ensures AllClean(Flatten(b))
  {
    hide Clean, Respelling, NothingEmpty, Complete;
    CleanFlatten(a);
    forall i | 0 <= i < |b| ensures AllClean(Render(b[i])) {
      RespellingFinds(a, b, i);
      var j :| 0 <= j < |a| && Canonical(a[j]) == Canonical(b[i]);
      CleanSpelling(shape, a[j], b[i]);
    }
    CleanFlatten(b);
  }

  // -- Repetition ------------------------------------------------------------------------

  lemma {:induction false} KeysPush(items: seq<Item>, x: Item)
    ensures Keys(items + [x]) == Keys(items) + KeyOfItem(x)
  {
    if items == [] {
      assert items + [x] == [x];
    } else {
      assert (items + [x])[1..] == items[1..] + [x];
      KeysPush(items[1..], x);
    }
  }

  /** Writing a flag of an accepted command once more never makes it rejected; writing its
      positional once more always does. */
  lemma {:induction false} RepetitionRule(shape: Shape, items: seq<Item>, i: nat)
    requires Sentence(shape, items) && i < |items|
    ensures AcceptsTokens(shape, shape.verb + Flatten(items + [items[i]])) <==> items[i].Valued?
  {
    var longer := items + [items[i]];
    assert forall k :: 0 <= k < |items| ==> longer[k] == items[k];
    assert WellFormed(shape, items[i]);
    SentenceAccepted(shape, longer);
    CountPush(items, items[i], (item: Item) => item.Target?);
    KeysPush(items, items[i]);
    KeysMember(items, if items[i].Valued? then items[i].key else "");
    if items[i].Valued? {
      assert items[i].key in KeyOfItem(items[i]);
      assert Keys(longer) == Keys(items);
    }
  }
}
