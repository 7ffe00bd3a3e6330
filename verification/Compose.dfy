/** The commands the catalog prints from a finding's stored keys, and reading them back. */
module Compose {
  import opened Text
  import opened Kubectl
  import opened Catalog

  datatype Fields = Fields(kind: string, name: string, namespace: string, context: string, kubeconfig: string)

  // -- Printing --------------------------------------------------------------------------

  function TailWords(f: Fields): seq<string> {
    (if f.context != "" then ["--context", f.context] else [])
    + (if f.kubeconfig != "" then ["--kubeconfig", f.kubeconfig] else [])
  }

  /** `compose`: the words of the action's command for a finding, to be printed one
      space apart, or None when a key it needs is missing. */
  function ComposeWords(a: Action, f: Fields): Option<seq<string>> {
    var kind := Lower(f.kind);
    match a
    case ReclaimEvicted =>
      if f.namespace == "" then None
      else Some(["kubectl", "delete", "pods", "-n", f.namespace, SELECTOR + "=" + FAILED] + TailWords(f))
    case DeleteCompleted =>
      if f.namespace == "" then None
      else Some(["kubectl", "delete", "pods", "-n", f.namespace, SELECTOR + "=" + SUCCEEDED] + TailWords(f))
    case RolloutRestart =>
      if kind !in RESTARTABLE || f.name == "" || f.namespace == "" then None
      else Some(["kubectl", "rollout", "restart", kind + "/" + f.name, "-n", f.namespace] + TailWords(f))
    case ScaleToZero =>
      if kind !in SCALABLE || f.name == "" || f.namespace == "" then None
      else Some(["kubectl", "scale", kind + "/" + f.name, REPLICAS + "=" + "0", "-n", f.namespace] + TailWords(f))
    case DeleteNode =>
      if f.name == "" then None else Some(["kubectl", "delete", "node", f.name] + TailWords(f))
  }

  function Compose(a: Action, f: Fields): Option<string> {
    match ComposeWords(a, f)
    case None => None
    case Some(words) => Some(Join(words))
  }

  // -- Reading back ----------------------------------------------------------------------

  datatype Reading = Reading(
    target: Option<string>, namespace: Option<string>, context: Option<string>, kubeconfig: Option<string>)

  function FirstTarget(items: seq<Item>): Option<string> {
    if items == [] then None
    else if items[0].Target? then Some(items[0].token)
    else FirstTarget(items[1..])
  }

  function FirstValue(items: seq<Item>, keys: set<string>): Option<string> {
    if items == [] then None
    else if items[0].Valued? && items[0].key in keys then Some(items[0].value)
    else FirstValue(items[1..], keys)
  }

  const NAMESPACE_KEYS: set<string> := {"-n", "--namespace"}
  const CONTEXT_KEYS: set<string> := {"--context"}
  const KUBECONFIG_KEYS: set<string> := {"--kubeconfig"}

  function ReadItems(items: seq<Item>): Reading {
    Reading(FirstTarget(items), FirstValue(items, NAMESPACE_KEYS),
            FirstValue(items, CONTEXT_KEYS), FirstValue(items, KUBECONFIG_KEYS))
  }

  /** What an accepted command of action `a` acts on. */
  function ReadBack(a: Action, wide: WideClass, command: string): Option<Reading> {
    if Validates(a, wide, command)
    then Some(ReadItems(Parse(ShapeOf(a, wide), Split(command)[|VerbOf(a)|..]).value))
    else None
  }

  function NonEmpty(s: string): Option<string> {
    if s == "" then None else Some(s)
  }

  /** What the finding asked for. */
  function ReadingOf(a: Action, f: Fields): Reading {
    Reading(
      match a
      case RolloutRestart => Some(Lower(f.kind) + "/" + f.name)
      case ScaleToZero => Some(Lower(f.kind) + "/" + f.name)
      case DeleteNode => Some(f.name)
      case _ => None,
      if a.DeleteNode? then None else Some(f.namespace),
      NonEmpty(f.context),
      NonEmpty(f.kubeconfig))
  }

  predicate NamesTarget(a: Action) {
    a.RolloutRestart? || a.ScaleToZero? || a.DeleteNode?
  }

  /** The keys the composer prints are in their character classes. */
  predicate InClass(a: Action, wide: WideClass, f: Fields) {
    && (NamesTarget(a) ==> Name(wide, f.name))
    && (a.DeleteNode? ==> !("-" <= f.name))
    && (!a.DeleteNode? ==> Name(wide, f.namespace))
    && (f.context != "" ==> Context(wide, f.context))
    && (f.kubeconfig != "" ==> Kubeconfig(wide, f.kubeconfig))
  }

  // -- The printed text is the joined items ----------------------------------------------

  function TailItems(f: Fields): seq<Item> {
    (if f.context != "" then [Valued("--context", f.context, false)] else [])
    + (if f.kubeconfig != "" then [Valued("--kubeconfig", f.kubeconfig, false)] else [])
  }

  function HeadItems(a: Action, f: Fields): seq<Item> {
    match a
    case ReclaimEvicted => [Valued("-n", f.namespace, false), Valued(SELECTOR, FAILED, true)]
    case DeleteCompleted => [Valued("-n", f.namespace, false), Valued(SELECTOR, SUCCEEDED, true)]
    case RolloutRestart => [Target(Lower(f.kind) + "/" + f.name), Valued("-n", f.namespace, false)]
    case ScaleToZero =>
      [Target(Lower(f.kind) + "/" + f.name), Valued(REPLICAS, "0", true), Valued("-n", f.namespace, false)]
    case DeleteNode => [Target(f.name)]
  }

  function ItemsOf(a: Action, f: Fields): seq<Item> {
    HeadItems(a, f) + TailItems(f)
  }

  lemma {:induction false} FlattenConcat(a: seq<Item>, b: seq<Item>)
    ensures Flatten(a + b) == Flatten(a) + Flatten(b)
  {
    if a == [] {
      assert a + b == b;
    } else {
      assert (a + b)[1..] == a[1..] + b;
      FlattenConcat(a[1..], b);
    }
  }

  lemma FlattenPair(x: Item, y: Item)
    ensures Flatten([x]) == Render(x)
    ensures Flatten([x, y]) == Render(x) + Render(y)
  {
    assert [x, y][1..] == [y] && [x][1..] == [] && [y][1..] == [];
  }

  lemma TailWordsAreItems(f: Fields)
    ensures Flatten(TailItems(f)) == TailWords(f)
  {
    var c, k := Valued("--context", f.context, false), Valued("--kubeconfig", f.kubeconfig, false);
    FlattenPair(c, k);
    FlattenPair(k, k);
  }

  lemma HeadWordsAreItems(a: Action, f: Fields)
    requires ComposeWords(a, f).Some?
    ensures ComposeWords(a, f).value == VerbOf(a) + Flatten(HeadItems(a, f)) + TailWords(f)
  {
    var items := HeadItems(a, f);
    match a
    case ScaleToZero =>
      assert items[1..] == [items[1], items[2]];
      FlattenPair(items[1], items[2]);
    case DeleteNode =>
      FlattenPair(items[0], items[0]);
    case _ =>
      FlattenPair(items[0], items[1]);
  }

  lemma WordsAreItems(a: Action, f: Fields)
    requires ComposeWords(a, f).Some?
    ensures ComposeWords(a, f).value == VerbOf(a) + Flatten(ItemsOf(a, f))
  {
    HeadWordsAreItems(a, f);
    TailWordsAreItems(f);
    FlattenConcat(HeadItems(a, f), TailItems(f));
  }

  // -- The round trip --------------------------------------------------------------------

  lemma {:induction false} FirstConcat(a: seq<Item>, b: seq<Item>, keys: set<string>)
    ensures FirstTarget(a + b) == (if FirstTarget(a).Some? then FirstTarget(a) else FirstTarget(b))
    ensures FirstValue(a + b, keys) == (if FirstValue(a, keys).Some? then FirstValue(a, keys) else FirstValue(b, keys))
  {
    if a == [] {
      assert a + b == b;
    } else {
      assert (a + b)[1..] == a[1..] + b;
      FirstConcat(a[1..], b, keys);
    }
  }

  /** Flag names tell apart. */
  lemma FlagNames()
    ensures "-n" != "--namespace" && "-n" != "--context" && "-n" != "--kubeconfig"
    ensures "--namespace" != "--context" && "--namespace" != "--kubeconfig" && "--context" != "--kubeconfig"
    ensures SELECTOR != "-n" && SELECTOR != "--namespace" && SELECTOR != "--context" && SELECTOR != "--kubeconfig"
    ensures REPLICAS != "-n" && REPLICAS != "--namespace" && REPLICAS != "--context" && REPLICAS != "--kubeconfig"
  {
    assert "-n"[1] == 'n' && SELECTOR[1] == REPLICAS[1] == "--namespace"[1] == "--context"[1] == "--kubeconfig"[1] == '-';
    assert "--namespace"[2] == 'n' && "--context"[2] == 'c' && "--kubeconfig"[2] == 'k';
    assert SELECTOR[2] == 'f' && REPLICAS[2] == 'r';
  }

  lemma ConcatReads(a: seq<Item>, b: seq<Item>)
    ensures ReadItems(a + b) == Prefer(ReadItems(a), ReadItems(b))
  {
    FirstConcat(a, b, NAMESPACE_KEYS);
    FirstConcat(a, b, CONTEXT_KEYS);
    FirstConcat(a, b, KUBECONFIG_KEYS);
  }

  function Prefer(r: Reading, s: Reading): Reading {
    Reading(if r.target.Some? then r.target else s.target,
            if r.namespace.Some? then r.namespace else s.namespace,
            if r.context.Some? then r.context else s.context,
            if r.kubeconfig.Some? then r.kubeconfig else s.kubeconfig)
  }

  lemma OneReads(x: Item)
    ensures ReadItems([x]) ==
            if x.Target? then Reading(Some(x.token), None, None, None)
            else Reading(None,
                         if x.key in NAMESPACE_KEYS then Some(x.value) else None,
                         if x.key in CONTEXT_KEYS then Some(x.value) else None,
                         if x.key in KUBECONFIG_KEYS then Some(x.value) else None)
  {
    assert [x][1..] == [];
    OneValue(x, NAMESPACE_KEYS);
    OneValue(x, CONTEXT_KEYS);
    OneValue(x, KUBECONFIG_KEYS);
    assert FirstTarget([x]) == if x.Target? then Some(x.token) else None;
    var r := ReadItems([x]);
    assert r.target == if x.Target? then Some(x.token) else None;
    assert r.namespace == if x.Valued? && x.key in NAMESPACE_KEYS then Some(x.value) else None;
    assert r.context == if x.Valued? && x.key in CONTEXT_KEYS then Some(x.value) else None;
    assert r.kubeconfig == if x.Valued? && x.key in KUBECONFIG_KEYS then Some(x.value) else None;
  }

  lemma {:induction false} OneValue(x: Item, keys: set<string>)
    ensures FirstValue([x], keys) == if x.Valued? && x.key in keys then Some(x.value) else None
  {
    assert [x][1..] == [];
  }

  lemma ItemsRead(a: Action, f: Fields)
    ensures ReadItems(ItemsOf(a, f)) == ReadingOf(a, f)
  {
    FlagNames();
    var head := HeadItems(a, f);
    OneReads(head[0]);
    if |head| > 1 {
      OneReads(head[1]);
      ConcatReads([head[0]], [head[1]]);
    }
    if |head| > 2 {
      OneReads(head[2]);
      ConcatReads([head[0]] + [head[1]], [head[2]]);
    }
    assert head == if |head| == 1 then [head[0]] else if |head| == 2 then [head[0]] + [head[1]]
                   else [head[0]] + [head[1]] + [head[2]];
    var c, k := Valued("--context", f.context, false), Valued("--kubeconfig", f.kubeconfig, false);
    OneReads(c);
    OneReads(k);
    ConcatReads(if f.context != "" then [c] else [], if f.kubeconfig != "" then [k] else []);
    ConcatReads(head, TailItems(f));
  }

  // Class characters are never whitespace or metacharacters.

  lemma ClassIsClean(wide: WideClass, extra: string, s: string)
    requires Class(wide, extra, s)
    requires forall c :: c in extra ==> !IsSpace(c) && !IsMeta(c)
    ensures Clean(s)
  {
    forall i | 0 <= i < |s| ensures !IsSpace(s[i]) && !IsMeta(s[i]) {
      if WordChar(wide, s[i]) {
        WordIsPlain(wide, s[i]);
      }
    }
  }

  /** An ASCII character of no word. */
  predicate Symbol(m: char) {
    m as int < 0x80 && !('a' <= m <= 'z') && !('A' <= m <= 'Z') && !('0' <= m <= '9') && m != '_'
  }

  lemma MetaIsSymbol(m: char)
    requires IsMeta(m)
    ensures Symbol(m)
  {
  }

  lemma WordIsPlain(wide: WideClass, c: char)
    requires WordChar(wide, c)
    ensures !IsSpace(c) && !IsMeta(c)
  {
    hide IsMeta;
    if IsMeta(c) { MetaIsSymbol(c); }
  }

  lemma CleanConcat(a: string, b: string)
    requires Clean(a) && Clean(b)
    ensures Clean(a + b)
  {
  }

  lemma ExtraIsPlain()
    ensures forall c :: c in KUBECONFIG_EXTRA + "=" ==> !IsSpace(c) && !IsMeta(c)
    ensures forall c :: c in NAME_EXTRA || c in CONTEXT_EXTRA ==> c in KUBECONFIG_EXTRA
  {
  }

  /** A token that does not start with a dash has no flag for a key. */
  lemma {:induction false} NoFlagKey(t: string, flag: string)
    requires t != "" && !("-" <= t) && flag != "" && flag[0] == '-'
    ensures KeyOf(t) != flag
  {
    assert t[0] == '-' ==> "-" <= t;
  }

  lemma {:induction false} NoFlagKeys(a: Action, wide: WideClass, t: string)
    requires t != "" && !("-" <= t)
    requires NamesTarget(a)
    ensures KeyOf(t) !in RequiredOf(a) && KeyOf(t) !in Flags(wide).patterns
  {
    NoFlagKey(t, REPLICAS);
    NoFlagKey(t, "-n");
    NoFlagKey(t, "--namespace");
    NoFlagKey(t, "--context");
    NoFlagKey(t, "--kubeconfig");
  }

  function KindsOf(a: Action): seq<string> {
    if a.RolloutRestart? then RESTARTABLE else SCALABLE
  }

  lemma KindLetters(a: Action, kind: string)
    requires kind in KindsOf(a)
    ensures Letters(kind)
  {
    DeploymentLetters();
    StatefulSetLetters();
    DaemonSetLetters();
    assert kind == "deployment" || kind == "statefulset" || kind == "daemonset";
  }

  predicate Letters(s: string) {
    s != "" && forall i :: 0 <= i < |s| ==> 'a' <= s[i] <= 'z'
  }

  lemma DeploymentLetters() ensures Letters("deployment") {}

  lemma StatefulSetLetters() ensures Letters("statefulset") {}

  lemma DaemonSetLetters() ensures Letters("daemonset") {}

  lemma WorkloadTargetOf(a: Action, wide: WideClass, kind: string, name: string)
    requires kind in KindsOf(a) && Name(wide, name)
    ensures WorkloadTarget(wide, KindsOf(a), kind + "/" + name)
    ensures Clean(kind + "/" + name) && !("-" <= kind + "/" + name)
  {
    KindLetters(a, kind);
    var t := kind + "/" + name;
    var i :| 0 <= i < |KindsOf(a)| && KindsOf(a)[i] == kind;
    assert t[|kind| + 1..] == name;
    assert t[0] == kind[0];
    ExtraIsPlain();
    ClassIsClean(wide, NAME_EXTRA, name);
    assert Class(wide, "/", kind + "/") && !IsSpace('/') && !IsMeta('/');
    ClassIsClean(wide, "/", kind + "/");
    CleanConcat(kind + "/", name);
  }

  lemma TargetWellFormed(a: Action, wide: WideClass, f: Fields)
    requires NamesTarget(a) && ComposeWords(a, f).Some? && InClass(a, wide, f)
    ensures WellFormed(ShapeOf(a, wide), HeadItems(a, f)[0]) && Clean(HeadItems(a, f)[0].token)
  {
    var t := HeadItems(a, f)[0].token;
    if a.DeleteNode? {
      ExtraIsPlain();
      ClassIsClean(wide, NAME_EXTRA, f.name);
    } else {
      WorkloadTargetOf(a, wide, Lower(f.kind), f.name);
    }
    NoFlagKeys(a, wide, t);
  }

  lemma NoEquals()
    ensures '=' !in "-n" && '=' !in "--context" && '=' !in "--kubeconfig" && '=' !in SELECTOR && '=' !in REPLICAS
  {
  }

  lemma FlagWellFormed(a: Action, wide: WideClass, key: string, value: string)
    requires key == "-n" || key == "--context" || key == "--kubeconfig"
    requires Flags(wide).patterns[key](value)
    ensures WellFormed(ShapeOf(a, wide), Valued(key, value, false))
  {
    FlagNames();
    NoEquals();
  }

  lemma RequiredWellFormed(a: Action, wide: WideClass, key: string)
    requires key in RequiredOf(a)
    ensures WellFormed(ShapeOf(a, wide), Valued(key, RequiredOf(a)[key], true))
  {
    NoEquals();
  }

  lemma HeadWellFormed(a: Action, wide: WideClass, f: Fields)
    requires ComposeWords(a, f).Some? && InClass(a, wide, f)
    ensures AllWellFormed(ShapeOf(a, wide), HeadItems(a, f))
  {
    if NamesTarget(a) {
      TargetWellFormed(a, wide, f);
    }
    if !a.DeleteNode? {
      FlagWellFormed(a, wide, "-n", f.namespace);
    }
    if a.ScaleToZero? {
      RequiredWellFormed(a, wide, REPLICAS);
    } else if !NamesTarget(a) {
      RequiredWellFormed(a, wide, SELECTOR);
    }
  }

  lemma PrintedWellFormed(a: Action, wide: WideClass, f: Fields)
    requires ComposeWords(a, f).Some? && InClass(a, wide, f)
    ensures AllWellFormed(ShapeOf(a, wide), ItemsOf(a, f))
  {
    HeadWellFormed(a, wide, f);
    FlagNames();
    if f.context != "" { FlagWellFormed(a, wide, "--context", f.context); }
    if f.kubeconfig != "" { FlagWellFormed(a, wide, "--kubeconfig", f.kubeconfig); }
    assert AllWellFormed(ShapeOf(a, wide), TailItems(f));
  }

  lemma PrintedComplete(a: Action, wide: WideClass, f: Fields)
    ensures Complete(ShapeOf(a, wide), ItemsOf(a, f))
  {
    FlagNames();
    CountConcat(HeadItems(a, f), TailItems(f), (item: Item) => item.Target?);
    KeysOfConcat(HeadItems(a, f), TailItems(f));
    HeadSummary(a, f);
    TailSummary(f);
    assert Flags(wide).namespaces == NAMESPACE_KEYS;
  }

  lemma HeadSummary(a: Action, f: Fields)
    ensures Targets(HeadItems(a, f)) == (if NamesTarget(a) then 1 else 0)
    ensures Keys(HeadItems(a, f)) == RequiredOf(a).Keys + (if a.DeleteNode? then {} else {"-n"})
  {
    var items := HeadItems(a, f);
    var n, last := |items|, items[|items| - 1];
    var isTarget := (item: Item) => item.Target?;
    SummaryOf(items[0]);
    if n >= 2 {
      CountPush([items[0]], items[1], isTarget);
      SummaryOf(items[1]);
      KeysOfConcat([items[0]], [items[1]]);
    }
    if n == 3 {
      CountPush([items[0]] + [items[1]], items[2], isTarget);
      SummaryOf(items[2]);
      KeysOfConcat([items[0]] + [items[1]], [items[2]]);
    }
    assert items == if n == 1 then [items[0]] else if n == 2 then [items[0]] + [items[1]]
                    else [items[0]] + [items[1]] + [items[2]];
  }

  lemma SummaryOf(x: Item)
    ensures Targets([x]) == (if x.Target? then 1 else 0) && Keys([x]) == KeyOfItem(x)
  {
    assert [x][1..] == [];
    assert Keys([x]) == KeyOfItem(x) + Keys([]);
    CountPush([], x, (item: Item) => item.Target?);
    assert [] + [x] == [x];
  }

  lemma TailSummary(f: Fields)
    ensures Targets(TailItems(f)) == 0
    ensures Keys(TailItems(f)) <= CONTEXT_KEYS + KUBECONFIG_KEYS
  {
    var c, k := Valued("--context", f.context, false), Valued("--kubeconfig", f.kubeconfig, false);
    SummaryOf(c);
    SummaryOf(k);
    CountPush([c], k, (item: Item) => item.Target?);
    KeysOfConcat([c], [k]);
    assert KeyOfItem(c) == CONTEXT_KEYS && KeyOfItem(k) == KUBECONFIG_KEYS;
    var items := if f.context != "" then (if f.kubeconfig != "" then [c] + [k] else [c])
                 else if f.kubeconfig != "" then [k] else [];
    assert TailItems(f) == items;
    assert Keys(items) <= KeyOfItem(c) + KeyOfItem(k);
  }

  lemma {:induction false} KeysOfConcat(a: seq<Item>, b: seq<Item>)
    ensures Keys(a + b) == Keys(a) + Keys(b)
  {
    if a == [] {
      assert a + b == b;
    } else {
      assert (a + b)[1..] == a[1..] + b;
      KeysOfConcat(a[1..], b);
    }
  }

  lemma TailClean(wide: WideClass, f: Fields)
    requires f.context != "" ==> Context(wide, f.context)
    requires f.kubeconfig != "" ==> Kubeconfig(wide, f.kubeconfig)
    ensures AllClean(TailWords(f))
  {
    ExtraIsPlain();
    FlagsClean();
    if f.context != "" { ClassIsClean(wide, CONTEXT_EXTRA, f.context); }
    if f.kubeconfig != "" { ClassIsClean(wide, KUBECONFIG_EXTRA, f.kubeconfig); }
  }

  function HeadWords(a: Action, f: Fields): seq<string>
    requires ComposeWords(a, f).Some?
  {
    var words := ComposeWords(a, f).value;
    words[..|words| - |TailWords(f)|]
  }

  lemma HeadClean(a: Action, wide: WideClass, f: Fields)
    requires ComposeWords(a, f).Some? && InClass(a, wide, f)
    ensures AllClean(HeadWords(a, f))
  {
    hide Clean, Class;
    ExtraIsPlain();
    VerbsClean();
    FlagsClean();
    RequiredClean();
    if NamesTarget(a) { TargetWellFormed(a, wide, f); }
    if !a.DeleteNode? { ClassIsClean(wide, NAME_EXTRA, f.namespace); }
  }

  lemma WordsClean(a: Action, wide: WideClass, f: Fields)
    requires ComposeWords(a, f).Some? && InClass(a, wide, f)
    ensures AllClean(ComposeWords(a, f).value)
  {
    TailClean(wide, f);
    HeadClean(a, wide, f);
    assert ComposeWords(a, f).value == HeadWords(a, f) + TailWords(f);
  }

  predicate Plain(s: string) {
    s != "" && forall i :: 0 <= i < |s| ==>
      'a' <= s[i] <= 'z' || 'A' <= s[i] <= 'Z' || s[i] == '-' || s[i] == '.' || s[i] == '=' || s[i] == '0'
  }

  lemma PlainIsClean(s: string)
    requires Plain(s)
    ensures Clean(s)
  {
    ExtraIsPlain();
    assert forall c :: c == '-' || c == '.' || c == '=' ==> c in KUBECONFIG_EXTRA + "=";
    assert Class(_ => false, KUBECONFIG_EXTRA + "=", s);
    ClassIsClean(_ => false, KUBECONFIG_EXTRA + "=", s);
  }

  lemma VerbsClean()
    ensures Clean("kubectl") && Clean("delete") && Clean("pods") && Clean("node")
    ensures Clean("rollout") && Clean("restart") && Clean("scale")
  {
    PlainIsClean("kubectl");
    PlainIsClean("delete");
    PlainIsClean("pods");
    PlainIsClean("node");
    PlainIsClean("rollout");
    PlainIsClean("restart");
    PlainIsClean("scale");
  }

  lemma FlagsClean()
    ensures Clean("-n") && Clean("--context") && Clean("--kubeconfig")
  {
    PlainIsClean("-n");
    PlainIsClean("--context");
    PlainIsClean("--kubeconfig");
  }

  lemma SelectorsClean()
    ensures Clean(SELECTOR) && Clean(FAILED) && Clean(SUCCEEDED)
  {
    PlainIsClean(SELECTOR);
    PlainIsClean(FAILED);
    PlainIsClean(SUCCEEDED);
  }

  lemma ReplicasClean()
    ensures Clean(REPLICAS) && Clean("0")
  {
    PlainIsClean(REPLICAS);
    PlainIsClean("0");
  }

  lemma RequiredClean()
    ensures Clean(SELECTOR + "=" + FAILED) && Clean(SELECTOR + "=" + SUCCEEDED) && Clean(REPLICAS + "=" + "0")
  {
    hide Clean;
    SelectorsClean();
    ReplicasClean();
    CleanInline(SELECTOR, FAILED);
    CleanInline(SELECTOR, SUCCEEDED);
    CleanInline(REPLICAS, "0");
  }

  lemma CleanInline(k: string, v: string)
    requires Clean(k) && Clean(v)
    ensures Clean(k + "=" + v)
  {
    PlainIsClean("=");
    CleanConcat(k, "=");
    CleanConcat(k + "=", v);
  }

  /** A printed command is accepted by its action, reads as the printed items, and splits
      into the printed words. */
  lemma PrintedAccepted(a: Action, wide: WideClass, f: Fields)
    requires Compose(a, f).Some? && InClass(a, wide, f)
    ensures Validates(a, wide, Compose(a, f).value)
    ensures ReadBack(a, wide, Compose(a, f).value) == Some(ReadingOf(a, f))
  {
    var shape, items := ShapeOf(a, wide), ItemsOf(a, f);
    WordsClean(a, wide, f);
    CleanJoin(ComposeWords(a, f).value);
    WordsAreItems(a, f);
    PrintedWellFormed(a, wide, f);
    PrintedComplete(a, wide, f);
    SentenceAccepted(shape, items);
    ParseOfItems(shape, items);
    ItemsRead(a, f);
    assert (VerbOf(a) + Flatten(items))[|VerbOf(a)|..] == Flatten(items);
  }

  // -- Only class fields read back ---------------------------------------------------------

  lemma {:induction false} FirstTargetFound(shape: Shape, items: seq<Item>)
    requires AllWellFormed(shape, items) && FirstTarget(items).Some?
    ensures WellFormed(shape, Target(FirstTarget(items).value))
  {
    if items[0].Target? {
      assert WellFormed(shape, items[0]);
    } else {
      FirstTargetFound(shape, items[1..]);
    }
  }

  lemma {:induction false} FirstValueFound(shape: Shape, items: seq<Item>, keys: set<string>)
    requires AllWellFormed(shape, items) && FirstValue(items, keys).Some?
    ensures exists key :: key in keys && GoodValue(shape, key, FirstValue(items, keys).value)
  {
    if items[0].Valued? && items[0].key in keys {
      assert WellFormed(shape, items[0]);
    } else {
      FirstValueFound(shape, items[1..], keys);
    }
  }

  lemma ReadFieldsInClass(a: Action, wide: WideClass, items: seq<Item>)
    requires AllWellFormed(ShapeOf(a, wide), items)
    ensures var r := ReadItems(items);
            && (r.namespace.Some? ==> Name(wide, r.namespace.value))
            && (r.context.Some? ==> Context(wide, r.context.value))
            && (r.kubeconfig.Some? ==> Kubeconfig(wide, r.kubeconfig.value))
  {
    FlagNames();
    var shape := ShapeOf(a, wide);
    if FirstValue(items, NAMESPACE_KEYS).Some? { FirstValueFound(shape, items, NAMESPACE_KEYS); }
    if FirstValue(items, CONTEXT_KEYS).Some? { FirstValueFound(shape, items, CONTEXT_KEYS); }
    if FirstValue(items, KUBECONFIG_KEYS).Some? { FirstValueFound(shape, items, KUBECONFIG_KEYS); }
  }

  lemma WorkloadNameInClass(a: Action, wide: WideClass, kind: string, name: string)
    requires kind in KindsOf(a) && WorkloadTarget(wide, KindsOf(a), kind + "/" + name)
    ensures Name(wide, name)
  {
    var kinds, t := KindsOf(a), kind + "/" + name;
    var i :| 0 <= i < |kinds| && (kinds[i] + "/") <= t && Name(wide, t[|kinds[i]| + 1..]);
    var k, rest := kinds[i], t[|kinds[i]| + 1..];
    KindLetters(a, kind);
    KindLetters(a, k);
    PrefixRest(k + "/", t);
    SameKind(kind, k, name, rest);
  }

  lemma PrefixRest(prefix: string, t: string)
    requires prefix <= t
    ensures t == prefix + t[|prefix|..]
  {
  }

  lemma SameKind(a: string, b: string, x: string, y: string)
    requires Letters(a) && Letters(b) && a + "/" + x == b + "/" + y
    ensures a == b && x == y
  {
    var t := a + "/" + x;
    assert t[|a|] == '/' && t[|b|] == '/';
    assert forall i :: 0 <= i < |a| ==> t[i] == a[i];
    assert forall i :: 0 <= i < |b| ==> t[i] == b[i];
    assert a == t[..|a|] && b == t[..|b|] && x == t[|a| + 1..] && y == t[|b| + 1..];
  }

  lemma TargetInClass(a: Action, wide: WideClass, f: Fields)
    requires NamesTarget(a) && Compose(a, f).Some?
    requires WellFormed(ShapeOf(a, wide), Target(ReadingOf(a, f).target.value))
    ensures Name(wide, f.name) && (a.DeleteNode? ==> !("-" <= f.name))
  {
    if !a.DeleteNode? {
      WorkloadNameInClass(a, wide, Lower(f.kind), f.name);
    }
  }

  /** The round trip, exactly: a printed command is accepted by its own action and reads back
      the target, namespace, context and kubeconfig of the finding if and only if those keys
      are in their character classes (and a node's name does not start with a dash). */
  lemma ComposedReadsBack(a: Action, wide: WideClass, f: Fields)
    requires Compose(a, f).Some?
    ensures ReadBack(a, wide, Compose(a, f).value) == Some(ReadingOf(a, f)) <==> InClass(a, wide, f)
    ensures InClass(a, wide, f) ==> ActionForCommand(wide, Compose(a, f).value) == Some(a)
  {
    var command, shape := Compose(a, f).value, ShapeOf(a, wide);
    if InClass(a, wide, f) {
      PrintedAccepted(a, wide, f);
      ActionForCommandExact(wide, command, a);
    }
    if ReadBack(a, wide, command) == Some(ReadingOf(a, f)) {
      var rest := Split(command)[|VerbOf(a)|..];
      var items := Parse(shape, rest).value;
      ParseIsSound(shape, rest);
      ReadFieldsInClass(a, wide, items);
      if NamesTarget(a) {
        FirstTargetFound(shape, items);
        TargetInClass(a, wide, f);
      }
    }
  }

  /** No catalog shape has an empty key or accepts an empty value. */
  lemma CatalogNothingEmpty(a: Action, wide: WideClass)
    ensures NothingEmpty(ShapeOf(a, wide))
  {
    hide Class;
    forall extra, s | Class(wide, extra, s) ensures s != "" { ClassNotEmpty(wide, extra, s); }
    assert |FAILED| > 0 && |SUCCEEDED| > 0;
    forall key, value | GoodValue(ShapeOf(a, wide), key, value) ensures key != "" && value != "" {
      FlagNames();
    }
  }

  lemma ClassNotEmpty(wide: WideClass, extra: string, s: string)
    requires Class(wide, extra, s)
    ensures s != ""
  {
  }
}
