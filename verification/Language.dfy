/** The vetted commands in words. */
module Language {
  // The texts each action's checker accepts, told apart from the table of shapes, and the text
  // each action prints.

  import opened Text
  import opened Strings
  import opened Kubectl
  import opened Catalog
  import opened Compose

  const ALPHANUMERICS := SMALL + LARGE + "0123456789_"

  /** One or more alphanumerics or characters of `others`, ASCII aside. */
  predicate MadeOf(wide: WideClass, others: string, s: string) {
    && s != ""
    && forall c :: c in s ==> c in ALPHANUMERICS || c in others || (c as int >= 128 && wide(c) && !IsSpace(c))
  }

  /** `kind/name` */
  predicate IsWorkload(wide: WideClass, kind: string, s: string) {
    (kind + "/") <= s && MadeOf(wide, ".-", s[|kind| + 1..])
  }

  /** What the action may name outside its flags. */
  predicate MayTarget(a: Action, wide: WideClass, s: string) {
    match a
    case ReclaimEvicted => false
    case DeleteCompleted => false
    case RolloutRestart =>
      IsWorkload(wide, "deployment", s) || IsWorkload(wide, "statefulset", s) || IsWorkload(wide, "daemonset", s)
    case ScaleToZero => IsWorkload(wide, "deployment", s) || IsWorkload(wide, "statefulset", s)
    case DeleteNode => MadeOf(wide, ".-", s) && s[0] != '-'
  }

  /** The one flag value the action insists on. */
  predicate MustSay(a: Action, key: string, value: string) {
    match a
    case ReclaimEvicted => key == "--field-selector" && value == "status.phase=Failed"
    case DeleteCompleted => key == "--field-selector" && value == "status.phase=Succeeded"
    case RolloutRestart => false
    case ScaleToZero => key == "--replicas" && value == "0"
    case DeleteNode => false
  }

  predicate MaySay(a: Action, wide: WideClass, key: string, value: string) {
    || MustSay(a, key, value)
    || ((key == "-n" || key == "--namespace") && MadeOf(wide, ".-", value))
    || (key == "--context" && MadeOf(wide, ".@:/-", value))
    || (key == "--kubeconfig" && MadeOf(wide, ".@:/~-", value))
  }

  predicate MayHold(a: Action, wide: WideClass, item: Item) {
    match item
    case Valued(key, value, _) => MaySay(a, wide, key, value)
    case Target(token) => MayTarget(a, wide, token)
  }

  predicate Gives(items: seq<Item>, key: string) {
    exists i :: 0 <= i < |items| && items[i].Valued? && items[i].key == key
  }

  predicate Untargeted(items: seq<Item>) {
    forall i :: 0 <= i < |items| ==> items[i].Valued?
  }

  predicate TargetedOnce(items: seq<Item>) {
    exists i :: 0 <= i < |items| && items[i].Target? && Untargeted(items[..i]) && Untargeted(items[i + 1..])
  }

  /** Nothing is missing. */
  predicate Suffices(a: Action, items: seq<Item>) {
    var namespaced := Gives(items, "-n") || Gives(items, "--namespace");
    match a
    case ReclaimEvicted => Untargeted(items) && Gives(items, "--field-selector")
    case DeleteCompleted => Untargeted(items) && Gives(items, "--field-selector")
    case RolloutRestart => TargetedOnce(items) && namespaced
    case ScaleToZero => TargetedOnce(items) && namespaced && Gives(items, "--replicas")
    case DeleteNode => TargetedOnce(items) && !namespaced
  }

  function Opening(a: Action): seq<string> {
    match a
    case ReclaimEvicted => ["kubectl", "delete", "pods"]
    case DeleteCompleted => ["kubectl", "delete", "pods"]
    case RolloutRestart => ["kubectl", "rollout", "restart"]
    case ScaleToZero => ["kubectl", "scale"]
    case DeleteNode => ["kubectl", "delete", "node"]
  }

  predicate Reads(a: Action, wide: WideClass, items: seq<Item>, tokens: seq<string>) {
    && tokens == Opening(a) + Flatten(items)
    && (forall i :: 0 <= i < |items| ==> MayHold(a, wide, items[i]))
    && Suffices(a, items)
  }

  // -- Classes -------------------------------------------------------------------------------------

  lemma DigitsAndLine(c: char)
    ensures c in "0123456789_" <==> '0' <= c <= '9' || c == '_'
  {
  }

  lemma InEither(x: string, y: string, z: string, c: char)
    ensures c in x + y + z <==> c in x || c in y || c in z
  {
  }

  lemma Alphanumeric(c: char)
    ensures c in ALPHANUMERICS <==> 'a' <= c <= 'z' || 'A' <= c <= 'Z' || '0' <= c <= '9' || c == '_'
  {
    SmallLetters(c);
    LargeLetters(c);
    DigitsAndLine(c);
    InEither(SMALL, LARGE, "0123456789_", c);
  }

  lemma ClassExactly(wide: WideClass, extra: string, s: string)
    ensures Class(wide, extra, s) <==> MadeOf(wide, extra, s)
  {
    forall c | c in s ensures WordChar(wide, c) <==> c in ALPHANUMERICS || (c as int >= 128 && wide(c) && !IsSpace(c)) {
      Alphanumeric(c);
    }
    assert forall i :: 0 <= i < |s| ==> s[i] in s;
  }

  lemma ClassesExactly(wide: WideClass, s: string)
    ensures Name(wide, s) <==> MadeOf(wide, ".-", s)
    ensures Context(wide, s) <==> MadeOf(wide, ".@:/-", s)
    ensures Kubeconfig(wide, s) <==> MadeOf(wide, ".@:/~-", s)
  {
    ClassExactly(wide, ".-", s);
    ClassExactly(wide, ".@:/-", s);
    ClassExactly(wide, ".@:/~-", s);
  }

  // -- The language --------------------------------------------------------------------------------

  lemma WorkloadExactly(wide: WideClass, kind: string, s: string)
    ensures WorkloadTarget(wide, [kind], s) <==> IsWorkload(wide, kind, s)
  {
    if (kind + "/") <= s { ClassesExactly(wide, s[|kind| + 1..]); }
    assert [kind][0] == kind;
  }

  lemma WorkloadOneOf(wide: WideClass, first: string, kinds: seq<string>, s: string)
    ensures WorkloadTarget(wide, [first] + kinds, s) <==> IsWorkload(wide, first, s) || WorkloadTarget(wide, kinds, s)
  {
    WorkloadExactly(wide, first, s);
    var all := [first] + kinds;
    assert all[0] == first && forall i :: 0 <= i < |kinds| ==> all[i + 1] == kinds[i];
    if WorkloadTarget(wide, all, s) {
      var i :| 0 <= i < |all| && (all[i] + "/") <= s && Name(wide, s[|all[i]| + 1..]);
      if i == 0 { assert [first][0] == first; } else { assert all[i] == kinds[i - 1]; }
    }
  }

  lemma NoDash(wide: WideClass, s: string)
    requires IsWorkload(wide, "deployment", s) || IsWorkload(wide, "statefulset", s) || IsWorkload(wide, "daemonset", s)
    ensures !("-" <= s)
  {
    assert s[0] == 'd' || s[0] == 's';
  }

  lemma TargetsExactly(a: Action, wide: WideClass, s: string)
    ensures var allowed := PositionalOf(a, wide);
            MayTarget(a, wide, s) <==> allowed.Some? && allowed.value(s) && !("-" <= s)
  {
    match a
    case RolloutRestart =>
      assert RESTARTABLE == ["deployment"] + (["statefulset"] + ["daemonset"]);
      WorkloadOneOf(wide, "deployment", ["statefulset"] + ["daemonset"], s);
      WorkloadOneOf(wide, "statefulset", ["daemonset"], s);
      WorkloadExactly(wide, "daemonset", s);
      if MayTarget(a, wide, s) { NoDash(wide, s); }
    case ScaleToZero =>
      assert SCALABLE == ["deployment"] + ["statefulset"];
      WorkloadOneOf(wide, "deployment", ["statefulset"], s);
      WorkloadExactly(wide, "statefulset", s);
      if MayTarget(a, wide, s) { NoDash(wide, s); }
    case DeleteNode => ClassesExactly(wide, s);
    case _ =>
  }

  lemma NoEqualsSign()
    ensures forall key :: key in {"-n", "--namespace", "--context", "--kubeconfig", "--field-selector", "--replicas"} ==> '=' !in key
  {
    NoEquals();
    assert '=' !in "--namespace";
  }

  lemma ValuesExactly(a: Action, wide: WideClass, key: string, value: string)
    ensures GoodValue(ShapeOf(a, wide), key, value) <==> MaySay(a, wide, key, value)
    ensures MaySay(a, wide, key, value) ==> '=' !in key
  {
    hide Class, MadeOf;
    FlagNames();
    NoEqualsSign();
    ClassesExactly(wide, value);
    assert key in RequiredOf(a) && value == RequiredOf(a)[key] <==> MustSay(a, key, value);
    assert GoodValue(ShapeOf(a, wide), key, value) <==>
           if key in RequiredOf(a) then value == RequiredOf(a)[key] else key in Flags(wide).patterns && Flags(wide).patterns[key](value);
  }

  lemma ItemsExactly(a: Action, wide: WideClass, item: Item)
    ensures WellFormed(ShapeOf(a, wide), item) <==> MayHold(a, wide, item)
  {
    match item
    case Valued(key, value, _) =>
      ValuesExactly(a, wide, key, value);
    case Target(token) =>
      TargetsExactly(a, wide, token);
      if MayTarget(a, wide, token) { NoFlagKeys(a, wide, token); }
  }

  lemma {:induction false} UntargetedExactly(items: seq<Item>)
    ensures Targets(items) == 0 <==> Untargeted(items)
  {
    CountAll(items, (item: Item) => item.Target?);
  }

  lemma {:induction false} TargetedExactly(items: seq<Item>)
    ensures Targets(items) == 1 <==> TargetedOnce(items)
  {
    var isTarget := (item: Item) => item.Target?;
    UntargetedExactly(items);
    forall i | 0 <= i < |items| && items[i].Target?
      ensures Targets(items) == 1 <==> Untargeted(items[..i]) && Untargeted(items[i + 1..])
    {
      CountWithout(items, i, isTarget);
      CountConcat(items[..i], items[i + 1..], isTarget);
      UntargetedExactly(items[..i]);
      UntargetedExactly(items[i + 1..]);
    }
  }

  lemma {:induction false} GivesExactly(items: seq<Item>, key: string)
    ensures key in Keys(items) <==> Gives(items, key)
  {
    KeysMember(items, key);
  }

  lemma NamespaceExactly(a: Action, wide: WideClass, items: seq<Item>)
    ensures NamesNamespace(ShapeOf(a, wide), items) <==> Gives(items, "-n") || Gives(items, "--namespace")
  {
    FlagNames();
    GivesExactly(items, "-n");
    GivesExactly(items, "--namespace");
    var keys := {"-n", "--namespace"};
    assert keys - RequiredOf(a).Keys == keys;
    assert "-n" in Keys(items) ==> "-n" in Keys(items) * keys;
    assert "--namespace" in Keys(items) ==> "--namespace" in Keys(items) * keys;
  }

  lemma CompleteExactly(a: Action, wide: WideClass, items: seq<Item>)
    ensures Complete(ShapeOf(a, wide), items) <==> Suffices(a, items)
  {
    UntargetedExactly(items);
    TargetedExactly(items);
    NamespaceExactly(a, wide, items);
    GivesExactly(items, "--field-selector");
    GivesExactly(items, "--replicas");
  }

  lemma SentencesExactly(a: Action, wide: WideClass, items: seq<Item>, tokens: seq<string>)
    ensures Spells(ShapeOf(a, wide), items, tokens) <==> Reads(a, wide, items, tokens)
  {
    forall i | 0 <= i < |items| ensures WellFormed(ShapeOf(a, wide), items[i]) <==> MayHold(a, wide, items[i]) {
      ItemsExactly(a, wide, items[i]);
    }
    CompleteExactly(a, wide, items);
  }

  /** The texts the checker of an action accepts: those without shell syntax whose words are the
      action's own opening and then, in any order, the one thing it acts on, the flag value it insists
      on, and what places it, each flag's value behind an equals sign or as the next word. */
  lemma {:induction false} LanguageExactly(a: Action, wide: WideClass, command: string)
    ensures Validates(a, wide, command) <==>
            && (forall c :: c in ";&|`$<>(){}[]*?!\\'\"\n\r\t" ==> c !in command)
            && exists items :: Reads(a, wide, items, Split(command))
  {
    hide Split, Spells, Reads;
    var shape, tokens := ShapeOf(a, wide), Split(command);
    LanguageOfAccepts(shape, command);
    forall items ensures Spells(shape, items, tokens) <==> Reads(a, wide, items, tokens) {
      SentencesExactly(a, wide, items, tokens);
    }
    assert HasMeta(command) <==> exists c :: c in SHELL_META && c in command;
  }

  // -- Printing ------------------------------------------------------------------------------------

  /** A flag and its value, each after a space, unless there is no value. */
  function Flagged(flag: string, value: string): string {
    if value == "" then "" else " " + flag + " " + value
  }

  function Placed(f: Fields): string {
    Flagged("--context", f.context) + Flagged("--kubeconfig", f.kubeconfig)
  }

  /** The text an action prints for a finding. */
  function Printed(a: Action, kind: string, f: Fields): string {
    match a
    case ReclaimEvicted => "kubectl delete pods -n " + f.namespace + " --field-selector=status.phase=Failed" + Placed(f)
    case DeleteCompleted => "kubectl delete pods -n " + f.namespace + " --field-selector=status.phase=Succeeded" + Placed(f)
    case RolloutRestart => "kubectl rollout restart " + kind + "/" + f.name + " -n " + f.namespace + Placed(f)
    case ScaleToZero => "kubectl scale " + kind + "/" + f.name + " --replicas=0 -n " + f.namespace + Placed(f)
    case DeleteNode => "kubectl delete node " + f.name + Placed(f)
  }

  /** The finding has what the action's command is printed from. */
  predicate Printable(a: Action, kind: string, f: Fields) {
    match a
    case ReclaimEvicted => f.namespace != ""
    case DeleteCompleted => f.namespace != ""
    case RolloutRestart =>
      kind in {"deployment", "statefulset", "daemonset"} && f.name != "" && f.namespace != ""
    case ScaleToZero => kind in {"deployment", "statefulset"} && f.name != "" && f.namespace != ""
    case DeleteNode => f.name != ""
  }

  lemma JoinTwo(x: string, y: string)
    ensures Join([x, y]) == x + " " + y
  {
    assert [x, y][1..] == [y];
  }

  lemma {:induction false} JoinMore(x: string, words: seq<string>)
    requires words != []
    ensures Join([x] + words) == x + " " + Join(words)
  {
    assert ([x] + words)[1..] == words;
  }

  lemma {:induction false} JoinFlag(words: seq<string>, key: string, value: string)
    requires words != []
    ensures Join(words + [key, value]) == Join(words) + (" " + key + " " + value)
  {
    JoinConcat(words, [key, value]);
    JoinTwo(key, value);
    assert " " + (key + " " + value) == " " + key + " " + value;
    assert Join(words) + " " + (key + " " + value) == Join(words) + (" " + (key + " " + value));
  }

  lemma {:induction false} FlagPlaced(words: seq<string>, flag: string, value: string)
    requires words != []
    ensures Join(words + if value != "" then [flag, value] else []) == Join(words) + Flagged(flag, value)
  {
    if value == "" {
      assert words + [] == words && Join(words) + "" == Join(words);
    } else {
      JoinFlag(words, flag, value);
    }
  }

  lemma {:induction false} PlacedExactly(f: Fields, words: seq<string>)
    requires words != []
    ensures Join(words + TailWords(f)) == Join(words) + Placed(f)
  {
    hide Join, Flagged;
    var c := if f.context != "" then ["--context", f.context] else [];
    var k := if f.kubeconfig != "" then ["--kubeconfig", f.kubeconfig] else [];
    FlagPlaced(words, "--context", f.context);
    FlagPlaced(words + c, "--kubeconfig", f.kubeconfig);
    assert words + c + k == words + (c + k);
  }

  lemma JoinThree(x: string, y: string, z: string)
    ensures Join([x, y, z]) == x + " " + y + " " + z
  {
    JoinTwo(y, z);
    assert [x, y, z] == [x] + [y, z];
    JoinMore(x, [y, z]);
  }

  lemma {:induction false} JoinSix(x: seq<string>, y: seq<string>)
    requires |x| == |y| == 3
    ensures Join(x + y) == x[0] + " " + x[1] + " " + x[2] + " " + (y[0] + " " + y[1] + " " + y[2])
  {
    JoinThree(x[0], x[1], x[2]);
    JoinThree(y[0], y[1], y[2]);
    assert x == [x[0], x[1], x[2]] && y == [y[0], y[1], y[2]];
    JoinConcat(x, y);
  }

  lemma OpeningTexts()
    ensures "kubectl" + " " + "delete" + " " + "pods" + " " == "kubectl delete pods "
    ensures "kubectl" + " " + "rollout" + " " + "restart" + " " == "kubectl rollout restart "
    ensures "kubectl" + " " + "delete" + " " + "node" + " " == "kubectl delete node "
    ensures "kubectl" + " " + "scale" + " " == "kubectl scale "
  {
  }

  lemma CleanupText(selector: string, namespace: string)
    ensures Join(["kubectl", "delete", "pods"] + ["-n", namespace, selector])
         == "kubectl delete pods -n " + namespace + (" " + selector)
  {
    JoinSix(["kubectl", "delete", "pods"], ["-n", namespace, selector]);
    OpeningTexts();
    assert "kubectl delete pods " + ("-n" + " " + namespace + " " + selector)
        == "kubectl delete pods " + "-n" + " " + namespace + " " + selector;
    assert "kubectl delete pods " + "-n" + " " == "kubectl delete pods -n ";
  }

  lemma SelectorText()
    ensures " " + SELECTOR + "=" == " --field-selector="
  {
  }

  lemma FailedText()
    ensures " " + (SELECTOR + "=" + FAILED) == " --field-selector=status.phase=Failed"
  {
    SelectorText();
    assert " " + (SELECTOR + "=" + FAILED) == " " + SELECTOR + "=" + FAILED;
  }

  lemma SucceededText()
    ensures " " + (SELECTOR + "=" + SUCCEEDED) == " --field-selector=status.phase=Succeeded"
  {
    SelectorText();
    assert " " + (SELECTOR + "=" + SUCCEEDED) == " " + SELECTOR + "=" + SUCCEEDED;
  }

  lemma RestartText(kind: string, name: string, namespace: string)
    ensures Join(["kubectl", "rollout", "restart"] + [kind + "/" + name, "-n", namespace])
         == "kubectl rollout restart " + kind + "/" + name + " -n " + namespace
  {
    var target := kind + "/" + name;
    JoinSix(["kubectl", "rollout", "restart"], [target, "-n", namespace]);
    OpeningTexts();
    assert "kubectl rollout restart " + (target + " " + "-n" + " " + namespace)
        == "kubectl rollout restart " + target + (" " + "-n" + " ") + namespace;
    assert " " + "-n" + " " == " -n ";
    assert "kubectl rollout restart " + target == "kubectl rollout restart " + kind + "/" + name;
  }

  lemma ScaleText(kind: string, name: string, namespace: string)
    ensures Join(["kubectl", "scale", kind + "/" + name] + [REPLICAS + "=" + "0", "-n", namespace])
         == "kubectl scale " + kind + "/" + name + " --replicas=0 -n " + namespace
  {
    var target, replicas := kind + "/" + name, REPLICAS + "=" + "0";
    JoinSix(["kubectl", "scale", target], [replicas, "-n", namespace]);
    OpeningTexts();
    assert "kubectl scale " + target + " " + (replicas + " " + "-n" + " " + namespace)
        == "kubectl scale " + target + (" " + replicas + " " + "-n" + " ") + namespace;
    assert " " + replicas + " " + "-n" + " " == " --replicas=0 -n ";
    assert "kubectl scale " + target == "kubectl scale " + kind + "/" + name;
  }

  lemma DeleteText(name: string)
    ensures Join(["kubectl", "delete", "node"] + [name]) == "kubectl delete node " + name
  {
    OpeningTexts();
    JoinThree("kubectl", "delete", "node");
    JoinConcat(["kubectl", "delete", "node"], [name]);
    assert Join([name]) == name;
  }

  /** What an action prints, to the letter: nothing when the finding lacks what the command names. */
  lemma PrintsExactly(a: Action, f: Fields)
    ensures Compose.Compose(a, f) ==
            if Printable(a, Lower(f.kind), f) then Some(Printed(a, Lower(f.kind), f)) else None
  {
    hide Join, Placed, TailWords;
    var kind := Lower(f.kind);
    assert ComposeWords(a, f).Some? <==> Printable(a, kind, f);
    if ComposeWords(a, f).Some? {
      var words := ComposeWords(a, f).value;
      var k, o, n := "kubectl", kind + "/" + f.name, f.namespace;
      var head := match a
        case ReclaimEvicted => [k, "delete", "pods"] + ["-n", n, SELECTOR + "=" + FAILED]
        case DeleteCompleted => [k, "delete", "pods"] + ["-n", n, SELECTOR + "=" + SUCCEEDED]
        case RolloutRestart => [k, "rollout", "restart"] + [o, "-n", n]
        case ScaleToZero => [k, "scale", o] + [REPLICAS + "=" + "0", "-n", n]
        case DeleteNode => [k, "delete", "node"] + [f.name];
      assert words == head + TailWords(f);
      PlacedExactly(f, head);
      match a
      case ReclaimEvicted =>
        FailedText();
        CleanupText(SELECTOR + "=" + FAILED, n);
      case DeleteCompleted =>
        SucceededText();
        CleanupText(SELECTOR + "=" + SUCCEEDED, n);
      case RolloutRestart => RestartText(kind, f.name, n);
      case ScaleToZero => ScaleText(kind, f.name, n);
      case DeleteNode => DeleteText(f.name);
    }
  }
}
