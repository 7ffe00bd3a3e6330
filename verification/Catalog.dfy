/** The vetted actions. */
module Catalog {
  // The shape each one's command must have, and the envelope the bound reads.

  import opened Text
  import opened Kubectl
  import opened Bounds

  // -- Character classes -----------------------------------------------------------------

  /** Which characters outside ASCII the regular expression class `\w` contains. */
  type WideClass = char -> bool

  /** `\w`, which never contains whitespace. */
  predicate WordChar(wide: WideClass, c: char) {
    || 'a' <= c <= 'z' || 'A' <= c <= 'Z' || '0' <= c <= '9' || c == '_'
    || (c as int >= 0x80 && !IsSpace(c) && wide(c))
  }

  /** `^[\w<extra>]+$` on a single token. */
  predicate Class(wide: WideClass, extra: string, s: string) {
    s != "" && forall i :: 0 <= i < |s| ==> WordChar(wide, s[i]) || s[i] in extra
  }

  const NAME_EXTRA := ".-"
  const CONTEXT_EXTRA := ".@:/-"
  const KUBECONFIG_EXTRA := ".@:/~-"

  predicate Name(wide: WideClass, s: string) { Class(wide, NAME_EXTRA, s) }

  predicate Context(wide: WideClass, s: string) { Class(wide, CONTEXT_EXTRA, s) }

  predicate Kubeconfig(wide: WideClass, s: string) { Class(wide, KUBECONFIG_EXTRA, s) }

  const RESTARTABLE: seq<string> := ["deployment", "statefulset", "daemonset"]
  const SCALABLE: seq<string> := ["deployment", "statefulset"]

  /** `^(?:<kinds>)/[\w.-]+$` */
  predicate WorkloadTarget(wide: WideClass, kinds: seq<string>, s: string) {
    exists i :: 0 <= i < |kinds| && (kinds[i] + "/") <= s && Name(wide, s[|kinds[i]| + 1..])
  }

  // -- The actions -----------------------------------------------------------------------

  datatype Action = ReclaimEvicted | DeleteCompleted | RolloutRestart | ScaleToZero | DeleteNode

  /** The order in which `action_for_command` tries them. */
  const ACTIONS: seq<Action> := [ReclaimEvicted, DeleteCompleted, RolloutRestart, ScaleToZero, DeleteNode]

  function ActionName(a: Action): string {
    match a
    case ReclaimEvicted => "reclaim-evicted-pods"
    case DeleteCompleted => "delete-completed-pods"
    case RolloutRestart => "rollout-restart-workload"
    case ScaleToZero => "scale-to-zero"
    case DeleteNode => "delete-node"
  }

  function EnvelopeOf(a: Action): Envelope {
    match a
    case ReclaimEvicted => Envelope(Lossless, Tenant)
    case DeleteCompleted => Envelope(Lossless, Tenant)
    case RolloutRestart => Envelope(SelfHealing, Service)
    case ScaleToZero => Envelope(Recoverable, Service)
    case DeleteNode => Envelope(Irreversible, Node)
  }

  const REPLICAS := "--replicas"
  const SELECTOR := "--field-selector"
  const FAILED := "status.phase=Failed"
  const SUCCEEDED := "status.phase=Succeeded"

  function VerbOf(a: Action): seq<string> {
    match a
    case ReclaimEvicted => ["kubectl", "delete", "pods"]
    case DeleteCompleted => ["kubectl", "delete", "pods"]
    case RolloutRestart => ["kubectl", "rollout", "restart"]
    case ScaleToZero => ["kubectl", "scale"]
    case DeleteNode => ["kubectl", "delete", "node"]
  }

  function RequiredOf(a: Action): map<string, string> {
    match a
    case ReclaimEvicted => map[SELECTOR := FAILED]
    case DeleteCompleted => map[SELECTOR := SUCCEEDED]
    case ScaleToZero => map[REPLICAS := "0"]
    case _ => map[]
  }

  function PositionalOf(a: Action, wide: WideClass): Option<Pattern> {
    match a
    case RolloutRestart => Some(s => WorkloadTarget(wide, RESTARTABLE, s))
    case ScaleToZero => Some(s => WorkloadTarget(wide, SCALABLE, s))
    case DeleteNode => Some(s => Name(wide, s))
    case _ => None
  }

  function NamespaceOf(a: Action): NamespaceRule {
    match a
    case RolloutRestart => NamespaceRule.Required
    case ScaleToZero => NamespaceRule.Required
    case DeleteNode => Forbidden
    case _ => Optional
  }

  function Flags(wide: WideClass): FlagTable {
    KubectlFlags(s => Name(wide, s), s => Context(wide, s), s => Kubeconfig(wide, s))
  }

  function ShapeOf(a: Action, wide: WideClass): Shape {
    Shape(VerbOf(a), PositionalOf(a, wide), RequiredOf(a), NamespaceOf(a), Flags(wide))
  }

  predicate Validates(a: Action, wide: WideClass, command: string) {
    Accepts(ShapeOf(a, wide), command)
  }

  function FirstValidating(actions: seq<Action>, wide: WideClass, command: string): Option<Action> {
    if actions == [] then None
    else if Validates(actions[0], wide, command) then Some(actions[0])
    else FirstValidating(actions[1..], wide, command)
  }

  /** `action_for_command` */
  function ActionForCommand(wide: WideClass, command: string): Option<Action> {
    FirstValidating(ACTIONS, wide, command)
  }

  // -- The shapes are disjoint -----------------------------------------------------------

  /** Two positional-free shapes that differ only in their required values read a token list
      the same way. */
  lemma {:induction false} SameReading(a: Shape, b: Shape, toks: seq<string>)
    requires a.positional.None? && b.positional.None? && a.flags == b.flags
    requires a.required.Keys == b.required.Keys
    requires Parse(a, toks).Some? && Parse(b, toks).Some?
    ensures Parse(a, toks) == Parse(b, toks)
    decreases |toks|
  {
    if toks != [] {
      var item := First(a, toks).value;
      assert First(b, toks) == Some(item);
      SameReading(a, b, toks[Width(item)..]);
    }
  }

  lemma {:induction false} SharedRequirement(a: Shape, b: Shape, items: seq<Item>, key: string)
    requires AllWellFormed(a, items) && AllWellFormed(b, items) && key in Keys(items)
    requires key in a.required && key in b.required
    ensures a.required[key] == b.required[key]
  {
    KeysMember(items, key);
    var i :| 0 <= i < |items| && key in KeyOfItem(items[i]);
    assert WellFormed(a, items[i]) && WellFormed(b, items[i]);
  }

  lemma CleanupsDisjoint(wide: WideClass, command: string)
    ensures !(Validates(ReclaimEvicted, wide, command) && Validates(DeleteCompleted, wide, command))
  {
    var a, b := ShapeOf(ReclaimEvicted, wide), ShapeOf(DeleteCompleted, wide);
    assert |FAILED| != |SUCCEEDED|;
    if Accepts(a, command) && Accepts(b, command) {
      var rest := Split(command)[3..];
      SameReading(a, b, rest);
      ParseIsSound(a, rest);
      ParseIsSound(b, rest);
      SharedRequirement(a, b, Parse(a, rest).value, SELECTOR);
    }
  }

  lemma {:induction false} StartsWithVerb(wide: WideClass, command: string, a: Action)
    requires Validates(a, wide, command)
    ensures VerbOf(a) <= Split(command)
  {
    hide VerbOf, Split;
  }

  lemma VerbPrefixes(wide: WideClass, command: string, a: Action, b: Action)
    requires Validates(a, wide, command) && Validates(b, wide, command)
    ensures VerbOf(a) <= VerbOf(b) || VerbOf(b) <= VerbOf(a)
  {
    hide VerbOf, Split, Validates;
    StartsWithVerb(wide, command, a);
    StartsWithVerb(wide, command, b);
    var toks := Split(command);
    assert VerbOf(a) == toks[..|VerbOf(a)|] && VerbOf(b) == toks[..|VerbOf(b)|];
  }

  predicate IsPodCleanup(a: Action) {
    a.ReclaimEvicted? || a.DeleteCompleted?
  }

  lemma VerbsDistinct(a: Action, b: Action)
    requires VerbOf(a) <= VerbOf(b)
    ensures a == b || (IsPodCleanup(a) && IsPodCleanup(b))
  {
    var v, w := VerbOf(a), VerbOf(b);
    assert v[1][0] == w[1][0];
    assert |v| == 3 ==> v[2][0] == w[2][0];
  }

  /** No command at all is accepted by two actions. */
  lemma ActionsDisjoint(wide: WideClass, command: string, a: Action, b: Action)
    requires Validates(a, wide, command) && Validates(b, wide, command)
    ensures a == b
  {
    if a != b {
      CleanupsDisjoint(wide, command);
      VerbPrefixes(wide, command, a, b);
      if VerbOf(a) <= VerbOf(b) { VerbsDistinct(a, b); } else { VerbsDistinct(b, a); }
    }
  }

  /** So the lookup is unambiguous: it finds an action exactly when that action validates. */
  lemma ActionForCommandExact(wide: WideClass, command: string, a: Action)
    ensures ActionForCommand(wide, command) == Some(a) <==> Validates(a, wide, command)
  {
    FirstValidatingFinds(ACTIONS, wide, command);
    assert ACTIONS[0] == ReclaimEvicted && ACTIONS[1] == DeleteCompleted && ACTIONS[2] == RolloutRestart
        && ACTIONS[3] == ScaleToZero && ACTIONS[4] == DeleteNode;
    assert a in ACTIONS;
    if Validates(a, wide, command) {
      ActionsDisjoint(wide, command, a, ActionForCommand(wide, command).value);
    }
  }

  lemma {:induction false} FirstValidatingFinds(actions: seq<Action>, wide: WideClass, command: string)
    ensures var r := FirstValidating(actions, wide, command);
            && (r.Some? ==> Validates(r.value, wide, command))
            && (r.None? ==> forall i :: 0 <= i < |actions| ==> !Validates(actions[i], wide, command))
  {
    if actions != [] {
      FirstValidatingFinds(actions[1..], wide, command);
      assert forall i :: 0 < i < |actions| ==> actions[i] == actions[1..][i - 1];
    }
  }
}
