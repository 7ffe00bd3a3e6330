/** Authored commands and workflow entries. */
module Workflow {
  // The placeholders a runbook entry is filled through, and the workflow entries, which are parsed
  // once when they are offered and again when they are dispatched.

  import opened Text
  import opened Shlex
  import opened Catalog

  // -- Placeholders ------------------------------------------------------------------------------

  /** The longest prefix of `\w` characters. */
  function KeyRun(wide: WideClass, s: string): (key: string)
    ensures key <= s
    ensures |key| < |s| ==> !WordChar(wide, s[|key|])
  {
    if s == "" || !WordChar(wide, s[0]) then "" else [s[0]] + KeyRun(wide, s[1..])
  }

  /** The key of the placeholder `s` starts with: `\{(\w+)\}`. */
  function Placeholder(wide: WideClass, s: string): (key: Option<string>)
    ensures key.Some? ==> key.value != "" && |key.value| + 2 <= |s| && s[..|key.value| + 2] == "{" + key.value + "}"
  {
    if s == "" || s[0] != '{' then None
    else
      var key := KeyRun(wide, s[1..]);
      if key != "" && |key| + 1 < |s| && s[|key| + 1] == '}' then Some(key) else None
  }

  predicate HasPlaceholder(wide: WideClass, s: string) {
    s != "" && (Placeholder(wide, s).Some? || HasPlaceholder(wide, s[1..]))
  }

  predicate Valued(context: map<string, string>, key: string) {
    key in context && context[key] != ""
  }

  /** `_fill`: a placeholder without a value stays. */
  function Fill(wide: WideClass, template: string, context: map<string, string>): string
    decreases |template|
  {
    if template == "" then ""
    else
      match Placeholder(wide, template)
      case None => [template[0]] + Fill(wide, template[1..], context)
      case Some(key) =>
        (if Valued(context, key) then context[key] else template[..|key| + 2]) + Fill(wide, template[|key| + 2..], context)
  }

  /** Some placeholder of the template has no value. */
  predicate LacksValue(wide: WideClass, template: string, context: map<string, string>)
    decreases |template|
  {
    template != "" &&
    match Placeholder(wide, template)
    case None => LacksValue(wide, template[1..], context)
    case Some(key) => !Valued(context, key) || LacksValue(wide, template[|key| + 2..], context)
  }

  lemma {:induction false} KeyRunStops(wide: WideClass, key: string, rest: string)
    requires (forall i :: 0 <= i < |key| ==> WordChar(wide, key[i])) && (rest == "" || !WordChar(wide, rest[0]))
    ensures KeyRun(wide, key + rest) == key
  {
    if key == "" {
      assert key + rest == rest;
    } else {
      assert (key + rest)[1..] == key[1..] + rest;
      KeyRunStops(wide, key[1..], rest);
    }
  }

  lemma {:induction false} KeyRunIsWord(wide: WideClass, s: string)
    ensures forall i :: 0 <= i < |KeyRun(wide, s)| ==> WordChar(wide, KeyRun(wide, s)[i])
  {
    if s != "" { KeyRunIsWord(wide, s[1..]); }
  }

  lemma PlaceholderStays(wide: WideClass, s: string, rest: string)
    requires Placeholder(wide, s).Some?
    ensures Placeholder(wide, s[..|Placeholder(wide, s).value| + 2] + rest).Some?
  {
    var key := Placeholder(wide, s).value;
    var kept := s[..|key| + 2] + rest;
    KeyRunIsWord(wide, s[1..]);
    assert kept[1..] == key + ("}" + rest);
    KeyRunStops(wide, key, "}" + rest);
  }

  lemma {:induction false} PlaceholderLater(wide: WideClass, before: string, s: string)
    requires HasPlaceholder(wide, s)
    ensures HasPlaceholder(wide, before + s)
  {
    if before == "" {
      assert before + s == s;
    } else {
      assert (before + s)[1..] == before[1..] + s;
      PlaceholderLater(wide, before[1..], s);
    }
  }

  /** A template with a placeholder the finding has no value for still has one after filling, and
      so is never offered. */
  lemma {:induction false} LackingStays(wide: WideClass, template: string, context: map<string, string>)
    requires LacksValue(wide, template, context)
    ensures HasPlaceholder(wide, Fill(wide, template, context))
    decreases |template|
  {
    match Placeholder(wide, template)
    case None =>
      LackingStays(wide, template[1..], context);
      PlaceholderLater(wide, [template[0]], Fill(wide, template[1..], context));
    case Some(key) =>
      var rest := Fill(wide, template[|key| + 2..], context);
      if Valued(context, key) {
        LackingStays(wide, template[|key| + 2..], context);
        PlaceholderLater(wide, context[key], rest);
      } else {
        PlaceholderStays(wide, template, rest);
      }
  }

  /** A template: texts with keys in braces between them. */
  function Template(texts: seq<string>, keys: seq<string>): string
    requires |texts| == |keys| + 1
  {
    if keys == [] then texts[0] else texts[0] + ("{" + keys[0] + "}" + Template(texts[1..], keys[1..]))
  }

  /** What is inserted for a key: its value, or the placeholder itself when there is none. */
  function Inserted(context: map<string, string>, key: string): string {
    if key in context && context[key] != "" then context[key] else "{" + key + "}"
  }

  /** The template with its values inserted. */
  function Inserting(texts: seq<string>, keys: seq<string>, context: map<string, string>): string
    requires |texts| == |keys| + 1
  {
    if keys == [] then texts[0] else texts[0] + (Inserted(context, keys[0]) + Inserting(texts[1..], keys[1..], context))
  }

  predicate Braceless(texts: seq<string>) {
    forall i :: 0 <= i < |texts| ==> '{' !in texts[i]
  }

  /** Nonempty `\w` keys. */
  predicate Words(wide: WideClass, keys: seq<string>) {
    forall i :: 0 <= i < |keys| ==> keys[i] != "" && forall j :: 0 <= j < |keys[i]| ==> WordChar(wide, keys[i][j])
  }

  lemma {:induction false} FillText(wide: WideClass, text: string, rest: string, context: map<string, string>)
    requires '{' !in text
    ensures Fill(wide, text + rest, context) == text + Fill(wide, rest, context)
  {
    if text == "" {
      assert text + rest == rest;
    } else {
      var all, filled := text + rest, Fill(wide, rest, context);
      assert all != "" && all[0] == text[0] && all[1..] == text[1..] + rest && text[0] != '{';
      assert Placeholder(wide, all).None?;
      FillText(wide, text[1..], rest, context);
      assert Fill(wide, all, context) == [text[0]] + (text[1..] + filled);
      hide Fill;
      assert [text[0]] + text[1..] == text;
      assert [text[0]] + (text[1..] + filled) == ([text[0]] + text[1..]) + filled;
    }
  }

  lemma {:induction false} FillKey(wide: WideClass, key: string, rest: string, context: map<string, string>)
    requires Words(wide, [key])
    ensures Fill(wide, "{" + key + "}" + rest, context) == Inserted(context, key) + Fill(wide, rest, context)
  {
    var s := "{" + key + "}" + rest;
    assert [key][0] == key;
    assert s[0] == '{' && s[1..] == key + ("}" + rest);
    KeyRunStops(wide, key, "}" + rest);
    assert Placeholder(wide, s) == Some(key);
    assert s[..|key| + 2] == "{" + key + "}" && s[|key| + 2..] == rest;
  }

  /** Filling inserts the values where their keys stand, leaves a key without a value in its braces,
      and changes nothing else. */
  lemma {:induction false} FillInserts(wide: WideClass, texts: seq<string>, keys: seq<string>, context: map<string, string>)
    requires |texts| == |keys| + 1 && Braceless(texts) && Words(wide, keys)
    ensures Fill(wide, Template(texts, keys), context) == Inserting(texts, keys, context)
    decreases |keys|
  {
    hide Fill, Inserted, WordChar;
    if keys == [] {
      FillText(wide, texts[0], "", context);
      assert texts[0] + "" == texts[0] && texts[0] + Fill(wide, "", context) == texts[0] by { FillNothing(wide, context); }
    } else {
      var more := Template(texts[1..], keys[1..]);
      assert forall i :: 0 <= i < |texts[1..]| ==> texts[1..][i] == texts[i + 1];
      assert forall i :: 0 <= i < |keys[1..]| ==> keys[1..][i] == keys[i + 1];
      FillText(wide, texts[0], "{" + keys[0] + "}" + more, context);
      assert Words(wide, [keys[0]]);
      FillKey(wide, keys[0], more, context);
      FillInserts(wide, texts[1..], keys[1..], context);
    }
  }

  lemma {:induction false} FillNothing(wide: WideClass, context: map<string, string>)
    ensures Fill(wide, "", context) == ""
  {
  }

  /** A template without a placeholder stays as it is. */
  lemma {:induction false} FillKeeps(wide: WideClass, template: string, context: map<string, string>)
    requires !HasPlaceholder(wide, template)
    ensures Fill(wide, template, context) == template
  {
    if template != "" { FillKeeps(wide, template[1..], context); }
  }

  /** Neither has a placeholder what has no brace, nor can it be skipped. */
  lemma {:induction false} BracelessIsFilled(wide: WideClass, s: string)
    requires '{' !in s
    ensures !HasPlaceholder(wide, s)
  {
    if s != "" { BracelessIsFilled(wide, s[1..]); }
  }

  lemma {:induction false} InsertingBraceless(texts: seq<string>, keys: seq<string>, context: map<string, string>)
    requires |texts| == |keys| + 1 && Braceless(texts)
    requires forall i :: 0 <= i < |keys| ==> Valued(context, keys[i]) && '{' !in context[keys[i]]
    ensures '{' !in Inserting(texts, keys, context)
    decreases |keys|
  {
    if keys != [] {
      assert forall i :: 0 <= i < |texts[1..]| ==> texts[1..][i] == texts[i + 1];
      assert forall i :: 0 <= i < |keys[1..]| ==> keys[1..][i] == keys[i + 1];
      InsertingBraceless(texts[1..], keys[1..], context);
    }
  }

  // -- Workflow entries ----------------------------------------------------------------------------

  const PART_EXTRA := ".-"
  const FILE_EXTRA := "./-"

  /** `$` also matches before a final newline. */
  function Chopped(s: string): string {
    if s != "" && s[|s| - 1] == '\n' then s[..|s| - 1] else s
  }

  predicate EndsWith(s: string, suffix: string) {
    |suffix| <= |s| && s[|s| - |suffix|..] == suffix
  }

  /** `[\w./-]+\.ya?ml` */
  predicate WorkflowFile(wide: WideClass, s: string) {
    Class(wide, FILE_EXTRA, s) && ((EndsWith(s, ".yml") && |s| > 4) || (EndsWith(s, ".yaml") && |s| > 5))
  }

  /** `owner/repo/path-to-workflow.yml[@ref]`. The class of each part excludes the character that
      ends it, so the parts are found from the left. */
  predicate Locates(wide: WideClass, token: string) {
    var t := Chopped(token);
    var owner := Before(t, "/");
    |owner| < |t| && Class(wide, PART_EXTRA, owner) &&
    var u := t[|owner| + 1..];
    var repo := Before(u, "/");
    |repo| < |u| && Class(wide, PART_EXTRA, repo) &&
    var v := u[|repo| + 1..];
    var file := Before(v, "@");
    WorkflowFile(wide, file) && (|file| < |v| ==> Token(v[|file| + 1..]))
  }

  /** `parse_workflow_spec` finds a specification: a locator, then `input=value` pairs. */
  predicate IsSpec(wide: WideClass, tokens: seq<string>) {
    tokens != [] && Locates(wide, tokens[0])
    && forall i :: 1 <= i < |tokens| ==> '=' in tokens[i] && tokens[i][0] != '='
  }

  /** What marks a stored command as a dispatch. */
  const DISPATCH := "workflow-dispatch"

  lemma DispatchIsPlain()
    ensures Plain(DISPATCH)
  {
  }

  /** The command the row of a workflow entry holds splits into the mark and the tokens that were
      parsed when it was offered. */
  lemma DispatchSplits(command: string)
    ensures ShlexSplit(DISPATCH + " " + command) ==
            match ShlexSplit(command) case None => None case Some(words) => Some([DISPATCH] + words)
  {
    DispatchIsPlain();
    SplitAfterPlain(DISPATCH, command);
  }
}
