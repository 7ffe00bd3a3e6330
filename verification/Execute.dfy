/** The runners. */
module Execute {
  // What each kind of approved command may start.

  import opened Text
  import opened Shlex
  import opened Bounds
  import opened Catalog
  import opened Workflow

  /** What a runner does with a stored command: refuse it, raise before anything starts, or
      start a process with an argument list. */
  datatype Attempt = Refused | Raises | Starts(argv: seq<string>)

  /** `run_cleanup`: the split comes first, so an unclosed quote raises before the check. */
  function CleanupAttempt(wide: WideClass, command: string): Attempt {
    match ShlexSplit(command)
    case None => Raises
    case Some(argv) => if Validates(ReclaimEvicted, wide, command) then Starts(argv) else Refused
  }

  /** `run_catalog_action`: the action is looked up by the command, and its own envelope is
      checked against the default bound unless a human broke the glass. */
  function CatalogAttempt(wide: WideClass, command: string, breakGlass: bool): Attempt {
    match ActionForCommand(wide, command)
    case None => Refused
    case Some(action) =>
      match ShlexSplit(command)
      case None => Raises
      case Some(argv) =>
        if !breakGlass && !WithinBounds(EnvelopeOf(action), DEFAULT_BOUND) then Refused else Starts(argv)
  }

  /** `run_solution`: an authored command, split without a shell, with no content check. A
      marked command is a workflow dispatch, refused when its specification does not parse. */
  function SolutionAttempt(wide: WideClass, command: string): Attempt {
    match ShlexSplit(command)
    case None => Raises
    case Some(argv) =>
      if argv == [] || (argv[0] == DISPATCH && !IsSpec(wide, argv[1..])) then Refused else Starts(argv)
  }

  /** The row of a workflow entry that parsed when it was offered is neither refused nor raises
      when it is run. */
  lemma DispatchStarts(wide: WideClass, command: string)
    requires ShlexSplit(command).Some? && IsSpec(wide, ShlexSplit(command).value)
    ensures SolutionAttempt(wide, DISPATCH + " " + command) == Starts([DISPATCH] + ShlexSplit(command).value)
  {
    hide IsSpec, ShlexSplit;
    DispatchSplits(command);
    var tokens := ShlexSplit(command).value;
    assert ([DISPATCH] + tokens)[1..] == tokens;
  }

  /** The runner's two layers of defence: it never raises, it starts only a command some
      action vets, within the bound unless the glass was broken; and what it starts is what
      the checker read, up to exotic whitespace. */
  lemma {:induction false} CatalogStartsVetted(wide: WideClass, command: string, breakGlass: bool)
    ensures !CatalogAttempt(wide, command, breakGlass).Raises?
    ensures CatalogAttempt(wide, command, breakGlass).Starts? <==>
            exists a :: Validates(a, wide, command) && (breakGlass || WithinBounds(EnvelopeOf(a), DEFAULT_BOUND))
    ensures CatalogAttempt(wide, command, breakGlass).Starts? ==>
            (CatalogAttempt(wide, command, breakGlass).argv == Split(command) <==> OnlySpaces(command))
  {
    var found := ActionForCommand(wide, command);
    if found.Some? {
      ActionForCommandExact(wide, command, found.value);
      CheckedIsRun(ShapeOf(found.value, wide), command);
    }
    forall a | Validates(a, wide, command) ensures found == Some(a) {
      ActionForCommandExact(wide, command, a);
    }
  }

  /** Without break-glass, and whatever bound was configured, exactly the two pod cleanups and the
      rollout restart ever start: nothing is scaled, and no node deleted. */
  lemma {:induction false} UnattendedStartsExactly(wide: WideClass, command: string)
    ensures CatalogAttempt(wide, command, false).Starts? <==>
            Validates(ReclaimEvicted, wide, command) || Validates(DeleteCompleted, wide, command)
            || Validates(RolloutRestart, wide, command)
    ensures CatalogAttempt(wide, command, false).Starts? ==>
            !Scales(Split(command)) && !DeletesNode(Split(command))
  {
    CatalogStartsVetted(wide, command, false);
    hide Validates, CatalogAttempt, Split, WithinBounds;
    forall a: Action ensures WithinBounds(EnvelopeOf(a), DEFAULT_BOUND) <==> Harmless(a) { DefaultEnvelope(a); }
    forall a: Action | Validates(a, wide, command) && Harmless(a)
      ensures !Scales(Split(command)) && !DeletesNode(Split(command))
    {
      HarmlessVerb(a, wide, command);
    }
  }

  predicate Scales(tokens: seq<string>) {
    |tokens| > 1 && tokens[0] == "kubectl" && tokens[1] == "scale"
  }

  predicate DeletesNode(tokens: seq<string>) {
    |tokens| > 2 && tokens[0] == "kubectl" && tokens[1] == "delete" && tokens[2] == "node"
  }

  predicate Harmless(a: Action) {
    a.ReclaimEvicted? || a.DeleteCompleted? || a.RolloutRestart?
  }

  lemma DefaultEnvelope(a: Action)
    ensures WithinBounds(EnvelopeOf(a), DEFAULT_BOUND) <==> Harmless(a)
  {
  }

  lemma {:induction false} HarmlessVerb(a: Action, wide: WideClass, command: string)
    requires Validates(a, wide, command) && Harmless(a)
    ensures !Scales(Split(command)) && !DeletesNode(Split(command))
  {
    StartsWithVerb(wide, command, a);
    hide Validates, Split;
    var tokens, verb := Split(command), VerbOf(a);
    assert tokens[1] == verb[1] && tokens[2] == verb[2];
    assert "delete" != "scale" && "rollout" != "scale" && "rollout" != "delete" && "pods" != "node" by {
      assert |"scale"| == 5 && |"delete"| == 6 && |"rollout"| == 7 && "pods"[0] != "node"[0];
    }
  }

  lemma {:induction false} CleanupStartsVetted(wide: WideClass, command: string)
    ensures CleanupAttempt(wide, command).Starts? <==> Validates(ReclaimEvicted, wide, command)
    ensures CleanupAttempt(wide, command).Starts? ==>
            (CleanupAttempt(wide, command).argv == Split(command) <==> OnlySpaces(command))
  {
    if Validates(ReclaimEvicted, wide, command) {
      CheckedIsRun(ShapeOf(ReclaimEvicted, wide), command);
    }
  }
}
