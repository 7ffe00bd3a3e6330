/** The listener. */
module Inbound {
  // One inbound request to at most one command run. The model's reply is an arbitrary oracle.

  import opened Text
  import opened Grammar
  import opened Vocabulary

  // -- Confidently typed commands -----------------------------------------------------------------

  predicate AllOf(s: string, p: char -> bool) {
    forall i :: 0 <= i < |s| ==> p(s[i])
  }

  /** An ordinal, or at least four hexadecimal digits. */
  predicate ReferenceShaped(arg: string) {
    var low := Lower(arg);
    || (low != "" && AllOf(low, c => '0' <= c <= '9'))
    || (|low| >= 4 && AllOf(low, c => '0' <= c <= '9' || 'a' <= c <= 'f'))
  }

  function ReferenceOf(c: Command): string {
    if c.verb.Run? then c.argument2 else c.argument
  }

  predicate Guarded(c: Command) {
    || c.verb.Show? || c.verb.Fix? || c.verb.Mute? || c.verb.Unmute? || c.verb.Snooze? || c.verb.Send? || c.verb.Run?
    || ((c.verb.Approve? || c.verb.Decline?) && c.argument != "")
  }

  /** `confident_command` */
  function Confident(text: string, actor: string): Option<Command> {
    match Scan(Split(text), actor)
    case None => None
    case Some(c) =>
      if c.verb.Ask? && Split(text) != [] && Lower(Split(text)[0]) != Spelling(Ask) then None
      else if Guarded(c) && !ReferenceShaped(ReferenceOf(c)) then None
      else Some(c)
  }

  // -- The model ----------------------------------------------------------------------------------

  /** What came back from the model: nothing, no data, or the fields of its data (None where a
      field is missing or not a text). */
  datatype Reply =
    | Silent
    | Shapeless
    | Data(verb: Option<string>, argument: Option<string>, argument2: Option<string>, flags: set<Flag>,
           clarify: Option<string>, answer: Option<string>)

  datatype Message = Unreachable | NoData | Unmapped | Prose(text: string) | Echo(line: string)

  datatype NLResult = RunIt(command: Command, interpreted: string) | Say(message: Message)

  function Stripped(field: Option<string>): string {
    if field.Some? then Strip(field.value) else ""
  }

  /** `nl_to_command`: a read-only verb is returned to run, an effectful one only echoed. */
  function NlToCommand(actor: string, reply: Reply): NLResult {
    match reply
    case Silent => Say(Unreachable)
    case Shapeless => Say(NoData)
    case Data(verb, argument, argument2, flags, clarify, answer) =>
      var named := if verb.Some? then VerbNamed(verb.value) else None;
      match named
      case None =>
        Say(if Stripped(clarify) != "" then Prose(Stripped(clarify))
            else if Stripped(answer) != "" then Prose(Stripped(answer))
            else Unmapped)
      case Some(v) =>
        var a, b := Stripped(argument), Stripped(argument2);
        if Effectful(v) then Say(Echo(Canonical(v, a, b)))
        else RunIt(Command(v, actor, a, b, flags), Canonical(v, a, b))
  }

  // -- Dispatch ------------------------------------------------------------------------------------

  /** One inbound request, as the adapter's provider-specific steps read it. */
  datatype Request = Request(
    verified: bool,
    handshake: Option<string>,
    message: Option<(string, string)>,      // free text and who sent it
    parsed: Option<Command>,                // the deterministic parse
    defers: bool)

  datatype Answer =
    | Unauthorized
    | Shook(reply: string)
    | Said(message: Message)
    | NothingToDo
    | Output(ran: Command)
    | Acknowledged(ran: Command)            // answered now, run in the background

  /** `_resolve_text`: a command to run, a message to say, or neither. */
  function ResolveText(r: Request, configured: bool, reply: Reply): (Option<Command>, Option<Message>) {
    if r.message.None? || !configured then (None, None)
    else
      var (text, actor) := r.message.value;
      match Confident(text, actor)
      case Some(c) => (Some(c), None)
      case None =>
        match NlToCommand(actor, reply)
        case RunIt(c, _) => (Some(c), None)
        case Say(m) => (None, Some(m))
  }

  function Dispatched(r: Request, configured: bool, reply: Reply): Answer {
    if !r.verified then Unauthorized
    else if r.handshake.Some? then Shook(r.handshake.value)
    else
      var (resolved, said) := ResolveText(r, configured, reply);
      if said.Some? then Said(said.value)
      else
        var command := if resolved.Some? then resolved else r.parsed;
        if command.None? then NothingToDo
        else if command.value.verb.Probe? && r.defers then Acknowledged(command.value)
        else Output(command.value)
  }

  /** The command a request makes the listener run, if any. */
  function Ran(a: Answer): Option<Command> {
    if a.Output? || a.Acknowledged? then Some(a.ran) else None
  }

  function OnlyEffectful(c: Option<Command>): Option<Command> {
    if c.Some? && Effectful(c.value.verb) then c else None
  }

  // -- Non-interference ----------------------------------------------------------------------------------

  lemma ModelRunsReadOnly(actor: string, reply: Reply)
    ensures NlToCommand(actor, reply).RunIt? ==> !Effectful(NlToCommand(actor, reply).command.verb)
  {
    hide Canonical, VerbNamed;
  }

  /** What effectful command runs, whatever the model says: none on an unverified request or a
      handshake; on the free-text path exactly the operator's own confidently typed command; else
      the adapter's own parse. So two replies of the model never make a difference to it, and an
      unverified request runs nothing at all. */
  lemma ModelCannotInterfere(r: Request, configured: bool, one: Reply, other: Reply)
    ensures OnlyEffectful(Ran(Dispatched(r, configured, one))) ==
            if !r.verified || r.handshake.Some? then None
            else if r.message.Some? && configured then OnlyEffectful(Confident(r.message.value.0, r.message.value.1))
            else OnlyEffectful(r.parsed)
    ensures OnlyEffectful(Ran(Dispatched(r, configured, one))) == OnlyEffectful(Ran(Dispatched(r, configured, other)))
    ensures !r.verified ==> Ran(Dispatched(r, configured, one)) == None
  {
    hide Confident, NlToCommand;
    if r.message.Some? {
      ModelRunsReadOnly(r.message.value.1, one);
      ModelRunsReadOnly(r.message.value.1, other);
    }
  }

  // -- Sending the echo --------------------------------------------------------------------------------------

  /** When sending an echoed line back really runs what the model named: the arguments fit the
      verb and the finding reference has the shape of one. Anything else is not run as that
      command. */
  lemma EchoRunsExactly(actor: string, reply: Reply)
    requires reply.Data? && reply.verb.Some? && VerbNamed(reply.verb.value).Some?
    requires Effectful(VerbNamed(reply.verb.value).value)
    ensures var v := VerbNamed(reply.verb.value).value;
            var a, b := Stripped(reply.argument), Stripped(reply.argument2);
            var named := Command(v, actor, a, b, {});
            && NlToCommand(actor, reply) == Say(Echo(Canonical(v, a, b)))
            && (Confident(Canonical(v, a, b), actor) == Some(named) <==>
                Fits(v, a, b) && (Guarded(named) ==> ReferenceShaped(ReferenceOf(named))))
  {
    hide VerbNamed, Canonical, Stripped, Fits, ReferenceShaped;
    var v := VerbNamed(reply.verb.value).value;
    EchoExact(v, Stripped(reply.argument), Stripped(reply.argument2), actor);
  }

  // -- What exactly is run and said ------------------------------------------------------------------------------

  const DECIMAL := "0123456789"
  const HEXADECIMAL := "0123456789abcdef"

  lemma DigitExactly(c: char)
    ensures c in DECIMAL <==> '0' <= c <= '9'
    ensures c in HEXADECIMAL <==> '0' <= c <= '9' || 'a' <= c <= 'f'
  {
    assert forall k :: 0 <= k < 10 ==> DECIMAL[k] == ('0' as int + k) as char && HEXADECIMAL[k] == DECIMAL[k];
    assert forall k :: 10 <= k < 16 ==> HEXADECIMAL[k] == ('a' as int + k - 10) as char;
    var n := c as int;
    if '0' <= c <= '9' { assert DECIMAL[n - '0' as int] == c && HEXADECIMAL[n - '0' as int] == c; }
    if 'a' <= c <= 'f' { assert HEXADECIMAL[n - 'a' as int + 10] == c; }
  }

  lemma AllOfIn(s: string, chars: string, p: char -> bool)
    requires forall c :: c in chars <==> p(c)
    ensures AllOf(s, p) <==> forall c :: c in s ==> c in chars
  {
    if forall c :: c in s ==> c in chars { forall i | 0 <= i < |s| ensures p(s[i]) { assert s[i] in s; } }
  }

  /** A reference is digits only, or at least four hexadecimal digits in any letter case. */
  lemma ReferenceExactly(arg: string)
    ensures ReferenceShaped(arg) <==>
            (arg != "" && forall c :: c in Lower(arg) ==> c in DECIMAL)
            || (|arg| >= 4 && forall c :: c in Lower(arg) ==> c in HEXADECIMAL)
  {
    hide DECIMAL, HEXADECIMAL;
    forall c ensures c in DECIMAL <==> '0' <= c <= '9' { DigitExactly(c); }
    forall c ensures c in HEXADECIMAL <==> '0' <= c <= '9' || 'a' <= c <= 'f' { DigitExactly(c); }
    AllOfIn(Lower(arg), DECIMAL, c => '0' <= c <= '9');
    AllOfIn(Lower(arg), HEXADECIMAL, c => '0' <= c <= '9' || 'a' <= c <= 'f');
  }

  /** What is confidently typed is what was parsed, unless a question does not lead with "ask", or a
      verb that names a finding is given something that has not the shape of a reference. */
  lemma {:induction false} ConfidentExactly(text: string, actor: string)
    ensures var parsed := Scan(Split(text), actor);
            if parsed.None? then Confident(text, actor) == None
            else
              var c := parsed.value;
              var misread := c.verb == Ask && Split(text) != [] && Lower(Split(text)[0]) != "ask";
              var unshaped :=
                || (c.verb in {Show, Fix, Mute, Unmute, Snooze, Send} && !ReferenceShaped(c.argument))
                || (c.verb == Run && !ReferenceShaped(c.argument2))
                || (c.verb in {Approve, Decline} && c.argument != "" && !ReferenceShaped(c.argument));
              Confident(text, actor) == if misread || unshaped then None else parsed
  {
    hide ReferenceShaped, Scan;
  }

  /** What the model's reply comes to: no reply and no data say so; a verb of the vocabulary is run
      with the stripped arguments if it is read-only, and echoed if it is not; anything else is
      answered by its stripped clarification, else by its stripped answer, else by saying that
      nothing was understood. */
  lemma ReplyExactly(actor: string, reply: Reply)
    ensures reply.Silent? ==> NlToCommand(actor, reply) == Say(Unreachable)
    ensures reply.Shapeless? ==> NlToCommand(actor, reply) == Say(NoData)
    ensures reply.Data? ==>
              var said := NlToCommand(actor, reply);
              var a := if reply.argument.Some? then Strip(reply.argument.value) else "";
              var b := if reply.argument2.Some? then Strip(reply.argument2.value) else "";
              && (forall v :: reply.verb == Some(Spelling(v)) ==>
                    if Effectful(v) then said == Say(Echo(Canonical(v, a, b)))
                    else said == RunIt(Command(v, actor, a, b, reply.flags), Canonical(v, a, b)))
              && ((forall v :: reply.verb != Some(Spelling(v))) ==>
                    said == Say(if reply.clarify.Some? && Strip(reply.clarify.value) != "" then Prose(Strip(reply.clarify.value))
                                else if reply.answer.Some? && Strip(reply.answer.value) != "" then Prose(Strip(reply.answer.value))
                                else Unmapped))
  {
    hide Canonical, Effectful, Spelling, VerbNamed, Strip;
    if reply.Data? && reply.verb.Some? {
      var w := reply.verb.value;
      forall v ensures VerbNamed(w) == Some(v) <==> Spelling(v) == w { VerbNamedExactly(w, v); }
    }
  }

  lemma VerbNamedExactly(w: string, v: Verb)
    ensures VerbNamed(w) == Some(v) <==> Spelling(v) == w
  {
    hide Spelling, FirstSpelt;
    AllListed(v);
    FirstSpeltFinds(VERBS, v, w);
  }

  /** The answer to a request: nothing but a refusal without a valid signature, a handshake before
      any command; then, for a free-text message with a model configured, what was confidently
      typed, else what the model's reply comes to; for anything else the adapter's parse. Only a
      probe is put off, and only where the provider allows it. */
  lemma DispatchedExactly(r: Request, configured: bool, reply: Reply)
    ensures var answer := Dispatched(r, configured, reply);
            if !r.verified then answer == Unauthorized
            else if r.handshake.Some? then answer == Shook(r.handshake.value)
            else if r.message.Some? && configured then
              var (text, actor) := r.message.value;
              match Confident(text, actor)
              case Some(c) => Answers(answer, Some(c), r.defers)
              case None =>
                match NlToCommand(actor, reply)
                case Say(m) => answer == Said(m)
                case RunIt(c, _) => Answers(answer, Some(c), r.defers)
            else Answers(answer, r.parsed, r.defers)
  {
    hide Confident, NlToCommand;
  }

  predicate Answers(answer: Answer, command: Option<Command>, defers: bool) {
    match command
    case None => answer == NothingToDo
    case Some(c) => answer == if c.verb == Probe && defers then Acknowledged(c) else Output(c)
  }
}
