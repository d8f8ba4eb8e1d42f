/**
 * The protocol of one `destroy` invocation, as a transition system over the
 * calls the command makes. Each `Event` records a collaborator call with its
 * arguments and the answer it got; `Next` says which call may come next in
 * each phase and with which arguments, and `Replay` runs a whole trace.
 */
module Protocol {
  import opened Collaborators
  import opened DestroyFlags

  const MetadataContext: string := "gathering environment metadata"
  const Declined: string := "confirmation declined"
  const Cancelled: string := "destroy cancelled"

  /** One collaborator call: its arguments and what it answered. */
  datatype Event =
    | IsInteractive(answer: bool)
    | PreviewFlagsToBehavior(interactive: bool, preview: string, behavior: Result<Behavior>)
    | RequireStack(name: string, create: bool, stack: Result<StackHandle>)
    | ReadProject(workspace: Result<Workspace>)
    | GetUpdateMetadata(message: string, root: string, metadata: Result<UpdateMetadata>)
    | ConfirmPrompt(warned: string, expected: string, answer: bool) // `warned`: the stack the warning names
    | Colorization(flag: string, color: string)
    | Destroy(request: DestroyRequest, result: Outcome)

  /** The kind of a call, without its arguments. */
  datatype Step =
    | AskInteractive | ResolvePreview | LookupStack | LoadProject
    | GatherMetadata | Prompt | Colorize | Engine

  function StepOf(e: Event): Step {
    match e
    case IsInteractive(_) => AskInteractive
    case PreviewFlagsToBehavior(_, _, _) => ResolvePreview
    case RequireStack(_, _, _) => LookupStack
    case ReadProject(_) => LoadProject
    case GetUpdateMetadata(_, _, _) => GatherMetadata
    case ConfirmPrompt(_, _, _) => Prompt
    case Colorization(_, _) => Colorize
    case Destroy(_, _) => Engine
  }

  /** The event's answer is the one the collaborators give. */
  predicate Consistent(env: Answers, e: Event) {
    match e
    case IsInteractive(a) => a == env.interactive
    case PreviewFlagsToBehavior(_, _, b) => b == env.behavior
    case RequireStack(_, _, s) => s == env.stack
    case ReadProject(w) => w == env.workspace
    case GetUpdateMetadata(_, _, m) => m == env.metadata
    case ConfirmPrompt(_, _, a) => a == env.confirmed
    case Colorization(_, c) => c == env.colorization
    case Destroy(_, r) => r == env.engine
  }

  /** What has been established once the metadata is in hand. */
  datatype Setup = Setup(
    interactive: bool,
    behavior: Behavior,
    stack: StackHandle,
    project: Project,
    root: string,
    metadata: UpdateMetadata)

  /**
   * The phases of an invocation. `Gathered` awaits confirmation exactly when
   * the behaviour is interactive; `Confirmed` is reached only through the
   * prompt; `Invoking` holds the colorization evaluated for the engine call.
   */
  datatype Phase =
    | Start
    | Detected(interactive: bool)
    | Resolved(interactive: bool, behavior: Behavior)
    | Located(interactive: bool, behavior: Behavior, stack: StackHandle)
    | Loaded(interactive: bool, behavior: Behavior, stack: StackHandle, workspace: Workspace)
    | Gathered(setup: Setup)
    | Confirmed(setup: Setup)
    | Invoking(setup: Setup, color: string)
    | Finished(outcome: Outcome)

  /** The engine request is built from the flags and what was resolved, field by field. */
  predicate Assembled(flags: Flags, setup: Setup, color: string, r: DestroyRequest) {
    && r.stack == setup.stack
    && r.project == setup.project
    && r.root == setup.root
    && r.metadata == setup.metadata
    && r.options.analyzers == flags.analyzers
    && r.options.parallel == flags.parallel
    && r.options.debug == flags.debug
    && r.behavior == setup.behavior
    && r.display.color == color
    && r.display.showConfig == flags.showConfig
    && r.display.showReplacementSteps == flags.showReplacementSteps
    && r.display.showSameResources == flags.showSames
    && r.display.isInteractive == setup.interactive
    && r.display.diffDisplay == flags.diff
    && r.display.debug == flags.debug
  }

  /** The error translator: only the engine's own cancellation is renamed. */
  function Translate(r: Outcome): (o: Outcome)
    ensures r == Failure(ContextCanceled) ==> o == Failure(New(Cancelled))
    ensures r != Failure(ContextCanceled) ==> o == r
    ensures o != Failure(ContextCanceled)
    ensures o == Success <==> r == Success
  {
    if r == Failure(ContextCanceled) then Failure(New(Cancelled)) else r
  }

  /** The phase after event `e`, or `None` when `e` may not happen in phase `p`. */
  function Next(flags: Flags, p: Phase, e: Event): Option<Phase> {
    match p
    case Start =>
      if e.IsInteractive? then Some(Detected(e.answer)) else None
    case Detected(i) =>
      if e.PreviewFlagsToBehavior? && e.interactive == i && e.preview == flags.preview
      then Some(if e.behavior.Ok? then Resolved(i, e.behavior.value) else Finished(Failure(e.behavior.error)))
      else None
    case Resolved(i, b) =>
      if e.RequireStack? && e.name == flags.stack && !e.create
      then Some(if e.stack.Ok? then Located(i, b, e.stack.value) else Finished(Failure(e.stack.error)))
      else None
    case Located(i, b, s) =>
      if e.ReadProject?
      then Some(if e.workspace.Ok? then Loaded(i, b, s, e.workspace.value) else Finished(Failure(e.workspace.error)))
      else None
    case Loaded(i, b, s, w) =>
      if e.GetUpdateMetadata? && e.message == flags.message && e.root == w.root
      then Some(
        if e.metadata.Ok? then Gathered(Setup(i, b, s, w.project, w.root, e.metadata.value))
        else Finished(Failure(Wrap(e.metadata.error, MetadataContext))))
      else None
    case Gathered(setup) =>
      if setup.behavior.interactive then
        if e.ConfirmPrompt? && e.warned == setup.stack.name && e.expected == setup.stack.name
        then Some(if e.answer then Confirmed(setup) else Finished(Failure(New(Declined))))
        else None
      else if e.Colorization? && e.flag == flags.color then Some(Invoking(setup, e.color))
      else None
    case Confirmed(setup) =>
      if e.Colorization? && e.flag == flags.color then Some(Invoking(setup, e.color)) else None
    case Invoking(setup, c) =>
      if e.Destroy? && Assembled(flags, setup, c, e.request)
      then Some(Finished(Translate(e.result)))
      else None
    case Finished(_) =>
      None
  }

  /** Runs the events of `t` from phase `p`; `None` when some event is not allowed. */
  function Replay(flags: Flags, p: Phase, t: seq<Event>): Option<Phase>
    decreases |t|
  {
    if t == [] then Some(p)
    else
      match Next(flags, p, t[0])
      case None => None
      case Some(q) => Replay(flags, q, t[1..])
  }

  /** `t` is a run of the protocol from the start, reaching `p`, in which every answer is `env`'s. */
  predicate Follows(flags: Flags, env: Answers, t: seq<Event>, p: Phase) {
    && Replay(flags, Start, t) == Some(p)
    && forall i :: 0 <= i < |t| ==> Consistent(env, t[i])
  }

  /** All steps before the confirmation gate succeed. */
  predicate Ready(env: Answers) {
    env.behavior.Ok? && env.stack.Ok? && env.workspace.Ok? && env.metadata.Ok?
  }

  /** The result a call ends the run with, when it ends it: a failing step, a declined prompt, the engine. */
  function Verdict(e: Event): Option<Outcome> {
    match e
    case PreviewFlagsToBehavior(_, _, b) => if b.Err? then Some(Failure(b.error)) else None
    case RequireStack(_, _, s) => if s.Err? then Some(Failure(s.error)) else None
    case ReadProject(w) => if w.Err? then Some(Failure(w.error)) else None
    case GetUpdateMetadata(_, _, m) => if m.Err? then Some(Failure(Wrap(m.error, MetadataContext))) else None
    case ConfirmPrompt(_, _, a) => if a then None else Some(Failure(New(Declined)))
    case Destroy(_, r) => Some(Translate(r))
    case _ => None
  }

  /** The order of the calls of a run that goes all the way; the prompt only for an interactive behaviour. */
  function Pipeline(interactive: bool): seq<Step> {
    [AskInteractive, ResolvePreview, LookupStack, LoadProject, GatherMetadata]
    + (if interactive then [Prompt] else [])
    + [Colorize, Engine]
  }

  /** The arguments a call takes from the command's flags. */
  predicate FromFlags(flags: Flags, e: Event) {
    match e
    case PreviewFlagsToBehavior(_, preview, _) => preview == flags.preview
    case RequireStack(name, create, _) => name == flags.stack && !create
    case GetUpdateMetadata(message, _, _) => message == flags.message
    case Colorization(flag, _) => flag == flags.color
    case Destroy(r, _) =>
      && r.options == UpdateOptions(flags.analyzers, flags.parallel, flags.debug)
      && r.display.showConfig == flags.showConfig
      && r.display.showReplacementSteps == flags.showReplacementSteps
      && r.display.showSameResources == flags.showSames
      && r.display.diffDisplay == flags.diff
      && r.display.debug == r.options.debug
    case _ => true
  }

  /** The arguments a call takes from earlier answers. */
  predicate Informed(env: Answers, e: Event) {
    match e
    case PreviewFlagsToBehavior(interactive, _, _) => interactive == env.interactive
    case GetUpdateMetadata(_, root, _) => env.workspace.Ok? && root == env.workspace.value.root
    case ConfirmPrompt(warned, expected, _) =>
      && env.behavior.Ok? && env.behavior.value.interactive
      && env.stack.Ok? && warned == env.stack.value.name && expected == env.stack.value.name
    case Destroy(r, _) =>
      && Ready(env)
      && r.stack == env.stack.value
      && r.project == env.workspace.value.project
      && r.root == env.workspace.value.root
      && r.metadata == env.metadata.value
      && r.behavior == env.behavior.value
      && r.display.isInteractive == env.interactive
      && r.display.color == env.colorization
    case _ => true
  }
}
