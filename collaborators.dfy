/**
 * The values that the `destroy` command exchanges with code it does not own:
 * the stack backend, the workspace, the update engine and the terminal. Only
 * their shapes are modelled; what each collaborator answers is chosen by the
 * caller through an `Answers` record.
 */
module Collaborators {

  datatype Option<T> = None | Some(value: T)

  /** An error as the command sees it (a non-nil Go `error`). */
  datatype Error =
    | ContextCanceled                 // the sentinel `context.Canceled`
    | New(msg: string)                // `errors.New(msg)`, or any opaque error a collaborator returns
    | Wrap(cause: Error, msg: string) // `errors.Wrap(cause, msg)`: the cause kept, the message prefixed

  /** What a call returns to the command: nil on success, or an error. */
  datatype Outcome = Success | Failure(error: Error)

  /** A value-or-error return `(T, error)`. */
  datatype Result<T> = Ok(value: T) | Err(error: Error)

  /** The closed set of preview policies an `engine.PreviewBehavior` can name. */
  datatype PreviewPolicy = InteractiveConfirm | PreviewOnly | SkipPreview | AutoAccept

  /**
   * A resolved preview behaviour. Which policy a flag maps to, and what the
   * behaviour's `Interactive()` method answers, are decided by the resolver,
   * so both are carried as data rather than computed here.
   */
  datatype Behavior = Behavior(policy: PreviewPolicy, interactive: bool)

  /** A handle on an existing stack; `name` is what `s.Name()` prints. */
  datatype StackHandle = StackHandle(name: string)

  /** The project descriptor and the directory it was read from. */
  datatype Project = Project(name: string)
  datatype Workspace = Workspace(project: Project, root: string)

  /** Environment metadata attached to the update (opaque to the command). */
  datatype UpdateMetadata = UpdateMetadata(message: string, environment: map<string, string>)

  /** `engine.UpdateOptions` as the command fills it. */
  datatype UpdateOptions = UpdateOptions(analyzers: seq<string>, parallel: int, debug: bool)

  /** `backend.DisplayOptions`; `color` is the `Colorization` the color flag yields. */
  datatype DisplayOptions = DisplayOptions(
    color: string,
    showConfig: bool,
    showReplacementSteps: bool,
    showSameResources: bool,
    isInteractive: bool,
    diffDisplay: bool,
    debug: bool)

  /** Everything handed to the stack's `Destroy` method (besides the global cancellation scopes). */
  datatype DestroyRequest = DestroyRequest(
    stack: StackHandle,
    project: Project,
    root: string,
    metadata: UpdateMetadata,
    options: UpdateOptions,
    behavior: Behavior,
    display: DisplayOptions)

  /**
   * The answer each collaborator gives in one invocation:
   * `isInteractive`, `previewFlagsToBehavior`, `requireStack`, `readProject`,
   * `getUpdateMetadata`, `confirmPrompt`, `color.Colorization` and the
   * engine's `Destroy`. An engine cancellation is `Failure(ContextCanceled)`.
   */
  datatype Answers = Answers(
    interactive: bool,
    behavior: Result<Behavior>,
    stack: Result<StackHandle>,
    workspace: Result<Workspace>,
    metadata: Result<UpdateMetadata>,
    confirmed: bool,
    colorization: string,
    engine: Outcome)
}
