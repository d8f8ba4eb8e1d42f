/**
 * The `Run` body of the `destroy` command: resolve the preview behaviour,
 * look up the stack, read the project, gather metadata, confirm when the
 * behaviour is interactive, call the engine once and translate its result.
 * Each collaborator call is appended to `trace` with its arguments and its
 * answer; the answers come from `env`.
 */
module DestroyCmd {
  import opened Collaborators
  import opened DestroyFlags
  import opened Protocol
  import opened RunProperties

  method Run(flags: Flags, env: Answers) returns (outcome: Outcome, trace: seq<Event>)
    // a complete run of the protocol, with the collaborators' answers
    ensures Follows(flags, env, trace, Finished(outcome))
    // the preview setting fails: that error, and nothing else runs
    ensures env.behavior.Err? ==>
      && |trace| == 2
      && outcome == Failure(env.behavior.error)
    // the stack lookup fails: that error, unchanged
    ensures env.behavior.Ok? && env.stack.Err? ==>
      && |trace| == 3
      && outcome == Failure(env.stack.error)
    // the project cannot be read: that error, unchanged
    ensures env.behavior.Ok? && env.stack.Ok? && env.workspace.Err? ==>
      && |trace| == 4
      && outcome == Failure(env.workspace.error)
    // metadata cannot be gathered: that error, wrapped with its context
    ensures env.behavior.Ok? && env.stack.Ok? && env.workspace.Ok? && env.metadata.Err? ==>
      && |trace| == 5
      && outcome == Failure(Wrap(env.metadata.error, MetadataContext))
    // interactive behaviour, operator declines: no engine call
    ensures Ready(env) && env.behavior.value.interactive && !env.confirmed ==>
      && |trace| == 6
      && outcome == Failure(New(Declined))
    // interactive behaviour, operator confirms: one engine call, its result translated
    ensures Ready(env) && env.behavior.value.interactive && env.confirmed ==>
      && |trace| == 8
      && outcome == Translate(env.engine)
    // non-interactive behaviour: no prompt, one engine call, its result translated
    ensures Ready(env) && !env.behavior.value.interactive ==>
      && |trace| == 7
      && outcome == Translate(env.engine)
  {
    trace := [];
    ghost var phase := Start;
    var e: Event;

    var interactive := env.interactive;
    e := IsInteractive(interactive);
    Record(flags, env, trace, phase, e, Detected(interactive));
    trace, phase := trace + [e], Detected(interactive);

    var behaviorResult := env.behavior;
    e := PreviewFlagsToBehavior(interactive, flags.preview, behaviorResult);
    if behaviorResult.Err? {
      Record(flags, env, trace, phase, e, Finished(Failure(behaviorResult.error)));
      trace := trace + [e];
      return Failure(behaviorResult.error), trace;
    }
    var behavior := behaviorResult.value;
    Record(flags, env, trace, phase, e, Resolved(interactive, behavior));
    trace, phase := trace + [e], Resolved(interactive, behavior);

    var stackResult := env.stack;
    e := RequireStack(flags.stack, false, stackResult);
    if stackResult.Err? {
      Record(flags, env, trace, phase, e, Finished(Failure(stackResult.error)));
      trace := trace + [e];
      return Failure(stackResult.error), trace;
    }
    var s := stackResult.value;
    Record(flags, env, trace, phase, e, Located(interactive, behavior, s));
    trace, phase := trace + [e], Located(interactive, behavior, s);

    var workspaceResult := env.workspace;
    e := ReadProject(workspaceResult);
    if workspaceResult.Err? {
      Record(flags, env, trace, phase, e, Finished(Failure(workspaceResult.error)));
      trace := trace + [e];
      return Failure(workspaceResult.error), trace;
    }
    var proj, root := workspaceResult.value.project, workspaceResult.value.root;
    Record(flags, env, trace, phase, e, Loaded(interactive, behavior, s, workspaceResult.value));
    trace, phase := trace + [e], Loaded(interactive, behavior, s, workspaceResult.value);

    var metadataResult := env.metadata;
    e := GetUpdateMetadata(flags.message, root, metadataResult);
    if metadataResult.Err? {
      Record(flags, env, trace, phase, e, Finished(Failure(Wrap(metadataResult.error, MetadataContext))));
      trace := trace + [e];
      return Failure(Wrap(metadataResult.error, MetadataContext)), trace;
    }
    var m := metadataResult.value;
    var setup := Setup(interactive, behavior, s, proj, root, m);
    Record(flags, env, trace, phase, e, Gathered(setup));
    trace := trace + [e];

    outcome, trace := ConfirmAndDestroy(flags, env, setup, trace);
  }

  /**
   * The second half of `Run`: the confirmation prompt when the behaviour is
   * interactive, then the engine call and the translation of its result.
   */
  method ConfirmAndDestroy(flags: Flags, env: Answers, setup: Setup, before: seq<Event>)
    returns (outcome: Outcome, trace: seq<Event>)
    requires Follows(flags, env, before, Gathered(setup))
    ensures Follows(flags, env, trace, Finished(outcome))
    // the calls made so far are kept, in order
    ensures |before| <= |trace| && trace[..|before|] == before
    // interactive behaviour, operator declines: no engine call
    ensures setup.behavior.interactive && !env.confirmed ==>
      && |trace| == |before| + 1
      && outcome == Failure(New(Declined))
    // interactive behaviour, operator confirms: one engine call, its result translated
    ensures setup.behavior.interactive && env.confirmed ==>
      && |trace| == |before| + 3
      && outcome == Translate(env.engine)
    // non-interactive behaviour: no prompt, one engine call, its result translated
    ensures !setup.behavior.interactive ==>
      && |trace| == |before| + 2
      && outcome == Translate(env.engine)
  {
    trace := before;
    ghost var phase := Gathered(setup);
    var e: Event;
    var s := setup.stack;

    if setup.behavior.interactive {
      var confirmed := env.confirmed;
      e := ConfirmPrompt(s.name, s.name, confirmed);
      if !confirmed {
        Record(flags, env, trace, phase, e, Finished(Failure(New(Declined))));
        trace := trace + [e];
        return Failure(New(Declined)), trace;
      }
      Record(flags, env, trace, phase, e, Confirmed(setup));
      trace, phase := trace + [e], Confirmed(setup);
    }

    var color := env.colorization;
    e := Colorization(flags.color, color);
    Record(flags, env, trace, phase, e, Invoking(setup, color));
    trace, phase := trace + [e], Invoking(setup, color);

    var request := DestroyRequest(
      s, setup.project, setup.root, setup.metadata,
      UpdateOptions(flags.analyzers, flags.parallel, flags.debug),
      setup.behavior,
      DisplayOptions(color, flags.showConfig, flags.showReplacementSteps, flags.showSames,
                     setup.interactive, flags.diff, flags.debug));
    var err := env.engine;
    e := Destroy(request, err);
    Record(flags, env, trace, phase, e, Finished(Translate(err)));
    trace := trace + [e];
    if err == Failure(ContextCanceled) {
      return Failure(New(Cancelled)), trace;
    }
    return err, trace;
  }
}
