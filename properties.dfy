/**
 * Facts about every run the protocol accepts: how a run ends, which
 * arguments each call receives, the order of the calls, the confirmation
 * gate, and that the flags and the collaborators' answers fix the run.
 */
module RunProperties {
  import opened Collaborators
  import opened DestroyFlags
  import opened Protocol

  /** Recording one more event advances the replay by one step. */
  lemma {:induction false} ReplaySnoc(flags: Flags, p: Phase, t: seq<Event>, q: Phase, e: Event)
    requires Replay(flags, p, t) == Some(q)
    ensures Replay(flags, p, t + [e]) == Next(flags, q, e)
    decreases |t|
  {
    if t == [] {
      assert t + [e] == [e];
    } else {
      var p' := Next(flags, p, t[0]).value;
      assert (t + [e])[0] == t[0];
      assert (t + [e])[1..] == t[1..] + [e];
      ReplaySnoc(flags, p', t[1..], q, e);
    }
  }

  /** Recording an allowed, consistent call extends a run by one step. */
  lemma Record(flags: Flags, env: Answers, t: seq<Event>, p: Phase, e: Event, q: Phase)
    requires Follows(flags, env, t, p)
    requires Next(flags, p, e) == Some(q) && Consistent(env, e)
    ensures Follows(flags, env, t + [e], q)
  {
    ReplaySnoc(flags, Start, t, p, e);
    assert forall i :: 0 <= i < |t| ==> (t + [e])[i] == t[i];
  }

  /** A finished run accepts no further call. */
  lemma FinishedIsFinal(flags: Flags, o: Outcome, t: seq<Event>, q: Phase)
    requires Replay(flags, Finished(o), t) == Some(q)
    ensures t == [] && q == Finished(o)
  {
  }

  /** A single call ends the run exactly when it has a verdict, and then with that verdict. */
  lemma StepVerdict(flags: Flags, p: Phase, e: Event, q: Phase)
    requires Next(flags, p, e) == Some(q)
    ensures q.Finished? <==> Verdict(e).Some?
    ensures q.Finished? ==> q == Finished(Verdict(e).value)
  {
  }

  /**
   * A call that ends the run (a failed step, a declined prompt, the engine)
   * is the last call, and the run's result is its verdict; so at most one
   * such call happens.
   */
  lemma {:induction false} EndingCallIsLast(flags: Flags, p: Phase, t: seq<Event>, q: Phase, i: int)
    requires Replay(flags, p, t) == Some(q)
    requires 0 <= i < |t| && Verdict(t[i]).Some?
    ensures i == |t| - 1
    ensures q == Finished(Verdict(t[i]).value)
    decreases |t|
  {
    var p' := Next(flags, p, t[0]).value;
    StepVerdict(flags, p, t[0], p');
    if i == 0 {
      FinishedIsFinal(flags, p'.outcome, t[1..], q);
    } else {
      if p'.Finished? {
        FinishedIsFinal(flags, p'.outcome, t[1..], q);
      }
      assert t[1..][i - 1] == t[i];
      EndingCallIsLast(flags, p', t[1..], q, i - 1);
    }
  }

  /** Conversely, a run that finishes ends with a call whose verdict is the run's result. */
  lemma {:induction false} RunEndsWithVerdict(flags: Flags, p: Phase, t: seq<Event>, o: Outcome)
    requires Replay(flags, p, t) == Some(Finished(o))
    requires !p.Finished?
    ensures |t| > 0 && Verdict(t[|t| - 1]) == Some(o)
    decreases |t|
  {
    var p' := Next(flags, p, t[0]).value;
    StepVerdict(flags, p, t[0], p');
    if p'.Finished? {
      FinishedIsFinal(flags, p'.outcome, t[1..], Finished(o));
    } else {
      RunEndsWithVerdict(flags, p', t[1..], o);
      assert t[1..][|t[1..]| - 1] == t[|t| - 1];
    }
  }

  /** A run succeeds only when its last call is the engine and the engine succeeded. */
  lemma SuccessOnlyFromEngine(flags: Flags, env: Answers, t: seq<Event>)
    requires Follows(flags, env, t, Finished(Success))
    ensures |t| > 0 && t[|t| - 1].Destroy? && t[|t| - 1].result == Success
    ensures env.engine == Success
  {
    RunEndsWithVerdict(flags, Start, t, Success);
    assert Consistent(env, t[|t| - 1]);
  }

  /** Every call the protocol allows takes its flag-derived arguments from the flags. */
  lemma StepFromFlags(flags: Flags, p: Phase, e: Event)
    requires Next(flags, p, e).Some?
    ensures FromFlags(flags, e)
  {
  }

  /** In every run, each call receives the flag values the command was given. */
  lemma {:induction false} ArgumentsFromFlags(flags: Flags, p: Phase, t: seq<Event>, q: Phase)
    requires Replay(flags, p, t) == Some(q)
    ensures forall i :: 0 <= i < |t| ==> FromFlags(flags, t[i])
    decreases |t|
  {
    if t != [] {
      var p' := Next(flags, p, t[0]).value;
      StepFromFlags(flags, p, t[0]);
      ArgumentsFromFlags(flags, p', t[1..], q);
      forall i | 0 <= i < |t| ensures FromFlags(flags, t[i]) {
        if i > 0 {
          assert t[i] == t[1..][i - 1];
        }
      }
    }
  }

  /** With no flags given, the engine runs with parallelism 0, without analyzers, and with every display option off. */
  lemma DefaultRequest(env: Answers, t: seq<Event>, q: Phase, i: int)
    requires Follows(Defaults, env, t, q)
    requires 0 <= i < |t| && t[i].Destroy?
    ensures t[i].request.options == UpdateOptions([], 0, false)
    ensures !t[i].request.display.showConfig && !t[i].request.display.showReplacementSteps
    ensures !t[i].request.display.showSameResources && !t[i].request.display.diffDisplay
    ensures !t[i].request.display.debug
    ensures t[i].request.display.color == env.colorization
  {
    ArgumentsFromFlags(Defaults, Start, t, q);
    CallsSeeAnswers(Defaults, env, t, q);
    assert FromFlags(Defaults, t[i]) && Informed(env, t[i]);
  }

  /** What a setup records agrees with the collaborators' answers. */
  predicate SetupAgrees(env: Answers, s: Setup) {
    && s.interactive == env.interactive
    && env.behavior == Ok(s.behavior)
    && env.stack == Ok(s.stack)
    && env.workspace == Ok(Workspace(s.project, s.root))
    && env.metadata == Ok(s.metadata)
  }

  /** What a phase records agrees with the collaborators' answers. */
  predicate Agrees(env: Answers, p: Phase) {
    match p
    case Start => true
    case Detected(i) => i == env.interactive
    case Resolved(i, b) => i == env.interactive && env.behavior == Ok(b)
    case Located(i, b, s) => i == env.interactive && env.behavior == Ok(b) && env.stack == Ok(s)
    case Loaded(i, b, s, w) =>
      i == env.interactive && env.behavior == Ok(b) && env.stack == Ok(s) && env.workspace == Ok(w)
    case Gathered(s) => SetupAgrees(env, s)
    case Confirmed(s) => SetupAgrees(env, s) && s.behavior.interactive
    case Invoking(s, c) => SetupAgrees(env, s) && c == env.colorization
    case Finished(_) => true
  }

  /** A consistent call from an agreeing phase is informed by earlier answers and keeps agreement. */
  lemma StepAgrees(flags: Flags, env: Answers, p: Phase, e: Event, q: Phase)
    requires Agrees(env, p) && Next(flags, p, e) == Some(q) && Consistent(env, e)
    ensures Informed(env, e) && Agrees(env, q)
  {
  }

  lemma {:induction false} InformedFrom(flags: Flags, env: Answers, p: Phase, t: seq<Event>, q: Phase)
    requires Agrees(env, p) && Replay(flags, p, t) == Some(q)
    requires forall i :: 0 <= i < |t| ==> Consistent(env, t[i])
    ensures forall i :: 0 <= i < |t| ==> Informed(env, t[i])
    ensures Agrees(env, q)
    decreases |t|
  {
    if t != [] {
      var p' := Next(flags, p, t[0]).value;
      assert Consistent(env, t[0]);
      StepAgrees(flags, env, p, t[0], p');
      forall i | 0 <= i < |t[1..]| ensures Consistent(env, t[1..][i]) {
        assert t[1..][i] == t[i + 1];
      }
      InformedFrom(flags, env, p', t[1..], q);
      forall i | 0 <= i < |t| ensures Informed(env, t[i]) {
        if i > 0 {
          assert t[i] == t[1..][i - 1];
        }
      }
    }
  }

  /**
   * In every run, each call receives what earlier calls answered: the
   * interactivity flag reaches the preview resolver and the display options,
   * the project root reaches the metadata gatherer, the prompt names the
   * resolved stack, and the engine receives the resolved stack, project,
   * root, metadata, behaviour and colorization.
   */
  lemma CallsSeeAnswers(flags: Flags, env: Answers, t: seq<Event>, q: Phase)
    requires Follows(flags, env, t, q)
    ensures forall i :: 0 <= i < |t| ==> Informed(env, t[i])
  {
    InformedFrom(flags, env, Start, t, q);
  }

  /** A non-interactive behaviour never prompts. */
  lemma NoPromptWithoutInteraction(flags: Flags, env: Answers, t: seq<Event>, q: Phase)
    requires Follows(flags, env, t, q)
    requires env.behavior.Ok? && !env.behavior.value.interactive
    ensures forall i :: 0 <= i < |t| ==> !t[i].ConfirmPrompt?
  {
    CallsSeeAnswers(flags, env, t, q);
    forall i | 0 <= i < |t| ensures !t[i].ConfirmPrompt? {
      assert Informed(env, t[i]);
    }
  }

  /** The number of calls made before phase `p` is reached, along `Pipeline(b)`. */
  function Offset(p: Phase, b: bool): nat {
    match p
    case Start => 0
    case Detected(_) => 1
    case Resolved(_, _) => 2
    case Located(_, _, _) => 3
    case Loaded(_, _, _, _) => 4
    case Gathered(_) => 5
    case Confirmed(_) => 6
    case Invoking(_, _) => if b then 7 else 6
    case Finished(_) => |Pipeline(b)|
  }

  /** Whether the prompt belongs to this run's pipeline. */
  function Prompts(env: Answers): bool {
    env.behavior.Ok? && env.behavior.value.interactive
  }

  lemma StepOrder(flags: Flags, env: Answers, p: Phase, e: Event, q: Phase)
    requires Agrees(env, p) && !p.Finished? && Next(flags, p, e) == Some(q) && Consistent(env, e)
    ensures Offset(p, Prompts(env)) < |Pipeline(Prompts(env))|
    ensures StepOf(e) == Pipeline(Prompts(env))[Offset(p, Prompts(env))]
    ensures q.Finished? || Offset(q, Prompts(env)) == Offset(p, Prompts(env)) + 1
  {
  }

  lemma {:induction false} OrderFrom(flags: Flags, env: Answers, p: Phase, t: seq<Event>, q: Phase)
    requires Agrees(env, p) && Replay(flags, p, t) == Some(q)
    requires forall i :: 0 <= i < |t| ==> Consistent(env, t[i])
    ensures p.Finished? || Offset(p, Prompts(env)) + |t| <= |Pipeline(Prompts(env))|
    ensures forall i :: 0 <= i < |t| ==>
      Offset(p, Prompts(env)) + i < |Pipeline(Prompts(env))| &&
      StepOf(t[i]) == Pipeline(Prompts(env))[Offset(p, Prompts(env)) + i]
    decreases |t|
  {
    var b := Prompts(env);
    if p.Finished? {
      FinishedIsFinal(flags, p.outcome, t, q);
    } else if t != [] {
      var p' := Next(flags, p, t[0]).value;
      assert Consistent(env, t[0]);
      StepAgrees(flags, env, p, t[0], p');
      StepOrder(flags, env, p, t[0], p');
      if p'.Finished? {
        FinishedIsFinal(flags, p'.outcome, t[1..], q);
      } else {
        forall i | 0 <= i < |t[1..]| ensures Consistent(env, t[1..][i]) {
          assert t[1..][i] == t[i + 1];
        }
        OrderFrom(flags, env, p', t[1..], q);
        forall i | 0 <= i < |t|
          ensures Offset(p, b) + i < |Pipeline(b)| && StepOf(t[i]) == Pipeline(b)[Offset(p, b) + i]
        {
          if i > 0 {
            assert t[i] == t[1..][i - 1];
          }
        }
      }
    }
  }

  /**
   * The calls of every run follow the command's order: interactivity, the
   * preview behaviour, the stack, the project, the metadata, the prompt (only
   * for an interactive behaviour), the colorization and the engine, each at
   * most once; a run stops early only where a step fails or the prompt is
   * declined.
   */
  lemma PipelineOrder(flags: Flags, env: Answers, t: seq<Event>, q: Phase)
    requires Follows(flags, env, t, q)
    ensures |t| <= |Pipeline(Prompts(env))|
    ensures forall i :: 0 <= i < |t| ==> StepOf(t[i]) == Pipeline(Prompts(env))[i]
  {
    OrderFrom(flags, env, Start, t, q);
  }

  /** A run that reaches the engine has made every call of its pipeline. */
  lemma EngineRunIsComplete(flags: Flags, env: Answers, t: seq<Event>, q: Phase, i: int)
    requires Follows(flags, env, t, q)
    requires 0 <= i < |t| && t[i].Destroy?
    ensures |t| == |Pipeline(Prompts(env))| && i == |t| - 1
  {
    PipelineOrder(flags, env, t, q);
    EndingCallIsLast(flags, Start, t, q, i);
    assert StepOf(t[i]) == Engine;
  }

  /** The phases before the confirmation gate has been passed. */
  predicate BeforeGate(p: Phase) {
    p.Start? || p.Detected? || p.Resolved? || p.Located? || p.Loaded? || p.Gathered?
  }

  /** Past the gate, the engine is called with the stack and behaviour already resolved. */
  lemma {:induction false} PastGate(flags: Flags, p: Phase, t: seq<Event>, q: Phase, i: int)
    requires p.Confirmed? || p.Invoking?
    requires Replay(flags, p, t) == Some(q)
    requires 0 <= i < |t| && t[i].Destroy?
    ensures t[i].request.stack == p.setup.stack && t[i].request.behavior == p.setup.behavior
    decreases |t|
  {
    var p' := Next(flags, p, t[0]).value;
    if p.Confirmed? {
      PastGate(flags, p', t[1..], q, i - 1);
    } else if i > 0 {
      FinishedIsFinal(flags, Translate(t[0].result), t[1..], q);
    }
  }

  lemma {:induction false} GateFrom(flags: Flags, p: Phase, t: seq<Event>, q: Phase, i: int)
    requires BeforeGate(p)
    requires Replay(flags, p, t) == Some(q)
    requires 0 <= i < |t| && t[i].Destroy? && t[i].request.behavior.interactive
    ensures exists j :: 0 <= j < i && t[j] == ConfirmPrompt(t[i].request.stack.name, t[i].request.stack.name, true)
    decreases |t|
  {
    var p' := Next(flags, p, t[0]).value;
    if BeforeGate(p') {
      GateFrom(flags, p', t[1..], q, i - 1);
      var j :| 0 <= j < i - 1 && t[1..][j] == ConfirmPrompt(t[i].request.stack.name, t[i].request.stack.name, true);
      assert t[j + 1] == t[1..][j];
    } else if p'.Finished? {
      FinishedIsFinal(flags, p'.outcome, t[1..], q);
    } else {
      PastGate(flags, p', t[1..], q, i - 1);
      assert t[0] == ConfirmPrompt(t[i].request.stack.name, t[i].request.stack.name, true);
    }
  }

  /**
   * The confirmation gate: whenever the engine is called with an interactive
   * behaviour, the operator was prompted earlier with that stack's name as the
   * expected text, and accepted.
   */
  lemma ConfirmationGate(flags: Flags, t: seq<Event>, q: Phase, i: int)
    requires Replay(flags, Start, t) == Some(q)
    requires 0 <= i < |t| && t[i].Destroy? && t[i].request.behavior.interactive
    ensures exists j :: 0 <= j < i && t[j] == ConfirmPrompt(t[i].request.stack.name, t[i].request.stack.name, true)
  {
    GateFrom(flags, Start, t, q, i);
  }

  /** In every phase, the allowed call and the collaborators' answers fix the next event. */
  lemma NextDetermined(flags: Flags, env: Answers, p: Phase, e1: Event, e2: Event)
    requires Next(flags, p, e1).Some? && Next(flags, p, e2).Some?
    requires Consistent(env, e1) && Consistent(env, e2)
    ensures e1 == e2
  {
    if p.Invoking? {
      assert e1.request == e2.request;
    }
  }

  /** The call the command makes in phase `p`, with the collaborators' answer. */
  function NextCall(flags: Flags, env: Answers, p: Phase): Event
    requires !p.Finished?
  {
    match p
    case Start => IsInteractive(env.interactive)
    case Detected(i) => PreviewFlagsToBehavior(i, flags.preview, env.behavior)
    case Resolved(_, _) => RequireStack(flags.stack, false, env.stack)
    case Located(_, _, _) => ReadProject(env.workspace)
    case Loaded(_, _, _, w) => GetUpdateMetadata(flags.message, w.root, env.metadata)
    case Gathered(setup) =>
      if setup.behavior.interactive then ConfirmPrompt(setup.stack.name, setup.stack.name, env.confirmed)
      else Colorization(flags.color, env.colorization)
    case Confirmed(_) => Colorization(flags.color, env.colorization)
    case Invoking(setup, c) =>
      Destroy(
        DestroyRequest(
          setup.stack, setup.project, setup.root, setup.metadata,
          UpdateOptions(flags.analyzers, flags.parallel, flags.debug),
          setup.behavior,
          DisplayOptions(c, flags.showConfig, flags.showReplacementSteps, flags.showSames,
                         setup.interactive, flags.diff, flags.debug)),
        env.engine)
  }

  /** In every phase before the end, the flags and the collaborators' answers allow some next call. */
  lemma NextExists(flags: Flags, env: Answers, p: Phase)
    requires !p.Finished?
    ensures exists e :: Next(flags, p, e).Some? && Consistent(env, e)
  {
    var e := NextCall(flags, env, p);
    assert Next(flags, p, e).Some? && Consistent(env, e);
  }

  /**
   * The protocol leaves the command no choice: given the flags and the
   * collaborators' answers, there is exactly one complete run.
   */
  lemma {:induction false} TraceDetermined(flags: Flags, env: Answers, p: Phase, t1: seq<Event>, t2: seq<Event>, q1: Phase, q2: Phase)
    requires Replay(flags, p, t1) == Some(q1) && q1.Finished?
    requires Replay(flags, p, t2) == Some(q2) && q2.Finished?
    requires forall k :: 0 <= k < |t1| ==> Consistent(env, t1[k])
    requires forall k :: 0 <= k < |t2| ==> Consistent(env, t2[k])
    ensures t1 == t2 && q1 == q2
    decreases |t1|
  {
    if p.Finished? {
      FinishedIsFinal(flags, p.outcome, t1, q1);
      FinishedIsFinal(flags, p.outcome, t2, q2);
    } else {
      assert t1 != [] && t2 != [];
      NextDetermined(flags, env, p, t1[0], t2[0]);
      var p' := Next(flags, p, t1[0]).value;
      assert forall k :: 0 <= k < |t1[1..]| ==> t1[1..][k] == t1[k + 1];
      assert forall k :: 0 <= k < |t2[1..]| ==> t2[1..][k] == t2[k + 1];
      TraceDetermined(flags, env, p', t1[1..], t2[1..], q1, q2);
      assert t1 == [t1[0]] + t1[1..];
      assert t2 == [t2[0]] + t2[1..];
    }
  }
}
