# The `destroy` command of the Pulumi CLI

This project models `pulumi destroy`, the command that deletes an existing stack and all of its resources (`cmd/destroy.go`). When it runs, the command does the following:

1. It asks whether the terminal is interactive.
2. It turns the `--preview` flag into a preview behaviour.
3. It looks up the stack named by `--stack`, without creating it.
4. It reads the project and its root directory.
5. It gathers the update metadata for that root. A failure here is wrapped with the context "gathering environment metadata".
6. If the behaviour is interactive, it asks the operator to confirm by typing the stack's name. Declining ends the command with "confirmation declined".
7. It hands everything to the stack's `Destroy` engine call. The engine gets the update options, the behaviour and the display options.
8. An engine result of exactly `context.Canceled` becomes "destroy cancelled". Every other result, including success, is returned unchanged.

The collaborators are the interactivity check, the preview resolver, the stack backend, the project reader, the metadata gatherer, the prompt, the colorizer and the engine. They are not modelled. What each of them answers in one invocation is a parameter, the `Answers` record (module `Collaborators`).

The model has four parts:

- **`DestroyCmd.Run`** is the command body. It is written as imperative code with the source's early returns. It returns the command's result together with a trace: each collaborator call is an `Event` holding its arguments and the answer it got.
- **Module `Protocol`** is the reference definition the command is checked against. It defines `Next`, a transition system over the phases `Start`, `Detected`, `Resolved`, `Located`, `Loaded`, `Gathered`, `Confirmed`, `Invoking` and `Finished`. For each phase, `Next` says which call may come next, with which arguments, and where it leads. `Replay` runs a whole trace through `Next`.
- **The contract of `Run`** states two things. First, its trace is a complete accepted run of the protocol whose answers are the collaborators' (`Follows`). Second, it gives the result and the number of calls for each way the command can end.
- **Module `RunProperties`** proves facts about every run the protocol accepts, and therefore about `Run`:
  - how a run ends;
  - which flags and which earlier answers each call receives;
  - the order of the calls;
  - the confirmation gate;
  - that the flags and the answers fix the run completely.

## Model

| member | source | states |
|---|---|---|
| DestroyCmd.Run | cmd/destroy.go:47-98 | The trace is a complete run of the protocol in which every call received the collaborators' answer, and the result is the run's final outcome. If the preview behaviour, the stack or the project fails, the command returns that step's own error after 2, 3 or 4 calls. A metadata failure comes back wrapped with "gathering environment metadata" after 5 calls. With an interactive behaviour, declining ends with "confirmation declined" after 6 calls and the engine is never called; confirming leads to the engine after 8 calls. A non-interactive behaviour reaches the engine after 7 calls without prompting. In both engine cases the result is the engine's result put through `Translate`. |
| DestroyCmd.ConfirmAndDestroy | cmd/destroy.go:68-97 | Starting from a run that has gathered its metadata, it finishes the run. An interactive behaviour prompts once: a decline ends with "confirmation declined" and no further call, and a confirmation is followed by the colorization and the engine. A non-interactive behaviour skips the prompt. The result is the translated engine result. |
| Protocol.Translate | cmd/destroy.go:94-97 | Exactly a `context.Canceled` result becomes "destroy cancelled". Every other result, a wrapped cancellation included, passes unchanged. The result is never the raw cancellation, and it is a success exactly when the engine succeeded. |
| RunProperties.EndingCallIsLast | cmd/destroy.go:49-97 | A call that ends the command is the last call of the run, and the run's result is that call's verdict. The ending calls are a failing step, a declined prompt or the engine. The verdicts are the step's error, the metadata error wrapped, "confirmation declined", or the translated engine result. So the engine is called at most once, and nothing follows an early return. |
| RunProperties.RunEndsWithVerdict | cmd/destroy.go:49-97 | Conversely, every finished run ends with a call whose verdict is the run's result. |
| RunProperties.SuccessOnlyFromEngine | cmd/destroy.go:75-97 | A run succeeds only if its last call is the engine, the engine reported success, and the collaborator's engine answer is success. |
| RunProperties.ArgumentsFromFlags | cmd/destroy.go:49-91 | In every run, each call receives its flag-derived arguments from the flags: the preview resolver gets `--preview`; the stack lookup gets `--stack` with creation off; the metadata gatherer gets `--message`; the colorizer gets `--color`; the engine gets the update options built from `--analyzer`, `--parallel` and `--debug`, the show-config, show-replacement-steps, show-sames and diff display flags, and the same debug value in both option sets. |
| RunProperties.DefaultRequest | cmd/destroy.go:101-135 | With every flag at its default, an engine call has no analyzers, parallelism 0 and debug off. It has every display switch off, and its colour is the colorizer's answer. |
| RunProperties.CallsSeeAnswers | cmd/destroy.go:48-91 | In every run, each call receives the earlier answers. The interactivity answer reaches the preview resolver and the display options. The project root reaches the metadata gatherer. The prompt takes place only for a resolved interactive behaviour, and names the resolved stack both in its warning and as the text to type. The engine is reached only when every step before the gate has succeeded. It receives the resolved stack, project, root, metadata, behaviour and colorization. |
| RunProperties.NoPromptWithoutInteraction | cmd/destroy.go:68-73 | A resolved non-interactive behaviour never prompts. |
| RunProperties.PipelineOrder | cmd/destroy.go:47-98 | Every run's calls are a prefix of the fixed pipeline, each call at most once. The pipeline is: interactivity, preview behaviour, stack, project, metadata, the prompt (only for an interactive behaviour), colorization, and the engine. |
| RunProperties.EngineRunIsComplete | cmd/destroy.go:47-98 | A run that reaches the engine has made every call of its pipeline, and the engine call is the last. |
| RunProperties.ConfirmationGate | cmd/destroy.go:68-75 | Whenever the engine is called with an interactive behaviour, there was an earlier prompt. That prompt named the engine's stack as the expected text, and the operator accepted it. This holds for every accepted trace, whatever the answers. |
| RunProperties.NextDetermined | cmd/destroy.go:47-98 | In each phase, the flags and the collaborators' answers allow at most one next call. |
| RunProperties.NextExists | cmd/destroy.go:47-98 | In each phase before the command has returned, the flags and the collaborators' answers allow some next call. Together with `NextDetermined`, exactly one call is allowed before the end, and none once `Finished`. |
| RunProperties.TraceDetermined | cmd/destroy.go:47-98 | Given the flags and the collaborators' answers, there is exactly one complete run and one outcome. |
| RunProperties.FinishedIsFinal | cmd/destroy.go:50-97 | Once the command has returned, no further call is accepted. |

## Left out

- The cobra command object is not modelled: its usage text, the flag parsing, the `NoArgs` positional check and `RunFunc`'s exit-code handling. The flags arrive already parsed, as `DestroyFlags.Flags`. `DestroyFlags.Defaults` holds the defaults the flag registrations give.
- `nonInteractive` is registered (cmd/destroy.go:135), but the closure never reads the variable. The closure passes the cobra command to `isInteractive(cmd)` (cmd/destroy.go:48), and the code shown does not say whether `isInteractive` checks the registered flag. Any effect the flag has is therefore folded into the `interactive` answer.
- The collaborators' internals are not modelled:
  - how `isInteractive` inspects the terminal;
  - how `previewFlagsToBehavior` maps strings to policies and decides `Interactive()`;
  - stack lookup in the backend, project loading and metadata collection.

  Their answers are parameters.
- The confirmation prompt's message formatting and its string comparison are not modelled. The prompt is recorded by the stack name it warns about and the stack name it expects. The operator's answer is a boolean.
- The color flag's own type is not modelled. `Flags.color` is its raw value, `""` in `Defaults` stands in for the zero value of `colorFlag`, and what `Colorization()` returns is the colorizer's answer.
- What a parallelism of 1 or less means (serial execution) is not modelled, because the engine interprets that value. The command only passes it through, and the model proves that it does.
- The engine's internals are not modelled, nor are `cancellationScopes`, concurrency inside the engine, or how a cancellation arises. The engine is one blocking call with one outcome, and a cancellation is the outcome `Failure(ContextCanceled)`.
- Error values are reduced to a cancellation sentinel, an opaque error with a message, and a wrapped error. Stack traces and formatting are not modelled.
