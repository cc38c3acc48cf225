# FlowState verification

FlowState runs an ordered chain of actions per workflow, with durable retries, on two engines: a
NestJS/BullMQ processor and a Cloudflare Worker on D1 and Durable Objects. This project models the stateful
protocols around that chain, and proves what they keep over every run.

`dafny verify dfyconfig.toml` checks the whole project.

## How it is modelled

- **Engines** (`Chain`, `RunWorkflow`, `WorkflowProcessor`, `EngineEquivalence`). Each engine is a class with its
  database rows, and on the Worker also the platform's log of finished steps. Each statement, `batch` or transaction
  is one write. After every write the process may crash: `crashes` is an arbitrary number of crashes still to come,
  a crash drops the local variables and nothing else, and `exposed` keeps any two writes of a call from going without
  such a point between them. As `Valid()` holds when a crashed call returns, it holds after every single write of every
  run. The specification is a one-pass fold of the payload over the chain.
- **Concurrent protocols** (`RefreshRotation`, `AccountLinking`, `Ingress`, `AdmissionBound`). Any number of requests,
  each at a program point, interleaved statement by statement. A schedule is any list of steps, and a step that is not
  possible where it stands does nothing, so a lemma about `Run(schedule)` is about every interleaving. In each module
  a class runs the request handlers themselves against the same state, with arbitrary other steps between any two of
  their statements; and what a handler does when nothing comes between its statements is proved equal to one indivisible
  call.
- **Durable Objects** (`RateLimiter`, `OneTimeStore`, `Poller`). Classes with a clock and an alarm, proved against a
  plain counter, an expiring map, and a state machine, whatever their alarms do; bounds on what is stored assume
  alarms on time. A poller that dies in a tick gets its alarm again at any later time, or loses it for good.
- **Algorithms** (`Template`, `SecondPass`, `RunAction`, `PollChange`, `ActionOrder`, `Attempts`), each with an
  independent reference definition. `Json` and `Sets` hold what the others share.

Assumed throughout, because the code gives no guarantee otherwise: action ids are distinct, an action list does not
change during a run, one process at a time works on an execution, and generated ids are fresh.

## What the proofs found

- That completed steps are skipped (`worker/src/engine/run-workflow.ts:42-46`) fails at one point. A crash between the
  D1 batch that commits a step and the platform's log entry makes the replay run it once more, with its side effects.
  Every pass meets the exact condition: an action that had SUCCEEDED before it is executed again if and only if it was
  committed and not logged (`RunWorkflow.Run`, `RedoneExactly`), and `CommittedStepRunsAgain` is such a run. An
  executor is called for a step if and only if the step is not logged (`DoStep`), nothing with a held result is ever
  executed again over any number of replays (`Drive`), and `redone` counts the repetitions: never more than there were
  crashes. The NestJS engine commits no step twice: its SUCCEEDED rows are exactly one per step. An executor that
  answered before a crash and was not committed is called again by either engine.
- An execution that completes after a failed attempt keeps the error of that attempt on NestJS
  (`WorkflowProcessor.RunJob`), and has none on the Worker (`RunWorkflow.Run`).
- Two first sign-ins of the same Google account can end with one of them refused as `account_conflict`, although the
  user is its own (`AccountLinking.RefusedByItself`). A refusal is wrong if and only if, since the refused sign-in
  looked for its connection, another sign-in of the same account linked or created that very user
  (`WronglyRefusedIff`): never on the retry, and never when the sign-ins of one account do not overlap.
- A logout ends a session, for good, if its UPDATE changes a row; otherwise it changes nothing. So a session goes on
  after a logout with one of its tokens if and only if it was alive and that token already revoked
  (`RefreshRotation.LogoutEndsFamily`, `LogoutIsFinal`). A refresh racing with the logout does that in two ways: it has
  spent the token and stores the next one after the logout (`LogoutComesTooLate`), or it has stored it just before
  (`LogoutWithReplacedToken`).
- A refresh that dies between spending its token and storing the next one ends the session (`CrashEndsSession`), and a
  webhook whose process dies between storing its event and handing it to admission is never run, although every repeated
  delivery is answered as a duplicate (`Ingress.DroppedEventIsForgotten`).
- The documented ceiling of three runs in flight per workflow holds when admissions come one after another. When c of
  them race past the check, up to 2 + c runs are in flight, and no more (`AdmissionBound.InFlightBound`,
  `BoundIsReached`).
- A poller's schedule ends by itself if and only if the platform gives up the alarm of a tick that died
  (`Poller.DiesOnlyOfALostAlarm`). It then stays dead until it is started again, by the reconcile cron at the latest
  (`LostAlarmEndsIt`, `StartRevives`).
- `array_length` polling does not notice an item that replaces another (`PollChange.NewItemIsSeenIff`, an
  if-and-only-if; `ReplacedItemIsMissed` is the input).
- After any history of jobs, retries and crashes, the run page shows exactly the attempts that wrote rows if and only if
  no attempt that wrote rows came after one that was cut short between committing an action and starting the next
  (`WorkflowProcessor.RecoversEngineAttempts`); `CutAttemptsMerge` is a run in which it shows two attempts as one.
- Interpolation is not idempotent (`Template.SecondPassDiffers`). For a payload it is, on every template, if and only
  if no value it shows is, or could be part of, a placeholder that shows something other than its own text
  (`SecondPass.IdempotentIff`). For one template it is enough that this holds of the values it mentions, or, on sight,
  that they are not empty and without a left brace and the template has no two left braces next to each other outside
  its placeholders.

## Model

| member | source | states |
|---|---|---|
| RunWorkflow.RunWorkflow.Run | worker/src/engine/run-workflow.ts:49-80 | over any log that earlier, crashed passes left: a pass that finishes stores exactly the fold over the whole chain, one that crashes leaves rows and log from which the next resumes; of the actions that had succeeded it executes exactly the one that was committed and not logged, if there is one; a crash-free run on a fresh log writes no row for an action that had succeeded and at most three for any other, gives up if and only if some action failed three times, with that action's error, and does nothing if and only if the execution was cancelled |
| RunWorkflow.RunWorkflow.Drive | worker/src/engine/run-workflow.ts:38-80 | replaying after every crash ends, by the measure (crashes left, remaining work), in SUCCEEDED with the whole fold, FAILED, or with nothing to do for a CANCELLED execution; over all the replays together, no action whose result was held at the start is executed or gets a row, and every result gained was executed for |
| RunWorkflow.RunWorkflow.Load | worker/src/engine/run-workflow.ts:82-104 | the plan holds exactly the succeeded prefix of the chain and the payload that an uninterrupted run would have after it |
| RunWorkflow.RunWorkflow.RunStep | worker/src/engine/run-workflow.ts:107-134 | one attempt of the step that is due leaves one more row, FAILED with nothing else changed, or SUCCEEDED together with the checkpoint of the next payload; a crash after any write keeps the invariant |
| RunWorkflow.RunWorkflow.DoStep | worker/src/engine/run-workflow.ts:69-76 | an executor is called if and only if the step is not logged; a logged step leaves rows, clock and commits unchanged, and its saved payload is the fold up to it; otherwise up to three attempts, and the result is the fold including the step, or three FAILED rows, the last with the error it throws; it is called only when the action's sleep, if it has one, is logged |
| RunWorkflow.RunWorkflow.Walk | worker/src/engine/run-workflow.ts:56-77 | the loop executes no action whose result is held, leaves nothing it executed without a held result unless it crashes, and ends with the fold over the chain or at the action that failed |
| RunWorkflow.SleepsBeforeStep | worker/src/engine/run-workflow.ts:62-67 | a DELAY step with a positive time has its result logged only after its durable sleep, and no other action has a sleep |
| RunWorkflow.RedoneExactly | worker/src/engine/run-workflow.ts:42-46 | a pass that settled what it reached executes, of the actions committed before it, exactly those that were not logged: at most the one the log may lag behind |
| RunWorkflow.PassAndPass | worker/src/engine/run-workflow.ts:42-46 | passes compose: what one holds, no later one executes again |
| RunWorkflow.CommittedStepRunsAgain | worker/src/engine/run-workflow.ts:121-132 | a run in which a step is executed twice and has two SUCCEEDED rows, the process having died between its commit and its log entry |
| RunWorkflow.LogAgreesAfterCommit | worker/src/engine/run-workflow.ts:124-132 | committing a step that is not logged yet, for the first time or again, leaves log and plan right |
| RunWorkflow.LogAgreesAfterLogging | worker/src/engine/run-workflow.ts:70-72 | the log catches up with the one commit it may lag behind |
| RunWorkflow.RunWorkflow.AdminRetry | worker/src/engine/run-workflow.ts:58-60 | a new instance with an empty log starts at the committed prefix: all of it counts as held, which `Run` neither executes nor writes a row for |
| Chain.FoldIsOnePass | worker/src/engine/run-workflow.ts:56-77 | when an enrichment is a function of action and payload, the checkpointed fold is the plain one-pass meaning of the chain |
| Chain.ResumesExactly | backend/src/executions/workflow.processor.ts:56-64 | reading the rows back gives exactly the payload the next unfinished step is due, and the first attempt is told from a resumed one by the rows |
| Chain.CommitKeepsCheckpoint | backend/src/executions/workflow.processor.ts:120-137 | marking the due step SUCCEEDED together with its checkpoint keeps: succeeded actions are a prefix, output is the fold over it, every row records the payload its step was due |
| Chain.StartKeepsCheckpoint | worker/src/repo/executions.ts:190-199 | starting the due step keeps that invariant |
| Chain.FailKeepsCheckpoint | worker/src/repo/executions.ts:201-216 | failing a step keeps it too |
| WorkflowProcessor.WorkflowProcessor.Process | backend/src/executions/workflow.processor.ts:36-183 | from any point earlier attempts were cut short at, an attempt resumes at the first unfinished step with the fold over the finished ones; it starts consecutive actions up to the end, the failing one, or where it was cut short, and the history records which; if it completes, the execution is SUCCEEDED with the whole fold and otherwise as it was; if it throws, its last row is that of the failed action with the error it throws and stores; only a crash cuts it short between committing an action and starting the next |
| WorkflowProcessor.WorkflowProcessor.RunSteps | backend/src/executions/workflow.processor.ts:67-138 | the loop keeps: the SUCCEEDED rows are the prefix of the chain in order, one row each |
| WorkflowProcessor.WorkflowProcessor.OnFailed | backend/src/executions/workflow.processor.ts:205-240 | marks the execution FAILED exactly when no attempt is left and it is not FAILED already |
| WorkflowProcessor.WorkflowProcessor.RunJob | backend/src/events/triggered.listener.ts:114-124 | the job ends, given up after exactly its number of attempts that failed and not before, crashes not counted; an execution that completes after a failed attempt keeps that attempt's error; three attempts over n unfinished actions write at most n + 2 step rows and one for each crash; without crashes none of its attempts is cut short, after an admin retry or not |
| Attempts.OverlapIff | frontend/src/views/executions/ExecutionDetailPage.tsx:164-169 | over any history, each attempt that wrote rows starts with an action the one before has a row of, if and only if none that wrote rows came after one cut short between committing an action and starting the next |
| WorkflowProcessor.RecoversEngineAttempts | frontend/src/views/executions/ExecutionDetailPage.tsx:164-190 | from the rows of an execution after any history, in start order, the run page recovers exactly the attempts that wrote them, if and only if no such cut was lost |
| WorkflowProcessor.HistoryOnThePage | frontend/src/views/executions/ExecutionDetailPage.tsx:164-190 | engine and run page together: from a new execution, through any jobs, attempts and admin retries with crashes anywhere, to that same condition |
| WorkflowProcessor.CutAttemptsMerge | frontend/src/views/executions/ExecutionDetailPage.tsx:164-190 | a run of the engine with two attempts, the first cut short after its commit, that the run page shows as one |
| EngineEquivalence.EnginesAgree | worker/src/engine/run-workflow.ts:94-132 | any two histories ending SUCCEEDED, one per engine, with any failures, crashes and admin retries, store the same payload, the one-pass fold |
| EngineEquivalence.SucceededStoresOnePass | backend/src/executions/workflow.processor.ts:140-148 | a SUCCEEDED execution of either engine stores the one-pass result |
| EngineEquivalence.RunKeepsInput | worker/src/engine/run-workflow.ts:92-94 | in both engines, at any time: the first action gets the trigger's payload (`{}` for null); every action, and the output, has all its members unchanged and no other but perhaps `http`; without an HTTP step the output is the payload itself |
| EngineEquivalence.NestKeepsInput | backend/src/executions/workflow.processor.ts:56-64 | that, after any history of the NestJS engine |
| EngineEquivalence.WorkerKeepsInput | worker/src/engine/run-workflow.ts:92-94 | that, after any history of the Worker |
| EngineEquivalence.OnlyHttpChanges | backend/src/actions/executors/http-request.executor.ts:41-51 | without an HTTP step the payload is the trigger's; otherwise every member but `http` is, and `http` is the status and body of an ok response to the last HTTP step's request, its templates resolved against the payload that step was due |
| RunAction.ResultDependsOnMentionedPaths | backend/src/actions/run-action.ts:34-63 | templates are resolved before any executor runs: an action's result depends on the payload only at the paths its config mentions |
| RunAction.OnlyHttpEnriches | backend/src/actions/run-action.ts:21-63 | of all registered executors only HTTP_REQUEST enriches the payload, and only with `http`, the ok response to the request with its templates resolved: an object of exactly `status`, the reply's status as a number, and `body`, its body |
| RunAction.ActionOutcome | backend/src/actions/run-action.ts:21-63 | for each type of action, exactly when it succeeds and with what error it fails, by what the outside answers to the resolved config; an unknown type or a throwing executor is a failure |
| RefreshRotation.AtMostOneClaim | worker/src/auth/session.ts:82-106 | after any interleaving of refreshes, logouts and crashes, each session family has at most one live token or one refresh about to store one, counted together, and it is the end of the rotation chain |
| RefreshRotation.OneWinner | worker/src/repo/auth.ts:39-49 | of refreshes racing on one token, at most one gets past the conditional revoke |
| RefreshRotation.FamiliesPartition | worker/src/repo/auth.ts:51-54 | replacement links are acyclic, and every token descends from exactly one sign-in |
| RefreshRotation.OneUser | worker/src/auth/session.ts:101-102 | every token of a session belongs to the user who signed in |
| RefreshRotation.SignInIssues | worker/src/repo/auth.ts:13-21 | a sign-in adds one live token of its user and lifetime |
| RefreshRotation.UndisturbedRefresh | worker/src/auth/session.ts:82-106 | with nothing between its statements a refresh is refused without effect unless the token exists, matches, and is neither revoked nor expired; then exactly that token is revoked and replaced by a live one of the same user |
| RefreshRotation.ExpiredIsRefused | worker/src/auth/session.ts:85-92 | once its lifetime has passed a token is refused, and an unrevoked one before that is not |
| RefreshRotation.NothingIsUndone | worker/src/auth/session.ts:85-92 | revocations, links, owners and lifetimes are final: a revoked token is refused for good |
| RefreshRotation.LogoutEndsFamily | worker/src/auth/session.ts:108-114 | after a logout with any token of a session, current or replaced, the session is alive if and only if it was before and the UPDATE changed no row; with the current token, if and only if a refresh has won it and not yet stored the next |
| RefreshRotation.LogoutSparesOthers | worker/src/repo/auth.ts:44-49 | a logout leaves every session that the token does not belong to as it was |
| RefreshRotation.ClaimlessForever | worker/src/auth/session.ts:82-106 | a family with no live token and no refresh about to store one never gets either again, whatever comes |
| RefreshRotation.LogoutIsFinal | worker/src/auth/session.ts:108-114 | so a logout with any token that is live by then ends the session for good |
| RefreshRotation.CrashEndsSession | worker/src/auth/session.ts:94-102 | a refresh that dies between spending its token and storing the next one ends the session for good |
| RefreshRotation.LogoutComesTooLate | worker/src/auth/session.ts:96-114 | a run in which a refresh, having won the token, stores a live one after the logout |
| RefreshRotation.LogoutWithReplacedToken | worker/src/auth/session.ts:96-114 | a run in which the logout presents a token already replaced, no refresh is pending, and the replacement stays live |
| RefreshRotation.SessionDb.RefreshSession | worker/src/auth/session.ts:82-106 | with others between its statements: it returns a token only for one that matched and was usable when read; the returned one belongs to the same user, lasts for the given time, is live, and replaces the presented, revoked one; it is refused only for a token that was unknown, wrong, revoked or expired |
| RefreshRotation.SessionDb.EndSession | worker/src/auth/session.ts:108-114 | refused for another user's token without effect; otherwise exactly the token, if there is one, is revoked |
| AccountLinking.RetryNeverViolates | worker/src/auth/google.ts:202-228 | two attempts suffice: no sign-in meets a second unique violation |
| AccountLinking.SameUserForever | worker/src/auth/google.ts:204-208 | every successful sign-in of one Google account, now or later, returns the same user |
| AccountLinking.AccountsAreConsistent | worker/migrations/0001_initial.sql:37-38 | each user has at most one Google account and each account one user, and no sign-in creates a user without one |
| AccountLinking.WronglyRefusedIff | worker/src/auth/google.ts:204-213 | a refused sign-in meets a user not tied to a different account if and only if, between its look for its connection and the refusal, another sign-in of its account linked or created that user |
| AccountLinking.RetryIsRightlyRefused | worker/src/auth/google.ts:202-213 | on the second attempt, a sign-in that finds no connection is refused, and always for a user tied to a different account |
| AccountLinking.AloneIsRightlyRefused | worker/src/auth/google.ts:204-213 | a sign-in during which no other sign-in of its account makes a statement is refused only for a user tied to a different account |
| AccountLinking.UndisturbedSignIn | worker/src/auth/google.ts:202-224 | with nothing between its statements a sign-in gets the user its account is connected to, else links the user of its email unless that has a Google account, which is refused, else creates user and connection together; and changes nothing else |
| AccountLinking.CrashEndsSignIn | worker/src/auth/google.ts:202-224 | a sign-in that dies leaves the tables as they are |
| AccountLinking.RefusedByItself | worker/src/auth/google.ts:210-213 | a run of two first sign-ins of one account in which one is refused by the other's success |
| AccountLinking.AccountDb.UpsertUser | worker/src/auth/google.ts:183-229 | with others between its statements it ends signed in as the user its account is connected to, or in a conflict, never in a unique violation; an account connected from the start always gets its user, and only a user that has a Google account is refused |
| Ingress.OneDeliveryStores | worker/src/routes/public.ts:60-76 | of all interleaved deliveries with one workflow and key, exactly one stored the event, and every other that was answered was told its id |
| Ingress.AtMostOneRun | worker/src/routes/public.ts:75-76 | an event is handed to admission at most once and starts at most one run |
| Ingress.UndisturbedWebhook | worker/src/routes/public.ts:60-76 | with nothing between its statements, a known key is answered with its event and nothing changes; a new one is stored RECEIVED and handed to one new admission of its workflow |
| Ingress.UndisturbedAdmission | worker/src/engine/admission.ts:26-62 | with nothing between its statements, an admission is one call that skips an inactive workflow, one with three runs in flight, and a user with a hundred calls in the hour, and else stores a PENDING run; it marks its event with the outcome, and a run that cannot be started ends FAILED |
| Ingress.CrashEndsAdmission | worker/src/engine/admission.ts:26-62 | an admission that dies makes no further statement, and what it wrote stays |
| Ingress.DroppedEventIsForgotten | worker/src/routes/public.ts:66-76 | if the process dies between storing an event and handing it over, the event stays RECEIVED and no run is ever started for it |
| Ingress.StatusTells | worker/src/engine/admission.ts:26-62 | an event stays RECEIVED until its admission marks it, is PROCESSED only with exactly one run, and SKIPPED only with none |
| Ingress.HourlyBound | worker/src/engine/admission.ts:36-39 | the calls of consume of one user in one hour start at most 100 runs |
| Ingress.FreshHour | worker/src/durable/rate-limiter.ts:19-27 | with each hour the count starts again for every user, and nothing else changes |
| Ingress.PausedIsSkipped | worker/src/engine/admission.ts:26-31 | admissions of a paused workflow are skipped, and pausing changes nothing else |
| Ingress.IngressDb.Webhook | worker/src/routes/public.ts:60-76 | with others between its statements the handler answers the stored event's id, as a duplicate if and only if another delivery stored it |
| Ingress.IngressDb.Admit | worker/src/engine/admission.ts:26-62 | with others between its statements admission ends with an outcome that its event, if marked, and its run agree with; a run whose instance could not be started ends FAILED |
| AdmissionBound.InFlightBound | worker/src/engine/admission.ts:32-46 | runs in flight and admissions past the check are together at most 2 + C, with C the most admissions past the check at once |
| AdmissionBound.SerialAdmissionsKeepTheCeiling | backend/src/common/limits.ts:6-10 | at most three runs are in flight when admissions for the workflow are serialised |
| AdmissionBound.BoundIsReached | worker/src/engine/admission.ts:32-46 | the bound is exact: for every C the hourly limit leaves room for, a schedule puts 2 + C runs in flight |
| RateLimiter.RateLimiter.Consume | worker/src/durable/rate-limiter.ts:19-27 | answers the exact number of calls in the current hour, whatever the alarms did; stored buckets imply an alarm, and are at most two while alarms are on time |
| RateLimiter.RateLimiter.Used | worker/src/durable/rate-limiter.ts:29-31 | the exact number of calls in the current hour |
| RateLimiter.RateLimiter.Alarm | worker/src/durable/rate-limiter.ts:34-41 | forgets exactly the other hours, keeps every count right, and stays armed if and only if a bucket is left |
| RateLimiter.AllowsUpToTheLimit | worker/src/durable/rate-limiter.ts:26-26 | each hour allows exactly its calls up to the limit |
| RateLimiter.ClockAdvances | worker/src/durable/rate-limiter.ts:6-6 | under a monotone clock a missing bucket always means no calls |
| RateLimiter.TwoBuckets | worker/src/durable/rate-limiter.ts:33-41 | buckets within an alarm's interval are at most two |
| OneTimeStore.OneTimeStore.Take | worker/src/durable/one-time-store.ts:30-35 | answers what the history of puts and takes alone calls for: the last put not taken since, before its expiry |
| OneTimeStore.OneTimeStore.Put | worker/src/durable/one-time-store.ts:21-27 | adds its value to the history, keeps an alarm set, and does not move one |
| OneTimeStore.OneTimeStore.Alarm | worker/src/durable/one-time-store.ts:38-44 | drops exactly the expired entries; no later take changes |
| OneTimeStore.TakenOnce | worker/src/durable/one-time-store.ts:29-35 | no two takes answer from the same put |
| OneTimeStore.AnswerIs | worker/src/durable/one-time-store.ts:30-35 | that answer is the value of the last put of the key, if nothing was done to the key since and its time has not passed |
| OneTimeStore.RefinesAfterPurge | worker/src/durable/one-time-store.ts:37-44 | purging what has expired keeps the store a refinement of its history |
| OneTimeStore.OneTimeStore.GoneInTime | worker/src/durable/one-time-store.ts:37-44 | with alarms on time, an entry is not stored for more than an hour past its expiry |
| Poller.StopIsFinal | worker/src/durable/poller.ts:34-60 | once stopped and until started again, no poll begins, and at most one alarm goes off, none unless a tick was in flight |
| Poller.OneMoreAlarm | worker/src/durable/poller.ts:55-57 | that one alarm does happen |
| Poller.DiesOnlyOfALostAlarm | worker/src/durable/poller.ts:43-59 | whatever polls fail and ticks die, and whenever starts and stops come: a poller with a config is neither armed nor in a tick if and only if, since the last start or stop, the platform gave up the alarm of a tick that died |
| Poller.ScheduleNeverDies | worker/src/durable/poller.ts:43-59 | while the platform gives up no alarm, a poller with a config is armed or in a tick |
| Poller.StartRevives | worker/src/engine/polling.ts:72-87 | after any losses, the next start, such as the reconcile cron's, arms the poller, and it goes on |
| Poller.LostAlarmEndsIt | worker/src/durable/poller.ts:43-59 | a run in which a tick dies, its alarm is given up, and the poller stays dead with its config stored |
| Poller.Poller.Start | worker/src/durable/poller.ts:24-32 | stores the config, and does not move an armed alarm unless the interval changed |
| Poller.Poller.Alarm | worker/src/durable/poller.ts:39-60 | with starts and stops during the poll: armed afterwards, at the interval the tick began with, unless there was no config or polling must stop |
| Poller.OnePassStabilises | worker/src/engine/polling.ts:78-87 | from any state with no tick in flight, one reconcile and one tick arm a poller if and only if its trigger is active, and its config valid or already in use, due one interval after the tick |
| Poller.Pollers.Stabilise | worker/src/engine/polling.ts:72-87 | with valid configs the armed pollers are exactly the enabled SCHEDULED triggers of ACTIVE workflows |
| Poller.Pollers.SyncTriggerPoller | worker/src/engine/polling.ts:57-65 | brings one poller in line at once, leaves all others alone, and throws without effect if and only if the active trigger's config is refused |
| PollChange.FiresOncePerChange | backend/src/scheduler/poll-change.ts:62-108 | `any` and `specific_field` fire exactly once per change between adjacent successful bodies, in order |
| PollChange.DeliversAdded | backend/src/scheduler/poll-change.ts:73-113 | over append-only histories `array_length` delivers, over all ticks, exactly the final array without the baseline, in order; a subsequence of it if ticks die |
| PollChange.DeliversAtMostOnce | worker/src/engine/polling.ts:36-45 | even if ticks die, no item is delivered more often than it was added |
| PollChange.NewItemIsSeenIff | backend/src/scheduler/poll-change.ts:97-113 | a new item starts a run if and only if the array's length has changed |
| PollChange.ReplacedItemIsMissed | backend/src/scheduler/poll-change.ts:97-113 | the input: one item replaced by another starts no run |
| PollChange.FieldPollFires | backend/src/scheduler/poll-change.ts:121-136 | `specific_field` fires, once and with the whole body, exactly if the named field has another text, or came or went |
| PollChange.AnyPollFires | backend/src/scheduler/poll-change.ts:62-95 | `any` fires, once and with the whole body, exactly if the body has another text |
| PollChange.ArrayPollFires | backend/src/scheduler/poll-change.ts:97-113 | `array_length` fires exactly if the length is another one, for each item whose text was not there before as often as it is there now, in order |
| PollChange.ArrayOfField | backend/src/scheduler/poll-change.ts:114-136 | its array is the one in the named field, or the body itself; anything else counts as empty |
| PollChange.PolledTrigger.PollOnce | worker/src/engine/polling.ts:20-49 | one tick, also one that dies between the state write and the last admission, is one step of that history |
| Template.ScanIsLeftmost | backend/src/common/utils/template.util.ts:1-18 | the linear scanner finds the leftmost, non-overlapping matches of the placeholder pattern |
| Template.LeftmostIsUnique | backend/src/common/utils/template.util.ts:1-18 | there is only one such cutting |
| Template.MatchAtIsThePattern | backend/src/common/utils/template.util.ts:1-1 | greedy matching decides the pattern, both ways |
| Template.LeftmostText | backend/src/common/utils/template.util.ts:14-17 | the segments concatenate back to the template |
| Template.ResolveMember | backend/src/common/utils/template.util.ts:53-60 | a path of any length resolves to the named member of what the path before its last dot resolves to, and to nothing if that is null or missing |
| Template.ResolveRoot | backend/src/common/utils/template.util.ts:53-60 | a path of one name resolves only if it is `payload`, to the payload |
| Template.PlaceholderShows | backend/src/common/utils/template.util.ts:62-83 | strings are shown as they are, numbers and booleans by their text, objects and arrays as JSON; null or nothing leaves the placeholder |
| Json.ArrayMembers | backend/src/common/utils/template.util.ts:53-60 | an array has its indices, in decimal, and `length`, and no other member |
| Json.StringMembers | backend/src/common/utils/template.util.ts:53-60 | a string has those of its characters |
| Template.InterpolateDependsOnMentionedPaths | backend/src/common/utils/template.util.ts:10-18 | the result depends on the payload only at mentioned paths |
| Template.ConfigDependsOnMentionedPaths | backend/src/common/utils/template.util.ts:26-51 | the same of a whole config, over all strings in it |
| Template.UnresolvedTemplateIsUnchanged | backend/src/common/utils/template.util.ts:3-9 | a template none of whose paths resolves is left as it is |
| Template.InsertedTextIsNotRescanned | backend/src/common/utils/template.util.ts:14-17 | inserted values are not read again and do not join their surroundings |
| Template.SecondPassDiffers | backend/src/common/utils/template.util.ts:10-18 | a second pass can change the result |
| SecondPass.IdempotentIff | backend/src/common/utils/template.util.ts:10-18 | for a payload, interpolating twice is interpolating once on every template, if and only if no value it shows is, or could be part of, a placeholder that shows something other than its own text |
| SecondPass.SecondPassIsIdentity | backend/src/common/utils/template.util.ts:10-18 | for one template it is enough that this holds of the values of its own paths; placeholders it leaves unresolved do not matter |
| SecondPass.PlainSecondPass | backend/src/common/utils/template.util.ts:1-18 | on sight: if what a template shows is not empty and has no left brace, and no two left braces stand together outside its placeholders, a second pass changes nothing |
| SecondPass.InterpolateIsOnce | backend/src/common/utils/template.util.ts:14-17 | scanning with offsets and rendering is rewriting the text suffix by suffix |
| Template.ConfigShapeIsKept | backend/src/common/utils/template.util.ts:26-51 | at every path a config keeps its shape, its member names and every leaf that is not a string; strings are interpolated |
| ActionOrder.ActionsService.Reorder | backend/src/workflows/actions/actions.service.ts:92-131 | accepted if and only if the submitted ids are all and only the workflow's actions; then every listing is the submitted ids without repetitions, the last of each kept, and positions are distinct; refused, it names the first foreign id or the counts and changes nothing |
| ActionOrder.ReorderedListing | worker/src/repo/workflows.ts:295-303 | the one listing after the batch is the submitted ids, last occurrences kept |
| ActionOrder.KeepLastIsInOrder | backend/src/workflows/actions/actions.service.ts:120-127 | that list has the same members, once each, ordered by last occurrence |
| ActionOrder.OneListing | worker/src/repo/workflows.ts:236-242 | with distinct positions the listing is unique |
| ActionOrder.ActionsService.Create | backend/src/workflows/actions/actions.service.ts:19-41 | without a position, the new action is listed last after any listing there was |
| ActionOrder.CreatedIsLast | worker/src/repo/workflows.ts:252-272 | one past the highest position means the end of every listing |
| Attempts.GroupIntoAttempts | frontend/src/views/executions/ExecutionDetailPage.tsx:170-190 | for any rows, the groups concatenate to the stably sorted rows, with distinct actions in each group, and each group but the first begins with an action of the one before |
| Attempts.GroupingIsUnique | frontend/src/views/executions/ExecutionDetailPage.tsx:164-169 | there is only one such cutting |
| Attempts.RecoversIff | frontend/src/views/executions/ExecutionDetailPage.tsx:170-190 | from rows in start order that attempts of distinct actions wrote, it recovers exactly those attempts if and only if each overlaps the one before |
| Attempts.StableSortIsStable | frontend/src/views/executions/ExecutionDetailPage.tsx:171-175 | rows with equal start times keep their order |
| Attempts.StableSortOrders | frontend/src/views/executions/ExecutionDetailPage.tsx:171-175 | rows without a start time come first, the others by start time |

## Left out

- The order of members in JSON objects, integer-like member names sorting first, and prototype members such as `__proto__` in templates and configs: objects are maps of their own members.
- Time stamps, durations, audit logs, serialisers, step outputs shown on the run page, and other columns that nothing here depends on.
- Delay timing, and configurations of DELAY whose seconds are not a number: a sleep is durable or a wait, no more.
- Network and platform calls (HTTP, e-mail, Telegram, token exchange, signing, hashing): parameters that may succeed or fail, with the result of the HTTP step as data.
- Executions whose row does not exist, and deletions of users, workflows or triggers while requests about them are under way.
- Cancelling a run that is under way, which reads and then writes in both runtimes.
- Admin retry of a run that has not ended, and a second holder of the same execution, which the routes do not exclude; in the models a retry may come whenever no call of the engine is under way.
- Edits of the action list during a run.
- A database statement that throws while the process lives, and the two-minute time-out of a Worker step: either makes an attempt fail without a FAILED row. That a run gives up exactly when some action has three FAILED rows assumes neither happens.
- The limit of 50 subrequests per invocation, which lets one run of the reconcile cron reach about 49 pollers.
- Changes to a workflow's actions between the check of a reorder and its transaction: check and writes are one step here. A `create` in between, with an id submitted twice, can leave two actions at one position.
- BullMQ internals: locks, stalled jobs and back-off; an attempt that crashed is made again and not counted as a failed one.
- RunWorkflow.RunWorkflow.Run: the bound of three rows per action is for a pass on a fresh log; the attempts a platform counts across the crash of a step are not modelled, so a replay starts counting again.
- Refresh on the NestJS backend, which does not settle two racing refreshes.
- The NestJS in-flight check, for which a run waiting for its retry is not in flight.
- Events without an idempotency key, which manual fires store: their admissions are modelled as admissions without an event.
- The checks of a webhook before its key is looked up (workflow active, trigger type, signature, JSON syntax): they only refuse.
- A stale poll state that a tick in flight writes after its poller was stopped.
- The endpoint fetch and the JSONPath library: a poll has a body or fails, and extraction by path is an arbitrary function.
- Changing the mode or the key of a polling trigger between two polls, in the theorems about histories; a single evaluation is modelled for any stored state.
- Poll intervals that are not whole seconds.
- How often the platform delivers a failing alarm again before it gives it up: any number of times.
- Creating two actions at once without positions, and moving one action by `update`: positions may then be equal, and the database lists equal positions in any order.
- The single-flight refresh of the web client, and all other user interface code.
- Ordering of time stamps as text: start times are numbers.
