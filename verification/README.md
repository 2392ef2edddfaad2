# fastify-awilix lifecycle orchestration, modelled in Dafny

This project models the core of the `@fastify/awilix` plugin. The plugin wires an
awilix dependency-injection container into a Fastify server. It has two parts:

- **Option resolution.** The plugin takes the options object the caller
  registers it with. It either rejects the registration with a configuration
  error, or decides three things: which container is used, which flags go to
  the lifecycle manager (`awilix-manager`), and which host hooks are installed.
- **Lifecycle orchestration.** The installed hooks react to host events:
  server ready, request start, response sent and server close. They perform
  abstract actions: create or dispose a request scope, run the manager's init,
  run its disposer sweep, and dispose the root container.

Two variants are modelled:

- The current plugin, in `lib/fastifyAwilixPlugin.js`. It has nullish
  defaults, a container/injection-mode conflict check, and a choice between
  the PROXY and CLASSIC roots.
- The legacy plugin, in `lib/classic/index.js`. It passes the flags through,
  gates the init hook on raw truthiness, and always uses its own module's
  CLASSIC root. That root is a different object from the current plugin's
  CLASSIC root, so the model keeps three roots apart.

Files:

- `js_values.dfy` (module `JsValues`): JavaScript option values with an
  explicit truthiness predicate, `??`, and the `=== true || === undefined`
  test.
- `plans.dfy` (module `Plans`): the options, containers, hooks, manager
  config and plans.
- `plugin.dfy` (module `FastifyAwilixPlugin`): option resolution of the
  current plugin.
- `classic.dfy` (module `ClassicPlugin`): option resolution of the legacy
  plugin.
- `lifecycle.dfy` (module `Lifecycle`): the hooks of both variants as one
  `Step(plan, state, event)` function, and `Run` over event traces.
- `lifecycle_traces.dfy` (module `LifecycleTraces`): properties of whole
  traces.
- `variants.dfy` (module `Variants`): where the two plugins agree and where
  they differ.
- `findings.dfy` (module `ResponseHookFinding`): the response-hook
  discrepancy described under Findings.

Parameters stand in for the opaque libraries:

- The settlement of the manager's `executeInit()` promise is carried by the
  `Ready` event.
- The settlement of its `executeDispose()` promise is carried by the `Close`
  event.

These are the only promise outcomes the plugins' own code branches on.

## Model

| member | source | states |
|---|---|---|
| JsValues.CoalesceTrueKeepsExplicitValues | lib/fastifyAwilixPlugin.js:16-19 | `option ?? true` is truthy iff the option is nullish or truthy; any explicit value, `false` included, is kept unchanged |
| JsValues.DefaultingRulesDiffer | lib/fastifyAwilixPlugin.js:42-43 | the `??` default and the "exactly true or undefined" rule disagree exactly on `null` and on truthy values other than `true` |
| FastifyAwilixPlugin.ResolveOptions | lib/fastifyAwilixPlugin.js:15-96 | the registration fails, with the fixed message, iff both `container` and `injectionMode` are truthy; a failure carries no plan, so nothing is decorated and no hook installed; a supplied container wins; otherwise CLASSIC is chosen iff `injectionMode === 'CLASSIC'`; the four manager flags become `true` only from a nullish (or literal `true`) option and keep explicit values; the request hook is always installed; the init hook iff `asyncInit` or `eagerInject` is not switched off; the close/response hooks iff their option is exactly `true` or `undefined` |
| FastifyAwilixPlugin.DefaultsEnableEverything | lib/fastifyAwilixPlugin.js:16-54 | under `{}` the PROXY root is used, every flag is `true` and all four hooks are installed |
| FastifyAwilixPlugin.NullSplitsTheDefaults | lib/fastifyAwilixPlugin.js:16-43 | `null` options install the init hook but neither dispose hook |
| FastifyAwilixPlugin.OnlyClassicModeSelectsClassicRoot | lib/fastifyAwilixPlugin.js:29-33 | with no container, every injection mode other than the string `'CLASSIC'` (absent, `'PROXY'`, anything else) yields the PROXY root |
| ClassicPlugin.ResolveOptions | lib/classic/index.js:7-57 | never fails; always the legacy module's own CLASSIC root, never one of the current plugin's roots; `asyncInit`, `eagerInject`, `asyncDispose` reach the manager unchanged and no strict-boolean flag is passed; the init hook is installed iff the raw `asyncInit || eagerInject` is truthy; close/response hooks follow the "exactly true or undefined" rule |
| ClassicPlugin.DefaultsSkipInitAndSweep | lib/classic/index.js:12-34 | under `{}` the legacy plugin installs no init hook and leaves the disposer sweep off |
| Lifecycle.ReadySignal | lib/fastifyAwilixPlugin.js:54-71 | readiness fails exactly when init rejects with a truthy reason, and carries that reason; the hook always signals; the legacy `.then(done, done)` (lib/classic/index.js:30-34) gives the same answers |
| Lifecycle.CloseHook | lib/fastifyAwilixPlugin.js:74-85 | with a truthy `asyncDispose`, the sweep runs first and the plan's container is disposed only after the sweep resolved; otherwise only the container is disposed; the close fails exactly when the sweep runs and rejects with a truthy reason, and then carries that reason |
| Lifecycle.ResponseHookAsWritten | lib/fastifyAwilixPlugin.js:87-93 | the hook as written disposes exactly the request's own scope when it holds one and emits nothing otherwise; it never calls `done` exactly when the request holds no scope |
| Lifecycle.ResponseHook | lib/fastifyAwilixPlugin.js:87-93 | the corrected hook takes the same disposal decision: the request's own scope iff it has one, nothing otherwise; it always signals `done` |
| Lifecycle.Step | lib/fastifyAwilixPlugin.js:49-93 | one event: init runs iff the init hook is installed, and readiness fails only on a truthy rejection; a request start creates exactly one scope, from the plan's container, with an identity no request holds, and records it for that request; a response disposes that request's scope iff the response hook is on and a scope exists, and never the container; the request and response hooks always signal `done`; close emits nothing when off, otherwise sweep-then-container or container only, and fails exactly on a truthy sweep rejection; the container and the sweep are touched on close only; scope bookkeeping stays valid; no hook hangs (with the corrected response hook named under Findings) |
| Lifecycle.Run | lib/fastifyAwilixPlugin.js:49-52 | over any trace, the scope bookkeeping stays valid, one scope identity is consumed per started request, and every event gets a signal and none hangs (with the corrected response hook named under Findings) |
| LifecycleTraces.RunCreatesOneScopePerStart | lib/fastifyAwilixPlugin.js:49-52 | the requests of the created scopes are exactly the started requests, in order |
| LifecycleTraces.RunIssuesFreshScopes | lib/fastifyAwilixPlugin.js:49-52 | scope identities are issued consecutively, one per started request, so every created scope is fresh |
| LifecycleTraces.RunCreatesFromContainer | lib/classic/index.js:25-28 | every created scope is a child of the plan's container and has an identity issued during the run |
| LifecycleTraces.RunDisposesHeldOrCreatedScopes | lib/fastifyAwilixPlugin.js:87-93 | every disposed scope belongs to a request that responded, and is either the scope that request held at the start or one created for it earlier in the trace |
| LifecycleTraces.DisposeFollowsCreate | lib/classic/index.js:51-57 | from the initial state, each disposed scope was created earlier, for the same request and from the plan's container |
| LifecycleTraces.RunDisposesEachScopeOnce | lib/fastifyAwilixPlugin.js:87-93 | if each request gets at most one response, no scope is disposed twice, even though the plugin never clears `request.diScope` |
| LifecycleTraces.RunDisposesContainerOnlyOnClose | lib/fastifyAwilixPlugin.js:74-85 | the container is disposed, and the sweep runs, only when the trace contains a close event; the disposed container is the plan's own; with a truthy `asyncDispose` each container disposal comes right after a sweep |
| LifecycleTraces.RunDisposesContainerOncePerClose | lib/fastifyAwilixPlugin.js:74-85 | the container is disposed at most once per close event, and exactly once per close when the close hook is on without the sweep; the sweep runs exactly once per close when the close hook is on with a truthy `asyncDispose`, and never otherwise |
| LifecycleTraces.DefaultLifecycleScenario | test/fastifyAwilixPlugin.dispose.test.js:218-255 | under `{disposeOnClose: true, disposeOnResponse: true, injectionMode: 'PROXY'}` resolved by the current plugin, any one request gives: init, create the scope, dispose it on response, then sweep and container disposal on close; every hook signals `done` |
| Variants.DefaultsDiffer | lib/classic/index.js:30-34 | under `{}`, the current plugin installs the init hook and enables the sweep; the legacy plugin does neither |
| Variants.OnlyCurrentRejectsContainerWithMode | lib/fastifyAwilixPlugin.js:21-27 | given a truthy `container` and `injectionMode`, the current plugin rejects the registration, while the legacy plugin ignores both and uses its own module's root |
| Variants.ReadySignalsAgree | lib/classic/index.js:30-34 | both plugins signal readiness alike for every init settlement |
| Variants.StepsAgreeOnExplicitOptions | lib/classic/index.js:7-57 | with no container, the CLASSIC mode and explicit flags, both plugins install the same hooks, but on different roots: the current plugin's CLASSIC root and the legacy module's own root; up to that root, each event gives the same scope bookkeeping, the same signal and the same actions once the legacy root is read as the current one |
| Variants.RunsAgreeOnExplicitOptions | lib/classic/index.js:7-57 | for options with no truthy `container`, `injectionMode === 'CLASSIC'` and non-nullish `asyncInit`, `eagerInject` and `asyncDispose`, every event sequence gives both plugins the same final scopes and signals, and the same actions up to the root: the legacy trace acts on its own root where the current trace acts on its CLASSIC root |
| Variants.CloseDiffersWhenSweepOptionAbsent | lib/classic/index.js:36-49 | with `asyncDispose` absent, the current plugin sweeps before disposing its CLASSIC root; the legacy plugin only disposes its own root |
| ResponseHookFinding.AsWrittenHangsWithoutScope | lib/fastifyAwilixPlugin.js:87-93 | the hook as written hangs exactly for scope-less requests; the corrected hook makes the same disposal decision and always signals |
| ResponseHookFinding.EarlyReplyHangsResponseHook | lib/classic/index.js:51-57 | under default options, a response for a request that got no scope hangs the written hook of either plugin; the modelled step completes it with no action |

## Left out

- Everything inside `awilix` and `awilix-manager` is left out: dependency resolution, PROXY/CLASSIC injection, which registrations count as eager or async-init, concurrency of init callbacks, and per-instance dispose-once counting. `ExecuteInit`, `ExecuteDispose`, `CreateScope`, `DisposeScope` and `DisposeContainer` are opaque actions.
- The model assumes the manager's `config.asyncDispose` holds the value the plugin passed in. A manager that merges its own defaults under the passed options gives the same truthiness, because an explicit `undefined` still overrides them.
- Lifecycle.ReadySignal: the legacy init hook's `.then(done, done)` hands `done` whatever `executeInit()` resolves with. The model assumes the manager resolves it with `undefined`, so a resolved init always signals `done()`.
- `strictBooleanEnforced` is resolved and handed to the manager, but its effect is inside the manager and is not modelled.
- The outcomes of a scope's or the container's `dispose()` promise are forwarded to `done` unexamined, so they are not modelled. A hook that reaches them is modelled as signalling `done`.
- Fastify's hook and decoration machinery, `fastify-plugin` metadata, and `done`/`next` plumbing are left out. Hooks are atomic steps in host event order. Fastify's convention that `done(falsy)` means success is built in.
- Logging and `Date.now()` timing in the init hook are left out, because they are side effects.
- The decorations are not modelled as separate data. `diContainer` is the plan's container, `awilixManager` carries the plan's manager config, and `diScope` starts as `null`, which is a request missing from the state's scope map.
- Plans.Container: a supplied container is a `Supplied` value, which never equals a module root, even when the caller passes one of the modules' own containers as the `container` option. No property depends on telling those apart.
- JavaScript `NaN` is not a modelled value. Every `Num` is finite.
- Event order is not constrained, because the plugins do not guard it; the host's ordering decides. For example, nothing guards the init hook against running twice: a second `Ready` event runs init again.
- Type declarations, type tests and the re-export file `lib/index.js` are left out, because they have no behaviour.
- The log-count tests are left out, because they concern output, not orchestration.
- Lifecycle.CloseHook: a rejected disposer sweep leaves the container undisposed, because the container's disposal is chained after the sweep, so shutdown teardown is not best-effort.
- LifecycleTraces.RunDisposesEachScopeOnce: `request.diScope` is never cleared after the response, so once-disposal is proved only for traces with at most one response per request.
- Lifecycle.Step: it uses the corrected response hook (see Findings), so its "no hook hangs" promise, and `Lifecycle.Run`'s, hold for the corrected program, not for the hook as written.

## Findings

| source | as written | input that shows it | evidently intended | confidence | as-written member | corrected member |
|---|---|---|---|---|---|---|
| lib/fastifyAwilixPlugin.js:87-93 | the `onResponse` hook calls `done` only inside `if (request.diScope)` | an early reply with the response hook installed (as in the repository's test/fastifyAwilixPlugin.dispose.test.js:141-177, which registers `{disposeOnClose: false, disposeOnResponse: true, injectionMode}`): an earlier `onRequest` hook replies, so the plugin's request hook never runs; `onResponse` then finds `diScope === null` and never calls `done`, so later `onResponse` hooks and the host's completion step are skipped. That test asserts only the 200 status and that no error occurred | call `done()` when there is no scope | medium, not executed | ResponseHookFinding.AsWrittenHangsWithoutScope | Lifecycle.ResponseHook |
| lib/classic/index.js:51-57 | the legacy `onResponse` hook has the same missing `else done()` | the same early reply under the legacy plugin with the response hook installed (as in test/fastifyAwilixPlugin.dispose.spec.js:113-143, which registers `{disposeOnClose: false, disposeOnResponse: true}`); that test asserts only the status and the absence of an error | call `done()` when there is no scope | medium, not executed | ResponseHookFinding.EarlyReplyHangsResponseHook | Lifecycle.ResponseHook |
