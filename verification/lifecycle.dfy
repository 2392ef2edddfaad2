/** The hooks both plugins install, as one state machine: a host event and
    the current per-request scopes give the abstract actions the hook
    performs and the completion signal it gives the host. Resolving
    dependencies, running init callbacks and disposing instances belong to
    the dependency-injection library; here they are opaque actions. */
module Lifecycle {
  import opened JsValues
  import opened Plans

  type RequestId = nat
  type ScopeId = nat

  /** How an opaque promise settled: `undefined` on success, or rejected
      with a reason. */
  datatype Settlement = Resolved | Rejected(reason: JsValue)

  /** Host events. `Ready` carries how the manager's init settled, and
      `Close` carries how its disposer sweep settled; these are the only
      promise outcomes the hooks act on. */
  datatype Event =
    | Ready(init: Settlement)
    | RequestStart(req: RequestId)
    | ResponseSent(req: RequestId)
    | Close(sweep: Settlement)

  datatype Action =
    | CreateScope(req: RequestId, scope: ScopeId, parent: Container)
    | DisposeScope(req: RequestId, scope: ScopeId)
    | ExecuteInit
    | ExecuteDispose
    | DisposeContainer(container: Container)

  /** What a hook reports to the host: `done()`, `done(err)` with a truthy
      error, or never calling `done` at all. An event with no installed hook
      reports `Done`. */
  datatype Signal = Done | Failed(reason: JsValue) | Hung

  /** The scope each request was given (the `diScope` request decoration;
      a request with no entry still holds the decorated `null`), and the
      next unused scope identity. */
  datatype State = State(scopes: map<RequestId, ScopeId>, nextScope: ScopeId)

  const Initial: State := State(map[], 0)

  datatype StepResult = StepResult(state: State, actions: seq<Action>, signal: Signal)

  /** Every scope a request holds is a distinct, already issued identity. */
  predicate Valid(s: State) {
    && (forall r | r in s.scopes :: s.scopes[r] < s.nextScope)
    && (forall r1, r2 | r1 in s.scopes && r2 in s.scopes && r1 != r2 :: s.scopes[r1] != s.scopes[r2])
  }

  /** The host's reading of `done(err)`: a falsy error is success. */
  function DoneWith(err: JsValue): Signal {
    if Truthy(err) then Failed(err) else Done
  }

  /** The init hook's signal once the manager's init settled. The current
      plugin branches on the rejection reason itself; the legacy plugin
      hands every settlement straight to `done`. Either way readiness fails
      exactly on a rejection with a truthy reason, and with that reason. */
  function ReadySignal(v: Variant, init: Settlement): (r: Signal)
    ensures r != Hung
    ensures r.Failed? <==> init.Rejected? && Truthy(init.reason)
    ensures r.Failed? ==> r.reason == init.reason
  {
    match v
    case Current =>
      (match init
       case Resolved => Done
       case Rejected(err) => if Truthy(err) then Failed(err) else Done)
    case Classic =>
      (match init
       case Resolved => DoneWith(Undefined)
       case Rejected(err) => DoneWith(err))
  }

  /** The close hook (when installed). With a truthy `asyncDispose` the
      disposer sweep runs first and the container is disposed only once the
      sweep resolved; otherwise only the container is disposed. The
      disposed container is always the plan's own. */
  function CloseHook(p: Plan, s: State, sweep: Settlement): (r: StepResult)
    ensures r.state == s
    ensures r.signal != Hung
    ensures |r.actions| == 1 || r.actions == [ExecuteDispose, DisposeContainer(p.container)]
    ensures Truthy(p.config.asyncDispose) ==> r.actions[0] == ExecuteDispose
    ensures DisposeContainer(p.container) in r.actions <==> !Truthy(p.config.asyncDispose) || sweep.Resolved?
    ensures forall i | 0 <= i < |r.actions| :: r.actions[i] in {ExecuteDispose, DisposeContainer(p.container)}
    ensures ExecuteDispose in r.actions <==> Truthy(p.config.asyncDispose)
    ensures r.signal.Failed? <==> Truthy(p.config.asyncDispose) && sweep.Rejected? && Truthy(sweep.reason)
    ensures r.signal.Failed? ==> r.signal.reason == sweep.reason
  {
    if Truthy(p.config.asyncDispose) then
      match sweep
      case Resolved => StepResult(s, [ExecuteDispose, DisposeContainer(p.container)], Done)
      case Rejected(err) => StepResult(s, [ExecuteDispose], DoneWith(err))
    else
      StepResult(s, [DisposeContainer(p.container)], Done)
  }

  /** The response hook as both plugins write it: a request holding a scope
      has exactly that scope disposed, and a request without one gets no
      action -- but then `done` is never called either. */
  function ResponseHookAsWritten(p: Plan, s: State, req: RequestId): (r: StepResult)
    requires OnResponse in p.hooks
    ensures r.state == s
    ensures req in s.scopes ==> r.actions == [DisposeScope(req, s.scopes[req])]
    ensures req !in s.scopes ==> r.actions == []
    ensures r.signal == Hung <==> req !in s.scopes
  {
    if req in s.scopes then StepResult(s, [DisposeScope(req, s.scopes[req])], Done)
    else StepResult(s, [], Hung)
  }

  /** The response hook as evidently intended: the same disposal decision,
      and `done` signalled in every branch. */
  function ResponseHook(p: Plan, s: State, req: RequestId): (r: StepResult)
    requires OnResponse in p.hooks
    ensures r.state == s
    ensures r.signal == Done
    ensures r.actions == ResponseHookAsWritten(p, s, req).actions
    ensures req in s.scopes ==> r.actions == [DisposeScope(req, s.scopes[req])]
    ensures req !in s.scopes ==> r.actions == []
  {
    if req in s.scopes then StepResult(s, [DisposeScope(req, s.scopes[req])], Done)
    else StepResult(s, [], Done)
  }

  /** One host event against plan `p` in state `s`. */
  function Step(p: Plan, s: State, e: Event): (r: StepResult)
    ensures r.signal != Hung
    ensures Valid(s) ==> Valid(r.state)
    ensures r.state.nextScope >= s.nextScope
    // readiness
    ensures e.Ready? ==> r.state == s
    ensures e.Ready? ==> (r.actions == [ExecuteInit] <==> OnReady in p.hooks)
    ensures e.Ready? && OnReady !in p.hooks ==> r.actions == [] && r.signal == Done
    ensures e.Ready? ==> (r.signal.Failed? <==> OnReady in p.hooks && e.init.Rejected? && Truthy(e.init.reason))
    ensures e.Ready? && r.signal.Failed? ==> r.signal.reason == e.init.reason
    // the request and response hooks always complete
    ensures e.RequestStart? || e.ResponseSent? ==> r.signal == Done
    // request start: one fresh scope from the plan's container
    ensures e.RequestStart? && OnRequest in p.hooks ==>
      && |r.actions| == 1
      && r.actions[0].CreateScope?
      && r.actions[0].req == e.req
      && r.actions[0].parent == p.container
      && r.actions[0].scope == s.nextScope
      && (Valid(s) ==> r.actions[0].scope !in s.scopes.Values)
      && r.state.scopes == s.scopes[e.req := r.actions[0].scope]
      && r.state.nextScope == s.nextScope + 1
    ensures !(e.RequestStart? && OnRequest in p.hooks) ==> r.state == s
    ensures !(e.RequestStart? && OnRequest in p.hooks) ==> forall i | 0 <= i < |r.actions| :: !r.actions[i].CreateScope?
    // response: only the request's own scope, only if it has one
    ensures e.ResponseSent? ==>
      (r.actions != [] <==> OnResponse in p.hooks && e.req in s.scopes)
    ensures e.ResponseSent? && r.actions != [] ==> r.actions == [DisposeScope(e.req, s.scopes[e.req])]
    // close
    ensures e.Close? && OnClose !in p.hooks ==> r.actions == []
    ensures e.Close? && OnClose in p.hooks && !Truthy(p.config.asyncDispose) ==>
      r.actions == [DisposeContainer(p.container)]
    ensures e.Close? && OnClose in p.hooks && Truthy(p.config.asyncDispose) ==>
      r.actions == (if e.sweep.Resolved? then [ExecuteDispose, DisposeContainer(p.container)] else [ExecuteDispose])
    ensures e.Close? ==>
      (r.signal.Failed? <==> OnClose in p.hooks && Truthy(p.config.asyncDispose) && e.sweep.Rejected? && Truthy(e.sweep.reason))
    ensures e.Close? && r.signal.Failed? ==> r.signal.reason == e.sweep.reason
    // the root container and the sweep are touched on close only
    ensures !e.Close? ==> forall i | 0 <= i < |r.actions| :: !r.actions[i].DisposeContainer? && !r.actions[i].ExecuteDispose?
  {
    match e
    case Ready(init) =>
      if OnReady in p.hooks then StepResult(s, [ExecuteInit], ReadySignal(p.variant, init))
      else StepResult(s, [], Done)
    case RequestStart(req) =>
      if OnRequest in p.hooks then
        var id := s.nextScope;
        StepResult(State(s.scopes[req := id], id + 1), [CreateScope(req, id, p.container)], Done)
      else StepResult(s, [], Done)
    case ResponseSent(req) =>
      if OnResponse in p.hooks then ResponseHook(p, s, req)
      else StepResult(s, [], Done)
    case Close(sweep) =>
      if OnClose in p.hooks then CloseHook(p, s, sweep)
      else StepResult(s, [], Done)
  }

  /** Everything a sequence of host events produces. */
  datatype Trace = Trace(state: State, actions: seq<Action>, signals: seq<Signal>)

  /** Request identities in the order their requests started. */
  function Started(evs: seq<Event>): seq<RequestId> {
    if evs == [] then []
    else (if evs[0].RequestStart? then [evs[0].req] else []) + Started(evs[1..])
  }

  /** Feeds the events to `Step` one by one, in order. */
  function Run(p: Plan, s: State, evs: seq<Event>): (t: Trace)
    ensures |t.signals| == |evs|
    ensures Valid(s) ==> Valid(t.state)
    ensures OnRequest in p.hooks ==> t.state.nextScope == s.nextScope + |Started(evs)|
    ensures forall i | 0 <= i < |t.signals| :: t.signals[i] != Hung
    decreases |evs|
  {
    if evs == [] then Trace(s, [], [])
    else
      var o := Step(p, s, evs[0]);
      var rest := Run(p, o.state, evs[1..]);
      Trace(rest.state, o.actions + rest.actions, [o.signal] + rest.signals)
  }
}
