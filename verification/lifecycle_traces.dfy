/** Properties of whole event traces: scopes are fresh and one per started
    request, a scope is disposed only after it was created and at most once,
    and the root container is disposed only on close, after the sweep. */
module LifecycleTraces {
  import opened JsValues
  import opened Plans
  import opened Lifecycle
  import FastifyAwilixPlugin

  /** Request identities of the `CreateScope` actions, in order. */
  function CreatedRequests(acts: seq<Action>): seq<RequestId> {
    if acts == [] then []
    else (if acts[0].CreateScope? then [acts[0].req] else []) + CreatedRequests(acts[1..])
  }

  /** Scope identities of the `CreateScope` actions, in order. */
  function CreatedScopes(acts: seq<Action>): seq<ScopeId> {
    if acts == [] then []
    else (if acts[0].CreateScope? then [acts[0].scope] else []) + CreatedScopes(acts[1..])
  }

  /** Request identities of the response events, in order. */
  function Responded(evs: seq<Event>): seq<RequestId> {
    if evs == [] then []
    else (if evs[0].ResponseSent? then [evs[0].req] else []) + Responded(evs[1..])
  }

  /** The host sends at most one response per request. */
  predicate RespondsOnce(evs: seq<Event>) {
    forall i, j | 0 <= i < j < |evs| && evs[i].ResponseSent? && evs[j].ResponseSent? :: evs[i].req != evs[j].req
  }

  lemma {:induction false} CreatedRequestsAppend(a: seq<Action>, b: seq<Action>)
    ensures CreatedRequests(a + b) == CreatedRequests(a) + CreatedRequests(b)
    decreases |a|
  {
    if a == [] {
      assert a + b == b;
    } else {
      var ab := a + b;
      var head := if a[0].CreateScope? then [a[0].req] else [];
      assert ab[0] == a[0];
      assert ab[1..] == a[1..] + b;
      CreatedRequestsAppend(a[1..], b);
      calc {
        CreatedRequests(ab);
        head + CreatedRequests(a[1..] + b);
        head + (CreatedRequests(a[1..]) + CreatedRequests(b));
        (head + CreatedRequests(a[1..])) + CreatedRequests(b);
        CreatedRequests(a) + CreatedRequests(b);
      }
    }
  }

  lemma {:induction false} CreatedScopesAppend(a: seq<Action>, b: seq<Action>)
    ensures CreatedScopes(a + b) == CreatedScopes(a) + CreatedScopes(b)
    decreases |a|
  {
    if a == [] {
      assert a + b == b;
    } else {
      var ab := a + b;
      var head := if a[0].CreateScope? then [a[0].scope] else [];
      assert ab[0] == a[0];
      assert ab[1..] == a[1..] + b;
      CreatedScopesAppend(a[1..], b);
      calc {
        CreatedScopes(ab);
        head + CreatedScopes(a[1..] + b);
        head + (CreatedScopes(a[1..]) + CreatedScopes(b));
        (head + CreatedScopes(a[1..])) + CreatedScopes(b);
        CreatedScopes(a) + CreatedScopes(b);
      }
    }
  }

  /** A request with no response event in `evs` is not in `Responded(evs)`. */
  lemma {:induction false} NotRespondedWithoutEvent(evs: seq<Event>, r: RequestId)
    requires forall k | 0 <= k < |evs| :: evs[k] != ResponseSent(r)
    ensures r !in Responded(evs)
    decreases |evs|
  {
    if evs != [] {
      assert forall k | 0 <= k < |evs[1..]| :: evs[1..][k] == evs[k + 1];
      NotRespondedWithoutEvent(evs[1..], r);
    }
  }

  /** The scopes one step creates: one for a start when the request hook is
      installed, none otherwise. */
  lemma StepCreates(p: Plan, s: State, e: Event)
    ensures CreatedRequests(Step(p, s, e).actions) ==
      (if e.RequestStart? && OnRequest in p.hooks then [e.req] else [])
    ensures CreatedScopes(Step(p, s, e).actions) ==
      (if e.RequestStart? && OnRequest in p.hooks then [s.nextScope] else [])
  {
    var acts := Step(p, s, e).actions;
    if e.RequestStart? && OnRequest in p.hooks {
      assert acts[1..] == [];
    } else {
      NothingCreated(acts);
    }
  }

  lemma {:induction false} NothingCreated(acts: seq<Action>)
    requires forall i | 0 <= i < |acts| :: !acts[i].CreateScope?
    ensures CreatedRequests(acts) == [] && CreatedScopes(acts) == []
    decreases |acts|
  {
    if acts != [] {
      assert forall i | 0 <= i < |acts[1..]| :: acts[1..][i] == acts[i + 1];
      NothingCreated(acts[1..]);
    }
  }

  /** Each started request gets exactly one scope, in the order the
      requests started. */
  lemma {:induction false} RunCreatesOneScopePerStart(p: Plan, s: State, evs: seq<Event>)
    requires OnRequest in p.hooks
    ensures CreatedRequests(Run(p, s, evs).actions) == Started(evs)
    decreases |evs|
  {
    if evs != [] {
      var o := Step(p, s, evs[0]);
      var rest := Run(p, o.state, evs[1..]);
      RunCreatesOneScopePerStart(p, o.state, evs[1..]);
      CreatedRequestsAppend(o.actions, rest.actions);
      StepCreates(p, s, evs[0]);
    }
  }

  /** Scope identities are issued consecutively from the state's next
      identity, one per started request; so no two scopes share an identity
      and none collides with a scope a request already holds. */
  lemma {:induction false} RunIssuesFreshScopes(p: Plan, s: State, evs: seq<Event>)
    requires OnRequest in p.hooks
    ensures |CreatedScopes(Run(p, s, evs).actions)| == |Started(evs)|
    ensures forall i | 0 <= i < |CreatedScopes(Run(p, s, evs).actions)| ::
      CreatedScopes(Run(p, s, evs).actions)[i] == s.nextScope + i
    decreases |evs|
  {
    if evs != [] {
      var o := Step(p, s, evs[0]);
      var rest := Run(p, o.state, evs[1..]);
      RunIssuesFreshScopes(p, o.state, evs[1..]);
      CreatedScopesAppend(o.actions, rest.actions);
      StepCreates(p, s, evs[0]);
      var head := CreatedScopes(o.actions);
      var tail := CreatedScopes(rest.actions);
      var cs := CreatedScopes(Run(p, s, evs).actions);
      assert cs == head + tail;
      assert o.state.nextScope == s.nextScope + |head|;
      forall i | 0 <= i < |cs|
        ensures cs[i] == s.nextScope + i
      {
        if i < |head| {
          assert cs[i] == head[0];
        } else {
          assert cs[i] == tail[i - |head|];
        }
      }
    }
  }

  /** Every scope a run creates is a child of the plan's container, with an
      identity issued during that run. */
  lemma {:induction false} RunCreatesFromContainer(p: Plan, s: State, evs: seq<Event>)
    ensures forall i | 0 <= i < |Run(p, s, evs).actions| && Run(p, s, evs).actions[i].CreateScope? ::
      && Run(p, s, evs).actions[i].parent == p.container
      && s.nextScope <= Run(p, s, evs).actions[i].scope < Run(p, s, evs).state.nextScope
    decreases |evs|
  {
    if evs != [] {
      var o := Step(p, s, evs[0]);
      var rest := Run(p, o.state, evs[1..]);
      var acts := Run(p, s, evs).actions;
      RunCreatesFromContainer(p, o.state, evs[1..]);
      assert acts == o.actions + rest.actions;
      assert rest.state == Run(p, s, evs).state;
      forall i | 0 <= i < |acts| && acts[i].CreateScope?
        ensures acts[i].parent == p.container
        ensures s.nextScope <= acts[i].scope < Run(p, s, evs).state.nextScope
      {
        if i >= |o.actions| {
          assert acts[i] == rest.actions[i - |o.actions|];
        }
      }
    }
  }

  /** A disposed scope belongs to a request that responded, and it is either
      the scope that request held when the run began or one created for it
      earlier in the run. */
  lemma {:induction false} RunDisposesHeldOrCreatedScopes(p: Plan, s: State, evs: seq<Event>)
    ensures forall j | 0 <= j < |Run(p, s, evs).actions| && Run(p, s, evs).actions[j].DisposeScope? ::
      var a := Run(p, s, evs).actions[j];
      && a.req in Responded(evs)
      && ((a.req in s.scopes && s.scopes[a.req] == a.scope)
          || exists i :: 0 <= i < j && Run(p, s, evs).actions[i] == CreateScope(a.req, a.scope, p.container))
    decreases |evs|
  {
    if evs != [] {
      var o := Step(p, s, evs[0]);
      var rest := Run(p, o.state, evs[1..]);
      var acts := Run(p, s, evs).actions;
      RunDisposesHeldOrCreatedScopes(p, o.state, evs[1..]);
      assert acts == o.actions + rest.actions;
      forall j | 0 <= j < |acts| && acts[j].DisposeScope?
        ensures acts[j].req in Responded(evs)
        ensures (acts[j].req in s.scopes && s.scopes[acts[j].req] == acts[j].scope)
          || exists i :: 0 <= i < j && acts[i] == CreateScope(acts[j].req, acts[j].scope, p.container)
      {
        var a := acts[j];
        if j < |o.actions| {
          assert evs[0].ResponseSent? && o.actions == [DisposeScope(evs[0].req, s.scopes[evs[0].req])];
        } else {
          var j' := j - |o.actions|;
          assert rest.actions[j'] == a;
          assert a.req in Responded(evs[1..]);
          if a.req in o.state.scopes && o.state.scopes[a.req] == a.scope {
            if evs[0].RequestStart? && OnRequest in p.hooks && evs[0].req == a.req {
              assert acts[0] == CreateScope(a.req, a.scope, p.container);
            }
          } else {
            var i' :| 0 <= i' < j' && rest.actions[i'] == CreateScope(a.req, a.scope, p.container);
            assert acts[i' + |o.actions|] == CreateScope(a.req, a.scope, p.container);
          }
        }
      }
    }
  }

  /** From the initial state, every disposed scope was created earlier in
      the run, for the same request and from the plan's container. */
  lemma DisposeFollowsCreate(p: Plan, evs: seq<Event>)
    ensures forall j | 0 <= j < |Run(p, Initial, evs).actions| && Run(p, Initial, evs).actions[j].DisposeScope? ::
      exists i :: 0 <= i < j && Run(p, Initial, evs).actions[i] ==
        CreateScope(Run(p, Initial, evs).actions[j].req, Run(p, Initial, evs).actions[j].scope, p.container)
  {
    RunDisposesHeldOrCreatedScopes(p, Initial, evs);
  }

  /** When the host sends at most one response per request, no scope is
      disposed twice, even though a request keeps its scope after the
      response. */
  lemma {:induction false} RunDisposesEachScopeOnce(p: Plan, s: State, evs: seq<Event>)
    requires Valid(s)
    requires RespondsOnce(evs)
    ensures forall i, j | 0 <= i < j < |Run(p, s, evs).actions|
        && Run(p, s, evs).actions[i].DisposeScope? && Run(p, s, evs).actions[j].DisposeScope? ::
      Run(p, s, evs).actions[i].scope != Run(p, s, evs).actions[j].scope
    decreases |evs|
  {
    if evs != [] {
      var o := Step(p, s, evs[0]);
      var rest := Run(p, o.state, evs[1..]);
      var acts := Run(p, s, evs).actions;
      assert RespondsOnce(evs[1..]) by {
        forall i, j | 0 <= i < j < |evs[1..]| && evs[1..][i].ResponseSent? && evs[1..][j].ResponseSent?
          ensures evs[1..][i].req != evs[1..][j].req
        {
          assert evs[1..][i] == evs[i + 1] && evs[1..][j] == evs[j + 1];
        }
      }
      RunDisposesEachScopeOnce(p, o.state, evs[1..]);
      assert acts == o.actions + rest.actions;
      forall i, j | 0 <= i < j < |acts| && acts[i].DisposeScope? && acts[j].DisposeScope?
        ensures acts[i].scope != acts[j].scope
      {
        if i >= |o.actions| {
          assert acts[i] == rest.actions[i - |o.actions|];
          assert acts[j] == rest.actions[j - |o.actions|];
        } else {
          // the first step disposed the scope of the request that responded
          assert evs[0].ResponseSent? && evs[0].req in s.scopes && o.state == s;
          assert o.actions == [DisposeScope(evs[0].req, s.scopes[evs[0].req])];
          assert acts[j] == rest.actions[j - 1];
          FirstDisposalNotRepeated(p, s, evs, j - 1);
        }
      }
    }
  }

  /** The scope the first response disposes is never disposed again later
      in the trace. */
  lemma FirstDisposalNotRepeated(p: Plan, s: State, evs: seq<Event>, j: nat)
    requires Valid(s)
    requires RespondsOnce(evs)
    requires evs != [] && evs[0].ResponseSent? && evs[0].req in s.scopes
    requires j < |Run(p, s, evs[1..]).actions| && Run(p, s, evs[1..]).actions[j].DisposeScope?
    ensures Run(p, s, evs[1..]).actions[j].scope != s.scopes[evs[0].req]
  {
    var r := evs[0].req;
    var rest := Run(p, s, evs[1..]);
    var b := rest.actions[j];
    RunDisposesHeldOrCreatedScopes(p, s, evs[1..]);
    RunCreatesFromContainer(p, s, evs[1..]);
    assert b.req != r by {
      forall k | 0 <= k < |evs[1..]|
        ensures evs[1..][k] != ResponseSent(r)
      {
        assert evs[1..][k] == evs[k + 1];
      }
      NotRespondedWithoutEvent(evs[1..], r);
    }
    if !(b.req in s.scopes && s.scopes[b.req] == b.scope) {
      var i' :| 0 <= i' < j && rest.actions[i'] == CreateScope(b.req, b.scope, p.container);
      assert b.scope >= s.nextScope;
    }
  }

  /** The root container is disposed only in answer to a close event, it is
      always the plan's own container, and with a truthy `asyncDispose` it
      comes right after the disposer sweep. The sweep also runs only on
      close. */
  lemma {:induction false} RunDisposesContainerOnlyOnClose(p: Plan, s: State, evs: seq<Event>)
    ensures forall j | 0 <= j < |Run(p, s, evs).actions| && Run(p, s, evs).actions[j].DisposeContainer? ::
      && Run(p, s, evs).actions[j].container == p.container
      && (exists k :: 0 <= k < |evs| && evs[k].Close?)
    ensures Truthy(p.config.asyncDispose) ==>
      forall j | 0 <= j < |Run(p, s, evs).actions| && Run(p, s, evs).actions[j].DisposeContainer? ::
        0 < j && Run(p, s, evs).actions[j - 1] == ExecuteDispose
    ensures forall j | 0 <= j < |Run(p, s, evs).actions| && Run(p, s, evs).actions[j].ExecuteDispose? ::
      exists k :: 0 <= k < |evs| && evs[k].Close?
    decreases |evs|
  {
    if evs != [] {
      var o := Step(p, s, evs[0]);
      var rest := Run(p, o.state, evs[1..]);
      var acts := Run(p, s, evs).actions;
      RunDisposesContainerOnlyOnClose(p, o.state, evs[1..]);
      assert acts == o.actions + rest.actions;
      forall j | 0 <= j < |acts| && (acts[j].DisposeContainer? || acts[j].ExecuteDispose?)
        ensures exists k :: 0 <= k < |evs| && evs[k].Close?
        ensures acts[j].DisposeContainer? ==> acts[j].container == p.container
        ensures acts[j].DisposeContainer? && Truthy(p.config.asyncDispose) ==> j > 0 && acts[j - 1] == ExecuteDispose
      {
        if j < |o.actions| {
          assert evs[0].Close?;
        } else {
          var j' := j - |o.actions|;
          assert rest.actions[j'] == acts[j];
          var k :| 0 <= k < |evs[1..]| && evs[1..][k].Close?;
          assert evs[k + 1].Close?;
          if acts[j].DisposeContainer? && Truthy(p.config.asyncDispose) {
            assert rest.actions[j'].DisposeContainer?;
            assert j' > 0 && rest.actions[j' - 1] == ExecuteDispose;
            assert acts[j - 1] == rest.actions[j' - 1];
          }
        }
      }
    }
  }

  /** The number of close events. */
  function Closes(evs: seq<Event>): nat {
    if evs == [] then 0
    else (if evs[0].Close? then 1 else 0) + Closes(evs[1..])
  }

  /** Counted over a whole trace: the container is disposed at most once
      per close event, and exactly once per close when the close hook is
      installed without the sweep; the sweep runs exactly once per close
      when the close hook is installed with a truthy `asyncDispose`, and
      never otherwise. A trace without a close event touches neither. */
  lemma {:induction false} RunDisposesContainerOncePerClose(p: Plan, s: State, evs: seq<Event>)
    ensures multiset(Run(p, s, evs).actions)[DisposeContainer(p.container)] <= Closes(evs)
    ensures OnClose in p.hooks && !Truthy(p.config.asyncDispose) ==>
      multiset(Run(p, s, evs).actions)[DisposeContainer(p.container)] == Closes(evs)
    ensures multiset(Run(p, s, evs).actions)[ExecuteDispose] ==
      (if OnClose in p.hooks && Truthy(p.config.asyncDispose) then Closes(evs) else 0)
    decreases |evs|
  {
    if evs != [] {
      var o := Step(p, s, evs[0]);
      RunDisposesContainerOncePerClose(p, o.state, evs[1..]);
      assert Run(p, s, evs).actions == o.actions + Run(p, o.state, evs[1..]).actions;
      if !evs[0].Close? {
        assert DisposeContainer(p.container) !in o.actions;
        assert ExecuteDispose !in o.actions;
      }
    }
  }

  /** The default plan's hooks wired to one request `r`, event by event. */
  lemma DefaultScenarioSteps(p: Plan, r: RequestId)
    requires p.variant == Current && p.container == ProxyRoot
    requires p.hooks == {OnRequest, OnReady, OnClose, OnResponse}
    requires p.config.asyncDispose == Bool(true)
    ensures Step(p, Initial, Ready(Resolved)) == StepResult(Initial, [ExecuteInit], Done)
    ensures Step(p, Initial, RequestStart(r)) == StepResult(State(map[r := 0], 1), [CreateScope(r, 0, ProxyRoot)], Done)
    ensures Step(p, State(map[r := 0], 1), ResponseSent(r)) == StepResult(State(map[r := 0], 1), [DisposeScope(r, 0)], Done)
    ensures Step(p, State(map[r := 0], 1), Close(Resolved))
      == StepResult(State(map[r := 0], 1), [ExecuteDispose, DisposeContainer(ProxyRoot)], Done)
  {
  }

  /** The default plan's hooks after the request started: the response
      disposes the request's scope, the close sweeps then disposes the
      root. */
  lemma DefaultScenarioTail(p: Plan, r: RequestId)
    requires p.variant == Current && p.container == ProxyRoot
    requires p.hooks == {OnRequest, OnReady, OnClose, OnResponse}
    requires p.config.asyncDispose == Bool(true)
    ensures Run(p, State(map[r := 0], 1), [ResponseSent(r), Close(Resolved)]).actions
      == [DisposeScope(r, 0), ExecuteDispose, DisposeContainer(ProxyRoot)]
    ensures Run(p, State(map[r := 0], 1), [ResponseSent(r), Close(Resolved)]).signals == [Done, Done]
  {
    var s1 := State(map[r := 0], 1);
    DefaultScenarioSteps(p, r);
    RunUnfolds(p, s1, [Close(Resolved)]);
    RunUnfolds(p, s1, [ResponseSent(r), Close(Resolved)]);
    assert [ResponseSent(r), Close(Resolved)][1..] == [Close(Resolved)];
  }

  /** The default plan's hooks from the start of request `r` on. */
  lemma DefaultScenarioMiddle(p: Plan, r: RequestId)
    requires p.variant == Current && p.container == ProxyRoot
    requires p.hooks == {OnRequest, OnReady, OnClose, OnResponse}
    requires p.config.asyncDispose == Bool(true)
    ensures Run(p, Initial, [RequestStart(r), ResponseSent(r), Close(Resolved)]).actions
      == [CreateScope(r, 0, ProxyRoot), DisposeScope(r, 0), ExecuteDispose, DisposeContainer(ProxyRoot)]
    ensures Run(p, Initial, [RequestStart(r), ResponseSent(r), Close(Resolved)]).signals == [Done, Done, Done]
  {
    var evs := [RequestStart(r), ResponseSent(r), Close(Resolved)];
    DefaultScenarioSteps(p, r);
    DefaultScenarioTail(p, r);
    assert evs[1..] == [ResponseSent(r), Close(Resolved)];
    RunUnfolds(p, Initial, evs);
  }

  /** The options `{disposeOnClose: true, disposeOnResponse: true,
      injectionMode: 'PROXY'}`. */
  const BothDisposalsProxy: Options :=
    Options(Undefined, Str("PROXY"), Undefined, Undefined, Undefined, Undefined, Bool(true), Bool(true))

  /** The plan the current plugin resolves from `BothDisposalsProxy`. */
  lemma BothDisposalsProxyPlan()
    ensures FastifyAwilixPlugin.ResolveOptions(BothDisposalsProxy).Ok?
    ensures FastifyAwilixPlugin.ResolveOptions(BothDisposalsProxy).value.variant == Current
    ensures FastifyAwilixPlugin.ResolveOptions(BothDisposalsProxy).value.container == ProxyRoot
    ensures FastifyAwilixPlugin.ResolveOptions(BothDisposalsProxy).value.hooks == {OnRequest, OnReady, OnClose, OnResponse}
    ensures FastifyAwilixPlugin.ResolveOptions(BothDisposalsProxy).value.config.asyncDispose == Bool(true)
  {
  }

  /** The default plan's hooks over the whole trace of one request `r`. */
  lemma DefaultScenarioRun(p: Plan, r: RequestId)
    requires p.variant == Current && p.container == ProxyRoot
    requires p.hooks == {OnRequest, OnReady, OnClose, OnResponse}
    requires p.config.asyncDispose == Bool(true)
    ensures Run(p, Initial, [Ready(Resolved), RequestStart(r), ResponseSent(r), Close(Resolved)]).actions
      == [ExecuteInit, CreateScope(r, 0, ProxyRoot), DisposeScope(r, 0), ExecuteDispose, DisposeContainer(ProxyRoot)]
    ensures Run(p, Initial, [Ready(Resolved), RequestStart(r), ResponseSent(r), Close(Resolved)]).signals
      == [Done, Done, Done, Done]
  {
    var evs := [Ready(Resolved), RequestStart(r), ResponseSent(r), Close(Resolved)];
    DefaultScenarioSteps(p, r);
    DefaultScenarioMiddle(p, r);
    assert evs[1..] == [RequestStart(r), ResponseSent(r), Close(Resolved)];
    RunUnfolds(p, Initial, evs);
  }

  /** One request with both disposal options on and the PROXY mode: init
      before anything else, the request's scope created and disposed on
      response, and the root container disposed only on close, after the
      sweep. */
  lemma DefaultLifecycleScenario(r: RequestId)
    ensures FastifyAwilixPlugin.ResolveOptions(BothDisposalsProxy).Ok?
    ensures Run(FastifyAwilixPlugin.ResolveOptions(BothDisposalsProxy).value, Initial,
                [Ready(Resolved), RequestStart(r), ResponseSent(r), Close(Resolved)]).actions
      == [ExecuteInit, CreateScope(r, 0, ProxyRoot), DisposeScope(r, 0), ExecuteDispose, DisposeContainer(ProxyRoot)]
    ensures Run(FastifyAwilixPlugin.ResolveOptions(BothDisposalsProxy).value, Initial,
                [Ready(Resolved), RequestStart(r), ResponseSent(r), Close(Resolved)]).signals
      == [Done, Done, Done, Done]
  {
    BothDisposalsProxyPlan();
    DefaultScenarioRun(FastifyAwilixPlugin.ResolveOptions(BothDisposalsProxy).value, r);
  }

  /** `Run` on a non-empty trace is the first step followed by the rest. */
  lemma RunUnfolds(p: Plan, s: State, evs: seq<Event>)
    requires evs != []
    ensures Run(p, s, evs).actions == Step(p, s, evs[0]).actions + Run(p, Step(p, s, evs[0]).state, evs[1..]).actions
    ensures Run(p, s, evs).signals == [Step(p, s, evs[0]).signal] + Run(p, Step(p, s, evs[0]).state, evs[1..]).signals
    ensures evs[1..] == [] ==> Run(p, Step(p, s, evs[0]).state, evs[1..]) == Trace(Step(p, s, evs[0]).state, [], [])
  {
  }
}
