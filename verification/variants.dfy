/** Where the current and the legacy plugin agree and where they differ. */
module Variants {
  import opened JsValues
  import opened Plans
  import opened Lifecycle
  import Current = FastifyAwilixPlugin
  import Legacy = ClassicPlugin

  /** Options both plugins read the same way: no supplied container, the
      CLASSIC injection mode, and explicit (non-nullish) manager flags. */
  predicate ExplicitClassicOptions(o: Options) {
    && !Truthy(o.container)
    && o.injectionMode == Str("CLASSIC")
    && !Nullish(o.asyncInit)
    && !Nullish(o.eagerInject)
    && !Nullish(o.asyncDispose)
  }

  /** Under the empty options the current plugin installs the init hook and
      the legacy plugin does not; the current plugin also enables the
      disposer sweep on close, the legacy plugin does not. */
  lemma DefaultsDiffer()
    ensures Current.ResolveOptions(NoOptions).Ok?
    ensures OnReady in Current.ResolveOptions(NoOptions).value.hooks
    ensures OnReady !in Legacy.ResolveOptions(NoOptions).hooks
    ensures Truthy(Current.ResolveOptions(NoOptions).value.config.asyncDispose)
    ensures !Truthy(Legacy.ResolveOptions(NoOptions).config.asyncDispose)
  {
  }

  /** The legacy plugin accepts a supplied container together with an
      injection mode, which the current plugin rejects; it ignores both and
      uses its own root. */
  lemma OnlyCurrentRejectsContainerWithMode(o: Options)
    requires Truthy(o.container) && Truthy(o.injectionMode)
    ensures Current.ResolveOptions(o).Err?
    ensures Legacy.ResolveOptions(o).container == LegacyRoot
  {
  }

  /** Both plugins signal readiness the same way for every init settlement. */
  lemma ReadySignalsAgree(init: Settlement)
    ensures ReadySignal(Plans.Current, init) == ReadySignal(Plans.Classic, init)
  {
  }

  /** An action with the legacy module's root read as the current
      plugin's CLASSIC root; every other action is unchanged. */
  function Rehome(a: Action): Action {
    match a
    case CreateScope(req, scope, parent) =>
      CreateScope(req, scope, if parent == LegacyRoot then ClassicRoot else parent)
    case DisposeContainer(c) => DisposeContainer(if c == LegacyRoot then ClassicRoot else c)
    case _ => a
  }

  /** `Rehome` applied to every action, in order. */
  function RehomeAll(acts: seq<Action>): (r: seq<Action>)
    ensures |r| == |acts|
    ensures forall i | 0 <= i < |acts| :: r[i] == Rehome(acts[i])
  {
    if acts == [] then [] else [Rehome(acts[0])] + RehomeAll(acts[1..])
  }

  /** On explicit options naming the CLASSIC mode, the two plugins install
      the same hooks but on different roots: the current plugin on its
      CLASSIC root, the legacy plugin on its own module's root. Up to that
      root, they react to every event alike: the same scope bookkeeping,
      the same signal, and the same actions once the legacy root is read as
      the current one. */
  lemma StepsAgreeOnExplicitOptions(o: Options, s: State, e: Event)
    requires ExplicitClassicOptions(o)
    ensures Current.ResolveOptions(o).Ok?
    ensures Current.ResolveOptions(o).value.container == ClassicRoot
    ensures Legacy.ResolveOptions(o).container == LegacyRoot
    ensures Current.ResolveOptions(o).value.hooks == Legacy.ResolveOptions(o).hooks
    ensures Step(Current.ResolveOptions(o).value, s, e).state == Step(Legacy.ResolveOptions(o), s, e).state
    ensures Step(Current.ResolveOptions(o).value, s, e).signal == Step(Legacy.ResolveOptions(o), s, e).signal
    ensures Step(Current.ResolveOptions(o).value, s, e).actions == RehomeAll(Step(Legacy.ResolveOptions(o), s, e).actions)
  {
  }

  /** ...and so produce the same trace for every sequence of events, up to
      the root: the same final state and signals, and the same actions once
      the legacy root is read as the current plugin's CLASSIC root. */
  lemma {:induction false} RunsAgreeOnExplicitOptions(o: Options, s: State, evs: seq<Event>)
    requires ExplicitClassicOptions(o)
    ensures Current.ResolveOptions(o).Ok?
    ensures Run(Current.ResolveOptions(o).value, s, evs).state == Run(Legacy.ResolveOptions(o), s, evs).state
    ensures Run(Current.ResolveOptions(o).value, s, evs).signals == Run(Legacy.ResolveOptions(o), s, evs).signals
    ensures Run(Current.ResolveOptions(o).value, s, evs).actions == RehomeAll(Run(Legacy.ResolveOptions(o), s, evs).actions)
    decreases |evs|
  {
    if evs != [] {
      var cur := Current.ResolveOptions(o).value;
      var leg := Legacy.ResolveOptions(o);
      StepsAgreeOnExplicitOptions(o, s, evs[0]);
      var oc := Step(cur, s, evs[0]);
      var ol := Step(leg, s, evs[0]);
      RunsAgreeOnExplicitOptions(o, ol.state, evs[1..]);
      var restC := Run(cur, oc.state, evs[1..]);
      var restL := Run(leg, ol.state, evs[1..]);
      assert Run(cur, s, evs).actions == oc.actions + restC.actions;
      assert Run(leg, s, evs).actions == ol.actions + restL.actions;
      RehomeAllAppend(ol.actions, restL.actions);
    }
  }

  /** Renaming the root distributes over concatenation. */
  lemma RehomeAllAppend(a: seq<Action>, b: seq<Action>)
    ensures RehomeAll(a + b) == RehomeAll(a) + RehomeAll(b)
  {
  }

  /** With `asyncDispose` left out, closing differs: the current plugin runs
      the disposer sweep before disposing the container, the legacy plugin
      only disposes its own root. */
  lemma CloseDiffersWhenSweepOptionAbsent(o: Options, s: State)
    requires !Truthy(o.container) && o.injectionMode == Str("CLASSIC")
    requires o.asyncDispose == Undefined && o.disposeOnClose == Undefined
    ensures Current.ResolveOptions(o).Ok?
    ensures Step(Current.ResolveOptions(o).value, s, Close(Resolved)).actions
      == [ExecuteDispose, DisposeContainer(ClassicRoot)]
    ensures Step(Legacy.ResolveOptions(o), s, Close(Resolved)).actions
      == [DisposeContainer(LegacyRoot)]
  {
  }
}
