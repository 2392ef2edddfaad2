/** Option resolution of the legacy plugin. It has no configuration error and
    no container choice, and it passes the manager flags through without
    defaulting them. */
module ClassicPlugin {
  import opened JsValues
  import opened Plans

  /** Registers the legacy plugin with options `o`. The plan always uses
      the legacy module's own CLASSIC root, whatever `container` and `injectionMode` say. The
      manager receives `asyncInit`, `eagerInject` and `asyncDispose`
      unchanged and no strict-boolean flag. The init hook is installed iff
      the raw `asyncInit || eagerInject` is truthy. The close and response
      hooks follow the same "exactly `true` or `undefined`" rule as the
      current plugin. */
  function ResolveOptions(o: Options): (p: Plan)
    ensures p.variant == Classic
    ensures p.container == LegacyRoot
    ensures p.config.asyncInit == o.asyncInit
    ensures p.config.eagerInject == o.eagerInject
    ensures p.config.asyncDispose == o.asyncDispose
    ensures p.config.strictBooleanEnforced == Undefined
    ensures OnRequest in p.hooks
    ensures OnReady in p.hooks <==> Truthy(o.asyncInit) || Truthy(o.eagerInject)
    ensures OnClose in p.hooks <==> TrueOrUndefined(o.disposeOnClose)
    ensures OnResponse in p.hooks <==> TrueOrUndefined(o.disposeOnResponse)
  {
    var config := ManagerConfig(o.asyncInit, o.eagerInject, o.asyncDispose, Undefined);
    var hooks := InstalledHooks(
      Truthy(o.asyncInit) || Truthy(o.eagerInject),
      TrueOrUndefined(o.disposeOnClose),
      TrueOrUndefined(o.disposeOnResponse));
    Plan(Classic, LegacyRoot, config, hooks)
  }

  /** Under the empty options the legacy plugin installs no init hook and
      does not enable the disposer sweep on close. */
  lemma DefaultsSkipInitAndSweep()
    ensures OnReady !in ResolveOptions(NoOptions).hooks
    ensures !Truthy(ResolveOptions(NoOptions).config.asyncDispose)
    ensures ResolveOptions(NoOptions).hooks == {OnRequest, OnClose, OnResponse}
  {
  }
}
