/** Option resolution of the current plugin: one pure function from the
    registration options to either a configuration error or a plan. */
module FastifyAwilixPlugin {
  import opened JsValues
  import opened Plans

  /** Enabled unless the caller switched the option off with a falsy,
      non-nullish value: the meaning of `option ?? true` in a test. */
  predicate OnUnlessSwitchedOff(v: JsValue) {
    Nullish(v) || Truthy(v)
  }

  /** Registers the plugin with options `o`.

      A registration is rejected iff both `container` and `injectionMode`
      are truthy; a rejected registration carries no plan, so it decorates
      nothing and installs no hook. Otherwise a supplied container wins, then
      `injectionMode === 'CLASSIC'` selects the CLASSIC root, and every other
      mode selects the PROXY root. The four manager flags default to `true`
      only when nullish. The init hook is installed iff either resolved
      init flag is truthy; the close and response hooks are installed iff
      their option is exactly `true` or `undefined`. */
  function ResolveOptions(o: Options): (r: Result<Plan, ConfigError>)
    ensures r.Err? <==> Truthy(o.container) && Truthy(o.injectionMode)
    ensures r.Err? ==> r.error.message == ContainerWithInjectionMode
    ensures r.Ok? ==> r.value.variant == Current
    // container selection
    ensures r.Ok? && Truthy(o.container) ==> r.value.container == Supplied(o.container)
    ensures r.Ok? && !Truthy(o.container) ==>
      (r.value.container == ClassicRoot <==> o.injectionMode == Str("CLASSIC"))
    ensures r.Ok? && !Truthy(o.container) ==> r.value.container in {ProxyRoot, ClassicRoot}
    // nullish defaulting of the manager flags: `true` only from a nullish or
    // a literal `true` option, and every explicit value kept as it is
    ensures r.Ok? ==> (r.value.config.asyncInit == Bool(true) <==> Nullish(o.asyncInit) || o.asyncInit == Bool(true))
    ensures r.Ok? ==> (r.value.config.eagerInject == Bool(true) <==> Nullish(o.eagerInject) || o.eagerInject == Bool(true))
    ensures r.Ok? ==> (r.value.config.asyncDispose == Bool(true) <==> Nullish(o.asyncDispose) || o.asyncDispose == Bool(true))
    ensures r.Ok? ==>
      (r.value.config.strictBooleanEnforced == Bool(true) <==>
        Nullish(o.strictBooleanEnforced) || o.strictBooleanEnforced == Bool(true))
    ensures r.Ok? && !Nullish(o.asyncInit) ==> r.value.config.asyncInit == o.asyncInit
    ensures r.Ok? && !Nullish(o.eagerInject) ==> r.value.config.eagerInject == o.eagerInject
    ensures r.Ok? && !Nullish(o.asyncDispose) ==> r.value.config.asyncDispose == o.asyncDispose
    ensures r.Ok? && !Nullish(o.strictBooleanEnforced) ==>
      r.value.config.strictBooleanEnforced == o.strictBooleanEnforced
    // hook installation
    ensures r.Ok? ==> OnRequest in r.value.hooks
    ensures r.Ok? ==>
      (OnReady in r.value.hooks <==> OnUnlessSwitchedOff(o.asyncInit) || OnUnlessSwitchedOff(o.eagerInject))
    ensures r.Ok? ==> (OnClose in r.value.hooks <==> TrueOrUndefined(o.disposeOnClose))
    ensures r.Ok? ==> (OnResponse in r.value.hooks <==> TrueOrUndefined(o.disposeOnResponse))
  {
    var asyncInitEnabled := Coalesce(o.asyncInit, Bool(true));
    var eagerInjectEnabled := Coalesce(o.eagerInject, Bool(true));
    var asyncDisposeEnabled := Coalesce(o.asyncDispose, Bool(true));
    var strictBooleanEnforced := Coalesce(o.strictBooleanEnforced, Bool(true));
    if Truthy(o.container) && Truthy(o.injectionMode) then
      Err(ConfigError(ContainerWithInjectionMode))
    else
      var container :=
        if Truthy(o.container) then Supplied(o.container)
        else if o.injectionMode == Str("CLASSIC") then ClassicRoot
        else ProxyRoot;
      var config := ManagerConfig(asyncInitEnabled, eagerInjectEnabled, asyncDisposeEnabled, strictBooleanEnforced);
      var hooks := InstalledHooks(
        Truthy(asyncInitEnabled) || Truthy(eagerInjectEnabled),
        TrueOrUndefined(o.disposeOnClose),
        TrueOrUndefined(o.disposeOnResponse));
      Ok(Plan(Current, container, config, hooks))
  }

  /** Under the empty options every hook is installed, the PROXY root is
      used and every manager flag is `true`. */
  lemma DefaultsEnableEverything()
    ensures ResolveOptions(NoOptions).Ok?
    ensures ResolveOptions(NoOptions).value.container == ProxyRoot
    ensures ResolveOptions(NoOptions).value.hooks == {OnRequest, OnReady, OnClose, OnResponse}
    ensures ResolveOptions(NoOptions).value.config == ManagerConfig(Bool(true), Bool(true), Bool(true), Bool(true))
  {
  }

  /** `null` enables the init hook (through `??`) but disables per-response
      and per-close disposal (through `=== true || === undefined`). */
  lemma NullSplitsTheDefaults(o: Options)
    requires !Truthy(o.container)
    requires o.asyncInit == Null && o.disposeOnResponse == Null && o.disposeOnClose == Null
    ensures ResolveOptions(o).Ok?
    ensures OnReady in ResolveOptions(o).value.hooks
    ensures OnResponse !in ResolveOptions(o).value.hooks
    ensures OnClose !in ResolveOptions(o).value.hooks
  {
  }

  /** `injectionMode: 'PROXY'`, an unknown mode and an absent mode all select
      the PROXY root when no container is supplied. */
  lemma OnlyClassicModeSelectsClassicRoot(o: Options)
    requires !Truthy(o.container)
    requires o.injectionMode != Str("CLASSIC")
    ensures ResolveOptions(o).Ok?
    ensures ResolveOptions(o).value.container == ProxyRoot
  {
  }
}
