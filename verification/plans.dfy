/** The data shared by both plugin variants: the options a caller registers
    the plugin with, and the plan the plugin derives from them (which root
    container it exposes, what it hands to the lifecycle manager, and which
    host hooks it installs). */
module Plans {
  import opened JsValues

  /** The container a plan exposes as `diContainer` and creates request
      scopes from: one of the three module-level roots, or a container the
      caller supplied as the `container` option. The current plugin's
      module creates a PROXY and a CLASSIC root; the legacy plugin's module
      creates its own CLASSIC root, a different object. */
  datatype Container =
    | ProxyRoot
    | ClassicRoot
    | LegacyRoot
    | Supplied(value: JsValue)

  /** The host hooks the plugins may install. */
  datatype Hook = OnRequest | OnReady | OnClose | OnResponse

  /** Which plugin produced a plan: the current plugin or the legacy one. */
  datatype Variant = Current | Classic

  /** The flags handed to the lifecycle manager, as JavaScript values. An
      entry the plugin does not pass is `Undefined`. */
  datatype ManagerConfig = ManagerConfig(
    asyncInit: JsValue,
    eagerInject: JsValue,
    asyncDispose: JsValue,
    strictBooleanEnforced: JsValue)

  /** What a successful registration sets up. */
  datatype Plan = Plan(
    variant: Variant,
    container: Container,
    config: ManagerConfig,
    hooks: set<Hook>)

  /** The hooks a plugin installs: the request hook always, the others as
      their conditions say. */
  function InstalledHooks(init: bool, close: bool, response: bool): (hooks: set<Hook>)
    ensures OnRequest in hooks
    ensures OnReady in hooks <==> init
    ensures OnClose in hooks <==> close
    ensures OnResponse in hooks <==> response
  {
    {OnRequest}
    + (if init then {OnReady} else {})
    + (if close then {OnClose} else {})
    + (if response then {OnResponse} else {})
  }

  /** The options object passed at registration; an absent key is
      `Undefined`. */
  datatype Options = Options(
    container: JsValue,
    injectionMode: JsValue,
    asyncInit: JsValue,
    eagerInject: JsValue,
    asyncDispose: JsValue,
    strictBooleanEnforced: JsValue,
    disposeOnResponse: JsValue,
    disposeOnClose: JsValue)

  /** The empty options object `{}`. */
  const NoOptions: Options :=
    Options(Undefined, Undefined, Undefined, Undefined, Undefined, Undefined, Undefined, Undefined)

  /** The error a registration is rejected with. */
  datatype ConfigError = ConfigError(message: string)

  const ContainerWithInjectionMode: string :=
    "If you are passing pre-created container explicitly, you cannot specify injection mode"

  /** Either a value or the error that prevented it. */
  datatype Result<+T, +E> = Ok(value: T) | Err(error: E)
}
