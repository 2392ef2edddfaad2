/** The response hook of both plugins calls `done` only when the request
    holds a scope. A request whose own request hook never ran (an earlier
    hook already replied) therefore never completes its response hooks: the
    hooks after this one and the host's completion step are skipped. The
    model uses the corrected hook, which signals `done` in every branch. */
module ResponseHookFinding {
  import opened JsValues
  import opened Plans
  import opened Lifecycle
  import Current = FastifyAwilixPlugin
  import Legacy = ClassicPlugin

  /** As written, the hook hangs exactly for requests without a scope; the
      corrected hook takes the same disposal decision and always signals. */
  lemma AsWrittenHangsWithoutScope(p: Plan, s: State, req: RequestId)
    requires OnResponse in p.hooks
    ensures ResponseHookAsWritten(p, s, req).signal == Hung <==> req !in s.scopes
    ensures ResponseHook(p, s, req).signal == Done
    ensures ResponseHook(p, s, req).actions == ResponseHookAsWritten(p, s, req).actions
  {
  }

  /** A concrete input: either plugin under its default options, and a
      response for request 0 before any scope was created. */
  lemma EarlyReplyHangsResponseHook()
    ensures Current.ResolveOptions(NoOptions).Ok?
    ensures ResponseHookAsWritten(Current.ResolveOptions(NoOptions).value, Initial, 0).signal == Hung
    ensures ResponseHookAsWritten(Legacy.ResolveOptions(NoOptions), Initial, 0).signal == Hung
    ensures Step(Current.ResolveOptions(NoOptions).value, Initial, ResponseSent(0)) == StepResult(Initial, [], Done)
    ensures Step(Legacy.ResolveOptions(NoOptions), Initial, ResponseSent(0)) == StepResult(Initial, [], Done)
  {
  }
}
