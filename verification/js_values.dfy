/** JavaScript option values, as far as the plugins' option checks can tell
    them apart: nullishness (`??`), truthiness (`&&`, `||`, `if`) and strict
    equality with `true`, `undefined` or a string literal. */
module JsValues {

  /** A JavaScript value. `Num` stands for finite numbers (NaN is not
      modelled); `OtherTruthy` stands for objects, functions, symbols and
      every other value that is always truthy. An option key that is absent
      reads as `Undefined`. */
  datatype JsValue =
    | Undefined
    | Null
    | Bool(b: bool)
    | Num(n: int)
    | Str(s: string)
    | OtherTruthy

  /** JavaScript truthiness: what `if (v)`, `a && b` and `a || b` test. */
  predicate Truthy(v: JsValue) {
    match v
    case Undefined => false
    case Null => false
    case Bool(b) => b
    case Num(n) => n != 0
    case Str(s) => s != ""
    case OtherTruthy => true
  }

  /** The values the nullish-coalescing operator `??` replaces. */
  predicate Nullish(v: JsValue) {
    v.Undefined? || v.Null?
  }

  /** `v ?? fallback`. */
  function Coalesce(v: JsValue, fallback: JsValue): JsValue {
    if Nullish(v) then fallback else v
  }

  /** `v === true || v === undefined`: the test both plugins apply to
      `disposeOnResponse` and `disposeOnClose`. */
  predicate TrueOrUndefined(v: JsValue) {
    v == Bool(true) || v.Undefined?
  }

  /** `v ?? true` is truthy exactly when the caller did not switch the option
      off with a non-nullish falsy value; an explicit value, `false` included,
      is kept as it is. */
  lemma CoalesceTrueKeepsExplicitValues(v: JsValue)
    ensures Truthy(Coalesce(v, Bool(true))) <==> Nullish(v) || Truthy(v)
    ensures !Nullish(v) ==> Coalesce(v, Bool(true)) == v
  {
  }

  /** The two defaulting rules disagree exactly on `null` (which `??`
      defaults to true but `=== true || === undefined` rejects) and on truthy
      values other than `true` itself (which `??` keeps and the strict test
      rejects). */
  lemma DefaultingRulesDiffer(v: JsValue)
    ensures (Truthy(Coalesce(v, Bool(true))) != TrueOrUndefined(v)) <==>
      v == Null || (Truthy(v) && v != Bool(true))
  {
  }
}
