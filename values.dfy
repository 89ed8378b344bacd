/** The slice of JavaScript's object model the reporter relies on: property
    values, plain objects as maps from property name to value, truthiness,
    and the numeric coercion used by Date subtraction. */
module Values {

  datatype Option<T> = None | Some(value: T)

  /** A property value. `Date(ms)` is a Date object holding milliseconds since
      the epoch; `SpecList(refs)` is the `specs` array of a suite record, whose
      entries are references to spec records, written as their positions in
      the reporter's spec registry. */
  datatype Value =
    | Undefined
    | Null
    | Bool(b: bool)
    | Num(x: real)
    | NaN
    | Str(s: string)
    | Date(ms: int)
    | SpecList(refs: seq<nat>)
    | Obj(fields: map<string, Value>)

  /** A plain object: its own properties. */
  type Record = map<string, Value>

  /** Property read `o.key`: a missing property reads as `undefined`. */
  function Get(o: Record, key: string): (v: Value)
    ensures key !in o ==> v == Undefined
  {
    if key in o then o[key] else Undefined
  }

  /** `Object.assign(target, source)`: every own property of `source` is
      copied onto `target`, overwriting one of the same name. */
  function Assign(target: Record, source: Record): (r: Record)
    ensures r.Keys == target.Keys + source.Keys
    ensures forall k :: k in source ==> r[k] == source[k]
    ensures forall k :: k in target && k !in source ==> r[k] == target[k]
  {
    target + source
  }

  /** JavaScript truthiness, as used by `a || b` and `!a`. */
  predicate Truthy(v: Value) {
    match v
    case Undefined => false
    case Null => false
    case Bool(b) => b
    case Num(x) => x != 0.0
    case NaN => false
    case Str(s) => s != ""
    case _ => true
  }

  /** Numeric coercion of the right operand of `date - v`; `None` is NaN. */
  function ToNumber(v: Value): Option<real> {
    match v
    case Null => Some(0.0)
    case Bool(b) => Some(if b then 1.0 else 0.0)
    case Num(x) => Some(x)
    case Date(ms) => Some(ms as real)
    case _ => None
  }

  /** `(finished - started) / 1000` for a Date `finished` taken at `now`
      milliseconds: the elapsed time in seconds, or NaN when `started` has no
      numeric value (for instance when it was never stamped). */
  function ElapsedSeconds(now: int, started: Value): (d: Value)
    ensures started.Date? ==> d == Num((now - started.ms) as real / 1000.0)
    ensures started.Undefined? ==> d == NaN
  {
    match ToNumber(started)
    case Some(t) => Num((now as real - t) / 1000.0)
    case None => NaN
  }
}
