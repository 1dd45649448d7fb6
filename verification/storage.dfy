/**
 The shield's key-value storage as the engine sees it, and the outcome of
 a request.

 Storage values are abstracted by how the engine's JavaScript treats them:
 its truthiness, what `Number(v)` yields, and, for objects, whether `count`
 and `time` are numbers. A missing key and a stored `null` both read back as
 `None`.
 */
module Storage {
  import opened Options

  datatype Value =
    /**
     An object. `count` is `None` when that field is absent, `undefined` or
     `NaN`; `time` is `None` when it is absent or `undefined`. A `NaN` time
     (which the engine never writes: every `time` it stores is `now` or a
     copy of a stored `time`) and `null` fields are not represented.
     */
    | Record(count: Option<int>, time: Option<int>)
    /** A number or boolean `n` (`false` reads as 0, `true` as 1); the empty string behaves exactly like 0. */
    | Num(n: int)
    /** A non-empty string that `Number()` reads as `n`, such as `"0"` or `"1700000000000"`. */
    | NumText(n: int)
    /** A non-empty string that `Number()` reads as `NaN`. */
    | Text
    /** The number `NaN`. */
    | NotANumber

  type Store = map<string, Value>

  /** The well-formed `RateLimit` record `{count, time}`. */
  function Counter(count: int, time: int): (v: Value)
    ensures v.Record? && v.count == Some(count) && v.time == Some(time)
  {
    Record(Some(count), Some(time))
  }

  /** `getItem`: the value stored under `key`, `None` for a missing key. */
  function Get(store: Store, key: string): (v: Option<Value>)
    ensures v.Some? <==> key in store
    ensures v.Some? ==> v.value == store[key]
  {
    if key in store then Some(store[key]) else None
  }

  /** JavaScript truthiness of a stored value. */
  predicate Truthy(v: Option<Value>) {
    match v
    case None => false
    case Some(Num(n)) => n != 0
    case Some(NotANumber) => false
    case Some(_) => true
  }

  /** `Number(v)`, with `None` standing for `NaN`. */
  function ToNumber(v: Value): (n: Option<int>)
    ensures n.Some? <==> v.Num? || v.NumText?
  {
    match v
    case Num(n) => Some(n)
    case NumText(n) => Some(n)
    case _ => None
  }

  /** A value that is not an object: property writes on it throw in strict-mode code. */
  predicate IsPrimitive(v: Value) {
    !v.Record?
  }

  /** The answer to one request: let it through, reject it with 429 (and maybe a Retry-After in seconds), or fail with an uncaught error. */
  datatype Verdict = Allow | Reject(retryAfter: Option<int>) | Fault

  /** A transition: the store after the request and the request's verdict. */
  datatype Step = Step(store: Store, verdict: Verdict)

  /** `removeItem`. */
  function Remove(store: Store, key: string): (s: Store)
    ensures Get(s, key).None?
    ensures forall k :: k != key ==> Get(s, k) == Get(store, k)
  {
    store - {key}
  }
}
