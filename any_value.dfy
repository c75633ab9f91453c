/** The type-erased holder `Any` that carries a task's output back to its
    submitter. The source stores a `Derived<T>` behind a `Base` pointer and
    retrieves it with an unchecked `dynamic_cast`; here the payload is a tagged
    value and a retrieval at the wrong type is an explicit `BadCast` outcome. */
module AnyValue {

  /** C++ `int` and `unsigned long long` (`uLong`) as the program uses them. */
  type int32 = x: int | -0x8000_0000 <= x < 0x8000_0000
  type uint64 = x: int | 0 <= x < 0x1_0000_0000_0000_0000

  /** The payload types that appear in the program: `int` (the usage comment),
      `uLong` (the range-sum task) and `const char*` (the rejection sentinel). */
  datatype TypeTag = IntTag | ULongTag | CStringTag

  datatype Value =
    | IntValue(i: int32)
    | ULongValue(u: uint64)
    | CStringValue(s: string)

  /** `Empty` is a default-constructed `Any` (null `data`) or one whose value
      has been moved out. */
  datatype Any = Empty | Holding(value: Value)

  datatype Retrieved = Retrieved(value: Value) | BadCast

  function TagOf(v: Value): TypeTag
  {
    match v
    case IntValue(_) => IntTag
    case ULongValue(_) => ULongTag
    case CStringValue(_) => CStringTag
  }

  /** The converting constructor `Any(T v)`. */
  function Of(v: Value): (a: Any)
    ensures a != Empty
  {
    Holding(v)
  }

  /** What `Result::get` hands back for a rejected submission: `Any("")`. */
  const Sentinel: Any := Of(CStringValue(""))

  /** `cast_<T>()`: succeeds exactly when the holder was built from a value of
      type `t`, and then gives back that very value. */
  function Cast(a: Any, t: TypeTag): (r: Retrieved)
    ensures r.Retrieved? <==> a.Holding? && TagOf(a.value) == t
    ensures r.Retrieved? ==> Of(r.value) == a && TagOf(r.value) == t
  {
    match a
    case Holding(v) => if TagOf(v) == t then Retrieved(v) else BadCast
    case Empty => BadCast
  }

  /** Round trip: `Any a(v); a.cast_<T>()` yields `v` when `T` is `v`'s type,
      and is refused at every other type. */
  lemma CastOfRoundTrip(v: Value, t: TypeTag)
    ensures Cast(Of(v), t) == if t == TagOf(v) then Retrieved(v) else BadCast
  {
  }

  /** A moved-from (or default) holder cannot be retrieved at any type. */
  lemma CastOfEmptyFails(t: TypeTag)
    ensures Cast(Empty, t) == BadCast
  {
  }
}
