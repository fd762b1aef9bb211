/** The Either union of folktale (src/data/either/core.js): two variants, `Left`
    and `Right`, each holding one field, with the Setoid (`equals`), Functor
    (`map`), Apply (`ap`), Applicative (`of`) and Chain (`chain`) operations and
    the textual and JSON representations. Every operation dispatches on the
    receiver's variant; none changes an existing value. */
module EitherCore {
  import opened Wrappers

  /** An Either value. JavaScript calls the single field `value` in both
      variants; Dafny wants one type per shared field name, so the field is
      `left` in a `Left` and `right` in a `Right`. */
  datatype Either<L, R> = Left(left: L) | Right(right: R)

  /** What a caller hands to `map` or `chain` as the transformation: a function,
      or any other JavaScript value. A non-function is only ever interpolated
      into the error message, so it is kept as its string form. */
  datatype Transformation<-A, B> = Fn(apply: A -> B) | NotFn(shown: string)

  /** The `TypeError` that `assertFunction` throws: the method that rejected
      its argument and the string form of that argument. */
  datatype TypeError = TypeError(methodName: string, given: string) {

    /** The error's message text. */
    function Message(): (m: string)
      ensures |m| > |methodName| + |given|
      ensures m[..|methodName|] == methodName
      ensures m[|methodName|..|m| - 1 - |given|] == " expects a function, but was given "
      ensures m[|m| - 1 - |given|..|m| - 1] == given
      ensures m[|m| - 1] == '.'
    {
      methodName + " expects a function, but was given " + given + "."
    }
  }

  /** How a call ends: it returns a value, or it throws a `TypeError`. */
  datatype Completion<T> = Return(value: T) | Throw(error: TypeError)

  /** The variant's name as it appears in method names and type tags. */
  function VariantName<L, R>(e: Either<L, R>): string {
    if e.Left? then "Left" else "Right"
  }

  /** The qualified name of the receiver's implementation of `op`, e.g.
      `Either.Left#map`; `assertFunction` reports this name. */
  function MethodName<L, R>(e: Either<L, R>, op: string): string {
    "Either." + VariantName(e) + "#" + op
  }

  /** `this.value` of an Either whose two fields range over one universe `V`,
      as every JavaScript Either's do. */
  function Value<V>(e: Either<V, V>): V {
    match e
    case Left(x) => x
    case Right(x) => x
  }

  // -- assertFunction ---------------------------------------------------

  /** `assertFunction(name, transformation)`: nothing when the argument is a
      function, otherwise the `TypeError` naming the method `name` and the argument. */
  function AssertFunction<A, B>(name: string, f: Transformation<A, B>): (r: Option<TypeError>)
    ensures r.None? <==> f.Fn?
    ensures r.Some? ==> r.value.methodName == name && r.value.given == f.shown
  {
    if f.Fn? then None else Some(TypeError(name, f.shown))
  }

  // -- Setoid -----------------------------------------------------------

  /** `e.equals(other)`: the same variant and `===`-equal fields, which on an
      equality-supporting field type is exactly equality of the two values. */
  function Equals<L(==), R(==)>(e: Either<L, R>, other: Either<L, R>): (r: bool)
    ensures r <==> e == other
    ensures e.Left? != other.Left? ==> !r
  {
    match e
    case Left(x) => other.Left? && other.left == x
    case Right(x) => other.Right? && other.right == x
  }

  // -- Functor ----------------------------------------------------------

  /** `e.map(f)`. The argument is checked first, on both variants; then a
      `Left` returns itself and a `Right` wraps the transformed field. */
  function Map<L, R, S>(e: Either<L, R>, f: Transformation<R, S>): (r: Completion<Either<L, S>>)
    ensures r.Throw? <==> f.NotFn?
    ensures r.Throw? ==> r.error == TypeError(MethodName(e, "map"), f.shown)
    ensures r.Return? ==> (r.value.Left? <==> e.Left?)
    ensures r.Return? && e.Left? ==> r.value.left == e.left
    ensures r.Return? && e.Right? ==> r.value.right == f.apply(e.right)
  {
    match e
    case Left(x) =>
      (match AssertFunction("Either.Left#map", f)
       case Some(err) => Throw(err)
       case None => Return(Left(x)))
    case Right(x) =>
      (match AssertFunction("Either.Right#map", f)
       case Some(err) => Throw(err)
       case None => Return(Right(f.apply(x))))
  }

  // -- Apply ------------------------------------------------------------

  /** `e.ap(other)`, with the function in the receiver: a `Left` returns
      itself; a `Right` hands its field to `other.map`, so a field that is not
      a function draws the error of `other`'s own `map`. */
  function Ap<L, A, B>(e: Either<L, Transformation<A, B>>, other: Either<L, A>): (r: Completion<Either<L, B>>)
    ensures e.Left? ==> r == Return(Left(e.left))
    ensures e.Right? && e.right.Fn? && other.Right? ==> r == Return(Right(e.right.apply(other.right)))
    ensures e.Right? && e.right.Fn? && other.Left? ==> r == Return(Left(other.left))
    ensures e.Right? && e.right.NotFn? ==> r == Throw(TypeError(MethodName(other, "map"), e.right.shown))
  {
    match e
    case Left(x) => Return(Left(x))
    case Right(f) => Map(other, f)
  }

  // -- Applicative ------------------------------------------------------

  /** `Either.of`, which is the `Right` constructor itself. */
  function Of<L, R>(x: R): (r: Either<L, R>)
    ensures r.Right? && r.right == x
  {
    Right(x)
  }

  // -- Chain ------------------------------------------------------------

  /** `e.chain(f)`. The argument is checked first, on both variants; then a
      `Left` returns itself and a `Right` returns `f`'s result as it is, which
      may be a `Left`. */
  function Chain<L, R, S>(e: Either<L, R>, f: Transformation<R, Either<L, S>>): (r: Completion<Either<L, S>>)
    ensures r.Throw? <==> f.NotFn?
    ensures r.Throw? ==> r.error == TypeError(MethodName(e, "chain"), f.shown)
    ensures r.Return? && e.Left? ==> r.value == Left(e.left)
    ensures r.Return? && e.Right? ==> r.value == f.apply(e.right)
  {
    match e
    case Left(x) =>
      (match AssertFunction("Either.Left#chain", f)
       case Some(err) => Throw(err)
       case None => Return(Left(x)))
    case Right(x) =>
      (match AssertFunction("Either.Right#chain", f)
       case Some(err) => Throw(err)
       case None => Return(f.apply(x)))
  }

  // -- Show -------------------------------------------------------------

  /** `Either.toString()`, the display name of the union itself. */
  const TypeDisplayName := "(folktale) Either"

  const LeftShowPrefix := "(folktale) Either.Left("
  const RightShowPrefix := "(folktale) Either.Right("

  /** `e.toString()`. `show` stands for JavaScript's string coercion of the
      field inside the template literal. */
  function ToString<V>(e: Either<V, V>, show: V -> string): (s: string)
    ensures |s| > |TypeDisplayName| + |show(Value(e))|
    ensures s[..|TypeDisplayName|] == TypeDisplayName
    ensures |s| == |TypeDisplayName| + |VariantName(e)| + 3 + |show(Value(e))|
    ensures s[|TypeDisplayName|..|TypeDisplayName| + |VariantName(e)| + 2] == "." + VariantName(e) + "("
    ensures s[|TypeDisplayName| + |VariantName(e)| + 2..|s| - 1] == show(Value(e))
    ensures s[|s| - 1] == ')'
  {
    match e
    case Left(x) => "(folktale) Either.Left(" + show(x) + ")"
    case Right(x) => "(folktale) Either.Right(" + show(x) + ")"
  }

  /** Reads a string of the shape `toString` produces back into the variant's
      name and the shown field; anything else reads as `None`. */
  function ReadShown(s: string): Option<(string, string)> {
    if |s| > |LeftShowPrefix| && s[..|LeftShowPrefix|] == LeftShowPrefix && s[|s| - 1] == ')' then
      Some(("Left", s[|LeftShowPrefix|..|s| - 1]))
    else if |s| > |RightShowPrefix| && s[..|RightShowPrefix|] == RightShowPrefix && s[|s| - 1] == ')' then
      Some(("Right", s[|RightShowPrefix|..|s| - 1]))
    else
      None
  }

  // -- JSON conversions -------------------------------------------------

  /** The record `toJSON` returns: its `'#type'` entry and its `value` entry. */
  datatype JsonRecord<V> = JsonRecord(typeName: string, value: V)

  /** `e.toJSON()`: the variant's qualified type tag and the unmodified field. */
  function ToJSON<V>(e: Either<V, V>): (j: JsonRecord<V>)
    ensures j.value == Value(e)
    ensures j.typeName == "folktale:Either." + VariantName(e)
  {
    match e
    case Left(x) => JsonRecord("folktale:Either.Left", x)
    case Right(x) => JsonRecord("folktale:Either.Right", x)
  }

  /** Rebuilds an Either from a record of the shape `toJSON` produces; a record
      with any other type tag reads as `None`. */
  function FromJSON<V>(j: JsonRecord<V>): Option<Either<V, V>> {
    if j.typeName == "folktale:Either.Left" then Some(Left(j.value))
    else if j.typeName == "folktale:Either.Right" then Some(Right(j.value))
    else None
  }
}
