# folktale's Either and toPairs, modelled in Dafny

This project models two pieces of the folktale library.

**Either** (`src/data/either/core.js`) is a closed union with two variants,
`Left(value)` and `Right(value)`. Each variant implements the Setoid
(`equals`), Functor (`map`), Apply (`ap`) and Chain (`chain`) operations. The
union itself provides `of`, and every value has a `toString` and a `toJSON`
representation. The receiver's variant picks the implementation. A `Left`
returns itself from `map`, `ap` and `chain`. A `Right` applies the
transformation. `map` and `chain` throw a `TypeError` when their argument is
not a function. They check this first, on both variants, so even a `Left`
throws.

**toPairs** (`src/core/object/to-pairs.js`) computes
`Object.keys(object).map(k => [k, object[k]])`: the `[key, value]` pairs of an
object's own enumerable properties, in no promised order.

Files:

- `wrappers.dfy`: `Option`, the optional value both modules use.
- `either_core.dfy` (module `EitherCore`): the `Either` datatype and the
  operations, one function per operation family. Each function dispatches on
  the variant the way the prototype methods do.
- `either_laws.dfy` (module `EitherLaws`): the Setoid, Functor, Apply,
  Applicative and Chain laws. Also the facts that let the variant and the
  field be read back from `toString` and `toJSON`, and the literal cases.
- `to_pairs.dfy` (module `ObjectToPairs`): a small model of a JavaScript
  object, with own properties that carry an enumerable flag and an optional
  prototype. On top of it: `Object.keys`, `object[key]`, `toPairs`, and the
  lemmas about its result, stated as multiset and set facts.

How the model represents the source:

- A JavaScript Either has one field named `value`. Dafny does not allow one
  field name with two types, so `Either<L, R>` has the field `left` in a
  `Left` and `right` in a `Right`. `Value(e)` reads the field of an
  `Either<V, V>`, where both fields come from the same set of values `V`, as
  every JavaScript Either's do. `toString` and `toJSON` are modelled on
  `Either<V, V>`.
- A transformation argument is a `Transformation<A, B>`. It is either
  `Fn(f)` or `NotFn(shown)`. `shown` is the string form of a non-function,
  which is the only thing the source does with it: it puts it in the error
  message.
- A call that can throw returns a `Completion<T>`: `Return(value)` or
  `Throw(TypeError(methodName, given))`. The method names are the source's
  own, e.g. `Either.Left#map`.
- `ap` keeps the source's convention: the function is in the receiver
  (`Right(f).ap(e)` is `e.map(f)`). So when a `Right`'s field is not a
  function, the error comes from the argument's `map` and names the
  argument's variant. The model follows that code, not a stand-alone
  check in `ap`.
- `toPairs` returns the keys in the order `Object.keys` reports, and that
  order is not fixed. `ObjectKeys` therefore picks an arbitrary order.
  That makes `ObjectKeys` and `ToPairs` ghost functions. What is proved about
  them holds for every order.
- `FromPairs`, the map a list of pairs describes, is defined here only to
  state that `toPairs` loses nothing. folktale's own `fromPairs` is not part
  of this model.

## Model

| member | source | states |
|---|---|---|
| `EitherCore.AssertFunction` | src/data/either/core.js:55-59 | no error exactly when the argument is a function; otherwise a `TypeError` naming the given method and the argument |
| `EitherCore.TypeError.Message` | src/data/either/core.js:57 | the message is the rejecting method's name, then ` expects a function, but was given `, then the argument's text, then a full stop |
| `EitherCore.Equals` | src/data/either/core.js:69-77 | `equals` is true exactly when both values are the same variant with equal fields; a `Left` never equals a `Right` |
| `EitherCore.Map` | src/data/either/core.js:81-89 | throws exactly when the argument is not a function, naming the receiver's `map` (`Either.Left#map` / `Either.Right#map`); otherwise keeps the variant, keeps a `Left`'s field and applies the function to a `Right`'s |
| `EitherCore.Ap` | src/data/either/core.js:92-100 | a `Left` receiver comes back unchanged; `Right(f)` with `Right(y)` gives `Right(f(y))`, with `Left(y)` gives `Left(y)`; a non-function field throws the argument's own `map` error |
| `EitherCore.Of` | src/data/either/core.js:104 | `of(x)` is `Right(x)` |
| `EitherCore.Chain` | src/data/either/core.js:108-116 | throws exactly when the argument is not a function, naming the receiver's `chain`; otherwise a `Left` comes back unchanged and a `Right(x)` gives `f(x)` as it is |
| `EitherCore.ToString` | src/data/either/core.js:128-134 | the text is the union's display name `(folktale) Either`, then `.`, the variant's name and `(`, then exactly the shown field, then `)` |
| `EitherCore.ToJSON` | src/data/either/core.js:146-158 | the record's `#type` is `folktale:Either.` followed by the variant's name, and its `value` is the unmodified field |
| `EitherLaws.EqualsReflexive` | src/data/either/core.js:69-77 | every Either equals itself |
| `EitherLaws.EqualsSymmetric` | src/data/either/core.js:69-77 | `a.equals(b)` and `b.equals(a)` agree |
| `EitherLaws.EqualsTransitive` | src/data/either/core.js:69-77 | `equals` is transitive |
| `EitherLaws.EqualsSeparatesVariants` | src/data/either/core.js:69-77 | `Left(x).equals(Right(y))` and `Right(y).equals(Left(x))` are both false |
| `EitherLaws.MapIdentity` | src/data/either/core.js:81-89 | mapping the identity function returns the same Either |
| `EitherLaws.MapComposition` | src/data/either/core.js:81-89 | mapping `f` and then `g` equals mapping their composition |
| `EitherLaws.MapRejectsNonFunction` | src/data/either/core.js:81-89 | `map` of a non-function throws on both variants, naming `Either.Left#map` or `Either.Right#map` |
| `EitherLaws.LeftAbsorbs` | src/data/either/core.js:81-111 | `Left(x)` comes back unchanged from `map` and `chain` with any function and from `ap` with any Either |
| `EitherLaws.ApDelegatesToMap` | src/data/either/core.js:97-100 | `Right(f).ap(e)` is `e.map(f)`, errors included |
| `EitherLaws.ApIdentity` | src/data/either/core.js:92-104 | `of(identity).ap(v)` is `v` |
| `EitherLaws.ApHomomorphism` | src/data/either/core.js:97-104 | `of(f).ap(of(x))` is `of(f(x))` |
| `EitherLaws.ApRejectsNonFunction` | src/data/either/core.js:97-100 | `Right(nonFunction).ap(e)` throws, naming `Either.Left#map` or `Either.Right#map` after the argument's variant |
| `EitherLaws.ChainLeftIdentity` | src/data/either/core.js:104-116 | `of(x).chain(f)` is `f(x)` |
| `EitherLaws.ChainRightIdentity` | src/data/either/core.js:104-116 | `e.chain(of)` is `e` |
| `EitherLaws.ChainAssociative` | src/data/either/core.js:108-116 | `e.chain(f).chain(g)` is `e.chain(v => f(v).chain(g))` |
| `EitherLaws.ChainCanSwitchToLeft` | src/data/either/core.js:113-116 | `chain` does not wrap the result again, so a `Right` can become a `Left` |
| `EitherLaws.MapIsChainOf` | src/data/either/core.js:81-116 | `e.map(f)` is `e.chain(x => of(f(x)))` |
| `EitherLaws.ChainRejectsNonFunction` | src/data/either/core.js:108-116 | `chain` of a non-function throws on both variants, naming `Either.Left#chain` or `Either.Right#chain` |
| `EitherLaws.TypeDisplayNameStartsToString` | src/data/either/core.js:127-134 | the union's own `Either.toString()` text, `(folktale) Either`, begins every instance's text and is never an instance's text |
| `EitherLaws.ReadShownToString` | src/data/either/core.js:128-134 | the variant's name and the shown field can be read back from `toString` |
| `EitherLaws.ToStringInjective` | src/data/either/core.js:128-134 | with an injective string coercion, equal texts come from equal Eithers |
| `EitherLaws.ToStringSeparatesVariants` | src/data/either/core.js:128-134 | a `Left` and a `Right` never print the same |
| `EitherLaws.FromJSONToJSON` | src/data/either/core.js:146-158 | the Either can be rebuilt from its JSON record |
| `EitherLaws.ToJSONInjective` | src/data/either/core.js:146-158 | different Eithers give different JSON records |
| `EitherLaws.ApExamples` | src/data/either/core.js:92-100 | `Right(x => x + 1).ap(Right(41))` is `Right(42)`; `.ap(Left("e"))` is `Left("e")`; `Left("e").ap(Right(1))` is `Left("e")` |
| `EitherLaws.EqualsAndJSONExamples` | src/data/either/core.js:69-158 | `Left(1)` and `Right(1)` are unequal both ways; `Right(1)` equals `Right(1)`; the JSON records of `Right(5)` and `Left("err")` |
| `ObjectToPairs.Get` | src/core/object/to-pairs.js:13 | `object[k]` reads an own property in preference to an inherited one; otherwise it reads the prototype's `object[k]`, and is `undefined` when there is no prototype |
| `ObjectToPairs.OwnEnumerable` | src/core/object/to-pairs.js:13 | the own enumerable properties as a map whose keys are exactly the own enumerable keys |
| `ObjectToPairs.ObjectKeys` | src/core/object/to-pairs.js:13 | `Object.keys` lists each own enumerable key exactly once, and no other key |
| `ObjectToPairs.ToPairs` | src/core/object/to-pairs.js:13 | one pair per own enumerable key; each pair's key is own and enumerable and its value is that property's value; the keys are `Object.keys`'s |
| `ObjectToPairs.ToPairsKeysExactlyOnce` | src/core/object/to-pairs.js:13 | every own enumerable key occurs exactly once among the pairs' keys, and no other key occurs |
| `ObjectToPairs.ToPairsDistinct` | src/core/object/to-pairs.js:13 | no pair occurs twice in the result |
| `ObjectToPairs.ToPairsMembers` | src/core/object/to-pairs.js:13 | a pair is in the result exactly when it is an own enumerable property's key and value |
| `ObjectToPairs.ToPairsIsOwnEntries` | src/core/object/to-pairs.js:13 | as a multiset, the result is exactly the set of own enumerable entries, each once |
| `ObjectToPairs.ToPairsOmitsOtherKeys` | src/core/object/to-pairs.js:43-57 | inherited and non-enumerable properties never appear in the result |
| `ObjectToPairs.ToPairsEmpty` | src/core/object/to-pairs.js:13 | the result is empty exactly when the object has no own enumerable key |
| `ObjectToPairs.FromPairs` | src/core/object/to-pairs.js:13 | an inverse defined only to state the round trip (it models no source line): the keys of the map built from pairs are exactly the pairs' first components |
| `ObjectToPairs.FromPairsToPairsKeys` | src/core/object/to-pairs.js:13 | the map rebuilt from `toPairs` has exactly the own enumerable keys |
| `ObjectToPairs.FromPairsToPairsAt` | src/core/object/to-pairs.js:13 | at each own enumerable key, the map rebuilt from `toPairs` holds that property's value |
| `ObjectToPairs.FromPairsToPairs` | src/core/object/to-pairs.js:13 | the map rebuilt from `toPairs` is the object's own enumerable properties, whatever order `Object.keys` chose |

## Left out

- The soft diagnostic `assertType` / `assertEither` (src/data/either/core.js:13-53, 61) is left out. It reads `process.env.NODE_ENV`, tests `isPrototypeOf` and writes to `console.warn`. For an Either argument it never changes a result, and with a Dafny datatype the argument of `equals` and `ap` is always an Either. For a non-Either argument outside production mode, the warning's template literal coerces that argument to a string (src/data/either/core.js:16), which throws a `TypeError` for a Symbol or a null-prototype object. That throw is not modelled.
- The ADT factory `folktale/core/adt` is not part of this model. `Left` and `Right` are datatype constructors. The discriminators `Left?` and `Right?` stand for `isLeft` and `isRight`, and Dafny makes them exclusive.
- The fantasy-land keys and the `inspect` aliases (src/data/either/core.js:2, 137-139) are left out. They are names under which the same functions are registered.
- `Symbol.toStringTag` (src/data/either/core.js:122-124) is left out. It holds the strings `'(folktale) Either'`, `'(folktale) Either.Left'` and `'(folktale) Either.Right'`, which `Object.prototype.toString` reports as `[object (folktale) Either.Left]` and so on. The model has no `Object.prototype.toString`, so this text is not modelled.
- JavaScript's string coercion of the field inside the `toString` templates is the parameter `show`. A non-function argument of `map` or `chain` is kept only as its string form.
- `===` is modelled as Dafny equality on an equality-supporting field type. JavaScript's `NaN !== NaN` is not captured, so the reflexivity lemma says nothing about a `NaN` field. JavaScript also compares objects by identity, so `Right([1]).equals(Right([1]))` is false. The model matches `===` only when the field type's equality is identity on objects, as it is for primitives.
- A transformation is a total, side-effect-free Dafny function. A JavaScript transformation that throws, or has effects, is not modelled.
- EitherCore.Chain: the transformation is typed to return an Either. The source does not check this, and the model does not capture a JavaScript `chain` whose function returns something else.
- `toString` and `toJSON` are modelled only on `Either<V, V>`, where both fields range over one set of values, as every JavaScript Either's do.
- EitherCore.Ap: the model assumes that the fantasy-land key `fl.map` is the plain name `map`. `Right#ap` calls `anEither.map(...)` (src/data/either/core.js:99), but `map` is installed only under `fl.map` (src/data/either/core.js:81-89). The fantasy-land package is not part of this model. If its key were a prefixed name, every `Right(f).ap(e)` would throw `anEither.map is not a function`, which the model does not capture.
- EitherCore.AssertFunction: the model does not capture a failure while building the error message. The template `${transformation}` (src/data/either/core.js:57) can itself throw. For a Symbol, or an object without `toString` such as `Object.create(null)`, it throws a different `TypeError` that names no method. For an object whose `toString` throws, `map` and `chain` throw that error instead, e.g. a `RangeError`. The model always throws `TypeError(method, shown)`, because `NotFn` keeps only a string form.
- ObjectToPairs.ToPairs: `toPairs(null)` and `toPairs(undefined)` make `Object.keys` throw a `TypeError` (src/core/object/to-pairs.js:13). `JsObject` only describes objects, so the model has no such input and no such error. Primitives that `Object.keys` wraps in an object are not modelled either.
- The development-mode annotation block of src/core/object/to-pairs.js:20-67 is left out. It is metadata only.
- The object model has data properties only, keyed by strings. Getters, symbol keys (which `Object.keys` never reports) and proxies are not modelled.
- The order `Object.keys` reports is not modelled. The source promises none (src/core/object/to-pairs.js:60-64), so `ObjectKeys` picks an arbitrary one.
