/** The algebraic laws the Either operations of src/data/either/core.js obey:
    Setoid, Functor, Apply, Applicative and Chain, in the function-in-receiver
    convention the source uses for `ap`, plus the facts that make the textual
    and JSON representations readable back. */
module EitherLaws {
  import opened Wrappers
  import opened EitherCore

  // -- Setoid -----------------------------------------------------------

  lemma EqualsReflexive<L, R>(e: Either<L, R>)
    ensures Equals(e, e)
  {
  }

  lemma EqualsSymmetric<L, R>(a: Either<L, R>, b: Either<L, R>)
    ensures Equals(a, b) == Equals(b, a)
  {
  }

  lemma EqualsTransitive<L, R>(a: Either<L, R>, b: Either<L, R>, c: Either<L, R>)
    requires Equals(a, b) && Equals(b, c)
    ensures Equals(a, c)
  {
  }

  /** A `Left` never equals a `Right`, whatever the two fields are. */
  lemma EqualsSeparatesVariants<V>(x: V, y: V)
    ensures !Equals(Left(x), Right(y)) && !Equals(Right(y), Left(x))
  {
  }

  // -- Functor ----------------------------------------------------------

  lemma MapIdentity<L, R>(e: Either<L, R>)
    ensures Map(e, Fn(x => x)) == Return(e)
  {
  }

  lemma MapComposition<L, A, B, C>(e: Either<L, A>, f: A -> B, g: B -> C)
    ensures Map(e, Fn(f)).Return?
    ensures Map(Map(e, Fn(f)).value, Fn(g)) == Map(e, Fn(x => g(f(x))))
  {
  }

  /** `map` rejects a non-function on both variants: on a `Left` the check
      comes before the short-circuit. */
  lemma MapRejectsNonFunction<L, R, S>(x: L, y: R, shown: string)
    ensures Map<L, R, S>(Left(x), NotFn(shown)) == Throw(TypeError("Either.Left#map", shown))
    ensures Map<L, R, S>(Right(y), NotFn(shown)) == Throw(TypeError("Either.Right#map", shown))
  {
  }

  // -- Left absorbs every operation but equality and representation ------

  lemma LeftAbsorbs<L, A, B, S>(x: L, f: A -> B, g: A -> Either<L, S>, e: Either<L, A>)
    ensures Map(Left(x), Fn(f)) == Return(Left(x))
    ensures Chain(Left(x), Fn(g)) == Return(Left(x))
    ensures Ap<L, A, B>(Left(x), e) == Return(Left(x))
  {
  }

  // -- Apply and Applicative --------------------------------------------

  /** `Right(f).ap(e)` is `e.map(f)`, whatever `f` and `e` are. */
  lemma ApDelegatesToMap<L, A, B>(f: Transformation<A, B>, e: Either<L, A>)
    ensures Ap(Right(f), e) == Map(e, f)
  {
  }

  lemma ApIdentity<L, A>(v: Either<L, A>)
    ensures Ap(Of(Fn(x => x)), v) == Return(v)
  {
  }

  lemma ApHomomorphism<L, A, B>(f: A -> B, x: A)
    ensures Ap(Of<L, Transformation<A, B>>(Fn(f)), Of(x)) == Return(Of(f(x)))
  {
  }

  /** `ap` on a `Right` whose field is not a function throws the `map` error
      of the argument's own variant. */
  lemma ApRejectsNonFunction<L, A, B>(shown: string, x: L, y: A)
    ensures Ap<L, A, B>(Right(NotFn(shown)), Left(x)) == Throw(TypeError("Either.Left#map", shown))
    ensures Ap<L, A, B>(Right(NotFn(shown)), Right(y)) == Throw(TypeError("Either.Right#map", shown))
  {
  }

  // -- Chain ------------------------------------------------------------

  lemma ChainLeftIdentity<L, A, B>(x: A, f: A -> Either<L, B>)
    ensures Chain(Of(x), Fn(f)) == Return(f(x))
  {
  }

  lemma ChainRightIdentity<L, A>(e: Either<L, A>)
    ensures Chain(e, Fn(x => Of(x))) == Return(e)
  {
  }

  lemma ChainAssociative<L, A, B, C>(e: Either<L, A>, f: A -> Either<L, B>, g: B -> Either<L, C>)
    ensures Chain(e, Fn(f)).Return?
    ensures Chain(Chain(e, Fn(f)).value, Fn(g)) == Chain(e, Fn(v => Chain(f(v), Fn(g)).value))
  {
  }

  /** `chain` does not wrap `f`'s result again, so a `Right` can become a
      `Left`. */
  lemma ChainCanSwitchToLeft<L, A, B>(y: A, err: L)
    ensures Chain<L, A, B>(Right(y), Fn(_ => Left(err))) == Return(Left(err))
  {
  }

  /** `map` is `chain` followed by `of`. */
  lemma MapIsChainOf<L, A, B>(e: Either<L, A>, f: A -> B)
    ensures Map(e, Fn(f)) == Chain(e, Fn(x => Of(f(x))))
  {
  }

  /** `chain` rejects a non-function on both variants: on a `Left` the check
      comes before the short-circuit. */
  lemma ChainRejectsNonFunction<L, R, S>(x: L, y: R, shown: string)
    ensures Chain<L, R, S>(Left(x), NotFn(shown)) == Throw(TypeError("Either.Left#chain", shown))
    ensures Chain<L, R, S>(Right(y), NotFn(shown)) == Throw(TypeError("Either.Right#chain", shown))
  {
  }

  // -- Show -------------------------------------------------------------

  /** The union's own text, `(folktale) Either`, begins every instance's
      text and is never the text of an instance. */
  lemma TypeDisplayNameStartsToString<V>(e: Either<V, V>, show: V -> string)
    ensures ToString(e, show)[..|TypeDisplayName|] == TypeDisplayName
    ensures ToString(e, show) != TypeDisplayName
  {
  }

  /** `toString` keeps the variant and the shown field apart, so both can be
      read back. */
  lemma {:induction false} ReadShownToString<V>(e: Either<V, V>, show: V -> string)
    ensures ReadShown(ToString(e, show)) == Some((VariantName(e), show(Value(e))))
  {
    var s := ToString(e, show);
    var shown := show(Value(e));
    match e
    case Left(x) =>
      assert s == LeftShowPrefix + shown + ")";
      assert s[..|LeftShowPrefix|] == LeftShowPrefix;
      assert s[|LeftShowPrefix|..|s| - 1] == shown;
    case Right(x) =>
      assert s == RightShowPrefix + shown + ")";
      assert s[18] == 'R' && LeftShowPrefix[18] == 'L';
      assert s[..|RightShowPrefix|] == RightShowPrefix;
      assert s[|RightShowPrefix|..|s| - 1] == shown;
  }

  /** With an injective string coercion, two Eithers with the same text are
      the same Either. */
  lemma ToStringInjective<V>(a: Either<V, V>, b: Either<V, V>, show: V -> string)
    requires forall x, y :: show(x) == show(y) ==> x == y
    requires ToString(a, show) == ToString(b, show)
    ensures a == b
  {
    ReadShownToString(a, show);
    ReadShownToString(b, show);
    assert VariantName(a) == VariantName(b);
  }

  /** A `Left` and a `Right` never print the same, whatever their fields. */
  lemma ToStringSeparatesVariants<V>(x: V, y: V, show: V -> string)
    ensures ToString(Left(x), show) != ToString(Right(y), show)
  {
    ReadShownToString(Left(x), show);
    ReadShownToString(Right(y), show);
  }

  // -- JSON conversions -------------------------------------------------

  /** The JSON record carries the variant and the unmodified field, enough to
      rebuild the Either. */
  lemma FromJSONToJSON<V>(e: Either<V, V>)
    ensures FromJSON(ToJSON(e)) == Some(e)
  {
    if e.Right? {
      assert ToJSON(e).typeName[16] == 'R';
    }
  }

  lemma ToJSONInjective<V>(a: Either<V, V>, b: Either<V, V>)
    requires ToJSON(a) == ToJSON(b)
    ensures a == b
  {
    FromJSONToJSON(a);
    FromJSONToJSON(b);
  }

  // -- Examples ---------------------------------------------------------

  /** `Right(x => x + 1).ap(Right(41))` is `Right(42)`,
      `Right(x => x + 1).ap(Left("e"))` is `Left("e")` and
      `Left("e").ap(Right(1))` is `Left("e")`. */
  lemma ApExamples()
    ensures Ap<string, int, int>(Right(Fn(x => x + 1)), Right(41)) == Return(Right(42))
    ensures Ap<string, int, int>(Right(Fn(x => x + 1)), Left("e")) == Return(Left("e"))
    ensures Ap<string, int, int>(Left("e"), Right(1)) == Return(Left("e"))
  {
  }

  /** `Left(1).equals(Right(1))` and `Right(1).equals(Left(1))` are false,
      `Right(1).equals(Right(1))` is true, and `Right(5).toJSON()` is the
      record tagged `folktale:Either.Right` with value 5. */
  lemma EqualsAndJSONExamples()
    ensures !Equals<int, int>(Left(1), Right(1)) && !Equals<int, int>(Right(1), Left(1))
    ensures Equals<int, int>(Right(1), Right(1))
    ensures ToJSON<int>(Right(5)) == JsonRecord("folktale:Either.Right", 5)
    ensures ToJSON<string>(Left("err")) == JsonRecord("folktale:Either.Left", "err")
  {
  }
}
