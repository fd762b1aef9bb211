/** `toPairs(object)` of src/core/object/to-pairs.js: the `[key, value]` pairs
    of an object's own enumerable properties, computed as
    `Object.keys(object).map(k => [k, object[k]])`. The order of the pairs is
    the order `Object.keys` reports, which is not fixed, so everything proved
    about the result is stated without positions. */
module ObjectToPairs {
  import opened Wrappers

  // -- A JavaScript object ---------------------------------------------

  /** A data property: its value and whether it is enumerable. */
  datatype Property<V> = Property(value: V, enumerable: bool)

  /** An object: its own properties by key, and the object it inherits from
      (`None` for an object with a null prototype). */
  datatype JsObject<V> = JsObject(own: map<string, Property<V>>, proto: Option<JsObject<V>>)

  /** `object[key]`: an own property shadows anything inherited; otherwise the
      lookup goes on along the prototype chain, and `None` is `undefined`. */
  function Get<V>(o: JsObject<V>, key: string): (r: Option<V>)
    ensures key in o.own ==> r == Some(o.own[key].value)
    ensures key !in o.own && o.proto.None? ==> r == None
    ensures key !in o.own && o.proto.Some? ==> r == Get(o.proto.value, key)
  {
    if key in o.own then Some(o.own[key].value)
    else
      match o.proto
      case None => None
      case Some(p) => Get(p, key)
  }

  /** The keys of the object's own enumerable properties. */
  function OwnEnumerableKeys<V>(o: JsObject<V>): set<string> {
    set k | k in o.own && o.own[k].enumerable
  }

  /** The object's own enumerable properties, as a map from key to value. */
  function OwnEnumerable<V>(o: JsObject<V>): (m: map<string, V>)
    ensures m.Keys == OwnEnumerableKeys(o)
  {
    map k | k in OwnEnumerableKeys(o) :: o.own[k].value
  }

  /** The key-value entries of a map, as a set of pairs. */
  ghost function Entries<K, V>(m: map<K, V>): set<(K, V)> {
    set k | k in m :: (k, m[k])
  }

  ghost predicate Distinct<T>(s: seq<T>) {
    forall i, j :: 0 <= i < j < |s| ==> s[i] != s[j]
  }

  // -- Object.keys ------------------------------------------------------

  /** The elements of `keys`, each once, in an order that is not fixed. */
  ghost function Enumerate(keys: set<string>): (ks: seq<string>)
    ensures |ks| == |keys|
    ensures forall k :: k in ks <==> k in keys
    ensures Distinct(ks)
    decreases |keys|
  {
    if keys == {} then []
    else
      var k :| k in keys;
      [k] + Enumerate(keys - {k})
  }

  /** `Object.keys(object)`: every own enumerable key, each once; inherited
      and non-enumerable keys are not reported. */
  ghost function ObjectKeys<V>(o: JsObject<V>): (ks: seq<string>)
    ensures |ks| == |OwnEnumerableKeys(o)|
    ensures forall k :: k in ks <==> k in o.own && o.own[k].enumerable
    ensures Distinct(ks)
  {
    Enumerate(OwnEnumerableKeys(o))
  }

  // -- toPairs ----------------------------------------------------------

  /** The first components of a list of pairs. */
  function KeysOf<K, V>(ps: seq<(K, V)>): (ks: seq<K>)
    ensures |ks| == |ps|
    ensures forall i :: 0 <= i < |ps| ==> ks[i] == ps[i].0
  {
    seq(|ps|, i requires 0 <= i < |ps| => ps[i].0)
  }

  /** `toPairs(object)`: each key `Object.keys` reports, paired with what
      `object[key]` reads. */
  ghost function ToPairs<V>(o: JsObject<V>): (r: seq<(string, V)>)
    ensures |r| == |OwnEnumerableKeys(o)|
    ensures forall p :: p in r ==> p.0 in o.own && o.own[p.0].enumerable && p.1 == o.own[p.0].value
    ensures KeysOf(r) == ObjectKeys(o)
  {
    var keys := ObjectKeys(o);
    seq(|keys|, i requires 0 <= i < |keys| => (keys[i], Get(o, keys[i]).value))
  }

  // -- What toPairs promises --------------------------------------------

  /** In a list without repeats every element occurs at most once. */
  lemma {:induction false} DistinctCount<T>(s: seq<T>, x: T)
    requires Distinct(s)
    ensures multiset(s)[x] == if x in s then 1 else 0
  {
    if s != [] {
      var t := s[1..];
      assert s == [s[0]] + t;
      assert Distinct(t) by {
        forall i, j | 0 <= i < j < |t| ensures t[i] != t[j] {
          assert t[i] == s[i + 1] && t[j] == s[j + 1];
        }
      }
      DistinctCount(t, x);
      assert s[0] !in t by {
        forall j | 0 <= j < |t| ensures t[j] != s[0] {
          assert t[j] == s[j + 1];
        }
      }
      assert multiset(s) == multiset([s[0]]) + multiset(t);
    }
  }

  /** Every own enumerable key occurs exactly once among the first components
      of `toPairs`, and no other key occurs. */
  lemma ToPairsKeysExactlyOnce<V>(o: JsObject<V>, k: string)
    ensures multiset(KeysOf(ToPairs(o)))[k] == if k in o.own && o.own[k].enumerable then 1 else 0
  {
    DistinctCount(ObjectKeys(o), k);
  }

  /** The pairs of `toPairs` are all different, since their keys are. */
  lemma ToPairsDistinct<V>(o: JsObject<V>)
    ensures Distinct(ToPairs(o))
  {
    var r := ToPairs(o);
    var ks := ObjectKeys(o);
    forall i, j | 0 <= i < j < |r| ensures r[i] != r[j] {
      assert KeysOf(r)[i] == ks[i] && KeysOf(r)[j] == ks[j];
    }
  }

  /** A pair is in `toPairs` exactly when it is an own enumerable entry. */
  lemma ToPairsMembers<V>(o: JsObject<V>, p: (string, V))
    ensures p in ToPairs(o) <==> p in Entries(OwnEnumerable(o))
  {
    var r := ToPairs(o);
    var m := OwnEnumerable(o);
    if p in r {
      assert p.0 in m && m[p.0] == p.1;
    }
    if p in Entries(m) {
      var k :| k in m && p == (k, m[k]);
      var ks := ObjectKeys(o);
      var i :| 0 <= i < |ks| && ks[i] == k;
      assert KeysOf(r)[i] == k;
      assert r[i] in r;
    }
  }

  /** As an unordered collection, `toPairs` is exactly the set of own
      enumerable entries, each once. */
  lemma ToPairsIsOwnEntries<V>(o: JsObject<V>)
    ensures multiset(ToPairs(o)) == multiset(Entries(OwnEnumerable(o)))
  {
    ToPairsDistinct(o);
    forall p ensures multiset(ToPairs(o))[p] == multiset(Entries(OwnEnumerable(o)))[p] {
      DistinctCount(ToPairs(o), p);
      ToPairsMembers(o, p);
    }
  }

  /** Inherited properties and non-enumerable own properties never appear in
      the result, whatever `object[key]` would read for them. */
  lemma ToPairsOmitsOtherKeys<V>(o: JsObject<V>, k: string, v: V)
    requires k !in o.own || !o.own[k].enumerable
    ensures (k, v) !in ToPairs(o)
  {
  }

  /** An object without own enumerable properties yields no pairs, and only
      such an object does. */
  lemma ToPairsEmpty<V>(o: JsObject<V>)
    ensures ToPairs(o) == [] <==> OwnEnumerableKeys(o) == {}
  {
  }

  // -- The way back -------------------------------------------------------

  /** The map a list of pairs describes; for a key listed twice the first
      pair wins, which never matters for a list with distinct keys. */
  function FromPairs<K, V>(ps: seq<(K, V)>): (m: map<K, V>)
    ensures m.Keys == set p | p in ps :: p.0
  {
    if ps == [] then map[] else FromPairs(ps[1..])[ps[0].0 := ps[0].1]
  }

  lemma {:induction false} FromPairsAt<K, V>(ps: seq<(K, V)>, i: nat)
    requires Distinct(KeysOf(ps))
    requires i < |ps|
    ensures ps[i].0 in FromPairs(ps) && FromPairs(ps)[ps[i].0] == ps[i].1
  {
    if i > 0 {
      var t := ps[1..];
      assert Distinct(KeysOf(t)) by {
        forall a, b | 0 <= a < b < |t| ensures KeysOf(t)[a] != KeysOf(t)[b] {
          assert KeysOf(t)[a] == KeysOf(ps)[a + 1] && KeysOf(t)[b] == KeysOf(ps)[b + 1];
        }
      }
      FromPairsAt(t, i - 1);
      assert KeysOf(ps)[0] != KeysOf(ps)[i];
    }
  }

  /** The keys of the map rebuilt from `toPairs` are the own enumerable keys. */
  lemma FromPairsToPairsKeys<V>(o: JsObject<V>)
    ensures FromPairs(ToPairs(o)).Keys == OwnEnumerable(o).Keys
  {
    var r := ToPairs(o);
    var m := OwnEnumerable(o);
    var back := FromPairs(r);
    forall k | k in back ensures k in m {
      var p :| p in r && p.0 == k;
    }
    forall k | k in m ensures k in back {
      var ks := ObjectKeys(o);
      var i :| 0 <= i < |ks| && ks[i] == k;
      assert KeysOf(r)[i] == k;
      assert r[i] in r;
    }
  }

  /** The map rebuilt from `toPairs` holds each own enumerable property's value. */
  lemma FromPairsToPairsAt<V>(o: JsObject<V>, k: string)
    requires k in OwnEnumerable(o)
    ensures k in FromPairs(ToPairs(o)) && FromPairs(ToPairs(o))[k] == OwnEnumerable(o)[k]
  {
    var r := ToPairs(o);
    var ks := ObjectKeys(o);
    var i :| 0 <= i < |ks| && ks[i] == k;
    assert KeysOf(r)[i] == k;
    assert r[i] in r;
    FromPairsAt(r, i);
  }

  /** Rebuilding a map from `toPairs` gives back the object's own enumerable
      properties. */
  lemma FromPairsToPairs<V>(o: JsObject<V>)
    ensures FromPairs(ToPairs(o)) == OwnEnumerable(o)
  {
    FromPairsToPairsKeys(o);
    forall k | k in OwnEnumerable(o) ensures FromPairs(ToPairs(o))[k] == OwnEnumerable(o)[k] {
      FromPairsToPairsAt(o, k);
    }
  }
}
