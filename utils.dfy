/** The generic helpers of the server's `utils` package. Go pointers are `Option`s (`None` is
    `nil`), and Go slices keep the difference between a nil slice and an empty one. */
module Utils {
  import opened Wrappers

  /** A Go slice: `Nil`, or a (possibly empty) run of elements. */
  datatype Slice<T> = Nil | Of(items: seq<T>)

  /** The elements of a slice; a nil slice has none, as `len` and `range` see it. */
  function Elements<T>(s: Slice<T>): seq<T>
  {
    if s.Nil? then [] else s.items
  }

  /** `append(s, x)`: appending to a nil slice allocates one. */
  function Append<T>(s: Slice<T>, x: T): (r: Slice<T>)
    ensures r.Of? && Elements(r) == Elements(s) + [x]
  {
    Of(Elements(s) + [x])
  }

  /** `Deref`: the pointee, or the zero value `zero` of the type for `nil`. */
  function Deref<V>(v: Option<V>, zero: V): (r: V)
    ensures v.None? ==> r == zero
    ensures v.Some? ==> r == v.value
  {
    if v.None? then zero else v.value
  }

  /** `Ptr`: a pointer to a copy of `i`. */
  function Ptr<T>(i: T): (p: Option<T>)
    ensures p.Some?
  {
    Some(i)
  }

  /** Dereferencing a fresh pointer gives back its value. */
  lemma DerefPtr<T>(i: T, zero: T)
    ensures Deref(Ptr(i), zero) == i
  {
  }

  /** `DerefSlice`: each element dereferenced in order, `nil` elements becoming the zero value;
      the result is a nil slice exactly when the input has no elements. */
  method DerefSlice<V>(list: Slice<Option<V>>, zero: V) returns (items: Slice<V>)
    ensures items.Nil? <==> |Elements(list)| == 0
    ensures |Elements(items)| == |Elements(list)|
    ensures forall k :: 0 <= k < |Elements(list)| ==> Elements(items)[k] == Deref(Elements(list)[k], zero)
  {
    items := Nil;
    var elems := Elements(list);
    for i := 0 to |elems|
      invariant items.Nil? <==> i == 0
      invariant |Elements(items)| == i
      invariant forall k :: 0 <= k < i ==> Elements(items)[k] == Deref(elems[k], zero)
    {
      var res := zero;
      if elems[i].Some? {
        res := elems[i].value;
      }
      items := Append(items, res);
    }
  }

  /** `MapDeref`: `nil` for a nil map, otherwise a map with the same keys whose values are
      dereferenced. Go visits the keys in an unspecified order; any order gives the same map. */
  method MapDeref<K, V>(m: Option<map<K, Option<V>>>, zero: V) returns (result: Option<map<K, V>>)
    ensures m.None? <==> result.None?
    ensures m.Some? ==> result.value.Keys == m.value.Keys
    ensures m.Some? ==> forall k :: k in m.value ==> result.value[k] == Deref(m.value[k], zero)
  {
    if m.None? {
      return None;
    }
    var source := m.value;
    var res: map<K, V> := map[];
    var remaining := source.Keys;
    while remaining != {}
      invariant remaining <= source.Keys
      invariant res.Keys == source.Keys - remaining
      invariant forall k :: k in res ==> res[k] == Deref(source[k], zero)
      decreases remaining
    {
      var k :| k in remaining;
      res := res[k := Deref(source[k], zero)];
      remaining := remaining - {k};
    }
    return Some(res);
  }

  /** `Contains`: whether some element equals `v`; the scan stops at the first match. */
  method Contains<T(==)>(elems: Slice<T>, v: T) returns (found: bool)
    ensures found <==> v in Elements(elems)
  {
    var s := Elements(elems);
    for i := 0 to |s|
      invariant v !in s[..i]
    {
      if v == s[i] {
        return true;
      }
      assert s[..i + 1] == s[..i] + [s[i]];
    }
    assert s[..|s|] == s;
    return false;
  }

  /** `Map`: `nil` for a nil slice; otherwise a slice of the same length holding `f` of each
      element in order. */
  method Map<F, T>(values: Slice<F>, f: F -> T) returns (res: Slice<T>)
    ensures values.Nil? <==> res.Nil?
    ensures |Elements(res)| == |Elements(values)|
    ensures forall i :: 0 <= i < |Elements(values)| ==> Elements(res)[i] == f(Elements(values)[i])
  {
    if values.Nil? {
      return Nil;
    }
    var out: seq<T> := [];
    for i := 0 to |values.items|
      invariant |out| == i
      invariant forall k :: 0 <= k < i ==> out[k] == f(values.items[k])
    {
      out := out + [f(values.items[i])];
    }
    return Of(out);
  }
}
