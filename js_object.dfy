/**
 * A plain JavaScript object used as a dictionary: an association list whose
 * entries keep the position at which their key was first written. Assigning
 * an existing key replaces the value in place; assigning a new key appends.
 */
module JsObject {
  import opened Wrappers
  import opened JsStrings

  type Object<K(==,!new), V> = seq<(K, V)>

  /** `Object.keys(o)`. */
  function Keys<K(==,!new), V>(o: Object<K, V>): (r: seq<K>)
    ensures |r| == |o|
    ensures forall i :: 0 <= i < |o| ==> r[i] == o[i].0
  {
    if o == [] then [] else [o[0].0] + Keys(o[1..])
  }

  /** The keys of an object with one more entry at the end. */
  lemma KeysSnoc<K(!new), V>(o: Object<K, V>)
    requires o != []
    ensures Keys(o) == Keys(o[..|o| - 1]) + [o[|o| - 1].0]
  {
    var init := o[..|o| - 1];
    var r := Keys(init) + [o[|o| - 1].0];
    forall i | 0 <= i < |o|
      ensures Keys(o)[i] == r[i]
    {
      if i < |init| {
        assert r[i] == Keys(init)[i] == init[i].0;
      }
    }
    assert |Keys(o)| == |r|;
  }

  /** `Object.values(o)`. */
  function Values<K(==,!new), V>(o: Object<K, V>): (r: seq<V>)
    ensures |r| == |o|
    ensures forall i :: 0 <= i < |o| ==> r[i] == o[i].1
  {
    if o == [] then [] else [o[0].1] + Values(o[1..])
  }

  /** No key occurs twice, as in every JavaScript object. */
  predicate WellFormed<K(==,!new), V>(o: Object<K, V>) {
    forall i, j :: 0 <= i < j < |o| ==> o[i].0 != o[j].0
  }

  /** `o[k]`, with `None` for `undefined`. */
  function Get<K(==,!new), V>(o: Object<K, V>, k: K): (r: Option<V>) {
    if o == [] then None
    else if o[0].0 == k then Some(o[0].1)
    else Get(o[1..], k)
  }

  /** A lookup finds nothing exactly when the key is absent. */
  lemma {:induction false} GetNone<K(!new), V>(o: Object<K, V>, k: K)
    ensures Get(o, k).None? <==> k !in Keys(o)
  {
    if o != [] {
      GetNone(o[1..], k);
      assert Keys(o) == [o[0].0] + Keys(o[1..]);
    }
  }

  /** A successful lookup reads an entry of the object: the first one with that key. */
  lemma {:induction false} GetFound<K(!new), V>(o: Object<K, V>, k: K) returns (i: nat)
    requires Get(o, k).Some?
    ensures i < |o| && o[i] == (k, Get(o, k).value)
    ensures forall j :: 0 <= j < i ==> o[j].0 != k
  {
    if o[0].0 == k {
      i := 0;
    } else {
      var i' := GetFound(o[1..], k);
      i := i' + 1;
      assert o[i] == o[1..][i'];
      forall j | 0 <= j < i ensures o[j].0 != k {
        if j > 0 {
          assert o[j] == o[1..][j - 1];
        }
      }
    }
  }

  /** In a well-formed object the entry at position `i` is what a lookup of its key finds. */
  lemma {:induction false} GetAt<K(!new), V>(o: Object<K, V>, i: nat)
    requires WellFormed(o) && i < |o|
    ensures Get(o, o[i].0) == Some(o[i].1)
  {
    if i > 0 {
      assert o[0].0 != o[i].0;
      assert WellFormed(o[1..]) by {
        forall a, b | 0 <= a < b < |o| - 1 ensures o[1..][a].0 != o[1..][b].0 {
          assert o[a + 1].0 != o[b + 1].0;
        }
      }
      GetAt(o[1..], i - 1);
    }
  }

  /** `o[k] = v`. */
  function Put<K(==,!new), V>(o: Object<K, V>, k: K, v: V): (r: Object<K, V>) {
    if o == [] then [(k, v)]
    else if o[0].0 == k then [(k, v)] + o[1..]
    else [o[0]] + Put(o[1..], k, v)
  }

  /** `o[k] = v` keeps the key order and appends a new key at the end. */
  lemma {:induction false} PutKeys<K(!new), V>(o: Object<K, V>, k: K, v: V)
    ensures Keys(Put(o, k, v)) == if k in Keys(o) then Keys(o) else Keys(o) + [k]
  {
    if o != [] {
      assert Keys(o) == [o[0].0] + Keys(o[1..]);
      if o[0].0 != k {
        PutKeys(o[1..], k, v);
        assert Keys(Put(o, k, v)) == [o[0].0] + Keys(Put(o[1..], k, v));
      } else {
        assert Keys(Put(o, k, v)) == [k] + Keys(o[1..]);
      }
    }
  }

  /** Each entry after `o[k] = v` is the new entry or the entry at the same position before. */
  lemma {:induction false} PutEntry<K(!new), V>(o: Object<K, V>, k: K, v: V, j: nat)
    requires j < |Put(o, k, v)|
    ensures Put(o, k, v)[j] == (k, v) || (j < |o| && Put(o, k, v)[j] == o[j])
  {
    if o != [] && o[0].0 != k && j > 0 {
      var rest := Put(o[1..], k, v);
      assert Put(o, k, v) == [o[0]] + rest;
      PutEntry(o[1..], k, v, j - 1);
    }
  }

  /** After `o[k] = v`, `k` reads `v` and every other key reads what it read before. */
  lemma {:induction false} PutGet<K(!new), V>(o: Object<K, V>, k: K, v: V, k': K)
    ensures Get(Put(o, k, v), k') == if k' == k then Some(v) else Get(o, k')
  {
    if o != [] && o[0].0 != k {
      PutGet(o[1..], k, v, k');
      assert Put(o, k, v)[1..] == Put(o[1..], k, v);
    }
  }

  lemma WellFormedTail<K(!new), V>(o: Object<K, V>)
    requires WellFormed(o) && o != []
    ensures WellFormed(o[1..]) && o[0].0 !in Keys(o[1..])
  {
    forall a, b | 0 <= a < b < |o| - 1 ensures o[1..][a].0 != o[1..][b].0 {
      assert o[a + 1].0 != o[b + 1].0;
    }
  }

  /** Assignment keeps an object free of repeated keys. */
  lemma PutWellFormed<K(!new), V>(o: Object<K, V>, k: K, v: V)
    requires WellFormed(o)
    ensures WellFormed(Put(o, k, v))
  {
    var r := Put(o, k, v);
    var ks := Keys(r);
    PutKeys(o, k, v);
    forall i, j | 0 <= i < j < |r| ensures r[i].0 != r[j].0 {
      assert r[i].0 == ks[i] && r[j].0 == ks[j];
      if j < |o| {
        assert ks[i] == o[i].0 && ks[j] == o[j].0;
      } else {
        assert ks[j] == k && k !in Keys(o) && ks[i] == Keys(o)[i];
      }
    }
  }

  /** The value the last entry for `k` in `es` carries, if any. */
  function LastValue<K(==,!new), V>(es: seq<(K, V)>, k: K): (r: Option<V>)
    ensures r.None? <==> k !in Keys(es)
  {
    if es == [] then None
    else if es[|es| - 1].0 == k then Some(es[|es| - 1].1)
    else
      assert Keys(es) == Keys(es[..|es| - 1]) + [es[|es| - 1].0];
      LastValue(es[..|es| - 1], k)
  }

  /** `{...o, ...es}`: each entry of `es` assigned in order. */
  function PutAll<K(==,!new), V>(o: Object<K, V>, es: seq<(K, V)>): (r: Object<K, V>)
    ensures |Keys(o)| <= |Keys(r)| && Keys(r)[..|Keys(o)|] == Keys(o)
  {
    if es == [] then o
    else
      var last := es[|es| - 1];
      PutKeys(PutAll(o, es[..|es| - 1]), last.0, last.1);
      Put(PutAll(o, es[..|es| - 1]), last.0, last.1)
  }

  /** After a spread, a key of `es` reads the last value `es` gives it; any other key reads as in `o`. */
  lemma {:induction false} PutAllGet<K(!new), V>(o: Object<K, V>, es: seq<(K, V)>, k: K)
    ensures Get(PutAll(o, es), k) == if k in Keys(es) then LastValue(es, k) else Get(o, k)
  {
    if es != [] {
      var last := es[|es| - 1];
      assert Keys(es) == Keys(es[..|es| - 1]) + [last.0];
      PutAllGet(o, es[..|es| - 1], k);
      PutGet(PutAll(o, es[..|es| - 1]), last.0, last.1, k);
    }
  }

  /** A spread keeps an object free of repeated keys. */
  lemma {:induction false} PutAllWellFormed<K(!new), V>(o: Object<K, V>, es: seq<(K, V)>)
    requires WellFormed(o)
    ensures WellFormed(PutAll(o, es))
  {
    if es != [] {
      var last := es[|es| - 1];
      PutAllWellFormed(o, es[..|es| - 1]);
      PutWellFormed(PutAll(o, es[..|es| - 1]), last.0, last.1);
    }
  }

  /** A well-formed object has as many distinct keys as entries. */
  lemma {:induction false} KeyCount<K(!new), V>(o: Object<K, V>)
    requires WellFormed(o)
    ensures |set k | k in Keys(o)| == |o|
  {
    if o != [] {
      WellFormedTail(o);
      KeyCount(o[1..]);
      var ks := Keys(o);
      assert ks == [o[0].0] + Keys(o[1..]);
      assert (set k | k in ks) == {o[0].0} + (set k | k in Keys(o[1..]));
    }
  }

  /** A key JavaScript enumerates as an array index: the canonical decimal form of 0 .. 2^32 - 2. */
  predicate IsArrayIndex(k: string) {
    k != [] && AllDigits(k) && (k[0] != '0' || k == "0") && DigitsValue(k) < 0xFFFF_FFFF
  }

  /** Entries with array-index keys, in ascending numeric order of the key. */
  predicate IndexAscending<V(!new)>(s: Object<string, V>) {
    (forall i :: 0 <= i < |s| ==> IsArrayIndex(s[i].0)) &&
    forall i, j :: 0 <= i < j < |s| ==> DigitsValue(s[i].0) <= DigitsValue(s[j].0)
  }

  lemma IndexAscendingCons<V(!new)>(e: (string, V), t: Object<string, V>)
    requires IsArrayIndex(e.0) && IndexAscending(t) && (t == [] || DigitsValue(e.0) <= DigitsValue(t[0].0))
    ensures IndexAscending([e] + t)
  {
    var r := [e] + t;
    forall i, j | 0 <= i < j < |r| ensures DigitsValue(r[i].0) <= DigitsValue(r[j].0) {
      if i == 0 {
        assert r[j] == t[j - 1];
      } else {
        assert r[i] == t[i - 1] && r[j] == t[j - 1];
      }
    }
  }

  lemma IndexAscendingTail<V(!new)>(t: Object<string, V>)
    requires IndexAscending(t) && t != []
    ensures IndexAscending(t[1..])
  {
    forall i, j | 0 <= i < j < |t| - 1 ensures DigitsValue(t[1..][i].0) <= DigitsValue(t[1..][j].0) {
      assert t[1..][i] == t[i + 1] && t[1..][j] == t[j + 1];
    }
  }

  /** Places an array-index entry before the first entry with a larger key. */
  function InsertByIndex<V(!new)>(e: (string, V), s: Object<string, V>): (r: Object<string, V>)
    requires IsArrayIndex(e.0) && IndexAscending(s)
    ensures |r| == |s| + 1 && (r[0] == e || (s != [] && r[0] == s[0]))
    ensures IndexAscending(r)
    ensures forall x :: x in r <==> x == e || x in s
  {
    if s == [] || DigitsValue(e.0) <= DigitsValue(s[0].0) then
      IndexAscendingCons(e, s);
      [e] + s
    else
      IndexAscendingTail(s);
      var rest := InsertByIndex(e, s[1..]);
      IndexAscendingCons(s[0], rest);
      assert s == [s[0]] + s[1..];
      [s[0]] + rest
  }

  /** The array-index entries in numeric order, and the other entries in insertion order. */
  function EnumParts<V(!new)>(o: Object<string, V>): (r: (Object<string, V>, Object<string, V>))
    ensures |r.0| + |r.1| == |o|
    ensures IndexAscending(r.0) && forall i :: 0 <= i < |r.1| ==> !IsArrayIndex(r.1[i].0)
    ensures forall x :: x in r.0 || x in r.1 <==> x in o
  {
    if o == [] then ([], [])
    else
      var init := o[..|o| - 1];
      var e := o[|o| - 1];
      var parts := EnumParts(init);
      assert o == init + [e];
      if IsArrayIndex(e.0) then (InsertByIndex(e, parts.0), parts.1) else (parts.0, parts.1 + [e])
  }

  /** The entries of `o` in JavaScript enumeration order. */
  function EnumOrder<V(!new)>(o: Object<string, V>): (r: Object<string, V>)
    ensures |r| == |o| && forall x :: x in r <==> x in o
  {
    EnumParts(o).0 + EnumParts(o).1
  }

  /** Enumeration lists every key of the object and no other. */
  lemma EnumKeys<V(!new)>(o: Object<string, V>, k: string)
    ensures k in Keys(EnumOrder(o)) <==> k in Keys(o)
  {
    var e := EnumOrder(o);
    if k in Keys(o) {
      var i :| 0 <= i < |o| && Keys(o)[i] == k;
      assert o[i] in e;
      var j :| 0 <= j < |e| && e[j] == o[i];
      assert Keys(e)[j] == k;
    }
    if k in Keys(e) {
      var j :| 0 <= j < |e| && Keys(e)[j] == k;
      assert e[j] in o;
      var i :| 0 <= i < |o| && o[i] == e[j];
      assert Keys(o)[i] == k;
    }
  }

  /** Enumeration lists the array-index keys first, in ascending numeric order. */
  lemma EnumOrderShape<V(!new)>(o: Object<string, V>, i: nat, j: nat)
    requires i < j < |EnumOrder(o)|
    ensures IsArrayIndex(EnumOrder(o)[j].0) ==>
              IsArrayIndex(EnumOrder(o)[i].0) && DigitsValue(EnumOrder(o)[i].0) <= DigitsValue(EnumOrder(o)[j].0)
  {
    var (a, b) := EnumParts(o);
    if j >= |a| {
      assert EnumOrder(o)[j] == b[j - |a|];
    }
  }

  /** Without array-index keys the enumeration order is the insertion order. */
  lemma {:induction false} EnumOrderOfPlainKeys<V(!new)>(o: Object<string, V>)
    requires forall i :: 0 <= i < |o| ==> !IsArrayIndex(o[i].0)
    ensures EnumParts(o) == ([], o) && EnumOrder(o) == o
  {
    if o != [] {
      var init := o[..|o| - 1];
      var e := o[|o| - 1];
      forall i | 0 <= i < |init| ensures !IsArrayIndex(init[i].0) {
        assert init[i] == o[i];
      }
      EnumOrderOfPlainKeys(init);
      assert !IsArrayIndex(e.0);
      assert EnumParts(o) == ([], init + [e]);
      assert init + [e] == o;
    }
  }
}
