/**
 * A plain JavaScript object with string keys, as the plugin builds and merges
 * them: its own properties in insertion order (integer-like keys, which
 * JavaScript lists first, are not told apart). Writing a key that is present
 * replaces the value where it stands; writing a new key appends it.
 */
module Records {
  import opened Wrappers

  type Record<V> = seq<(string, V)>

  /** The keys in enumeration order. */
  function KeyList<V>(r: Record<V>): (ks: seq<string>)
    ensures |ks| == |r|
    ensures forall i :: 0 <= i < |r| ==> ks[i] == r[i].0
  {
    if r == [] then [] else [r[0].0] + KeyList(r[1..])
  }

  predicate NoDuplicates(ks: seq<string>) {
    forall i, j :: 0 <= i < j < |ks| ==> ks[i] != ks[j]
  }

  /** Every key of a real object occurs once. */
  predicate Distinct<V>(r: Record<V>) {
    NoDuplicates(KeyList(r))
  }

  /** `obj[k]`: the value held under `k`, if any. */
  function Get<V>(r: Record<V>, k: string): Option<V> {
    if r == [] then None else if r[0].0 == k then Some(r[0].1) else Get(r[1..], k)
  }

  /** `obj[k] = v`. */
  function Put<V>(r: Record<V>, k: string, v: V): Record<V> {
    if r == [] then [(k, v)]
    else if r[0].0 == k then [(k, v)] + r[1..]
    else [r[0]] + Put(r[1..], k, v)
  }

  /** The value given to `k` by the last pair of `ps` that names it. */
  function Last<V>(ps: Record<V>, k: string): Option<V> {
    if ps == [] then None
    else if ps[|ps| - 1].0 == k then Some(ps[|ps| - 1].1)
    else Last(ps[..|ps| - 1], k)
  }

  /**
   * `Object.assign(target, source)`: the properties of `source`, in order,
   * written into `target` one after the other. An object literal is the
   * same writes into an empty object.
   */
  function Assign<V>(target: Record<V>, source: Record<V>): Record<V> {
    if source == [] then target
    else
      var p := source[|source| - 1];
      Put(Assign(target, source[..|source| - 1]), p.0, p.1)
  }

  /** `Object.assign(target, source)` as the loop that copies one property at a time. */
  method AssignInto<V>(target: Record<V>, source: Record<V>) returns (r: Record<V>)
    ensures r == Assign(target, source)
  {
    r := target;
    var i := 0;
    while i < |source|
      invariant 0 <= i <= |source|
      invariant r == Assign(target, source[..i])
    {
      assert source[..i + 1][..i] == source[..i];
      r := Put(r, source[i].0, source[i].1);
      i := i + 1;
    }
    assert source[..i] == source;
  }

  /** Assigning one more property is one more write. */
  lemma AssignSnoc<V>(target: Record<V>, source: Record<V>, p: (string, V))
    ensures Assign(target, source + [p]) == Put(Assign(target, source), p.0, p.1)
  {
    assert (source + [p])[..|source|] == source;
  }

  /** The last pair naming `k` decides its value. */
  lemma {:induction false} LastAt<V>(ps: Record<V>, k: string, i: int)
    requires 0 <= i < |ps| && ps[i].0 == k
    requires forall j :: i < j < |ps| ==> ps[j].0 != k
    ensures Last(ps, k) == Some(ps[i].1)
  {
    if i < |ps| - 1 {
      LastAt(ps[..|ps| - 1], k, i);
    }
  }

  /** The later pairs decide first. */
  lemma {:induction false} LastConcat<V>(a: Record<V>, b: Record<V>, k: string)
    ensures Last(a + b, k) == if Last(b, k).Some? then Last(b, k) else Last(a, k)
  {
    if b == [] {
      assert a + b == a;
    } else {
      var n := |b| - 1;
      assert (a + b)[..|a + b| - 1] == a + b[..n];
      LastConcat(a, b[..n], k);
    }
  }

  /** Some pair gives `k` a value exactly when some pair names `k`. */
  lemma {:induction false} LastFound<V>(ps: Record<V>, k: string)
    ensures Last(ps, k).Some? <==> exists i :: 0 <= i < |ps| && ps[i].0 == k
  {
    if ps != [] {
      var n := |ps| - 1;
      LastFound(ps[..n], k);
      if ps[n].0 != k && Last(ps, k).Some? {
        var i :| 0 <= i < n && ps[..n][i].0 == k;
        assert ps[i].0 == k;
      }
      if exists i :: 0 <= i < |ps| && ps[i].0 == k {
        var i :| 0 <= i < |ps| && ps[i].0 == k;
        if i < n {
          assert ps[..n][i].0 == k;
        }
      }
    }
  }

  /** A key is found exactly when it is one of the keys. */
  lemma {:induction false} GetFound<V>(r: Record<V>, k: string)
    ensures Get(r, k).Some? <==> k in KeyList(r)
  {
    if r != [] {
      GetFound(r[1..], k);
    }
  }

  /** After `obj[k] = v`, `k` holds `v` and every other key holds what it held. */
  lemma {:induction false} PutGet<V>(r: Record<V>, k: string, v: V, k': string)
    ensures Get(Put(r, k, v), k') == if k' == k then Some(v) else Get(r, k')
  {
    if r != [] && r[0].0 != k {
      PutGet(r[1..], k, v, k');
    }
  }

  /** `obj[k] = v` keeps the order of the keys and appends `k` only when it is new. */
  lemma {:induction false} PutKeyList<V>(r: Record<V>, k: string, v: V)
    ensures KeyList(Put(r, k, v)) == if k in KeyList(r) then KeyList(r) else KeyList(r) + [k]
  {
    if r != [] {
      assert ([(k, v)] + r[1..])[1..] == r[1..];
      assert ([r[0]] + Put(r[1..], k, v))[1..] == Put(r[1..], k, v);
      PutKeyList(r[1..], k, v);
    }
  }

  /** Writing a property never creates a second copy of a key. */
  lemma PutDistinct<V>(r: Record<V>, k: string, v: V)
    requires Distinct(r)
    ensures Distinct(Put(r, k, v))
  {
    PutKeyList(r, k, v);
  }

  /**
   * After `Object.assign`, a key holds the value the source gives it last,
   * and the target's value when the source does not name it.
   */
  lemma {:induction false} AssignGet<V>(target: Record<V>, source: Record<V>, k: string)
    ensures Get(Assign(target, source), k)
            == if Last(source, k).Some? then Last(source, k) else Get(target, k)
  {
    if source != [] {
      var p := source[|source| - 1];
      AssignGet(target, source[..|source| - 1], k);
      PutGet(Assign(target, source[..|source| - 1]), p.0, p.1, k);
    }
  }

  /**
   * The keys `ks` followed by those of `added` that are new, each at its
   * first appearance: the key order of an object after writing the keys
   * `added` in turn.
   */
  function AddKeys(ks: seq<string>, added: seq<string>): (r: seq<string>)
    ensures ks <= r
    ensures forall k :: k in r <==> k in ks || k in added
    ensures NoDuplicates(ks) ==> NoDuplicates(r)
  {
    if added == [] then ks
    else
      var acc := AddKeys(ks, added[..|added| - 1]);
      var k := added[|added| - 1];
      if k in acc then acc else acc + [k]
  }

  /** The keys of `ks` without repeats, in order of first appearance. */
  function Dedup(ks: seq<string>): seq<string> {
    AddKeys([], ks)
  }

  /**
   * The key order after `Object.assign`: the target's keys, then the
   * source's new keys in the order the source first names them.
   */
  lemma {:induction false} AssignKeyOrder<V>(target: Record<V>, source: Record<V>)
    ensures KeyList(Assign(target, source)) == AddKeys(KeyList(target), KeyList(source))
  {
    if source != [] {
      var n := |source| - 1;
      var p := source[n];
      assert source[..n] + [p] == source;
      KeyListSnoc(source[..n], p);
      var ks := KeyList(source);
      assert ks[..n] == KeyList(source[..n]);
      AssignKeyOrder(target, source[..n]);
      PutKeyList(Assign(target, source[..n]), p.0, p.1);
    }
  }

  /**
   * `Object.assign` leaves the target's keys first and in their order, and
   * the keys it ends with are those of the target and of the source.
   */
  lemma {:induction false} AssignKeyList<V>(target: Record<V>, source: Record<V>)
    ensures KeyList(target) <= KeyList(Assign(target, source))
    ensures forall k :: k in KeyList(Assign(target, source))
                        <==> k in KeyList(target) || Last(source, k).Some?
  {
    if source != [] {
      var p := source[|source| - 1];
      var a := Assign(target, source[..|source| - 1]);
      AssignKeyList(target, source[..|source| - 1]);
      PutKeyList(a, p.0, p.1);
    }
  }

  /** Merging into an object gives an object. */
  lemma {:induction false} AssignDistinct<V>(target: Record<V>, source: Record<V>)
    requires Distinct(target)
    ensures Distinct(Assign(target, source))
  {
    if source != [] {
      var p := source[|source| - 1];
      AssignDistinct(target, source[..|source| - 1]);
      PutDistinct(Assign(target, source[..|source| - 1]), p.0, p.1);
    }
  }

  /** In an object, where each key occurs once, the last value of a key is its only value. */
  lemma {:induction false} DistinctLastIsGet<V>(r: Record<V>, k: string)
    requires Distinct(r)
    ensures Last(r, k) == Get(r, k)
  {
    if r != [] {
      var n := |r| - 1;
      var init := r[..n];
      assert init + [r[n]] == r;
      var ks, all := KeyList(init), KeyList(r);
      assert all == ks + [r[n].0] by { KeyListSnoc(init, r[n]); }
      assert forall i :: 0 <= i < |ks| ==> all[i] == ks[i];
      assert Distinct(init);
      DistinctLastIsGet(init, k);
      GetSnoc(init, r[n], k);
      if r[n].0 == k {
        GetFound(init, k);
        forall i | 0 <= i < |ks| ensures ks[i] != k {
          assert all[i] == ks[i] && all[|ks|] == k;
        }
        assert Get(r, k) == Some(r[n].1);
      }
    }
  }

  lemma {:induction false} KeyListSnoc<V>(r: Record<V>, p: (string, V))
    ensures KeyList(r + [p]) == KeyList(r) + [p.0]
  {
    if r != [] {
      assert (r + [p])[1..] == r[1..] + [p];
      KeyListSnoc(r[1..], p);
    }
  }

  lemma {:induction false} GetSnoc<V>(r: Record<V>, p: (string, V), k: string)
    ensures Get(r + [p], k) == if Get(r, k).Some? then Get(r, k) else if p.0 == k then Some(p.1) else None
  {
    if r != [] {
      assert (r + [p])[1..] == r[1..] + [p];
      GetSnoc(r[1..], p, k);
    }
  }
}
