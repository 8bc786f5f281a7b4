/** The `LinkedHashMap<String, V>` tables of both datasets. */
module Tables {
  import opened Wrappers

  /** A `LinkedHashMap<String, V>`: `vals` holds the mapping and `keys` lists each
      of its keys once, in the order in which it was first put, which is the
      iteration order of `values()`. */
  datatype Table<V> = Table(keys: seq<string>, vals: map<string, V>) {

    ghost predicate Valid() {
      && (forall i, j :: 0 <= i < j < |keys| ==> keys[i] != keys[j])
      && (forall k :: k in vals <==> k in keys)
    }

    /** `containsKey(k)` */
    predicate Has(k: string) {
      k in vals
    }

    /** `get(k)`; `None` is the `null` of a missing key. */
    function Get(k: string): Option<V> {
      if k in vals then Some(vals[k]) else None
    }

    /** `put(k, v)`: the last value put under a key wins, and a key that is
        already present keeps its place in the iteration order; a new key goes
        last. */
    function Put(k: string, v: V): (t: Table<V>)
      ensures Valid() ==> t.Valid()
      ensures t.Has(k) && t.Get(k) == Some(v)
      ensures forall j :: j != k ==> t.Get(j) == Get(j)
      ensures Has(k) ==> t.keys == keys
      ensures !Has(k) ==> t.keys == keys + [k]
    {
      if k in vals then Table(keys, vals[k := v]) else Table(keys + [k], vals[k := v])
    }

    /** `values()`, in iteration order. */
    function Values(): (vs: seq<V>)
      requires Valid()
      ensures |vs| == |keys|
      ensures forall i :: 0 <= i < |keys| ==> vs[i] == vals[keys[i]]
    {
      seq(|keys|, i requires 0 <= i < |keys| => vals[keys[i]])
    }
  }

  /** `new LinkedHashMap<>()` */
  function Empty<V>(): (t: Table<V>)
    ensures t.Valid() && t.keys == []
    ensures forall k :: !t.Has(k)
  {
    Table([], map[])
  }

  /** Every value is stored under its own name, as all the tools store them. */
  ghost predicate KeyedBy<V>(t: Table<V>, name: V -> string) {
    forall k :: k in t.vals ==> name(t.vals[k]) == k
  }

  /** The keys of `ks`, in order, whose values `keep` selects. */
  function KeysWhere<V>(ks: seq<string>, vals: map<string, V>, keep: V -> bool): (r: seq<string>)
    ensures forall k :: k in r <==> k in ks && k in vals && keep(vals[k])
  {
    if ks == [] then []
    else (if ks[0] in vals && keep(vals[ks[0]]) then [ks[0]] else []) + KeysWhere(ks[1..], vals, keep)
  }

  /** The loop `for (v : vs) if (keep(v)) out.put(name(v), f(v));` on a table
      `acc`. */
  function PutAll<V, W>(acc: Table<W>, vs: seq<V>, name: V -> string, keep: V -> bool, f: V -> W): Table<W>
    decreases |vs|
  {
    if vs == [] then acc
    else PutAll(if keep(vs[0]) then acc.Put(name(vs[0]), f(vs[0])) else acc, vs[1..], name, keep, f)
  }

  lemma {:induction false} PutAllValid<V, W>(acc: Table<W>, vs: seq<V>, name: V -> string, keep: V -> bool, f: V -> W)
    requires acc.Valid()
    ensures PutAll(acc, vs, name, keep, f).Valid()
    decreases |vs|
  {
    if vs != [] {
      PutAllValid(if keep(vs[0]) then acc.Put(name(vs[0]), f(vs[0])) else acc, vs[1..], name, keep, f);
    }
  }

  /** The facts the inductions below need about step `i` of the copy. */
  lemma StepValues<V>(t: Table<V>, i: nat, name: V -> string)
    requires t.Valid() && KeyedBy(t, name) && i < |t.keys|
    ensures t.Values()[i..][0] == t.vals[t.keys[i]]
    ensures t.Values()[i..][1..] == t.Values()[i + 1..]
    ensures name(t.vals[t.keys[i]]) == t.keys[i]
  {
  }

  lemma StepKeys<V>(t: Table<V>, i: nat)
    requires t.Valid() && i < |t.keys|
    ensures t.keys[i..] == [t.keys[i]] + t.keys[i + 1..]
    ensures t.keys[..i + 1] == t.keys[..i] + [t.keys[i]]
    ensures t.keys[i] !in t.keys[..i] && t.keys[i] !in t.keys[i + 1..]
  {
    var k0 := t.keys[i];
    assert forall j :: 0 <= j < i ==> t.keys[..i][j] != k0;
    var tail := t.keys[i + 1..];
    forall j | 0 <= j < |tail| ensures tail[j] != k0 {
      assert tail[j] == t.keys[i + 1 + j];
    }
  }

  lemma ConcatAssoc(a: seq<string>, b: seq<string>, c: seq<string>)
    ensures (a + b) + c == a + (b + c)
  {
  }

  lemma {:induction false} PutAllKeys<V, W>(t: Table<V>, i: nat, acc: Table<W>, name: V -> string, keep: V -> bool, f: V -> W)
    requires t.Valid() && KeyedBy(t, name) && i <= |t.keys|
    requires acc.Valid() && forall k :: k in acc.vals ==> k in t.keys[..i]
    ensures PutAll(acc, t.Values()[i..], name, keep, f).keys == acc.keys + KeysWhere(t.keys[i..], t.vals, keep)
    decreases |t.keys| - i
  {
    if i == |t.keys| {
      assert t.Values()[i..] == [] && t.keys[i..] == [];
    } else {
      StepValues(t, i, name);
      StepKeys(t, i);
      var k0 := t.keys[i];
      var v0 := t.vals[k0];
      var acc' := if keep(v0) then acc.Put(k0, f(v0)) else acc;
      assert k0 !in acc.vals;
      assert acc'.keys == acc.keys + (if keep(v0) then [k0] else []);
      assert acc'.Valid();
      assert forall k :: k in acc'.vals ==> k in t.keys[..i + 1];
      PutAllKeys(t, i + 1, acc', name, keep, f);
      var vs := t.Values()[i..];
      assert PutAll(acc, vs, name, keep, f) == PutAll(acc', t.Values()[i + 1..], name, keep, f);
      var head := if keep(v0) then [k0] else [];
      assert KeysWhere(t.keys[i..], t.vals, keep) == head + KeysWhere(t.keys[i + 1..], t.vals, keep);
      ConcatAssoc(acc.keys, head, KeysWhere(t.keys[i + 1..], t.vals, keep));
    }
  }

  lemma {:induction false} PutAllGet<V, W>(t: Table<V>, i: nat, acc: Table<W>, name: V -> string, keep: V -> bool, f: V -> W, k: string)
    requires t.Valid() && KeyedBy(t, name) && i <= |t.keys|
    ensures PutAll(acc, t.Values()[i..], name, keep, f).Get(k) ==
            if k in t.keys[i..] && keep(t.vals[k]) then Some(f(t.vals[k])) else acc.Get(k)
    decreases |t.keys| - i
  {
    if i == |t.keys| {
      assert t.Values()[i..] == [] && t.keys[i..] == [];
    } else {
      StepValues(t, i, name);
      StepKeys(t, i);
      var k0 := t.keys[i];
      var v0 := t.vals[k0];
      var acc' := if keep(v0) then acc.Put(k0, f(v0)) else acc;
      PutAllGet(t, i + 1, acc', name, keep, f, k);
    }
  }

  /** Copying a table value by value, keeping those `keep` selects and
      transforming them by `f`, gives a table with the selected keys in their
      original order, each holding the transformed original value. */
  lemma PutAllValues<V, W>(t: Table<V>, name: V -> string, keep: V -> bool, f: V -> W)
    requires t.Valid() && KeyedBy(t, name)
    ensures var r := PutAll(Empty(), t.Values(), name, keep, f);
      && r.Valid()
      && r.keys == KeysWhere(t.keys, t.vals, keep)
      && forall k :: r.Get(k) == if k in t.vals && keep(t.vals[k]) then Some(f(t.vals[k])) else None
  {
    assert t.Values()[0..] == t.Values() && t.keys[0..] == t.keys;
    var e := Empty<W>();
    PutAllValid(e, t.Values(), name, keep, f);
    PutAllKeys(t, 0, e, name, keep, f);
    forall k {
      PutAllGet(t, 0, e, name, keep, f, k);
    }
  }

  /** Two tables with the same iteration order and the same lookups are equal. */
  lemma TableExt<V>(a: Table<V>, b: Table<V>)
    requires a.keys == b.keys
    requires forall k :: a.Get(k) == b.Get(k)
    ensures a == b
  {
    assert forall k :: k in a.vals <==> k in b.vals by {
      forall k ensures k in a.vals <==> k in b.vals {
        assert a.Get(k).Some? <==> b.Get(k).Some?;
      }
    }
    forall k | k in a.vals ensures a.vals[k] == b.vals[k] {
      assert a.Get(k) == b.Get(k);
    }
  }

  /** Selecting with a test every key passes selects every key. */
  lemma {:induction false} KeysWhereAll<V>(ks: seq<string>, vals: map<string, V>, keep: V -> bool)
    requires forall k :: k in ks ==> k in vals && keep(vals[k])
    ensures KeysWhere(ks, vals, keep) == ks
    decreases |ks|
  {
    if ks != [] {
      KeysWhereAll(ks[1..], vals, keep);
      assert ks == [ks[0]] + ks[1..];
    }
  }

  /** When every kept element named `k` is `v`, and `v` is among them, the copy
      holds `f(v)` under `k`, wherever `v` sits and however often. */
  lemma {:induction false} PutAllGetHit<V, W>(acc: Table<W>, vs: seq<V>, name: V -> string, keep: V -> bool, f: V -> W,
                                              k: string, v: V)
    requires forall x :: x in vs && name(x) == k && keep(x) ==> x == v
    requires v in vs && name(v) == k && keep(v)
    ensures PutAll(acc, vs, name, keep, f).Get(k) == Some(f(v))
    decreases |vs|
  {
    var next := if keep(vs[0]) then acc.Put(name(vs[0]), f(vs[0])) else acc;
    assert forall x :: x in vs[1..] ==> x in vs;
    if v in vs[1..] {
      PutAllGetHit(next, vs[1..], name, keep, f, k, v);
    } else {
      assert vs[0] == v;
      PutAllGetMiss(next, vs[1..], name, keep, f, k);
    }
  }

  /** When no element named `k` is kept, the copy leaves `k` as it was. */
  lemma {:induction false} PutAllGetMiss<V, W>(acc: Table<W>, vs: seq<V>, name: V -> string, keep: V -> bool, f: V -> W,
                                               k: string)
    requires forall x :: x in vs && name(x) == k ==> !keep(x)
    ensures PutAll(acc, vs, name, keep, f).Get(k) == acc.Get(k)
    decreases |vs|
  {
    if vs != [] {
      var next := if keep(vs[0]) then acc.Put(name(vs[0]), f(vs[0])) else acc;
      assert forall x :: x in vs[1..] ==> x in vs;
      PutAllGetMiss(next, vs[1..], name, keep, f, k);
    }
  }

  /** The keys of `ks`, in order, that `m` does not hold. */
  function KeysOutside<W>(ks: seq<string>, m: map<string, W>): (r: seq<string>)
    ensures forall k :: k in r <==> k in ks && k !in m
  {
    if ks == [] then []
    else (if ks[0] !in m then [ks[0]] else []) + KeysOutside(ks[1..], m)
  }

  /** The loop `for (v : vs) if (!out.containsKey(name(v))) out.put(name(v), f(v));`
      on a table `acc`: a back-fill that never replaces what is there. */
  function PutAbsent<V, W>(acc: Table<W>, vs: seq<V>, name: V -> string, f: V -> W): Table<W>
    decreases |vs|
  {
    if vs == [] then acc
    else PutAbsent(if acc.Has(name(vs[0])) then acc else acc.Put(name(vs[0]), f(vs[0])), vs[1..], name, f)
  }

  lemma {:induction false} PutAbsentValid<V, W>(acc: Table<W>, vs: seq<V>, name: V -> string, f: V -> W)
    requires acc.Valid()
    ensures PutAbsent(acc, vs, name, f).Valid()
    decreases |vs|
  {
    if vs != [] {
      PutAbsentValid(if acc.Has(name(vs[0])) then acc else acc.Put(name(vs[0]), f(vs[0])), vs[1..], name, f);
    }
  }

  /** Holding one more key that `ks` does not list changes nothing. */
  lemma {:induction false} KeysOutsidePut<W>(ks: seq<string>, m: map<string, W>, k: string, v: W)
    requires k !in ks
    ensures KeysOutside(ks, m[k := v]) == KeysOutside(ks, m)
    decreases |ks|
  {
    if ks != [] {
      assert ks[0] != k;
      assert forall j :: j in ks[1..] ==> j in ks;
      KeysOutsidePut(ks[1..], m, k, v);
    }
  }

  lemma {:induction false} PutAbsentFrom<V, W>(t: Table<V>, i: nat, acc: Table<W>, name: V -> string, f: V -> W)
    requires t.Valid() && KeyedBy(t, name) && i <= |t.keys|
    requires acc.Valid()
    ensures var r := PutAbsent(acc, t.Values()[i..], name, f);
      && r.keys == acc.keys + KeysOutside(t.keys[i..], acc.vals)
      && forall k :: r.Get(k) == if k in acc.vals then acc.Get(k) else if k in t.keys[i..] then Some(f(t.vals[k])) else None
    decreases |t.keys| - i
  {
    if i == |t.keys| {
      assert t.Values()[i..] == [] && t.keys[i..] == [];
    } else {
      StepValues(t, i, name);
      StepKeys(t, i);
      var k0 := t.keys[i];
      var v0 := t.vals[k0];
      if k0 in acc.vals {
        PutAbsentFrom(t, i + 1, acc, name, f);
        assert KeysOutside(t.keys[i..], acc.vals) == KeysOutside(t.keys[i + 1..], acc.vals);
      } else {
        var acc' := acc.Put(k0, f(v0));
        PutAbsentFrom(t, i + 1, acc', name, f);
        KeysOutsidePut(t.keys[i + 1..], acc.vals, k0, f(v0));
        assert acc'.vals == acc.vals[k0 := f(v0)];
        assert KeysOutside(t.keys[i..], acc.vals) == [k0] + KeysOutside(t.keys[i + 1..], acc.vals);
        ConcatAssoc(acc.keys, [k0], KeysOutside(t.keys[i + 1..], acc.vals));
      }
    }
  }

  /** Back-filling a table from another table keeps every key already there
      with its value, then adds the other table's missing keys in its order,
      each holding the transformed value. */
  lemma PutAbsentTable<V, W>(acc: Table<W>, t: Table<V>, name: V -> string, f: V -> W)
    requires t.Valid() && KeyedBy(t, name) && acc.Valid()
    ensures var r := PutAbsent(acc, t.Values(), name, f);
      && r.Valid()
      && r.keys == acc.keys + KeysOutside(t.keys, acc.vals)
      && forall k :: r.Get(k) == if k in acc.vals then acc.Get(k) else if k in t.vals then Some(f(t.vals[k])) else None
  {
    assert t.Values()[0..] == t.Values() && t.keys[0..] == t.keys;
    PutAbsentValid(acc, t.Values(), name, f);
    PutAbsentFrom(t, 0, acc, name, f);
  }
}
