/** Python dictionaries as association lists: insertion-ordered, one entry per
    key. Assigning an existing key keeps its position and replaces its value;
    a new key goes to the end. */
module Dicts {
  import opened Results

  function Keys<V>(d: seq<(string, V)>): (ks: seq<string>)
    ensures |ks| == |d|
    ensures forall i | 0 <= i < |d| :: ks[i] == d[i].0
  {
    if |d| == 0 then [] else Keys(d[..|d| - 1]) + [d[|d| - 1].0]
  }

  /** The pairs `(n, f(n))` for the names `n` of `names`, in order: a
      dictionary of classes built from a list of names. */
  function KeyedBy<V>(names: seq<string>, f: string -> V): (ps: seq<(string, V)>)
    ensures |ps| == |names| && forall i | 0 <= i < |names| :: ps[i] == (names[i], f(names[i]))
  {
    seq(|names|, i requires 0 <= i < |names| => (names[i], f(names[i])))
  }

  predicate HasKey<V>(d: seq<(string, V)>, k: string) {
    exists i | 0 <= i < |d| :: d[i].0 == k
  }

  predicate DistinctKeys<V>(d: seq<(string, V)>) {
    forall i, j | 0 <= i < j < |d| :: d[i].0 != d[j].0
  }

  /** `d.get(k)`: the value of the first entry for `k`. */
  function Get<V>(d: seq<(string, V)>, k: string): (r: Option<V>)
    ensures r.None? <==> !HasKey(d, k)
    ensures r.Some? ==> exists i | 0 <= i < |d| :: d[i] == (k, r.value)
  {
    if |d| == 0 then None
    else if d[0].0 == k then Some(d[0].1)
    else
      var r := Get(d[1..], k);
      assert r.Some? ==> exists i | 0 <= i < |d| - 1 :: d[1..][i] == (k, r.value);
      assert forall i | 0 <= i < |d| - 1 :: d[1..][i] == d[i + 1];
      r
  }

  /** `d[k] = v`. */
  function Put<V>(d: seq<(string, V)>, k: string, v: V): (r: seq<(string, V)>)
    ensures HasKey(d, k) ==> |r| == |d| && forall i | 0 <= i < |d| :: r[i].0 == d[i].0
    ensures !HasKey(d, k) ==> r == d + [(k, v)]
  {
    if HasKey(d, k) then seq(|d|, i requires 0 <= i < |d| => if d[i].0 == k then (k, v) else d[i])
    else d + [(k, v)]
  }

  /** After `d[k] = v`, looking up `k` gives `v` and every other key is unaffected. */
  lemma PutGet<V>(d: seq<(string, V)>, k: string, v: V, k': string)
    ensures Get(Put(d, k, v), k') == if k' == k then Some(v) else Get(d, k')
  {
    var r := Put(d, k, v);
    if HasKey(d, k) {
      if k' == k {
        GetUniform(r, k, v);
      } else {
        GetAgree(r, d, k');
      }
    } else {
      GetAppend(d, (k, v), k');
    }
  }

  lemma {:induction false} GetUniform<V>(d: seq<(string, V)>, k: string, v: V)
    requires HasKey(d, k)
    requires forall i | 0 <= i < |d| && d[i].0 == k :: d[i].1 == v
    ensures Get(d, k) == Some(v)
  {
    if d[0].0 != k {
      assert forall i | 1 <= i < |d| :: d[1..][i - 1] == d[i];
      GetUniform(d[1..], k, v);
    }
  }

  /** Two dictionaries with the same keys in the same order that agree on the values of `n` agree on `n`. */
  lemma {:induction false} GetAgree<V>(a: seq<(string, V)>, b: seq<(string, V)>, n: string)
    requires |a| == |b| && forall i | 0 <= i < |a| :: a[i].0 == b[i].0
    requires forall i | 0 <= i < |a| && a[i].0 == n :: a[i].1 == b[i].1
    ensures Get(a, n) == Get(b, n)
  {
    if |a| > 0 {
      GetAgree(a[1..], b[1..], n);
    }
  }

  lemma {:induction false} GetAppend<V>(d: seq<(string, V)>, p: (string, V), n: string)
    ensures Get(d + [p], n) == if HasKey(d, n) then Get(d, n) else if p.0 == n then Some(p.1) else None
  {
    if |d| > 0 {
      assert (d + [p])[1..] == d[1..] + [p];
      GetAppend(d[1..], p, n);
    }
  }

  /** `dict(pairs)`: later pairs override the values of earlier ones with the same key. */
  function FromPairs<V>(ps: seq<(string, V)>): seq<(string, V)> {
    if |ps| == 0 then [] else Put(FromPairs(ps[..|ps| - 1]), ps[|ps| - 1].0, ps[|ps| - 1].1)
  }

  /** Every entry of `dict(pairs)` is one of the pairs. */
  lemma {:induction false} FromPairsEntries<V>(ps: seq<(string, V)>)
    ensures forall e | e in FromPairs(ps) :: e in ps
  {
    if |ps| > 0 {
      var init := ps[..|ps| - 1];
      FromPairsEntries(init);
      var d := FromPairs(init);
      assert forall e | e in d :: e in ps;
      assert forall e | e in Put(d, ps[|ps| - 1].0, ps[|ps| - 1].1) :: e in d || e == ps[|ps| - 1];
    }
  }

  /** The value of the last pair for `k`, scanning `ps` from the end. */
  function LastFor<V>(ps: seq<(string, V)>, k: string): Option<V> {
    if |ps| == 0 then None
    else if ps[|ps| - 1].0 == k then Some(ps[|ps| - 1].1)
    else LastFor(ps[..|ps| - 1], k)
  }

  /** The last pair with a key gives that key's `LastFor`. */
  lemma {:induction false} LastForLast<V>(ps: seq<(string, V)>, k: nat)
    requires k < |ps|
    requires forall m | k < m < |ps| :: ps[m].0 != ps[k].0
    ensures LastFor(ps, ps[k].0) == Some(ps[k].1)
  {
    if k < |ps| - 1 {
      var init := ps[..|ps| - 1];
      assert init[k] == ps[k];
      LastForLast(init, k);
    }
  }

  /** The keys of `ks` in order of first occurrence. */
  function Dedup(ks: seq<string>): seq<string> {
    if |ks| == 0 then []
    else
      var init := Dedup(ks[..|ks| - 1]);
      if ks[|ks| - 1] in ks[..|ks| - 1] then init else init + [ks[|ks| - 1]]
  }

  lemma {:induction false} DedupMembers(ks: seq<string>)
    ensures forall k :: k in Dedup(ks) <==> k in ks
  {
    if |ks| > 0 {
      DedupMembers(ks[..|ks| - 1]);
      assert ks == ks[..|ks| - 1] + [ks[|ks| - 1]];
    }
  }

  /** Removing repeats from a sequence without any leaves it as it is. */
  lemma {:induction false} DedupDistinct(ks: seq<string>)
    requires forall i, j | 0 <= i < j < |ks| :: ks[i] != ks[j]
    ensures Dedup(ks) == ks
  {
    if |ks| > 0 {
      DedupDistinct(ks[..|ks| - 1]);
    }
  }

  lemma {:induction false} HasKeyIsInKeys<V>(d: seq<(string, V)>, k: string)
    ensures HasKey(d, k) <==> k in Keys(d)
  {
  }

  /** A dictionary built from pairs has each key once, in order of first
      occurrence, with the value of the key's last pair. */
  lemma {:induction false} FromPairsSpec<V>(ps: seq<(string, V)>)
    ensures DistinctKeys(FromPairs(ps))
    ensures Keys(FromPairs(ps)) == Dedup(Keys(ps))
    ensures forall k :: Get(FromPairs(ps), k) == LastFor(ps, k)
  {
    FromPairsKeys(ps);
    forall k ensures Get(FromPairs(ps), k) == LastFor(ps, k) {
      FromPairsGet(ps, k);
    }
  }

  lemma {:induction false} FromPairsKeys<V>(ps: seq<(string, V)>)
    ensures DistinctKeys(FromPairs(ps))
    ensures Keys(FromPairs(ps)) == Dedup(Keys(ps))
  {
    if |ps| > 0 {
      var init := ps[..|ps| - 1];
      var (k, v) := ps[|ps| - 1];
      FromPairsKeys(init);
      var d := FromPairs(init);
      assert Keys(ps)[..|ps| - 1] == Keys(init);
      HasKeyIsInKeys(d, k);
      DedupMembers(Keys(init));
      if HasKey(d, k) {
        assert Keys(Put(d, k, v)) == Keys(d);
      }
    }
  }

  lemma {:induction false} FromPairsGet<V>(ps: seq<(string, V)>, k: string)
    ensures Get(FromPairs(ps), k) == LastFor(ps, k)
  {
    if |ps| > 0 {
      var init := ps[..|ps| - 1];
      FromPairsGet(init, k);
      PutGet(FromPairs(init), ps[|ps| - 1].0, ps[|ps| - 1].1, k);
    }
  }
}

/** The helpers of quiz/utils.py. */
module Utils {
  import opened Exceptions
  import opened Results
  import opened Dicts

  /** `init_last`: all items but the last, and the last; `Empty` for an empty list. */
  function InitLast<T>(items: seq<T>): (r: Raising<(seq<T>, T)>)
    ensures r.Raised? <==> |items| == 0
    ensures r.Raised? ==> r.exc == Empty
    ensures r.Returned? ==> r.value.0 + [r.value.1] == items
  {
    if |items| == 0 then Raised(Empty) else Returned((items[..|items| - 1], items[|items| - 1]))
  }

  function Concat<V>(ds: seq<seq<(string, V)>>): seq<(string, V)> {
    if |ds| == 0 then [] else Concat(ds[..|ds| - 1]) + ds[|ds| - 1]
  }

  /** `merge(*dicts)`: the items of all mappings, fed in order to one new mapping. */
  function Merge<V>(ds: seq<seq<(string, V)>>): seq<(string, V)> {
    if |ds| == 0 then [] else FromPairs(Concat(ds))
  }

  /** The last of `ds` that has `k`, looked up. */
  function LastHaving<V>(ds: seq<seq<(string, V)>>, k: string): Option<V> {
    if |ds| == 0 then None
    else if HasKey(ds[|ds| - 1], k) then LastFor(ds[|ds| - 1], k)
    else LastHaving(ds[..|ds| - 1], k)
  }

  lemma {:induction false} LastForConcat<V>(a: seq<(string, V)>, b: seq<(string, V)>, k: string)
    ensures LastFor(a + b, k) == if HasKey(b, k) then LastFor(b, k) else LastFor(a, k)
  {
    if |b| > 0 {
      assert (a + b)[..|a + b| - 1] == a + b[..|b| - 1];
      LastForConcat(a, b[..|b| - 1], k);
      if b[|b| - 1].0 != k {
        assert HasKey(b, k) <==> HasKey(b[..|b| - 1], k) by {
          if HasKey(b, k) {
            var i :| 0 <= i < |b| && b[i].0 == k;
            assert b[..|b| - 1][i].0 == k;
          }
        }
      }
    } else {
      assert a + b == a;
    }
  }

  lemma {:induction false} LastForHasKey<V>(ps: seq<(string, V)>, k: string)
    ensures LastFor(ps, k).Some? <==> HasKey(ps, k)
  {
    if |ps| > 0 {
      LastForHasKey(ps[..|ps| - 1], k);
      if HasKey(ps, k) && ps[|ps| - 1].0 != k {
        var i :| 0 <= i < |ps| && ps[i].0 == k;
        assert ps[..|ps| - 1][i].0 == k;
      }
    }
  }

  /** `merge` keeps every key of every mapping, each once, and takes each
      key's value from the last mapping that has it; no mappings give `{}`. */
  lemma {:induction false} MergeSpec<V>(ds: seq<seq<(string, V)>>)
    ensures DistinctKeys(Merge(ds))
    ensures forall k :: HasKey(Merge(ds), k) <==> exists i | 0 <= i < |ds| :: HasKey(ds[i], k)
    ensures forall k :: Get(Merge(ds), k) == LastHaving(ds, k)
  {
    if |ds| > 0 {
      FromPairsSpec(Concat(ds));
      forall k ensures Get(Merge(ds), k) == LastHaving(ds, k) {
        ConcatLastFor(ds, k);
      }
      forall k ensures HasKey(Merge(ds), k) <==> exists i | 0 <= i < |ds| :: HasKey(ds[i], k) {
        ConcatLastFor(ds, k);
        LastHavingSome(ds, k);
      }
    }
  }

  lemma {:induction false} ConcatLastFor<V>(ds: seq<seq<(string, V)>>, k: string)
    ensures LastFor(Concat(ds), k) == LastHaving(ds, k)
  {
    if |ds| > 0 {
      ConcatLastFor(ds[..|ds| - 1], k);
      LastForConcat(Concat(ds[..|ds| - 1]), ds[|ds| - 1], k);
      if HasKey(ds[|ds| - 1], k) {
        LastForHasKey(ds[|ds| - 1], k);
      }
    }
  }

  lemma {:induction false} LastHavingSome<V>(ds: seq<seq<(string, V)>>, k: string)
    ensures LastHaving(ds, k).Some? <==> exists i | 0 <= i < |ds| :: HasKey(ds[i], k)
  {
    if |ds| > 0 {
      var init := ds[..|ds| - 1];
      LastHavingSome(init, k);
      LastForHasKey(ds[|ds| - 1], k);
      if exists i | 0 <= i < |ds| :: HasKey(ds[i], k) {
        var i :| 0 <= i < |ds| && HasKey(ds[i], k);
        if i < |ds| - 1 {
          assert HasKey(init[i], k);
        }
      }
      if exists i | 0 <= i < |init| :: HasKey(init[i], k) {
        var i :| 0 <= i < |init| && HasKey(init[i], k);
        assert HasKey(ds[i], k);
      }
    }
  }

  /** Function composition as `compose` defines it: the last function is
      applied first; no functions is the identity. */
  function Composed<T>(fs: seq<T -> T>, x: T): T {
    if |fs| == 0 then x else fs[0](Composed(fs[1..], x))
  }

  /** `compose(*funcs)(x)`: apply the last function, then the others from right to left. */
  method ComposeCall<T>(fs: seq<T -> T>, x: T) returns (value: T)
    ensures value == Composed(fs, x)
  {
    if |fs| == 0 {
      return x;
    }
    var tail, head := fs[..|fs| - 1], fs[|fs| - 1];
    value := head(x);
    var i := |tail|;
    ComposedSplit(tail, [head], x);
    assert fs == tail + [head];
    assert [head][1..] == [];
    assert tail[..i] == tail;
    while i > 0
      invariant 0 <= i <= |tail|
      invariant Composed(fs, x) == Composed(tail[..i], value)
    {
      i := i - 1;
      ComposedSplit(tail[..i], [tail[i]], value);
      assert tail[..i + 1] == tail[..i] + [tail[i]];
      value := tail[i](value);
    }
  }

  /** Composing a concatenation is composing the parts. */
  lemma {:induction false} ComposedSplit<T>(fs: seq<T -> T>, gs: seq<T -> T>, x: T)
    ensures Composed(fs + gs, x) == Composed(fs, Composed(gs, x))
  {
    if |fs| > 0 {
      assert (fs + gs)[1..] == fs[1..] + gs;
      ComposedSplit(fs[1..], gs, x);
    } else {
      assert fs + gs == gs;
    }
  }

  /** An instance of a `ValueObject` class: the class, and its field names
      with their values in declaration order. */
  datatype ValueObject<V> = ValueObject(cls: string, fields: seq<(string, V)>)

  /** `ValueObject.replace(**updates)`: a new instance with the named fields
      replaced (the underlying namedtuple's `_replace` raises `ValueError`
      for a name that is not a field). */
  function Replace<V>(obj: ValueObject<V>, updates: seq<(string, V)>): (r: Raising<ValueObject<V>>)
    ensures r.Raised? <==> exists j | 0 <= j < |updates| :: !HasKey(obj.fields, updates[j].0)
    ensures r.Raised? ==> r.exc == ValueError
    ensures r.Returned? ==> r.value.cls == obj.cls && Keys(r.value.fields) == Keys(obj.fields)
    ensures r.Returned? ==> forall i | 0 <= i < |obj.fields| ::
      r.value.fields[i].1 == (match Get(updates, obj.fields[i].0) case Some(v) => v case None => obj.fields[i].1)
  {
    if exists j | 0 <= j < |updates| :: !HasKey(obj.fields, updates[j].0) then Raised(ValueError)
    else
      var fs := seq(|obj.fields|, i requires 0 <= i < |obj.fields| =>
        (obj.fields[i].0, match Get(updates, obj.fields[i].0) case Some(v) => v case None => obj.fields[i].1));
      assert Keys(fs) == Keys(obj.fields);
      Returned(ValueObject(obj.cls, fs))
  }

  /** `ValueObject.__eq__`: equal when of the same class with equal field values. */
  predicate SameValue<V(==)>(a: ValueObject<V>, b: ValueObject<V>) {
    a.cls == b.cls && |a.fields| == |b.fields| && forall i | 0 <= i < |a.fields| :: a.fields[i].1 == b.fields[i].1
  }

  lemma GetSingle<V>(name: string, v: V, n: string)
    ensures Get([(name, v)], n) == if n == name then Some(v) else None
  {
    if n != name {
      assert [(name, v)][1..] == [];
    }
  }

  /** `replace()` with no arguments gives back an equal object. */
  lemma ReplaceNothing<V>(obj: ValueObject<V>)
    ensures Replace(obj, []) == Returned(obj)
  {
    assert Replace(obj, []).value.fields == obj.fields;
  }

  /** Replacing one field sets it and leaves every other field as it was;
      replacing a name that is not a field raises `ValueError`. */
  lemma ReplaceOne<V>(obj: ValueObject<V>, name: string, v: V)
    requires DistinctKeys(obj.fields)
    ensures !HasKey(obj.fields, name) ==> Replace(obj, [(name, v)]) == Raised(ValueError)
    ensures HasKey(obj.fields, name) ==>
      var r := Replace(obj, [(name, v)]);
      && r.Returned?
      && DistinctKeys(r.value.fields)
      && Get(r.value.fields, name) == Some(v)
      && (forall n | n != name :: Get(r.value.fields, n) == Get(obj.fields, n))
  {
    if HasKey(obj.fields, name) {
      var r := Replace(obj, [(name, v)]).value;
      forall j | 0 <= j < |obj.fields| ensures r.fields[j] == (if obj.fields[j].0 == name then (name, v) else obj.fields[j]) {
        GetSingle(name, v, obj.fields[j].0);
      }
      assert forall j | 0 <= j < |r.fields| :: r.fields[j].0 == obj.fields[j].0;
      GetUniform(r.fields, name, v);
      forall n | n != name ensures Get(r.fields, n) == Get(obj.fields, n) {
        GetAgree(r.fields, obj.fields, n);
      }
    }
  }

  /** Replacing a field and then putting its old value back restores the object. */
  lemma ReplaceRestores<V>(obj: ValueObject<V>, name: string, v: V)
    requires DistinctKeys(obj.fields) && HasKey(obj.fields, name)
    ensures Replace(obj, [(name, v)]).Returned?
    ensures Replace(Replace(obj, [(name, v)]).value, [(name, Get(obj.fields, name).value)]) == Returned(obj)
  {
    assert [(name, v)][0].0 == name;
    var r := Replace(obj, [(name, v)]).value;
    var prior := Get(obj.fields, name).value;
    ReplaceKeepsKey(obj, [(name, v)], name);
    assert [(name, prior)][0].0 == name;
    var r2 := Replace(r, [(name, prior)]);
    assert r2.Returned?;
    var fs := r2.value.fields;
    forall j | 0 <= j < |obj.fields| ensures fs[j] == obj.fields[j] {
      RestoredAt(obj, r, fs, name, v, prior, j);
    }
    assert fs == obj.fields;
  }

  /** `replace` keeps every key of the object. */
  lemma ReplaceKeepsKey<V>(obj: ValueObject<V>, updates: seq<(string, V)>, n: string)
    requires Replace(obj, updates).Returned? && HasKey(obj.fields, n)
    ensures HasKey(Replace(obj, updates).value.fields, n)
  {
    var i :| 0 <= i < |obj.fields| && obj.fields[i].0 == n;
    assert Keys(Replace(obj, updates).value.fields)[i] == Keys(obj.fields)[i];
  }

  /** One entry of `ReplaceRestores`: entry `j` of the twice replaced
      fields is entry `j` of the original. */
  lemma RestoredAt<V>(obj: ValueObject<V>, r: ValueObject<V>, fs: seq<(string, V)>, name: string, v: V, prior: V, j: nat)
    requires DistinctKeys(obj.fields) && Get(obj.fields, name) == Some(prior) && j < |obj.fields|
    requires Replace(obj, [(name, v)]) == Returned(r)
    requires Replace(r, [(name, prior)]).Returned? && Replace(r, [(name, prior)]).value.fields == fs
    ensures fs[j] == obj.fields[j]
  {
    var f := obj.fields[j].0;
    assert Keys(r.fields)[j] == Keys(obj.fields)[j];
    assert Keys(fs)[j] == Keys(r.fields)[j];
    GetSingle(name, prior, f);
    GetSingle(name, v, f);
    if f == name {
      FirstIsGet(obj.fields, j);
    }
  }

  lemma {:induction false} FirstIsGet<V>(d: seq<(string, V)>, i: nat)
    requires i < |d| && DistinctKeys(d)
    ensures Get(d, d[i].0) == Some(d[i].1)
  {
    if i > 0 {
      FirstIsGet(d[1..], i - 1);
    }
  }
}
