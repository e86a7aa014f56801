/** The parts of PHP's value semantics the event-log codec depends on:
    dynamic values and their truthiness, `isset`/`??`, and ordered
    associative arrays with string keys (assignment, `array_merge`,
    `array_combine`). */
module Php {

  datatype Option<T> = None | Some(value: T)

  datatype Result<T, E> = Ok(value: T) | Err(error: E)

  /** A dynamic PHP value as it appears in filter options, ABI results and
      log fields. Arrays that hold plain lists are `List`; floats are not
      modelled. */
  datatype Value = Null | Bool(b: bool) | Int(i: int) | Str(s: string) | List(items: seq<Value>)

  /** PHP's boolean conversion: `null`, `false`, `0`, `""`, `"0"` and the
      empty array are falsy, everything else is truthy. */
  predicate Truthy(v: Value)
  {
    match v
    case Null => false
    case Bool(b) => b
    case Int(i) => i != 0
    case Str(s) => s != "" && s != "0"
    case List(xs) => xs != []
  }

  /** A property or array slot that may be absent (`None`). `isset` and
      `!is_null` both hold exactly when it is present and not null. */
  predicate Isset(f: Option<Value>)
  {
    f.Some? && f.value != Null
  }

  /** `$x ?? null`. */
  function OrNull(f: Option<Value>): (v: Value)
    ensures Isset(f) <==> v != Null
    ensures v != Null ==> f == Some(v)
  {
    if f.Some? then f.value else Null
  }

  /** An ordered PHP array with string keys, as a list of key/value pairs in
      insertion order. The arrays the codec builds never repeat a key. */
  type Dict<V> = seq<(string, V)>

  function Keys<V>(d: Dict<V>): (ks: seq<string>)
    ensures |ks| == |d|
    ensures forall i :: 0 <= i < |d| ==> ks[i] == d[i].0
  {
    if d == [] then [] else [d[0].0] + Keys(d[1..])
  }

  function Values<V>(d: Dict<V>): (vs: seq<V>)
    ensures |vs| == |d|
    ensures forall i :: 0 <= i < |d| ==> vs[i] == d[i].1
  {
    if d == [] then [] else [d[0].1] + Values(d[1..])
  }

  predicate NoDuplicates(xs: seq<string>)
  {
    forall i, j :: 0 <= i < j < |xs| ==> xs[i] != xs[j]
  }

  /** `$d[$k]` when the key is set, `None` when it is not. */
  function Get<V>(d: Dict<V>, k: string): (r: Option<V>)
    ensures r.Some? <==> k in Keys(d)
  {
    if d == [] then None else if d[0].0 == k then Some(d[0].1) else Get(d[1..], k)
  }

  /** `$d[$k] = $v`: an existing key keeps its position and takes the new
      value, a new key is appended. */
  function Put<V>(d: Dict<V>, k: string, v: V): (r: Dict<V>)
    ensures Get(r, k) == Some(v)
    ensures forall k' :: k' != k ==> Get(r, k') == Get(d, k')
  {
    if d == [] then [(k, v)]
    else if d[0].0 == k then [(k, v)] + d[1..]
    else [d[0]] + Put(d[1..], k, v)
  }

  /** `unset($d[$k])`: the key and its value leave the array, the other
      entries keep their order. */
  function Remove<V>(d: Dict<V>, k: string): (r: Dict<V>)
    ensures Get(r, k) == None
    ensures forall k' :: k' != k ==> Get(r, k') == Get(d, k')
  {
    if d == [] then []
    else if d[0].0 == k then Remove(d[1..], k)
    else [d[0]] + Remove(d[1..], k)
  }

  /** Assigns the pairs of `ps` to `d` one after the other. With string keys
      this is also `array_merge(d, ps)`: a later key overwrites an earlier
      one in the earlier one's position. */
  function PutAll<V>(d: Dict<V>, ps: seq<(string, V)>): Dict<V>
    decreases |ps|
  {
    if ps == [] then d
    else
      var n := |ps| - 1;
      Put(PutAll(d, ps[..n]), ps[n].0, ps[n].1)
  }

  /** The array a PHP loop builds by assigning the pairs in order. */
  function FromPairs<V>(ps: seq<(string, V)>): Dict<V>
  {
    PutAll([], ps)
  }

  /** `ks` followed by the elements of `xs` not seen before, in first-seen
      order. */
  function AddNew(ks: seq<string>, xs: seq<string>): seq<string>
    decreases |xs|
  {
    if xs == [] then ks
    else
      var n := |xs| - 1;
      var r := AddNew(ks, xs[..n]);
      if xs[n] in r then r else r + [xs[n]]
  }

  /** The distinct elements of `xs` in order of first occurrence. */
  function Distinct(xs: seq<string>): seq<string>
  {
    AddNew([], xs)
  }

  function Zip<V>(ks: seq<string>, vs: seq<V>): (ps: seq<(string, V)>)
    requires |ks| == |vs|
    ensures |ps| == |ks|
    ensures forall i :: 0 <= i < |ks| ==> ps[i] == (ks[i], vs[i])
  {
    if ks == [] then [] else [(ks[0], vs[0])] + Zip(ks[1..], vs[1..])
  }

  /** `array_combine($keys, $values)`: PHP 8 throws a ValueError when the
      two arrays differ in length (`None` here). */
  function Combine<V>(ks: seq<string>, vs: seq<V>): (r: Option<Dict<V>>)
    ensures r.Some? <==> |ks| == |vs|
  {
    if |ks| != |vs| then None else Some(FromPairs(Zip(ks, vs)))
  }

  // ---------------------------------------------------------------------
  // Lemmas about ordered arrays

  lemma LastSplit<T>(s: seq<T>)
    requires s != []
    ensures s == s[..|s| - 1] + [s[|s| - 1]]
  {
  }

  lemma {:induction false} AddNewKeepsElements(ks: seq<string>, xs: seq<string>)
    ensures forall k :: k in AddNew(ks, xs) <==> k in ks || k in xs
    decreases |xs|
  {
    if xs != [] {
      var n := |xs| - 1;
      AddNewKeepsElements(ks, xs[..n]);
      assert xs == xs[..n] + [xs[n]];
    }
  }

  /** Assigning a key keeps the order of the keys and appends a new one. */
  lemma {:induction false} KeysPut<V>(d: Dict<V>, k: string, v: V)
    ensures Keys(Put(d, k, v)) == if k in Keys(d) then Keys(d) else Keys(d) + [k]
    decreases |d|
  {
    if d != [] && d[0].0 != k {
      KeysPut(d[1..], k, v);
      assert Keys(d) == [d[0].0] + Keys(d[1..]);
    }
  }

  /** The keys of an array after assigning pairs are the old keys followed
      by the new ones in first-assignment order. */
  lemma {:induction false} KeysPutAll<V>(d: Dict<V>, ps: seq<(string, V)>)
    ensures Keys(PutAll(d, ps)) == AddNew(Keys(d), Keys(ps))
    decreases |ps|
  {
    if ps != [] {
      var n := |ps| - 1;
      KeysPutAll(d, ps[..n]);
      KeysPut(PutAll(d, ps[..n]), ps[n].0, ps[n].1);
      assert Keys(ps)[..n] == Keys(ps[..n]);
    }
  }

  /** A key that no pair assigns keeps its old value. */
  lemma {:induction false} GetPutAllUntouched<V>(d: Dict<V>, ps: seq<(string, V)>, k: string)
    requires k !in Keys(ps)
    ensures Get(PutAll(d, ps), k) == Get(d, k)
    decreases |ps|
  {
    if ps != [] {
      var n := |ps| - 1;
      assert k != Keys(ps)[n];
      assert Keys(ps)[..n] == Keys(ps[..n]);
      assert k !in Keys(ps)[..n];
      GetPutAllUntouched(d, ps[..n], k);
    }
  }

  /** A key ends up with the value of its last assignment. */
  lemma {:induction false} GetPutAllLast<V>(d: Dict<V>, ps: seq<(string, V)>, j: nat)
    requires j < |ps|
    requires forall j' :: j < j' < |ps| ==> ps[j'].0 != ps[j].0
    ensures Get(PutAll(d, ps), ps[j].0) == Some(ps[j].1)
    decreases |ps|
  {
    var n := |ps| - 1;
    var k := ps[j].0;
    var before := PutAll(d, ps[..n]);
    assert PutAll(d, ps) == Put(before, ps[n].0, ps[n].1);
    if j == n {
      assert Get(Put(before, k, ps[n].1), k) == Some(ps[j].1);
    } else {
      var pre := ps[..n];
      assert pre[j] == ps[j];
      assert forall j' :: j < j' < |pre| ==> pre[j'].0 != k by {
        forall j' | j < j' < |pre| ensures pre[j'].0 != k {
          assert pre[j'] == ps[j'];
        }
      }
      GetPutAllLast(d, pre, j);
      assert ps[n].0 != k;
      assert Get(Put(before, ps[n].0, ps[n].1), k) == Get(before, k) == Some(ps[j].1);
    }
  }

  /** In an array without repeated keys, the key at position j maps to the
      value at position j. */
  lemma {:induction false} GetAt<V>(e: Dict<V>, j: nat)
    requires NoDuplicates(Keys(e)) && j < |e|
    ensures Get(e, e[j].0) == Some(e[j].1)
    decreases |e|
  {
    if j > 0 {
      assert Keys(e)[0] != Keys(e)[j];
      assert Keys(e[1..]) == Keys(e)[1..];
      GetAt(e[1..], j - 1);
    }
  }

  /** `array_merge(d, e)` maps every key of `e` to its value in `e`. */
  lemma MergeGet<V>(d: Dict<V>, e: Dict<V>, k: string)
    requires NoDuplicates(Keys(e)) && k in Keys(e)
    ensures Get(PutAll(d, e), k) == Get(e, k)
  {
    var j :| 0 <= j < |e| && Keys(e)[j] == k;
    GetAt(e, j);
    forall j' | j < j' < |e| ensures e[j'].0 != e[j].0 {
      assert Keys(e)[j'] != Keys(e)[j];
    }
    GetPutAllLast(d, e, j);
  }

  lemma NoDuplicatesConcat(a: seq<string>, b: seq<string>)
    requires NoDuplicates(a + b)
    ensures NoDuplicates(a) && NoDuplicates(b)
    ensures forall x :: x in a ==> x !in b
  {
    forall i, j | 0 <= i < j < |a| ensures a[i] != a[j] {
      assert a[i] == (a + b)[i] && a[j] == (a + b)[j];
    }
    forall i, j | 0 <= i < j < |b| ensures b[i] != b[j] {
      assert b[i] == (a + b)[|a| + i] && b[j] == (a + b)[|a| + j];
    }
    forall i, j | 0 <= i < |a| && 0 <= j < |b| ensures a[i] != b[j] {
      assert a[i] == (a + b)[i] && b[j] == (a + b)[|a| + j];
    }
  }

  /** Adding the distinct elements of `xs` adds the same as adding `xs`. */
  lemma {:induction false} AddNewDistinct(ks: seq<string>, xs: seq<string>)
    ensures AddNew(ks, Distinct(xs)) == AddNew(ks, xs)
    decreases |xs|
  {
    if xs != [] {
      var n := |xs| - 1;
      var pre := xs[..n];
      var d := Distinct(pre);
      AddNewDistinct(ks, pre);
      AddNewKeepsElements([], pre);
      AddNewKeepsElements(ks, pre);
      if xs[n] !in d {
        assert (d + [xs[n]])[..|d|] == d;
      }
    }
  }

  /** A sequence without repetitions is its own `Distinct`. */
  lemma {:induction false} DistinctOfDistinct(xs: seq<string>)
    requires NoDuplicates(xs)
    ensures Distinct(xs) == xs
    decreases |xs|
  {
    if xs != [] {
      var n := |xs| - 1;
      var pre := xs[..n];
      assert NoDuplicates(pre) by {
        forall i, j | 0 <= i < j < |pre| ensures pre[i] != pre[j] {
          assert pre[i] == xs[i] && pre[j] == xs[j];
        }
      }
      DistinctOfDistinct(pre);
      assert xs[n] !in pre by {
        forall i | 0 <= i < n ensures pre[i] != xs[n] {
          assert pre[i] == xs[i];
        }
      }
      assert xs == pre + [xs[n]];
    }
  }

  lemma {:induction false} AddNewConcat(ks: seq<string>, a: seq<string>, b: seq<string>)
    ensures AddNew(ks, a + b) == AddNew(AddNew(ks, a), b)
    decreases |b|
  {
    if b != [] {
      var n := |b| - 1;
      assert (a + b)[..|a| + n] == a + b[..n];
      AddNewConcat(ks, a, b[..n]);
    } else {
      assert a + b == a;
    }
  }

  lemma {:induction false} AddNewNoDuplicates(ks: seq<string>, xs: seq<string>)
    requires NoDuplicates(ks)
    ensures NoDuplicates(AddNew(ks, xs))
    decreases |xs|
  {
    if xs != [] {
      AddNewNoDuplicates(ks, xs[..|xs| - 1]);
    }
  }

  /** `Distinct` keeps exactly the elements of its argument, without
      repetition. */
  lemma DistinctSpec(xs: seq<string>)
    ensures NoDuplicates(Distinct(xs))
    ensures forall x :: x in Distinct(xs) <==> x in xs
  {
    AddNewNoDuplicates([], xs);
    AddNewKeepsElements([], xs);
  }

  /** Assigning a key the array does not hold appends it. */
  lemma {:induction false} PutNew<V>(d: Dict<V>, k: string, v: V)
    requires forall i :: 0 <= i < |d| ==> d[i].0 != k
    ensures Put(d, k, v) == d + [(k, v)]
    decreases |d|
  {
    if d != [] {
      PutNew(d[1..], k, v);
      PutCons(d, k, v, d[1..] + [(k, v)]);
      ConsSnoc(d, (k, v));
    }
  }

  lemma ConsSnoc<T>(s: seq<T>, x: T)
    requires s != []
    ensures [s[0]] + (s[1..] + [x]) == s + [x]
  {
    assert [s[0]] + s[1..] == s;
  }

  /** One step of `PutNew`: a key other than the first is assigned in the
      tail. */
  lemma PutCons<V>(d: Dict<V>, k: string, v: V, tail: Dict<V>)
    requires d != [] && d[0].0 != k && Put(d[1..], k, v) == tail
    ensures Put(d, k, v) == [d[0]] + tail
  {
  }

  /** Unsetting a key that was just appended restores the array. */
  lemma {:induction false} RemoveAppended<V>(d: Dict<V>, k: string, v: V)
    requires forall i :: 0 <= i < |d| ==> d[i].0 != k
    ensures Remove(d + [(k, v)], k) == d
    decreases |d|
  {
    if d == [] {
      assert Remove([(k, v)], k) == Remove([], k);
    } else {
      RemoveAppended(d[1..], k, v);
      RemoveCons(d, k, v);
    }
  }

  /** One step of `RemoveAppended`. */
  lemma RemoveCons<V>(d: Dict<V>, k: string, v: V)
    requires d != [] && d[0].0 != k && Remove(d[1..] + [(k, v)], k) == d[1..]
    ensures Remove(d + [(k, v)], k) == d
  {
    SnocTail(d, (k, v));
    assert [d[0]] + d[1..] == d;
  }

  lemma KeysSnoc<V>(a: Dict<V>, p: (string, V))
    ensures Keys(a + [p]) == Keys(a) + [p.0]
  {
    var l, r := Keys(a + [p]), Keys(a) + [p.0];
    forall i | 0 <= i < |l| ensures l[i] == r[i] {
      assert (a + [p])[i] == if i < |a| then a[i] else p;
    }
  }

  lemma SnocTail<T>(s: seq<T>, x: T)
    requires s != []
    ensures (s + [x])[0] == s[0] && (s + [x])[1..] == s[1..] + [x]
  {
  }

  /** Assigning pairs whose keys are all distinct builds exactly those
      pairs. */
  lemma {:induction false} FromPairsDistinct<V>(ps: seq<(string, V)>)
    requires NoDuplicates(Keys(ps))
    ensures FromPairs(ps) == ps
    decreases |ps|
  {
    if ps != [] {
      var n := |ps| - 1;
      var pre := ps[..n];
      assert Keys(pre) == Keys(ps)[..n];
      assert NoDuplicates(Keys(pre)) by {
        forall i, j | 0 <= i < j < n ensures Keys(pre)[i] != Keys(pre)[j] {
          assert Keys(pre)[i] == Keys(ps)[i] && Keys(pre)[j] == Keys(ps)[j];
        }
      }
      FromPairsDistinct(pre);
      assert ps[n].0 !in Keys(pre) by {
        forall i | 0 <= i < n ensures Keys(pre)[i] != ps[n].0 {
          assert Keys(pre)[i] == Keys(ps)[i] && ps[n].0 == Keys(ps)[n];
        }
      }
      PutNew(pre, ps[n].0, ps[n].1);
      calc {
        FromPairs(ps);
        Put(PutAll([], pre), ps[n].0, ps[n].1);
        pre + [(ps[n].0, ps[n].1)];
        { assert (ps[n].0, ps[n].1) == ps[n]; LastSplit(ps); }
        ps;
      }
    }
  }

  /** `array_combine` over distinct keys keeps the keys in order and pairs
      the i-th key with the i-th value. */
  lemma CombineDistinct<V>(ks: seq<string>, vs: seq<V>)
    requires NoDuplicates(ks) && |ks| == |vs|
    ensures Combine(ks, vs) == Some(Zip(ks, vs))
    ensures Keys(Combine(ks, vs).value) == ks
    ensures forall i :: 0 <= i < |ks| ==> Get(Combine(ks, vs).value, ks[i]) == Some(vs[i])
  {
    var ps := Zip(ks, vs);
    assert Keys(ps) == ks;
    FromPairsDistinct(ps);
    forall i | 0 <= i < |ks|
      ensures Get(ps, ks[i]) == Some(vs[i])
    {
      GetAt(ps, i);
    }
  }
}
