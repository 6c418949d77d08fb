/** Python's insertion-ordered `dict` with string keys, as a list of pairs.
    Assigning `d[k] = v` overwrites the value in place when `k` is present
    (the key keeps its first position) and appends `(k, v)` otherwise. */
module NdfDict {

  import opened NdfOption

  function KeysOf<V>(d: seq<(string, V)>): (r: seq<string>)
    ensures |r| == |d|
    ensures forall i :: 0 <= i < |d| ==> r[i] == d[i].0
  {
    seq(|d|, i requires 0 <= i < |d| => d[i].0)
  }

  /** No key occurs twice: the shape of every Python dict. */
  predicate UniqueKeys<V>(d: seq<(string, V)>)
  {
    forall i, j :: 0 <= i < j < |d| ==> d[i].0 != d[j].0
  }

  /** Position of the first occurrence of `x` in `xs`. */
  function FirstIndex<T(==)>(xs: seq<T>, x: T): (i: nat)
    requires x in xs
    ensures i < |xs| && xs[i] == x
    ensures forall j :: 0 <= j < i ==> xs[j] != x
  {
    if xs[0] == x then 0 else FirstIndex(xs[1..], x) + 1
  }

  /** `d.get(k)`: the value stored under `k`, if any. */
  function Lookup<V>(d: seq<(string, V)>, k: string): (r: Option<V>)
    ensures r.None? <==> k !in KeysOf(d)
    ensures r.Some? ==> exists i :: 0 <= i < |d| && d[i] == (k, r.value)
  {
    if d == [] then None
    else if d[0].0 == k then Some(d[0].1)
    else
      var r := Lookup(d[1..], k);
      assert KeysOf(d) == [d[0].0] + KeysOf(d[1..]);
      assert r.Some? ==> exists i :: 0 <= i < |d| && d[i] == (k, r.value) by {
        if r.Some? {
          var i :| 0 <= i < |d[1..]| && d[1..][i] == (k, r.value);
          assert d[i + 1] == (k, r.value);
        }
      }
      r
  }

  /** In a dict, the value under a key is the one stored at that key's position. */
  lemma {:induction false} LookupAt<V>(d: seq<(string, V)>, i: nat)
    requires UniqueKeys(d) && i < |d|
    ensures Lookup(d, d[i].0) == Some(d[i].1)
  {
    if i > 0 {
      assert UniqueKeys(d[1..]) by {
        forall p, q | 0 <= p < q < |d[1..]| ensures d[1..][p].0 != d[1..][q].0 {
          assert d[1..][p] == d[p + 1] && d[1..][q] == d[q + 1];
        }
      }
      assert d[1..][i - 1] == d[i];
      LookupAt(d[1..], i - 1);
    }
  }

  /** `d[k] = v` on an insertion-ordered dict. */
  function Put<V>(d: seq<(string, V)>, k: string, v: V): (r: seq<(string, V)>)
    requires UniqueKeys(d)
    ensures UniqueKeys(r)
  {
    if k in KeysOf(d) then d[FirstIndex(KeysOf(d), k) := (k, v)] else d + [(k, v)]
  }

  /** After `d[k] = v`, `k` maps to `v`, every other key keeps its value, and
      `k` keeps its position or is added at the end. */
  lemma PutSpec<V>(d: seq<(string, V)>, k: string, v: V)
    requires UniqueKeys(d)
    ensures Lookup(Put(d, k, v), k) == Some(v)
    ensures forall k' :: k' != k ==> Lookup(Put(d, k, v), k') == Lookup(d, k')
    ensures KeysOf(Put(d, k, v)) == if k in KeysOf(d) then KeysOf(d) else KeysOf(d) + [k]
  {
    var r := Put(d, k, v);
    if k in KeysOf(d) {
      var i := FirstIndex(KeysOf(d), k);
      assert KeysOf(r) == KeysOf(d);
      LookupAt(r, i);
      forall k' | k' != k ensures Lookup(r, k') == Lookup(d, k') {
        LookupOther(d, i, v, k');
      }
    } else {
      assert KeysOf(r) == KeysOf(d) + [k];
      LookupAt(r, |d|);
      forall k' | k' != k ensures Lookup(r, k') == Lookup(d, k') {
        LookupAppend(d, (k, v), k');
      }
    }
  }

  /** Replacing the value at one key's position does not change other lookups. */
  lemma {:induction false} LookupOther<V>(d: seq<(string, V)>, i: nat, v: V, k': string)
    requires i < |d| && k' != d[i].0
    ensures Lookup(d[i := (d[i].0, v)], k') == Lookup(d, k')
  {
    if i > 0 && d[0].0 != k' {
      assert d[i := (d[i].0, v)][1..] == d[1..][i - 1 := (d[i].0, v)];
      LookupOther(d[1..], i - 1, v, k');
    }
  }

  /** Appending a pair with another key does not change a lookup. */
  lemma {:induction false} LookupAppend<V>(d: seq<(string, V)>, e: (string, V), k': string)
    requires e.0 != k'
    ensures Lookup(d + [e], k') == Lookup(d, k')
  {
    if d != [] && d[0].0 != k' {
      assert (d + [e])[1..] == d[1..] + [e];
      LookupAppend(d[1..], e, k');
    }
  }

  /** The dict built by running the assignments `writes` in order, starting empty. */
  function Assign<V>(writes: seq<(string, V)>): (r: seq<(string, V)>)
    ensures UniqueKeys(r)
  {
    if writes == [] then []
    else
      var last := writes[|writes| - 1];
      Put(Assign(writes[..|writes| - 1]), last.0, last.1)
  }

  /** Last write wins: the value under `k` is the one of the last assignment to `k`. */
  lemma {:induction false} LastWriteWins<V>(writes: seq<(string, V)>, j: nat)
    requires j < |writes|
    requires forall j' :: j < j' < |writes| ==> writes[j'].0 != writes[j].0
    ensures Lookup(Assign(writes), writes[j].0) == Some(writes[j].1)
  {
    var pre := writes[..|writes| - 1];
    var last := writes[|writes| - 1];
    PutSpec(Assign(pre), last.0, last.1);
    if j < |writes| - 1 {
      LastWriteWins(pre, j);
    }
  }

  /** A key never assigned is absent. */
  lemma {:induction false} NeverWritten<V>(writes: seq<(string, V)>, k: string)
    requires forall j :: 0 <= j < |writes| ==> writes[j].0 != k
    ensures Lookup(Assign(writes), k) == None
  {
    if writes != [] {
      var pre := writes[..|writes| - 1];
      var last := writes[|writes| - 1];
      PutSpec(Assign(pre), last.0, last.1);
      NeverWritten(pre, k);
    }
  }

  /** `ks` lists the elements of `src`, each once, ordered by first occurrence in `src`. */
  ghost predicate FirstOccurrenceOrder(ks: seq<string>, src: seq<string>)
  {
    (forall x :: x in ks <==> x in src) &&
    forall p, q :: 0 <= p < q < |ks| ==>
      ks[p] in src && ks[q] in src && FirstIndex(src, ks[p]) < FirstIndex(src, ks[q])
  }

  /** One more element at the end of `src` keeps the order of first occurrences. */
  lemma FirstOccurrenceStep(ks: seq<string>, src: seq<string>, k: string)
    requires FirstOccurrenceOrder(ks, src)
    ensures FirstOccurrenceOrder(if k in src then ks else ks + [k], src + [k])
  {
    var src' := src + [k];
    forall x | x in src ensures FirstIndex(src', x) == FirstIndex(src, x) {
      FirstIndexPrefix(src, [k], x);
    }
    if k !in src {
      var ks' := ks + [k];
      assert FirstIndex(src', k) == |src|;
      forall p, q | 0 <= p < q < |ks'|
        ensures ks'[p] in src' && ks'[q] in src' && FirstIndex(src', ks'[p]) < FirstIndex(src', ks'[q])
      {
        assert ks'[p] == ks[p] && ks[p] in src;
        if q < |ks| {
          assert ks'[q] == ks[q];
        }
      }
    }
  }

  /** Running one more assignment is one more `Put`. */
  lemma AssignSnoc<V>(writes: seq<(string, V)>, w: (string, V))
    ensures Assign(writes + [w]) == Put(Assign(writes), w.0, w.1)
  {
    assert (writes + [w])[..|writes|] == writes;
  }

  /** The keys of the dict are the assigned keys, each once, ordered by the
      position of their first assignment. */
  lemma {:induction false} AssignKeyOrder<V>(writes: seq<(string, V)>)
    ensures FirstOccurrenceOrder(KeysOf(Assign(writes)), KeysOf(writes))
  {
    if writes != [] {
      var pre := writes[..|writes| - 1];
      var last := writes[|writes| - 1];
      AssignKeyOrder(pre);
      KeysOfSnoc(writes);
      var d := Assign(pre);
      assert Assign(writes) == Put(d, last.0, last.1);
      PutSpec(d, last.0, last.1);
      assert last.0 in KeysOf(d) <==> last.0 in KeysOf(pre);
      FirstOccurrenceStep(KeysOf(d), KeysOf(pre), last.0);
    }
  }

  lemma KeysOfSnoc<V>(writes: seq<(string, V)>)
    requires writes != []
    ensures KeysOf(writes) == KeysOf(writes[..|writes| - 1]) + [writes[|writes| - 1].0]
  {
  }

  /** The first occurrence of an element of `a` in `a + b` is its first occurrence in `a`. */
  lemma {:induction false} FirstIndexPrefix<T>(a: seq<T>, b: seq<T>, x: T)
    requires x in a
    ensures FirstIndex(a + b, x) == FirstIndex(a, x)
  {
    if a[0] != x {
      assert (a + b)[1..] == a[1..] + b;
      FirstIndexPrefix(a[1..], b, x);
    }
  }

  /** Assigning distinct keys in order builds exactly that list of pairs. */
  lemma {:induction false} AssignDistinct<V>(writes: seq<(string, V)>)
    requires UniqueKeys(writes)
    ensures Assign(writes) == writes
  {
    if writes != [] {
      var pre := writes[..|writes| - 1];
      AssignDistinct(pre);
      assert writes[|writes| - 1].0 !in KeysOf(pre);
      assert writes == pre + [writes[|writes| - 1]];
    }
  }
}
