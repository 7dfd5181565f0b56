/** JavaScript values as `JSON.parse` produces them (plus `undefined`), and the
    two object operations the core relies on: reading a property and assigning
    one. An object is the list of its own properties in enumeration order. */
module Json {
  import opened Wrappers

  datatype Json =
    | JNull
    | JUndef
    | JBool(b: bool)
    | JNum(n: real)
    | JStr(s: string)
    | JArr(items: seq<Json>)
    | JObj(entries: seq<(string, Json)>)

  type Entries = seq<(string, Json)>

  function Keys(es: Entries): set<string> {
    set i | 0 <= i < |es| :: es[i].0
  }

  lemma KeysConcat(a: Entries, b: Entries)
    ensures Keys(a + b) == Keys(a) + Keys(b)
  {
    forall k | k in Keys(a + b) ensures k in Keys(a) + Keys(b) {
      var i :| 0 <= i < |a + b| && (a + b)[i].0 == k;
      if i >= |a| { assert b[i - |a|].0 == k; }
    }
    forall k | k in Keys(a) + Keys(b) ensures k in Keys(a + b) {
      if k in Keys(a) {
        var i :| 0 <= i < |a| && a[i].0 == k;
        assert (a + b)[i].0 == k;
      } else {
        var i :| 0 <= i < |b| && b[i].0 == k;
        assert (a + b)[|a| + i].0 == k;
      }
    }
  }

  lemma KeysSingleton(p: (string, Json))
    ensures Keys([p]) == {p.0}
  {
    assert [p][0].0 == p.0;
  }

  /** No property name occurs twice, as in every JavaScript object. */
  predicate DistinctKeys(es: Entries) {
    forall i, j :: 0 <= i < j < |es| ==> es[i].0 != es[j].0
  }

  /** `obj[k]`: the value of property `k`, or None when `obj` has no such property. */
  function Get(es: Entries, k: string): (r: Option<Json>)
    ensures r.None? <==> k !in Keys(es)
    ensures r.Some? ==> (k, r.value) in es
  {
    if es == [] then None
    else if es[0].0 == k then Some(es[0].1)
    else
      KeysConcat([es[0]], es[1..]);
      assert es == [es[0]] + es[1..];
      Get(es[1..], k)
  }

  /** The position of the first property named `k`. */
  function KeyIndex(es: Entries, k: string): (i: nat)
    requires k in Keys(es)
    ensures i < |es| && es[i].0 == k
    ensures forall j :: 0 <= j < i ==> es[j].0 != k
  {
    if es[0].0 == k then 0
    else
      KeysConcat([es[0]], es[1..]);
      KeysSingleton(es[0]);
      assert es == [es[0]] + es[1..];
      KeyIndex(es[1..], k) + 1
  }

  /** Past a first property with another name, the position is one more
      than in the remaining properties. */
  lemma KeyIndexTail(es: Entries, k: string)
    requires es != [] && es[0].0 != k
    ensures k in Keys(es) <==> k in Keys(es[1..])
    ensures k in Keys(es) ==> KeyIndex(es, k) == KeyIndex(es[1..], k) + 1
  {
    KeysConcat([es[0]], es[1..]);
    assert es == [es[0]] + es[1..];
  }

  /** The property names in enumeration order. */
  function KeyOrder(es: Entries): (ks: seq<string>)
    ensures |ks| == |es| && forall i :: 0 <= i < |es| ==> ks[i] == es[i].0
  {
    seq(|es|, i requires 0 <= i < |es| => es[i].0)
  }

  /** `obj[k] = v`: an existing property keeps its place and takes the new
      value; a new one is added after all others. */
  function Assign(es: Entries, k: string, v: Json): (r: Entries)
    ensures Keys(r) == Keys(es) + {k}
    ensures k !in Keys(es) ==> r == es + [(k, v)]
    ensures k in Keys(es) ==> r == es[KeyIndex(es, k) := (k, v)]
  {
    if es == [] then
      KeysSingleton((k, v));
      [(k, v)]
    else
      KeysConcat([es[0]], es[1..]);
      KeysSingleton(es[0]);
      assert es == [es[0]] + es[1..];
      if es[0].0 == k then
        KeysConcat([(k, v)], es[1..]);
        KeysSingleton((k, v));
        assert [(k, v)] + es[1..] == es[0 := (k, v)];
        [(k, v)] + es[1..]
      else
        var rest := Assign(es[1..], k, v);
        KeysConcat([es[0]], rest);
        KeyIndexTail(es, k);
        [es[0]] + rest
  }

  /** Reading after `obj[k] = v` gives `v` at `k` and the old value elsewhere. */
  lemma {:induction false} GetAssign(es: Entries, k: string, v: Json, k': string)
    ensures Get(Assign(es, k, v), k') == if k' == k then Some(v) else Get(es, k')
  {
    if es != [] && es[0].0 != k {
      GetAssign(es[1..], k, v, k');
    }
  }

  /** `obj[k] = v` introduces no pair other than `(k, v)` and no repeated key. */
  lemma AssignPairs(es: Entries, k: string, v: Json)
    ensures forall p :: p in Assign(es, k, v) ==> p in es || p == (k, v)
    ensures DistinctKeys(es) ==> DistinctKeys(Assign(es, k, v))
  {
    AssignPairsFrom(es, k, v);
    if DistinctKeys(es) {
      AssignKeepsDistinct(es, k, v);
    }
  }

  lemma {:induction false} AssignPairsFrom(es: Entries, k: string, v: Json)
    ensures forall p :: p in Assign(es, k, v) ==> p in es || p == (k, v)
  {
    if es != [] && es[0].0 != k {
      AssignPairsFrom(es[1..], k, v);
      assert Assign(es, k, v) == [es[0]] + Assign(es[1..], k, v);
    }
  }

  lemma {:induction false} AssignKeepsDistinct(es: Entries, k: string, v: Json)
    requires DistinctKeys(es)
    ensures DistinctKeys(Assign(es, k, v))
  {
    if es != [] && es[0].0 != k {
      var rest := Assign(es[1..], k, v);
      assert DistinctKeys(es[1..]);
      AssignKeepsDistinct(es[1..], k, v);
      assert es[0].0 !in Keys(es[1..]) by {
        forall j | 0 <= j < |es[1..]| ensures es[1..][j].0 != es[0].0 {
          assert es[1..][j] == es[j + 1];
        }
      }
      assert es[0].0 !in Keys(rest);
      var r := [es[0]] + rest;
      assert Assign(es, k, v) == r;
      forall i, j | 0 <= i < j < |r| ensures r[i].0 != r[j].0 {
        if i == 0 {
          assert r[j] == rest[j - 1];
        }
      }
    } else if es != [] {
      assert forall j :: 0 < j < |es| ==> es[j].0 != k;
    }
  }

  /** The object built by assigning each pair of `kvs`, in order, to a fresh `{}`. */
  function AssignAll(kvs: Entries): (r: Entries)
    ensures Keys(r) == Keys(kvs)
    ensures DistinctKeys(r)
    ensures forall p :: p in r ==> p in kvs
  {
    if kvs == [] then []
    else
      var init, last := kvs[..|kvs| - 1], kvs[|kvs| - 1];
      assert kvs == init + [last];
      KeysConcat(init, [last]);
      KeysSingleton(last);
      AssignPairs(AssignAll(init), last.0, last.1);
      Assign(AssignAll(init), last.0, last.1)
  }

  lemma AssignAllSnoc(kvs: Entries, p: (string, Json))
    ensures AssignAll(kvs + [p]) == Assign(AssignAll(kvs), p.0, p.1)
  {
    assert (kvs + [p])[..|kvs|] == kvs;
  }

  /** On a key written several times, the last write wins. */
  lemma {:induction false} AssignAllLastWins(kvs: Entries, i: nat)
    requires i < |kvs|
    requires forall j :: i < j < |kvs| ==> kvs[j].0 != kvs[i].0
    ensures Get(AssignAll(kvs), kvs[i].0) == Some(kvs[i].1)
  {
    var n := |kvs| - 1;
    var init := kvs[..n];
    assert kvs == init + [kvs[n]];
    AssignAllSnoc(init, kvs[n]);
    GetAssign(AssignAll(init), kvs[n].0, kvs[n].1, kvs[i].0);
    if i < n {
      assert init[i] == kvs[i];
      forall j | i < j < |init| ensures init[j].0 != init[i].0 {
        assert init[j] == kvs[j];
      }
      AssignAllLastWins(init, i);
    }
  }

  /** Writing pairs whose keys are all distinct rebuilds exactly those pairs, in order. */
  lemma {:induction false} AssignAllDistinct(kvs: Entries)
    requires DistinctKeys(kvs)
    ensures AssignAll(kvs) == kvs
  {
    if kvs != [] {
      var n := |kvs| - 1;
      var init := kvs[..n];
      assert DistinctKeys(init);
      AssignAllDistinct(init);
      assert kvs[n].0 !in Keys(init);
      calc {
        AssignAll(kvs);
        Assign(init, kvs[n].0, kvs[n].1);
        init + [kvs[n]];
        kvs;
      }
    }
  }

  /** The keys of `ks` in order of their first occurrence. */
  function FirstOccurrences(ks: seq<string>): (r: seq<string>)
    ensures forall k :: k in r <==> k in ks
  {
    if ks == [] then []
    else
      var f := FirstOccurrences(ks[..|ks| - 1]);
      assert ks == ks[..|ks| - 1] + [ks[|ks| - 1]];
      if ks[|ks| - 1] in f then f else f + [ks[|ks| - 1]]
  }

  lemma KeysAsOrder(es: Entries)
    ensures forall k :: k in Keys(es) <==> k in KeyOrder(es)
  {
    forall k | k in KeyOrder(es) ensures k in Keys(es) {
      var i :| 0 <= i < |es| && KeyOrder(es)[i] == k;
      assert es[i].0 == k;
    }
  }

  /** Overwriting keeps the key order; a new key goes last. */
  lemma AssignKeyOrder(es: Entries, k: string, v: Json)
    ensures KeyOrder(Assign(es, k, v)) ==
      if k in Keys(es) then KeyOrder(es) else KeyOrder(es) + [k]
  {
  }

  lemma FirstOccurrencesSnoc(ks: seq<string>, k: string)
    ensures FirstOccurrences(ks + [k]) ==
      if k in ks then FirstOccurrences(ks) else FirstOccurrences(ks) + [k]
  {
    assert (ks + [k])[..|ks|] == ks;
  }

  /** The object built by successive writes lists each key where it was
      first written: overwriting never moves a property. */
  lemma {:induction false} AssignAllKeyOrder(kvs: Entries)
    ensures KeyOrder(AssignAll(kvs)) == FirstOccurrences(KeyOrder(kvs))
  {
    if kvs != [] {
      var n := |kvs| - 1;
      var init, last := kvs[..n], kvs[n];
      assert kvs == init + [last];
      assert KeyOrder(kvs) == KeyOrder(init) + [last.0];
      FirstOccurrencesSnoc(KeyOrder(init), last.0);
      AssignAllKeyOrder(init);
      KeysAsOrder(init);
      AssignAllSnoc(init, last);
      AssignKeyOrder(AssignAll(init), last.0, last.1);
    }
  }
}
