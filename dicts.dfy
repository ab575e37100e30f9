/** A JavaScript plain object with string keys and string values, as an
    ordered list of entries: `Object.entries` lists them in insertion
    order, assigning to an existing key keeps its position, and assigning
    to a new key appends it. */
module Dicts {
  import opened Optional

  /** One `{ name, value }` pair; also the shape of an `Env` element in a
      deployment payload. */
  datatype Entry = Entry(name: string, value: string)

  type Dict = seq<Entry>

  function Keys(d: Dict): set<string> {
    if |d| == 0 then {} else {d[0].name} + Keys(d[1..])
  }

  /** A JavaScript object never holds a key twice. */
  predicate UniqueNames(d: Dict) {
    |d| == 0 || (d[0].name !in Keys(d[1..]) && UniqueNames(d[1..]))
  }

  /** A key is present exactly when some entry carries it. */
  lemma {:induction false} KeysAt(d: Dict, k: string)
    ensures k in Keys(d) <==> exists i :: 0 <= i < |d| && d[i].name == k
  {
    if |d| > 0 {
      KeysAt(d[1..], k);
      if k in Keys(d[1..]) {
        var i :| 0 <= i < |d[1..]| && d[1..][i].name == k;
        assert d[i + 1].name == k;
      }
      if exists i :: 0 <= i < |d| && d[i].name == k {
        var i :| 0 <= i < |d| && d[i].name == k;
        if i > 0 { assert d[1..][i - 1].name == k; }
      }
    }
  }

  /** Unique names means no two positions carry the same name. */
  lemma {:induction false} UniqueNamesAt(d: Dict)
    requires UniqueNames(d)
    ensures forall i, j :: 0 <= i < j < |d| ==> d[i].name != d[j].name
  {
    if |d| > 0 {
      UniqueNamesAt(d[1..]);
      KeysAt(d[1..], d[0].name);
      forall i, j | 0 <= i < j < |d| ensures d[i].name != d[j].name {
        assert d[j] == d[1..][j - 1];
        if i > 0 { assert d[i] == d[1..][i - 1]; }
      }
    }
  }

  /** `d[k]`, `None` standing for `undefined`. */
  function Get(d: Dict, k: string): (r: Option<string>)
    ensures r.None? <==> k !in Keys(d)
    ensures r.Some? ==> Entry(k, r.value) in d
  {
    if |d| == 0 then None
    else if d[0].name == k then Some(d[0].value)
    else
      var r := Get(d[1..], k);
      assert r.Some? ==> Entry(k, r.value) in d[1..];
      r
  }

  /** `d[k] = v`: `k` now maps to `v`, every other key is untouched, and
      the keys are those of `d` plus `k`. */
  function Put(d: Dict, k: string, v: string): (r: Dict)
    ensures Get(r, k) == Some(v)
    ensures forall k' :: k' != k ==> Get(r, k') == Get(d, k')
    ensures Keys(r) == Keys(d) + {k}
  {
    if |d| == 0 then [Entry(k, v)]
    else if d[0].name == k then
      var r := [Entry(k, v)] + d[1..];
      assert r[1..] == d[1..];
      r
    else
      var rest := Put(d[1..], k, v);
      var r := [d[0]] + rest;
      assert r[0] == d[0] && r[1..] == rest;
      r
  }

  /** An existing key keeps its position; a new key is appended. */
  lemma {:induction false} PutOrder(d: Dict, k: string, v: string)
    ensures k in Keys(d) ==> |Put(d, k, v)| == |d| && forall i :: 0 <= i < |d| ==> Put(d, k, v)[i].name == d[i].name
    ensures k !in Keys(d) ==> Put(d, k, v) == d + [Entry(k, v)]
  {
    if |d| > 0 && d[0].name != k {
      PutOrder(d[1..], k, v);
      var rest := Put(d[1..], k, v);
      assert Put(d, k, v) == [d[0]] + rest;
      if k !in Keys(d) {
        assert [d[0]] + (d[1..] + [Entry(k, v)]) == d + [Entry(k, v)];
      } else {
        forall i | 0 <= i < |d| ensures Put(d, k, v)[i].name == d[i].name {
          if i > 0 { assert Put(d, k, v)[i] == rest[i - 1]; }
        }
      }
    }
  }

  /** Assigning to an object never makes a key appear twice. */
  lemma {:induction false} PutUnique(d: Dict, k: string, v: string)
    requires UniqueNames(d)
    ensures UniqueNames(Put(d, k, v))
  {
    if |d| > 0 {
      if d[0].name == k {
        assert Put(d, k, v)[1..] == d[1..];
      } else {
        PutUnique(d[1..], k, v);
        assert Put(d, k, v)[1..] == Put(d[1..], k, v);
      }
    }
  }

  /** `{ ...a, ...b }`: a copy of `a` with every entry of `b` assigned in
      turn. It holds the keys of both. */
  function Spread(a: Dict, b: Dict): (r: Dict)
    ensures Keys(r) == Keys(a) + Keys(b)
    decreases |b|
  {
    if |b| == 0 then a else Spread(Put(a, b[0].name, b[0].value), b[1..])
  }

  /** `a`'s keys keep their positions at the front of the spread. */
  lemma {:induction false} SpreadOrder(a: Dict, b: Dict)
    ensures |Spread(a, b)| >= |a|
    ensures forall i :: 0 <= i < |a| ==> Spread(a, b)[i].name == a[i].name
    decreases |b|
  {
    if |b| > 0 {
      PutOrder(a, b[0].name, b[0].value);
      SpreadOrder(Put(a, b[0].name, b[0].value), b[1..]);
    }
  }

  /** A spread of objects is an object: no key twice. */
  lemma {:induction false} SpreadUnique(a: Dict, b: Dict)
    requires UniqueNames(a)
    ensures UniqueNames(Spread(a, b))
    decreases |b|
  {
    if |b| > 0 {
      PutUnique(a, b[0].name, b[0].value);
      SpreadUnique(Put(a, b[0].name, b[0].value), b[1..]);
    }
  }

  /** Later spreads win: a key of `b` has `b`'s value, any other key has
      `a`'s. */
  lemma {:induction false} SpreadGet(a: Dict, b: Dict, k: string)
    requires UniqueNames(b)
    ensures Get(Spread(a, b), k) == if k in Keys(b) then Get(b, k) else Get(a, k)
    decreases |b|
  {
    if |b| > 0 {
      SpreadGet(Put(a, b[0].name, b[0].value), b[1..], k);
    }
  }
}
