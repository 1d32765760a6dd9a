/**
 * Plain JavaScript objects with string keys, as ordered lists of members.
 * Property assignment `o[k] = v` keeps an existing key where it stands and
 * appends a new one, so the member order is the order of first assignment,
 * which is the order `JSON.stringify` writes them in.
 */
module JsObject {
  import opened Wrappers

  function Keys<V>(o: seq<(string, V)>): (ks: seq<string>)
    ensures |ks| == |o| && forall i :: 0 <= i < |o| ==> ks[i] == o[i].0
  {
    seq(|o|, i requires 0 <= i < |o| => o[i].0)
  }

  predicate Distinct(s: seq<string>)
  {
    forall i, j :: 0 <= i < j < |s| ==> s[i] != s[j]
  }

  /** Objects never hold a key twice. */
  predicate DistinctKeys<V>(o: seq<(string, V)>)
  {
    Distinct(Keys(o))
  }

  /** The value of property `k`, or `None` for `undefined`. */
  function Lookup<V>(o: seq<(string, V)>, k: string): (r: Option<V>)
    ensures r.None? <==> k !in Keys(o)
    ensures r.Some? ==> (k, r.value) in o
  {
    if o == [] then None
    else if o[0].0 == k then Some(o[0].1)
    else
      assert Keys(o) == [o[0].0] + Keys(o[1..]);
      Lookup(o[1..], k)
  }

  /** Looking a key up in two joined member lists finds it in the first list when it is there. */
  lemma {:induction false} LookupAppend<V>(a: seq<(string, V)>, b: seq<(string, V)>, k: string)
    ensures Lookup(a + b, k) == if k in Keys(a) then Lookup(a, k) else Lookup(b, k)
  {
    if a == [] {
      assert a + b == b;
    } else {
      assert (a + b)[1..] == a[1..] + b;
      assert Keys(a) == [a[0].0] + Keys(a[1..]);
      LookupAppend(a[1..], b, k);
    }
  }

  /** With distinct keys, looking up the key of any member finds that member's value. */
  lemma {:induction false} LookupAt<V>(o: seq<(string, V)>, i: nat)
    requires DistinctKeys(o) && i < |o|
    ensures Lookup(o, o[i].0) == Some(o[i].1)
  {
    if i > 0 {
      assert o[i].0 == Keys(o)[i] != Keys(o)[0] == o[0].0;
      assert o[1..][i - 1] == o[i];
      assert DistinctKeys(o[1..]) by {
        forall a, b | 0 <= a < b < |o| - 1 ensures Keys(o[1..])[a] != Keys(o[1..])[b] {
          assert Keys(o[1..])[a] == Keys(o)[a + 1] && Keys(o[1..])[b] == Keys(o)[b + 1];
        }
      }
      LookupAt(o[1..], i - 1);
    }
  }

  /** Property assignment `o[k] = v`. */
  function Put<V>(o: seq<(string, V)>, k: string, v: V): (r: seq<(string, V)>)
    ensures Keys(r) == if k in Keys(o) then Keys(o) else Keys(o) + [k]
  {
    if o == [] then [(k, v)]
    else
      KeysCons(o[0], o[1..]);
      assert [o[0]] + o[1..] == o;
      if o[0].0 == k then
        KeysCons((k, v), o[1..]);
        [(k, v)] + o[1..]
      else
        var rest := Put(o[1..], k, v);
        KeysCons(o[0], rest);
        [o[0]] + rest
  }

  lemma KeysCons<V>(x: (string, V), rest: seq<(string, V)>)
    ensures Keys([x] + rest) == [x.0] + Keys(rest)
  {
  }

  /** After `o[k] = v`, `k` reads `v` and every other key reads what it read before. */
  lemma {:induction false} PutLookup<V>(o: seq<(string, V)>, k: string, v: V, k': string)
    ensures Lookup(Put(o, k, v), k') == if k' == k then Some(v) else Lookup(o, k')
  {
    if o != [] && o[0].0 != k {
      PutLookup(o[1..], k, v, k');
    }
  }

  /** Assignment never creates a second member with the same key. */
  lemma PutDistinct<V>(o: seq<(string, V)>, k: string, v: V)
    requires DistinctKeys(o)
    ensures DistinctKeys(Put(o, k, v))
  {
    var ks := Keys(o);
    if k !in ks {
      assert Keys(Put(o, k, v)) == ks + [k];
      assert forall i :: 0 <= i < |ks| ==> (ks + [k])[i] == ks[i];
    }
  }

  /** Assigning a property the value it already has changes nothing. */
  lemma {:induction false} PutExisting<V>(o: seq<(string, V)>, k: string, v: V)
    requires DistinctKeys(o) && Lookup(o, k) == Some(v)
    ensures Put(o, k, v) == o
  {
    assert Keys(o) == [o[0].0] + Keys(o[1..]);
    if o[0].0 != k {
      assert DistinctKeys(o[1..]) by {
        assert forall i :: 0 <= i < |o| - 1 ==> Keys(o[1..])[i] == Keys(o)[i + 1];
      }
      PutExisting(o[1..], k, v);
    }
  }
}
