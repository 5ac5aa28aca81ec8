/**
 * Insertion-ordered dictionaries with string keys, the way Python's `dict`
 * behaves: looking a key up, assigning `d[k] = v` (which keeps the position of
 * an existing key and appends a new one), and the key order.
 */
module Dicts {
  import opened Wrappers

  /** One key/value pair of a dictionary. */
  datatype Entry<V> = Entry(key: string, value: V)

  /** The keys of `d`, in insertion order. */
  function Keys<V>(d: seq<Entry<V>>): (ks: seq<string>)
    ensures |ks| == |d|
    ensures forall i :: 0 <= i < |d| ==> ks[i] == d[i].key
  {
    if d == [] then [] else [d[0].key] + Keys(d[1..])
  }

  /** A real Python dict never holds the same key twice. */
  predicate UniqueKeys<V>(d: seq<Entry<V>>)
  {
    forall i, j :: 0 <= i < j < |d| ==> d[i].key != d[j].key
  }

  /** `d.get(k)`: the value stored under `k`, if any. */
  function Get<V>(d: seq<Entry<V>>, k: string): (r: Option<V>)
    ensures r.Some? <==> k in Keys(d)
    ensures r.Some? ==> Entry(k, r.value) in d
  {
    if d == [] then None
    else if d[0].key == k then Some(d[0].value)
    else Get(d[1..], k)
  }

  /** `d.get(k, default)`. */
  function GetOr<V>(d: seq<Entry<V>>, k: string, default: V): (r: V)
    ensures k !in Keys(d) ==> r == default
    ensures k in Keys(d) ==> Get(d, k) == Some(r)
  {
    match Get(d, k)
    case Some(v) => v
    case None => default
  }

  /**
   * `d[k] = v`: an existing key keeps its position and takes the new value,
   * a new key is appended at the end.
   */
  function Put<V>(d: seq<Entry<V>>, k: string, v: V): (r: seq<Entry<V>>)
    ensures |r| == if k in Keys(d) then |d| else |d| + 1
  {
    if d == [] then [Entry(k, v)]
    else if d[0].key == k then [Entry(k, v)] + d[1..]
    else [d[0]] + Put(d[1..], k, v)
  }

  /** After `d[k] = v`, looking up `k` finds `v` and every other key is untouched. */
  lemma {:induction false} PutGet<V>(d: seq<Entry<V>>, k: string, v: V, k': string)
    ensures Get(Put(d, k, v), k') == if k' == k then Some(v) else Get(d, k')
  {
    if d != [] && d[0].key != k {
      PutGet(d[1..], k, v, k');
    }
  }

  /** `d[k] = v` keeps the key order and appends `k` only when it is new. */
  lemma {:induction false} PutKeys<V>(d: seq<Entry<V>>, k: string, v: V)
    ensures Keys(Put(d, k, v)) == if k in Keys(d) then Keys(d) else Keys(d) + [k]
  {
    if d != [] && d[0].key != k {
      PutKeys(d[1..], k, v);
      assert Keys(d) == [d[0].key] + Keys(d[1..]);
    }
  }

  /** Assignment keeps a dict a dict: no key appears twice afterwards. */
  lemma PutUnique<V>(d: seq<Entry<V>>, k: string, v: V)
    requires UniqueKeys(d)
    ensures UniqueKeys(Put(d, k, v))
  {
    PutKeys(d, k, v);
    var r := Put(d, k, v);
    assert Keys(r) == if k in Keys(d) then Keys(d) else Keys(d) + [k];
    forall i, j | 0 <= i < j < |r|
      ensures r[i].key != r[j].key
    {
      assert Keys(r)[i] == r[i].key && Keys(r)[j] == r[j].key;
    }
  }

  /**
   * `for e in es: d[e.key] = e.value`, which is also how a dict display
   * `{k1: v1, k2: v2, ...}` is evaluated (starting from `{}`).
   */
  function PutAll<V>(d: seq<Entry<V>>, es: seq<Entry<V>>): seq<Entry<V>>
    decreases |es|
  {
    if es == [] then d else PutAll(Put(d, es[0].key, es[0].value), es[1..])
  }

  /** The dict that the display `{k1: v1, k2: v2, ...}` evaluates to. */
  function DictLiteral<V>(es: seq<Entry<V>>): seq<Entry<V>>
  {
    PutAll([], es)
  }

  /** The entries of `d` whose key is not `k` (the dict comprehension `{a: b for a, b in d.items() if a != k}`). */
  function Remove<V>(d: seq<Entry<V>>, k: string): (r: seq<Entry<V>>)
    ensures forall i :: 0 <= i < |r| ==> r[i] in d && r[i].key != k
    ensures forall i :: 0 <= i < |d| && d[i].key != k ==> d[i] in r
  {
    if d == [] then []
    else if d[0].key == k then Remove(d[1..], k)
    else [d[0]] + Remove(d[1..], k)
  }

  /** The keys of `ks` that are not `k`, in order. */
  function Without(ks: seq<string>, k: string): (r: seq<string>)
    ensures forall x :: x in r <==> x in ks && x != k
  {
    if ks == [] then []
    else if ks[0] == k then Without(ks[1..], k)
    else [ks[0]] + Without(ks[1..], k)
  }

  /** The keys of `ks` that `known` lacks, in the order of `ks`. */
  function Fresh(known: seq<string>, ks: seq<string>): seq<string>
  {
    if ks == [] then []
    else if ks[0] in known then Fresh(known, ks[1..])
    else [ks[0]] + Fresh(known, ks[1..])
  }

  /** In a dict, the entry at any position is what a lookup of its key finds. */
  lemma {:induction false} GetAt<V>(d: seq<Entry<V>>, i: nat)
    requires UniqueKeys(d) && i < |d|
    ensures Get(d, d[i].key) == Some(d[i].value)
  {
    if i > 0 {
      assert d[0].key != d[i].key;
      assert d[1..][i - 1] == d[i];
      GetAt(d[1..], i - 1);
    }
  }

  /**
   * Two dicts with the same key order that agree on every lookup are the same
   * dict: order and values together determine it.
   */
  lemma Extensionality<V>(a: seq<Entry<V>>, b: seq<Entry<V>>)
    requires UniqueKeys(a) && UniqueKeys(b)
    requires Keys(a) == Keys(b)
    requires forall k :: Get(a, k) == Get(b, k)
    ensures a == b
  {
    forall i | 0 <= i < |a|
      ensures a[i] == b[i]
    {
      assert a[i].key == b[i].key;
      GetAt(a, i);
      GetAt(b, i);
      assert Get(a, a[i].key) == Get(b, a[i].key);
    }
  }

  lemma {:induction false} KeysAppend<V>(a: seq<Entry<V>>, b: seq<Entry<V>>)
    ensures Keys(a + b) == Keys(a) + Keys(b)
  {
    if a == [] {
      assert a + b == b;
    } else {
      assert (a + b)[0] == a[0] && (a + b)[1..] == a[1..] + b;
      KeysAppend(a[1..], b);
    }
  }

  /** Removing a key from a dict removes exactly that key from its key order. */
  lemma {:induction false} RemoveKeys<V>(d: seq<Entry<V>>, k: string)
    ensures Keys(Remove(d, k)) == Without(Keys(d), k)
  {
    if d != [] {
      RemoveKeys(d[1..], k);
    }
  }

  lemma {:induction false} RemoveAppend<V>(a: seq<Entry<V>>, b: seq<Entry<V>>, k: string)
    ensures Remove(a + b, k) == Remove(a, k) + Remove(b, k)
  {
    if a == [] {
      assert a + b == b;
    } else {
      assert (a + b)[0] == a[0] && (a + b)[1..] == a[1..] + b;
      RemoveAppend(a[1..], b, k);
    }
  }

  lemma {:induction false} RemoveUnique<V>(d: seq<Entry<V>>, k: string)
    requires UniqueKeys(d)
    ensures UniqueKeys(Remove(d, k))
  {
    if d != [] {
      RemoveUnique(d[1..], k);
      var r := Remove(d[1..], k);
      if d[0].key != k {
        forall j | 0 <= j < |r| ensures r[j].key != d[0].key {
          assert r[j] in d[1..];
          var m :| 0 <= m < |d[1..]| && d[1..][m] == r[j];
          assert d[m + 1] == r[j];
        }
      }
    }
  }

  /** A lookup in a dict without `k` finds what the dict had, except for `k` itself. */
  lemma {:induction false} RemoveGet<V>(d: seq<Entry<V>>, k: string, k': string)
    ensures Get(Remove(d, k), k') == if k' == k then None else Get(d, k')
  {
    if d != [] {
      RemoveGet(d[1..], k, k');
    }
  }

  /** `Fresh(known, ks)` holds exactly the keys of `ks` that `known` lacks. */
  lemma {:induction false} FreshMembers(known: seq<string>, ks: seq<string>)
    ensures forall x :: x in Fresh(known, ks) <==> x in ks && x !in known
  {
    if ks != [] {
      FreshMembers(known, ks[1..]);
      assert forall x :: x in ks <==> x == ks[0] || x in ks[1..];
    }
  }

  lemma {:induction false} FreshAppend(known: seq<string>, a: seq<string>, b: seq<string>)
    ensures Fresh(known, a + b) == Fresh(known, a) + Fresh(known, b)
  {
    if a == [] {
      assert a + b == b;
    } else {
      assert (a + b)[0] == a[0] && (a + b)[1..] == a[1..] + b;
      FreshAppend(known, a[1..], b);
    }
  }

  /** Adding a key to `known` that `ks` does not mention changes nothing. */
  lemma {:induction false} FreshGrow(known: seq<string>, k: string, ks: seq<string>)
    requires k !in ks
    ensures Fresh(known + [k], ks) == Fresh(known, ks)
  {
    if ks != [] {
      FreshGrow(known, k, ks[1..]);
    }
  }

  lemma {:induction false} FreshNone(known: seq<string>, ks: seq<string>)
    requires forall x :: x in ks ==> x in known
    ensures Fresh(known, ks) == []
  {
    if ks != [] {
      FreshNone(known, ks[1..]);
    }
  }

  lemma {:induction false} FreshAll(known: seq<string>, ks: seq<string>)
    requires forall x :: x in ks ==> x !in known
    ensures Fresh(known, ks) == ks
  {
    if ks != [] {
      FreshAll(known, ks[1..]);
    }
  }

  lemma {:induction false} PutAllAppend<V>(d: seq<Entry<V>>, a: seq<Entry<V>>, b: seq<Entry<V>>)
    ensures PutAll(d, a + b) == PutAll(PutAll(d, a), b)
    decreases |a|
  {
    if a == [] {
      assert a + b == b;
    } else {
      assert (a + b)[0] == a[0] && (a + b)[1..] == a[1..] + b;
      PutAllAppend(Put(d, a[0].key, a[0].value), a[1..], b);
    }
  }

  /** Assigning a batch of entries keeps a dict a dict. */
  lemma {:induction false} PutAllUnique<V>(d: seq<Entry<V>>, es: seq<Entry<V>>)
    requires UniqueKeys(d)
    ensures UniqueKeys(PutAll(d, es))
    decreases |es|
  {
    if es != [] {
      PutUnique(d, es[0].key, es[0].value);
      PutAllUnique(Put(d, es[0].key, es[0].value), es[1..]);
    }
  }

  /** A key the batch does not assign keeps its value. */
  lemma {:induction false} PutAllGetUntouched<V>(d: seq<Entry<V>>, es: seq<Entry<V>>, k: string)
    requires k !in Keys(es)
    ensures Get(PutAll(d, es), k) == Get(d, k)
    decreases |es|
  {
    if es != [] {
      assert Keys(es)[0] == es[0].key;
      assert Keys(es[1..]) == Keys(es)[1..];
      PutGet(d, es[0].key, es[0].value, k);
      PutAllGetUntouched(Put(d, es[0].key, es[0].value), es[1..], k);
    }
  }

  /** The value of the last entry of `es` with key `k`. */
  function LastGet<V>(es: seq<Entry<V>>, k: string): (r: Option<V>)
    ensures r.Some? <==> k in Keys(es)
    decreases |es|
  {
    if es == [] then None
    else if es[|es| - 1].key == k then Some(es[|es| - 1].value)
    else
      assert Keys(es) == Keys(es[..|es| - 1]) + [es[|es| - 1].key] by {
        KeysAppend(es[..|es| - 1], [es[|es| - 1]]);
        assert es[..|es| - 1] + [es[|es| - 1]] == es;
      }
      LastGet(es[..|es| - 1], k)
  }

  /** When a batch assigns a key several times, the last assignment wins. */
  lemma {:induction false} PutAllGetLast<V>(d: seq<Entry<V>>, es: seq<Entry<V>>, k: string)
    ensures Get(PutAll(d, es), k) == if k in Keys(es) then LastGet(es, k) else Get(d, k)
    decreases |es|
  {
    if es == [] {
    } else {
      var init, last := es[..|es| - 1], es[|es| - 1];
      assert init + [last] == es;
      PutAllAppend(d, init, [last]);
      assert PutAll(PutAll(d, init), [last]) == Put(PutAll(d, init), last.key, last.value);
      PutGet(PutAll(d, init), last.key, last.value, k);
      PutAllGetLast(d, init, k);
      KeysAppend(init, [last]);
    }
  }

  /** A batch of `n` assignments adds at most `n` entries. */
  lemma {:induction false} PutAllLength<V>(d: seq<Entry<V>>, es: seq<Entry<V>>)
    ensures |PutAll(d, es)| <= |d| + |es|
    decreases |es|
  {
    if es != [] {
      PutAllLength(Put(d, es[0].key, es[0].value), es[1..]);
    }
  }

  /** The first key of a dict is not among the rest, and the rest is a dict. */
  lemma HeadNotInTail<V>(es: seq<Entry<V>>)
    requires UniqueKeys(es) && es != []
    ensures es[0].key !in Keys(es[1..]) && UniqueKeys(es[1..])
  {
    forall i | 0 <= i < |Keys(es[1..])| ensures Keys(es[1..])[i] != es[0].key {
      assert es[i + 1].key != es[0].key;
    }
  }

  /** A key the batch assigns (once) ends up with the batch's value. */
  lemma {:induction false} PutAllGetAssigned<V>(d: seq<Entry<V>>, es: seq<Entry<V>>, k: string)
    requires UniqueKeys(es) && k in Keys(es)
    ensures Get(PutAll(d, es), k) == Get(es, k)
    decreases |es|
  {
    HeadNotInTail(es);
    var d' := Put(d, es[0].key, es[0].value);
    if es[0].key == k {
      PutAllGetUntouched(d', es[1..], k);
      PutGet(d, k, es[0].value, k);
    } else {
      PutAllGetAssigned(d', es[1..], k);
    }
  }

  /**
   * After assigning a batch with distinct keys, the key order is the old one
   * followed by the batch's new keys in batch order.
   */
  lemma {:induction false} PutAllKeys<V>(d: seq<Entry<V>>, es: seq<Entry<V>>)
    requires UniqueKeys(es)
    ensures Keys(PutAll(d, es)) == Keys(d) + Fresh(Keys(d), Keys(es))
    decreases |es|
  {
    if es != [] {
      var k, v := es[0].key, es[0].value;
      var d' := Put(d, k, v);
      HeadNotInTail(es);
      PutAllKeys(d', es[1..]);
      PutKeys(d, k, v);
      assert Keys(es) == [k] + Keys(es[1..]);
      FreshStep(Keys(d), k, Keys(es[1..]));
    }
  }

  /** Assigning a key the dict lacks appends it. */
  lemma {:induction false} PutNew<V>(d: seq<Entry<V>>, k: string, v: V)
    requires k !in Keys(d)
    ensures Put(d, k, v) == d + [Entry(k, v)]
  {
    if d != [] {
      assert Keys(d) == [d[0].key] + Keys(d[1..]);
      PutNew(d[1..], k, v);
      assert d == [d[0]] + d[1..];
    }
  }

  /** Assigning keys that are all new, and new to each other, appends the batch as it stands. */
  lemma {:induction false} PutAllFresh<V>(d: seq<Entry<V>>, es: seq<Entry<V>>)
    requires UniqueKeys(d + es)
    ensures PutAll(d, es) == d + es
    decreases |es|
  {
    if es == [] {
      assert d + es == d;
    } else {
      var e := es[0];
      assert e.key !in Keys(d) by {
        forall i | 0 <= i < |d|
          ensures Keys(d)[i] != e.key
        {
          assert (d + es)[i] == d[i] && (d + es)[|d|] == e;
        }
      }
      PutNew(d, e.key, e.value);
      assert (d + [e]) + es[1..] == d + es;
      PutAllFresh(d + [e], es[1..]);
    }
  }

  /** One step of `PutAllKeys`: the new key, if new, leads the fresh keys. */
  lemma FreshStep(known: seq<string>, k: string, rest: seq<string>)
    requires k !in rest
    ensures var known' := if k in known then known else known + [k];
      known' + Fresh(known', rest) == known + Fresh(known, [k] + rest)
  {
    assert ([k] + rest)[0] == k && ([k] + rest)[1..] == rest;
    if k !in known {
      FreshGrow(known, k, rest);
      assert known + [k] + Fresh(known, rest) == known + ([k] + Fresh(known, rest));
    }
  }


  /**
   * In a dict display whose later entries do not repeat key `k`, the value
   * written for `k` is the one the dict holds.
   */
  lemma DisplayGet<V>(head: seq<Entry<V>>, k: string, v: V, tail: seq<Entry<V>>)
    requires k !in Keys(tail)
    ensures Get(DictLiteral(head + [Entry(k, v)] + tail), k) == Some(v)
  {
    var before := head + [Entry(k, v)];
    PutAllAppend([], before, tail);
    PutAllGetUntouched(PutAll([], before), tail, k);
    PutAllAppend([], head, [Entry(k, v)]);
    PutGet(PutAll([], head), k, v, k);
  }

  /** The keys new to `known` are still new after `known` is extended by them. */
  lemma FreshAgain(known: seq<string>, ks: seq<string>)
    ensures Fresh(known, known + Fresh(known, ks)) == Fresh(known, ks)
  {
    var added := Fresh(known, ks);
    FreshAppend(known, known, added);
    FreshNone(known, known);
    FreshMembers(known, ks);
    FreshAll(known, added);
    assert [] + added == added;
  }

  /** Removing a key that `known` already has does not change what is fresh. */
  lemma {:induction false} FreshWithout(known: seq<string>, ks: seq<string>, x: string)
    requires x in known
    ensures Fresh(known, Without(ks, x)) == Fresh(known, ks)
  {
    if ks != [] {
      FreshWithout(known, ks[1..], x);
    }
  }

  /**
   * Assigning two batches that write the same keys in the same order, and
   * the same values except under key `x`, to two dicts that already agree
   * except under `x`, gives dicts that still agree except under `x`.
   */
  lemma {:induction false} PutAllAgreeExcept<V>(d1: seq<Entry<V>>, d2: seq<Entry<V>>,
                                                es1: seq<Entry<V>>, es2: seq<Entry<V>>, x: string)
    requires Keys(d1) == Keys(d2)
    requires forall k :: k != x ==> Get(d1, k) == Get(d2, k)
    requires Keys(es1) == Keys(es2)
    requires forall i :: 0 <= i < |es1| && es1[i].key != x ==> es1[i].value == es2[i].value
    ensures Keys(PutAll(d1, es1)) == Keys(PutAll(d2, es2))
    ensures forall k :: k != x ==> Get(PutAll(d1, es1), k) == Get(PutAll(d2, es2), k)
    decreases |es1|
  {
    if es1 != [] {
      var k := es1[0].key;
      assert es2[0].key == k by { assert Keys(es1)[0] == Keys(es2)[0]; }
      var d1', d2' := Put(d1, k, es1[0].value), Put(d2, k, es2[0].value);
      PutKeys(d1, k, es1[0].value);
      PutKeys(d2, k, es2[0].value);
      forall k' | k' != x ensures Get(d1', k') == Get(d2', k') {
        PutGet(d1, k, es1[0].value, k');
        PutGet(d2, k, es2[0].value, k');
      }
      assert Keys(es1[1..]) == Keys(es1)[1..] == Keys(es2)[1..] == Keys(es2[1..]);
      PutAllAgreeExcept(d1', d2', es1[1..], es2[1..], x);
    }
  }

  /**
   * Two dict displays that differ only in the value written for key `x`
   * have the same keys in the same order and agree on every other key.
   */
  lemma DisplaysAgreeExcept<V>(head: seq<Entry<V>>, x: string, v1: V, v2: V, tail: seq<Entry<V>>)
    ensures Keys(DictLiteral(head + [Entry(x, v1)] + tail)) == Keys(DictLiteral(head + [Entry(x, v2)] + tail))
    ensures forall k :: k != x ==>
      Get(DictLiteral(head + [Entry(x, v1)] + tail), k) == Get(DictLiteral(head + [Entry(x, v2)] + tail), k)
  {
    var es1, es2 := head + [Entry(x, v1)] + tail, head + [Entry(x, v2)] + tail;
    KeysAppend(head + [Entry(x, v1)], tail);
    KeysAppend(head + [Entry(x, v2)], tail);
    KeysAppend(head, [Entry(x, v1)]);
    KeysAppend(head, [Entry(x, v2)]);
    PutAllAgreeExcept([], [], es1, es2, x);
  }
}
