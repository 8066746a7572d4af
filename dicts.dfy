/** Python dictionaries as the model sees them: insertion-ordered sequences of
    entries whose keys are pairwise distinct. */
module Dicts {

  datatype Entry<V> = Entry(key: string, value: V)

  /** A Python `dict` with string keys, in insertion (iteration) order. */
  type Dict<V> = seq<Entry<V>>

  function Keys<V>(d: Dict<V>): set<string>
  {
    if d == [] then {} else {d[0].key} + Keys(d[1..])
  }

  /** The keys in iteration order. */
  function KeyList<V>(d: Dict<V>): seq<string>
  {
    seq(|d|, i requires 0 <= i < |d| => d[i].key)
  }

  /** Every Python dict has this shape: no key occurs twice. */
  ghost predicate DistinctKeys<V>(d: Dict<V>)
  {
    forall i, j | 0 <= i < j < |d| :: d[i].key != d[j].key
  }

  /** `d[k] = v`: an existing key keeps its position and takes the new value,
      a new key goes to the end. */
  function Insert<V>(d: Dict<V>, k: string, v: V): (r: Dict<V>)
    requires DistinctKeys(d)
    ensures DistinctKeys(r)
    ensures Keys(r) == Keys(d) + {k}
    ensures k !in Keys(d) ==> r == d + [Entry(k, v)]
    ensures k in Keys(d) ==> |r| == |d|
  {
    if d == [] then [Entry(k, v)]
    else if d[0].key == k then [Entry(k, v)] + d[1..]
    else
      var rest := Insert(d[1..], k, v);
      KeysAt(d[1..], d[0].key);
      KeysAt(rest, d[0].key);
      [d[0]] + rest
  }

  /** Assigning to a key already present overwrites its value in place and
      leaves every other entry as it was. */
  lemma {:induction false} InsertExisting<V>(d: Dict<V>, k: string, v: V)
    requires DistinctKeys(d) && k in Keys(d)
    ensures forall i | 0 <= i < |d| :: Insert(d, k, v)[i] == (if d[i].key == k then Entry(k, v) else d[i])
  {
    if d[0].key != k {
      var tail := d[1..];
      assert DistinctKeys(tail) by {
        forall i, j | 0 <= i < j < |tail| ensures tail[i].key != tail[j].key {
          assert tail[i] == d[i + 1] && tail[j] == d[j + 1];
        }
      }
      InsertExisting(tail, k, v);
      forall i | 1 <= i < |d| ensures Insert(d, k, v)[i] == (if d[i].key == k then Entry(k, v) else d[i]) {
        assert Insert(d, k, v)[i] == Insert(tail, k, v)[i - 1];
        assert tail[i - 1] == d[i];
      }
    }
  }

  /** The key set is exactly the set of keys found at some position. */
  lemma {:induction false} KeysAt<V>(d: Dict<V>, k: string)
    ensures k in Keys(d) <==> exists i | 0 <= i < |d| :: d[i].key == k
  {
    if d != [] {
      KeysAt(d[1..], k);
      if k in Keys(d[1..]) {
        var i :| 0 <= i < |d[1..]| && d[1..][i].key == k;
        assert d[i + 1].key == k;
      }
      if exists i | 0 <= i < |d| :: d[i].key == k {
        var i :| 0 <= i < |d| && d[i].key == k;
        if i > 0 { assert d[1..][i - 1].key == k; }
      }
    }
  }

  /** The dict built by a literal `{k0: v0, k1: v1, ...}`: the entries are
      stored from left to right, so a repeated key keeps its first position
      and its last value. */
  function DictLiteral<V>(es: seq<Entry<V>>): (r: Dict<V>)
    ensures DistinctKeys(r)
  {
    if es == [] then []
    else
      var prefix := es[..|es| - 1];
      Insert(DictLiteral(prefix), es[|es| - 1].key, es[|es| - 1].value)
  }

  /** A literal without repeated keys yields exactly its entries, in order. */
  lemma {:induction false} DictLiteralOfDistinct<V>(es: seq<Entry<V>>)
    requires DistinctKeys(es)
    ensures DictLiteral(es) == es
  {
    if es != [] {
      var prefix := es[..|es| - 1];
      var last := es[|es| - 1];
      assert es == prefix + [last];
      assert DistinctKeys(prefix) by {
        forall i, j | 0 <= i < j < |prefix| ensures prefix[i].key != prefix[j].key {
          assert prefix[i] == es[i] && prefix[j] == es[j];
        }
      }
      DictLiteralOfDistinct(prefix);
      forall i | 0 <= i < |prefix| ensures prefix[i].key != last.key {
        assert prefix[i] == es[i];
      }
      KeysAt(prefix, last.key);
      calc {
        DictLiteral(es);
        Insert(DictLiteral(prefix), last.key, last.value);
        Insert(prefix, last.key, last.value);
        prefix + [Entry(last.key, last.value)];
      }
    }
  }
}
