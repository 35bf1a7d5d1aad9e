/** A Python dict: an association list in insertion order. */
module OrderedDict {
  import opened Python

  datatype Entry<+V> = Entry(key: string, value: V)

  predicate DistinctKeys<V>(d: seq<Entry<V>>) {
    forall i, j :: 0 <= i < j < |d| ==> d[i].key != d[j].key
  }

  function Get<V>(d: seq<Entry<V>>, key: string): (v: Option<V>)
    ensures v.None? <==> forall e :: e in d ==> e.key != key
    ensures v.Some? ==> Entry(key, v.value) in d
  {
    if d == [] then None
    else if d[0].key == key then Some(d[0].value)
    else Get(d[1..], key)
  }

  /** `d[key] = value`: an existing key keeps its place, a new one goes last. */
  function Put<V>(d: seq<Entry<V>>, key: string, value: V): (r: seq<Entry<V>>)
    ensures forall i :: 0 <= i < |r| ==> r[i] in d || r[i] == Entry(key, value)
  {
    if d == [] then [Entry(key, value)]
    else if d[0].key == key then [Entry(key, value)] + d[1..]
    else [d[0]] + Put(d[1..], key, value)
  }

  lemma {:induction false} PutNewKey<V>(d: seq<Entry<V>>, key: string, value: V)
    requires forall i :: 0 <= i < |d| ==> d[i].key != key
    ensures Put(d, key, value) == d + [Entry(key, value)]
  {
    if d != [] {
      PutNewKey(d[1..], key, value);
      assert d + [Entry(key, value)] == [d[0]] + (d[1..] + [Entry(key, value)]);
    }
  }

  lemma {:induction false} GetOwn<V>(d: seq<Entry<V>>, i: nat)
    requires DistinctKeys(d) && i < |d|
    ensures Get(d, d[i].key) == Some(d[i].value)
  {
    if i > 0 {
      GetOwn(d[1..], i - 1);
    }
  }

  lemma {:induction false} GetIndex<V>(d: seq<Entry<V>>, key: string) returns (i: nat)
    requires Get(d, key).Some?
    ensures i < |d| && d[i] == Entry(key, Get(d, key).value)
  {
    if d[0].key == key {
      i := 0;
    } else {
      i := GetIndex(d[1..], key);
      i := i + 1;
    }
  }

  /** An entry that is there keeps its place and gets the value; nothing else changes. */
  lemma {:induction false} PutExisting<V>(d: seq<Entry<V>>, i: nat, value: V)
    requires DistinctKeys(d) && i < |d|
    ensures Put(d, d[i].key, value) == d[i := Entry(d[i].key, value)]
  {
    if i > 0 {
      PutExisting(d[1..], i - 1, value);
      assert d[i := Entry(d[i].key, value)] == [d[0]] + d[1..][i - 1 := Entry(d[i].key, value)];
    }
  }
}
