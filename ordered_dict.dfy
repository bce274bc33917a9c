/**
 * A Python `dict` keyed by strings: a map together with the order in which its
 * keys were first inserted, which is the order iterating over it visits them.
 */
module OrderedDict {

  predicate Distinct(s: seq<string>) {
    forall i, j :: 0 <= i < j < |s| ==> s[i] != s[j]
  }

  /** `s` with every occurrence of `k` taken out, the rest in its order. */
  function Without(s: seq<string>, k: string): (r: seq<string>)
    ensures forall x :: x in r <==> x in s && x != k
    ensures Distinct(s) ==> Distinct(r)
    ensures k !in s ==> r == s
    ensures Distinct(s) && k in s ==> |r| == |s| - 1
  {
    if s == [] then []
    else if s[0] == k then Without(s[1..], k)
    else
      var rest := Without(s[1..], k);
      assert Distinct(s) ==> s[0] !in s[1..] && Distinct(s[1..]);
      assert forall j :: 0 < j < |rest| + 1 ==> ([s[0]] + rest)[j] == rest[j - 1];
      [s[0]] + rest
  }

  lemma WithoutOrder(s: seq<string>, k: string)
    requires Distinct(s)
    ensures forall i :: 0 <= i < |s| && s[i] == k ==> Without(s, k) == s[..i] + s[i + 1..]
  {
    forall i | 0 <= i < |s| && s[i] == k {
      WithoutCut(s, k, i);
    }
  }

  /** In a list without duplicates, taking a key out cuts out its one position and keeps the others in order. */
  lemma {:induction false} WithoutCut(s: seq<string>, k: string, i: nat)
    requires Distinct(s) && i < |s| && s[i] == k
    ensures Without(s, k) == s[..i] + s[i + 1..]
  {
    if i == 0 {
      assert k !in s[1..];
    } else {
      assert s[0] != k && Distinct(s[1..]) && s[1..][i - 1] == k;
      WithoutCut(s[1..], k, i - 1);
      assert s[..i] + s[i + 1..] == [s[0]] + (s[1..][..i - 1] + s[1..][i..]);
    }
  }

  datatype Dict<V> = Dict(keys: seq<string>, entries: map<string, V>) {

    /** Every key is listed once in `keys`, and `keys` lists nothing else. */
    ghost predicate Valid() {
      && Distinct(keys)
      && (forall k :: k in entries <==> k in keys)
    }

    /** `d[k] = v`: a new key goes last; an existing key keeps its place and gets the new value. */
    function Put(k: string, v: V): (d: Dict<V>)
      requires Valid()
      ensures d.Valid()
      ensures k in d.entries && d.entries[k] == v
      ensures forall j :: j != k ==> (j in d.entries <==> j in entries)
      ensures forall j :: j != k && j in entries ==> d.entries[j] == entries[j]
      ensures k in entries ==> d.keys == keys
      ensures k !in entries ==> d.keys == keys + [k]
    {
      if k in entries then Dict(keys, entries[k := v]) else Dict(keys + [k], entries[k := v])
    }

    /** `del d[k]`, which the ledger only ever does after checking `k in d`; an absent key leaves `d` as it is. */
    function Remove(k: string): (d: Dict<V>)
      requires Valid()
      ensures d.Valid()
      ensures k !in d.entries
      ensures forall j :: j != k ==> (j in d.entries <==> j in entries)
      ensures forall j :: j != k && j in entries ==> d.entries[j] == entries[j]
      ensures k !in entries ==> d == this
      ensures k in entries ==> |d.keys| == |keys| - 1
      ensures forall i :: 0 <= i < |keys| && keys[i] == k ==> d.keys == keys[..i] + keys[i + 1..]
    {
      WithoutOrder(keys, k);
      Dict(Without(keys, k), entries - {k})
    }
  }

  function Empty<V>(): (d: Dict<V>)
    ensures d.Valid() && d.keys == [] && d.entries == map[]
  {
    Dict([], map[])
  }

  /** Two dictionaries with the same keys in the same order keep that after the same key is put into both. */
  lemma PutSameKeys<V, W>(d: Dict<V>, e: Dict<W>, k: string, v: V, w: W)
    requires d.Valid() && e.Valid() && d.keys == e.keys
    ensures d.Put(k, v).keys == e.Put(k, w).keys
    ensures d.Put(k, v).entries.Keys == e.Put(k, w).entries.Keys
  {
    assert d.entries.Keys == e.entries.Keys by {
      forall j ensures j in d.entries <==> j in e.entries {
        assert j in d.entries <==> j in d.keys;
      }
    }
  }

  /** Putting the same key twice into an empty dictionary keeps it once, with the second value. */
  lemma PutTwice<V>(k: string, a: V, b: V)
    ensures Empty<V>().Put(k, a).Put(k, b) == Dict([k], map[k := b])
  {
    PutIntoEmpty(k, a);
    PutAgain(k, a, b);
  }

  lemma PutIntoEmpty<V>(k: string, a: V)
    ensures Empty<V>().Put(k, a) == Dict([k], map[k := a])
  {
  }

  lemma PutAgain<V>(k: string, a: V, b: V)
    ensures Dict([k], map[k := a]).Valid()
    ensures Dict([k], map[k := a]).Put(k, b) == Dict([k], map[k := b])
  {
    assert map[k := a][k := b] == map[k := b];
  }
}
