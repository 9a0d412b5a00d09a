/**
 * Python dictionaries of strings, as the server handles transaction rows:
 * `csv.DictReader` yields one per CSV line, keyed by the header, and the
 * managers read, assign and delete keys on them. A dictionary keeps its keys
 * in insertion order, so it is modelled as the sequence of its entries.
 */
module PyDict {
  import opened Wrappers

  /** The Python exceptions the modelled code can raise. */
  datatype Exception =
    | KeyError(key: string)
    | ValueError(message: string)
    /** A file that is not there; only the file's name is kept, not the message. */
    | FileNotFoundError(file: string)

  datatype Field = Field(key: string, value: string)

  /** A `dict[str, str]`: its entries in insertion order. */
  type Dict = seq<Field>

  /** `list(d.keys())` */
  function Keys(d: Dict): (ks: seq<string>)
    ensures |ks| == |d|
    ensures forall i :: 0 <= i < |d| ==> ks[i] == d[i].key
  {
    seq(|d|, i requires 0 <= i < |d| => d[i].key)
  }

  /** `tuple(d.values())`: the values in key order. */
  function Values(d: Dict): (vs: seq<string>)
    ensures |vs| == |d|
    ensures forall i :: 0 <= i < |d| ==> vs[i] == d[i].value
  {
    seq(|d|, i requires 0 <= i < |d| => d[i].value)
  }

  /** Python never holds a key twice in one dictionary. */
  predicate DistinctKeys(d: Dict) {
    forall i, j :: 0 <= i < j < |d| ==> d[i].key != d[j].key
  }

  /** `d.get(k)`: the value stored under `k`, if any. */
  function Get(d: Dict, k: string): Option<string> {
    if d == [] then None
    else if d[0].key == k then Some(d[0].value)
    else Get(d[1..], k)
  }

  /** A key reads a value exactly when it is present, and the value read is stored under it. */
  lemma {:induction false} GetPresent(d: Dict, k: string)
    ensures Get(d, k).Some? <==> k in Keys(d)
    ensures Get(d, k).Some? ==> Field(k, Get(d, k).value) in d
  {
    if d != [] {
      KeysCons(d[0], d[1..]);
      assert d == [d[0]] + d[1..];
      if d[0].key != k {
        GetPresent(d[1..], k);
      }
    }
  }

  /**
   * `d[k] = v`: an existing key keeps its position and takes the new value,
   * a new key is appended at the end.
   */
  function Set(d: Dict, k: string, v: string): Dict {
    if d == [] then [Field(k, v)]
    else if d[0].key == k then [Field(k, v)] + d[1..]
    else [d[0]] + Set(d[1..], k, v)
  }

  /** `del d[k]`: the first entry under `k` goes, the others keep their order. */
  function Delete(d: Dict, k: string): Dict {
    if d == [] then []
    else if d[0].key == k then d[1..]
    else [d[0]] + Delete(d[1..], k)
  }

  /** The keys after an assignment: unchanged, or the new key last. */
  lemma {:induction false} SetKeys(d: Dict, k: string, v: string)
    ensures Keys(Set(d, k, v)) == if k in Keys(d) then Keys(d) else Keys(d) + [k]
  {
    if d == [] {
    } else if d[0].key == k {
      assert k in Keys(d) by { assert Keys(d)[0] == k; }
      assert Keys(Set(d, k, v)) == Keys(d) by {
        KeysCons(Field(k, v), d[1..]);
        KeysCons(d[0], d[1..]);
      }
    } else {
      var t := Set(d[1..], k, v);
      SetKeys(d[1..], k, v);
      KeysCons(d[0], d[1..]);
      KeysCons(d[0], t);
      assert k in Keys(d) <==> k in Keys(d[1..]);
    }
  }

  lemma KeysCons(f: Field, d: Dict)
    ensures Keys([f] + d) == [f.key] + Keys(d)
  {
    assert d == ([f] + d)[1..];
  }

  /** After `d[k] = v`, `k` reads `v` and every other key reads what it read before. */
  lemma {:induction false} GetSet(d: Dict, k: string, v: string, k': string)
    ensures Get(Set(d, k, v), k') == if k' == k then Some(v) else Get(d, k')
  {
    if d != [] && d[0].key != k {
      GetSet(d[1..], k, v, k');
    }
  }

  /** Deleting one key leaves every other key reading what it read before. */
  lemma {:induction false} GetDelete(d: Dict, k: string, k': string)
    requires k' != k
    ensures Get(Delete(d, k), k') == Get(d, k')
  {
    if d != [] && d[0].key != k {
      GetDelete(d[1..], k, k');
    }
  }

  /** Deleting a key that is absent changes nothing. */
  lemma {:induction false} DeleteAbsent(d: Dict, k: string)
    requires k !in Keys(d)
    ensures Delete(d, k) == d
  {
    if d != [] {
      assert Keys(d) == [d[0].key] + Keys(d[1..]);
      DeleteAbsent(d[1..], k);
    }
  }

  /** Deleting a key that is present removes exactly its entry. */
  lemma {:induction false} DeleteAt(d: Dict, i: nat)
    requires DistinctKeys(d)
    requires i < |d|
    ensures Delete(d, d[i].key) == d[..i] + d[i + 1..]
  {
    if i > 0 {
      assert d[0].key != d[i].key;
      assert DistinctKeys(d[1..]) by {
        forall a, b | 0 <= a < b < |d[1..]| ensures d[1..][a].key != d[1..][b].key {
          assert d[a + 1].key != d[b + 1].key;
        }
      }
      DeleteAt(d[1..], i - 1);
      assert d[1..][..i - 1] + d[1..][i..] == (d[..i] + d[i + 1..])[1..];
    }
  }

  /** In a dictionary without repeated keys, each key reads back its own entry. */
  lemma {:induction false} GetAt(d: Dict, i: nat)
    requires DistinctKeys(d)
    requires i < |d|
    ensures Get(d, d[i].key) == Some(d[i].value)
  {
    if i > 0 {
      assert d[0].key != d[i].key;
      assert DistinctKeys(d[1..]) by {
        forall a, b | 0 <= a < b < |d[1..]| ensures d[1..][a].key != d[1..][b].key {
          assert d[a + 1].key != d[b + 1].key;
        }
      }
      GetAt(d[1..], i - 1);
    }
  }

  /** Assigning a key that is absent appends it. */
  lemma {:induction false} SetAbsentAppends(d: Dict, k: string, v: string)
    requires k !in Keys(d)
    ensures Set(d, k, v) == d + [Field(k, v)]
  {
    if d != [] {
      assert Keys(d)[0] == d[0].key;
      assert k !in Keys(d[1..]) by {
        forall i | 0 <= i < |d[1..]| ensures Keys(d[1..])[i] != k {
          assert Keys(d)[i + 1] == d[i + 1].key;
        }
      }
      SetAbsentAppends(d[1..], k, v);
    }
  }

  /** Assigning a key that is present changes only that key's value, in place. */
  lemma {:induction false} SetExistingInPlace(d: Dict, i: nat, v: string)
    requires DistinctKeys(d)
    requires i < |d|
    ensures Set(d, d[i].key, v) == d[i := Field(d[i].key, v)]
  {
    if i > 0 {
      assert d[0].key != d[i].key;
      assert DistinctKeys(d[1..]) by {
        forall a, b | 0 <= a < b < |d[1..]| ensures d[1..][a].key != d[1..][b].key {
          assert d[a + 1].key != d[b + 1].key;
        }
      }
      SetExistingInPlace(d[1..], i - 1, v);
      assert d[1..][i - 1 := Field(d[i].key, v)] == d[i := Field(d[i].key, v)][1..];
    }
  }

  /** A dictionary is determined by its keys and values, in order. */
  lemma SameKeysAndValues(a: Dict, b: Dict)
    requires Keys(a) == Keys(b) && Values(a) == Values(b)
    ensures a == b
  {
    assert |a| == |Keys(a)| == |Keys(b)| == |b|;
    forall i | 0 <= i < |a| ensures a[i] == b[i] {
      assert Keys(a)[i] == Keys(b)[i] && Values(a)[i] == Values(b)[i];
    }
  }
}
