/** JavaScript maps and objects as their entries in insertion order. */
module OrderedMaps {
  import opened Results
  import opened Sequences

  function KeysOf<K, V>(s: seq<(K, V)>): seq<K> {
    seq(|s|, i requires 0 <= i < |s| => s[i].0)
  }

  /** Writing a property or a map entry: in place when the key exists, at the end otherwise. */
  function Put<K(==), V>(s: seq<(K, V)>, key: K, value: V): (r: seq<(K, V)>) {
    if s == [] then [(key, value)]
    else if s[0].0 == key then [(key, value)] + s[1..]
    else [s[0]] + Put(s[1..], key, value)
  }

  function Get<K(==), V>(s: seq<(K, V)>, key: K): Option<V> {
    if s == [] then None
    else if s[0].0 == key then Some(s[0].1)
    else Get(s[1..], key)
  }

  lemma {:induction false} PutNew<K, V>(s: seq<(K, V)>, key: K, value: V)
    requires key !in KeysOf(s)
    ensures Put(s, key, value) == s + [(key, value)]
  {
    if s != [] {
      assert KeysOf(s)[0] == s[0].0;
      assert KeysOf(s)[1..] == KeysOf(s[1..]);
      PutNew(s[1..], key, value);
      assert [s[0]] + (s[1..] + [(key, value)]) == s + [(key, value)];
    }
  }

  /** Writing a key that is there keeps the order of all keys. */
  lemma {:induction false} PutPresent<K, V>(s: seq<(K, V)>, key: K, value: V)
    requires key in KeysOf(s)
    ensures KeysOf(Put(s, key, value)) == KeysOf(s)
  {
    assert KeysOf(s) == [s[0].0] + KeysOf(s[1..]);
    if s[0].0 == key {
      assert KeysOf([(key, value)] + s[1..]) == [key] + KeysOf(s[1..]);
    } else {
      PutPresent(s[1..], key, value);
      assert KeysOf([s[0]] + Put(s[1..], key, value)) == [s[0].0] + KeysOf(Put(s[1..], key, value));
    }
  }

  lemma {:induction false} GetPut<V>(s: seq<(string, V)>, key: string, value: V, k: string)
    ensures Get(Put(s, key, value), k) == if k == key then Some(value) else Get(s, k)
    ensures k in KeysOf(Put(s, key, value)) <==> k == key || k in KeysOf(s)
  {
    if s == [] {
      assert KeysOf(Put(s, key, value)) == [key];
    } else {
      assert KeysOf(s) == [s[0].0] + KeysOf(s[1..]);
      if s[0].0 == key {
        assert KeysOf(Put(s, key, value)) == KeysOf(s);
      } else {
        GetPut(s[1..], key, value, k);
        assert KeysOf(Put(s, key, value)) == [s[0].0] + KeysOf(Put(s[1..], key, value));
      }
    }
  }

  lemma {:induction false} GetPlace<V>(s: seq<(string, V)>, key: string)
    ensures Get(s, key).Some? <==> key in KeysOf(s)
    ensures Get(s, key).Some? ==> (key, Get(s, key).value) in s
  {
    if s != [] {
      assert KeysOf(s) == [s[0].0] + KeysOf(s[1..]);
      GetPlace(s[1..], key);
      assert s == [s[0]] + s[1..];
    }
  }

  lemma {:induction false} GetAt<V>(s: seq<(string, V)>, i: nat)
    requires NoDuplicates(KeysOf(s)) && i < |s|
    ensures Get(s, s[i].0) == Some(s[i].1)
  {
    if i > 0 {
      assert KeysOf(s)[0] != KeysOf(s)[i];
      assert KeysOf(s)[1..] == KeysOf(s[1..]);
      GetAt(s[1..], i - 1);
    }
  }

  lemma {:induction false} PutMembers<V>(s: seq<(string, V)>, key: string, value: V, e: (string, V))
    requires e in Put(s, key, value)
    ensures e == (key, value) || e in s
  {
    if s != [] && s[0].0 != key {
      if e != s[0] {
        assert e in Put(s[1..], key, value);
        PutMembers(s[1..], key, value, e);
      }
    }
  }

  lemma MemberKey<V>(s: seq<(string, V)>, e: (string, V))
    ensures e in s ==> e.0 in KeysOf(s)
  {
    forall i | 0 <= i < |s| && s[i] == e ensures KeysOf(s)[i] == e.0 {}
  }

  lemma KeysPrefix<K, V>(a: seq<(K, V)>, b: seq<(K, V)>)
    ensures KeysOf(a + b) == KeysOf(a) + KeysOf(b)
    ensures NoDuplicates(KeysOf(a + b)) ==> NoDuplicates(KeysOf(a))
  {
    assert KeysOf(a + b) == KeysOf(a) + KeysOf(b);
    if NoDuplicates(KeysOf(a + b)) {
      forall i, j | 0 <= i < j < |KeysOf(a)| ensures KeysOf(a)[i] != KeysOf(a)[j] {
        assert KeysOf(a + b)[i] == KeysOf(a)[i] && KeysOf(a + b)[j] == KeysOf(a)[j];
      }
    }
  }
}
