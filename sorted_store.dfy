/**
 * A std::map<std::string, V> as the sequence of its entries in iteration
 * order: keys strictly increasing in the order of StringOrder.Less. The
 * k-th entry of the sequence is the entry an iterator reaches after k
 * increments from begin().
 */
module SortedStore {
  import opened Wrappers
  import opened StringOrder

  datatype Entry<V> = Entry(key: string, value: V)

  /** Keys strictly increase along the sequence (the map's iteration order). */
  ghost predicate StrictlySorted<V>(s: seq<Entry<V>>)
  {
    forall i, j :: 0 <= i < j < |s| ==> Less(s[i].key, s[j].key)
  }

  function Keys<V>(s: seq<Entry<V>>): set<string>
  {
    set k | 0 <= k < |s| :: s[k].key
  }

  /** std::map::count: true iff some entry carries the key. */
  predicate HasKey<V>(s: seq<Entry<V>>, key: string)
  {
    exists k | 0 <= k < |s| :: s[k].key == key
  }

  /** std::map::find, as an Option. */
  function Lookup<V>(s: seq<Entry<V>>, key: string): (r: Option<V>)
    ensures r.Some? <==> key in Keys(s)
    ensures r.Some? ==> exists k :: 0 <= k < |s| && s[k] == Entry(key, r.value)
  {
    if |s| == 0 then None
    else if s[0].key == key then Some(s[0].value)
    else
      var r := Lookup(s[1..], key);
      assert Keys(s) == {s[0].key} + Keys(s[1..]) by {
        assert forall k :: 0 < k < |s| ==> s[k] == s[1..][k - 1];
      }
      r
  }

  /** std::map::insert of a key that is not yet present. */
  function Insert<V>(s: seq<Entry<V>>, key: string, value: V): seq<Entry<V>>
  {
    if |s| == 0 then [Entry(key, value)]
    else if Less(key, s[0].key) then [Entry(key, value)] + s
    else [s[0]] + Insert(s[1..], key, value)
  }

  lemma HasKeyIsKeys<V>(s: seq<Entry<V>>, key: string)
    ensures HasKey(s, key) <==> key in Keys(s)
  {
  }

  lemma KeysCons<V>(s: seq<Entry<V>>)
    requires |s| > 0
    ensures Keys(s) == {s[0].key} + Keys(s[1..])
  {
    assert forall k :: 0 < k < |s| ==> s[k] == s[1..][k - 1];
  }

  /** Inserting adds exactly one entry, under the inserted key. */
  lemma {:induction false} InsertKeys<V>(s: seq<Entry<V>>, key: string, value: V)
    ensures Keys(Insert(s, key, value)) == Keys(s) + {key}
    ensures |Insert(s, key, value)| == |s| + 1
  {
    var r := Insert(s, key, value);
    if |s| > 0 {
      KeysCons(s);
      KeysCons(r);
      if Less(key, s[0].key) {
        assert r == [Entry(key, value)] + s;
        assert r[0].key == key && r[1..] == s;
        assert Keys(r) == Keys(s) + {key};
      } else {
        assert r == [s[0]] + Insert(s[1..], key, value);
        InsertKeys(s[1..], key, value);
        assert r[0] == s[0] && r[1..] == Insert(s[1..], key, value);
      }
    } else {
      assert r == [Entry(key, value)];
      assert r[0].key == key;
      assert key in Keys(r);
      assert forall x :: x in Keys(r) ==> x == key;
      assert Keys(s) == {};
    }
  }

  /** Inserting an absent key keeps the keys strictly increasing. */
  lemma {:induction false} InsertSorted<V>(s: seq<Entry<V>>, key: string, value: V)
    requires StrictlySorted(s) && key !in Keys(s)
    ensures StrictlySorted(Insert(s, key, value))
  {
    var r := Insert(s, key, value);
    if |s| == 0 {
    } else if Less(key, s[0].key) {
      assert r[1..] == s;
      forall i, j | 0 <= i < j < |r| ensures Less(r[i].key, r[j].key) {
        if i == 0 && j > 1 {
          LessTransitive(key, s[0].key, s[j - 1].key);
        }
      }
    } else {
      KeysCons(s);
      LessTotal(key, s[0].key);
      var t := Insert(s[1..], key, value);
      InsertSorted(s[1..], key, value);
      InsertKeys(s[1..], key, value);
      assert r[1..] == t;
      forall i, j | 0 <= i < j < |r| ensures Less(r[i].key, r[j].key) {
        if i == 0 {
          assert r[j].key in Keys(t);
        }
      }
    }
  }

  /** After inserting, the inserted key finds the inserted value and every other key what it found before. */
  lemma {:induction false} InsertLookup<V>(s: seq<Entry<V>>, key: string, value: V, k: string)
    requires key !in Keys(s)
    ensures Lookup(Insert(s, key, value), k) == if k == key then Some(value) else Lookup(s, k)
  {
    var r := Insert(s, key, value);
    if |s| > 0 {
      KeysCons(s);
      if Less(key, s[0].key) {
        assert r[1..] == s;
      } else {
        InsertLookup(s[1..], key, value, k);
        assert r[1..] == Insert(s[1..], key, value);
      }
    }
  }

  /** Inserting adds the new entry and keeps every old one: nothing else appears. */
  lemma {:induction false} InsertEntries<V>(s: seq<Entry<V>>, key: string, value: V)
    ensures forall e :: e in Insert(s, key, value) <==> e == Entry(key, value) || e in s
  {
    if |s| > 0 && !Less(key, s[0].key) {
      InsertEntries(s[1..], key, value);
      assert s == [s[0]] + s[1..];
    }
  }

  /** In a sorted sequence no key repeats, so the map's size is the number of keys. */
  lemma {:induction false} SortedKeysCard<V>(s: seq<Entry<V>>)
    requires StrictlySorted(s)
    ensures |Keys(s)| == |s|
  {
    if |s| > 0 {
      KeysCons(s);
      assert StrictlySorted(s[1..]);
      SortedKeysCard(s[1..]);
      if s[0].key in Keys(s[1..]) {
        var k :| 0 <= k < |s[1..]| && s[1..][k].key == s[0].key;
        assert Less(s[0].key, s[k + 1].key);
        LessIrreflexive(s[0].key);
      }
    }
  }

  /** In a sorted sequence each key sits at exactly one position. */
  lemma SortedKeyPositionUnique<V>(s: seq<Entry<V>>, i: nat, j: nat)
    requires StrictlySorted(s) && i < |s| && j < |s| && s[i].key == s[j].key
    ensures i == j
  {
    if i < j {
      LessIrreflexive(s[i].key);
    } else if j < i {
      LessIrreflexive(s[j].key);
    }
  }
}
