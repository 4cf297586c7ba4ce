/** The insertion-ordered map of the engine: setting a present key keeps its position. */
module OrderedMaps {
  import opened Lists
  import opened Wrappers

  /** What `OrderedMap.Set` does to the entries, seen in order. */
  function Put<V>(entries: seq<(string, V)>, key: string, value: V): seq<(string, V)> {
    if entries == [] then [(key, value)]
    else if entries[0].0 == key then [(key, value)] + entries[1..]
    else [entries[0]] + Put(entries[1..], key, value)
  }

  ghost predicate DistinctKeys<V>(entries: seq<(string, V)>) {
    forall i, j | 0 <= i < j < |entries| :: entries[i].0 != entries[j].0
  }

  ghost predicate HasKey<V>(entries: seq<(string, V)>, key: string) {
    exists i :: 0 <= i < |entries| && entries[i].0 == key
  }

  /** A present key gets the new value where it stands, an absent key is appended. */
  lemma {:induction false} PutReplacesOrAppends<V>(entries: seq<(string, V)>, key: string, value: V)
    requires DistinctKeys(entries)
    ensures !HasKey(entries, key) ==> Put(entries, key, value) == entries + [(key, value)]
    ensures forall i | 0 <= i < |entries| && entries[i].0 == key ::
      Put(entries, key, value) == entries[i := (key, value)]
    ensures DistinctKeys(Put(entries, key, value))
  {
    if entries != [] && entries[0].0 != key {
      var rest := entries[1..];
      PutReplacesOrAppends(rest, key, value);
      forall i | 0 <= i < |entries| && entries[i].0 == key
        ensures Put(entries, key, value) == entries[i := (key, value)]
      {
        assert rest[i - 1].0 == key;
        assert Put(entries, key, value) == [entries[0]] + rest[i - 1 := (key, value)];
      }
      if !HasKey(entries, key) {
        assert forall i | 0 <= i < |rest| :: rest[i] == entries[i + 1];
        assert !HasKey(rest, key);
        assert [entries[0]] + (rest + [(key, value)]) == entries + [(key, value)];
      }
    }
  }

  class OrderedMap<V> {
    var order: seq<string>
    var index: map<string, nat>
    var values: seq<V>

    ghost predicate Valid()
      reads this
    {
      && |order| == |values|
      && (forall i | 0 <= i < |order| :: order[i] in index && index[order[i]] == i)
      && (forall key | key in index :: index[key] < |order| && order[index[key]] == key)
    }

    /** The entries in first-insertion order. */
    ghost function Entries(): (entries: seq<(string, V)>)
      reads this
      requires Valid()
      ensures |entries| == |values|
      ensures DistinctKeys(entries)
    {
      seq(|order|, i requires 0 <= i < |order| reads this requires Valid() => (order[i], values[i]))
    }

    constructor ()
      ensures Valid() && Entries() == []
    {
      order, index, values := [], map[], [];
    }

    method Get(key: string) returns (value: Option<V>)
      requires Valid()
      ensures value.Some? <==> HasKey(Entries(), key)
      ensures forall i | 0 <= i < |Entries()| && Entries()[i].0 == key :: value == Some(Entries()[i].1)
    {
      if key in index {
        assert Entries()[index[key]].0 == key;
        value := Some(values[index[key]]);
      } else {
        value := None;
      }
    }

    method Set(key: string, value: V)
      requires Valid()
      modifies this
      ensures Valid() && Entries() == Put(old(Entries()), key, value)
    {
      ghost var before := Entries();
      PutReplacesOrAppends(before, key, value);
      if key in index {
        assert before[index[key]].0 == key;
        values := values[index[key] := value];
        assert Entries() == before[index[key] := (key, value)];
      } else {
        assert !HasKey(before, key);
        index := index[key := |values|];
        order := order + [key];
        values := values + [value];
        assert Entries() == before + [(key, value)];
      }
    }

    method SetIfAbsent(key: string, value: V)
      requires Valid()
      modifies this
      ensures Valid()
      ensures Entries() == if HasKey(old(Entries()), key) then old(Entries()) else old(Entries()) + [(key, value)]
    {
      assert key in index ==> Entries()[index[key]].0 == key;
      if key !in index {
        PutReplacesOrAppends(Entries(), key, value);
        Set(key, value);
      }
    }

    method IntoEntries() returns (entries: seq<(string, V)>)
      requires Valid()
      ensures entries == Entries()
    {
      entries := seq(|order|, i requires 0 <= i < |order| reads this requires Valid() => (order[i], values[i]));
    }

    method IntoValues() returns (result: seq<V>)
      requires Valid()
      ensures |result| == |Entries()| && forall i | 0 <= i < |result| :: result[i] == Entries()[i].1
    {
      result := values;
    }
  }

  /** Every value is stored under its own key, so equal values are stored once. */
  ghost predicate KeyedBy<V(!new)>(entries: seq<(string, V)>, key: V -> string) {
    DistinctKeys(entries) && forall i | 0 <= i < |entries| :: entries[i].0 == key(entries[i].1)
  }

  ghost predicate Holds<V>(entries: seq<(string, V)>, value: V) {
    exists i :: 0 <= i < |entries| && entries[i].1 == value
  }

  /** With a key that tells values apart, setting a value under its key adds it to the values held. */
  lemma PutKeyed<V(!new)>(entries: seq<(string, V)>, key: V -> string, value: V)
    requires KeyedBy(entries, key) && forall x, y | key(x) == key(y) :: x == y
    ensures KeyedBy(Put(entries, key(value), value), key)
    ensures forall x :: Holds(Put(entries, key(value), value), x) <==> Holds(entries, x) || x == value
  {
    PutReplacesOrAppends(entries, key(value), value);
    var result := Put(entries, key(value), value);
    if HasKey(entries, key(value)) {
      var i :| 0 <= i < |entries| && entries[i].0 == key(value);
      assert key(entries[i].1) == key(value);
      assert result == entries;
    } else {
      assert result == entries + [(key(value), value)];
      assert result[|entries|].1 == value;
      forall x | Holds(entries, x) ensures Holds(result, x) {
        var i :| 0 <= i < |entries| && entries[i].1 == x;
        assert result[i].1 == x;
      }
    }
  }

  /** The values of a keyed map are the values held, each once. */
  lemma KeyedValues<V(!new)>(entries: seq<(string, V)>, values: seq<V>, key: V -> string)
    requires KeyedBy(entries, key) && |values| == |entries|
    requires forall i | 0 <= i < |values| :: values[i] == entries[i].1
    ensures NoRepeats(values) && forall v :: v in values <==> Holds(entries, v)
  {
  }
}
