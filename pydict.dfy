/**
  The small part of Python's dictionary semantics that the feature-row builder
  relies on: a dict literal (the last value written for a key wins),
  `dict.get` with a default, the key order of a dict comprehension (a key keeps
  the position of its first occurrence), and reading one column of a
  one-row table.
 */
module PyDict {

  datatype Option<T> = None | Some(value: T)

  /** No element occurs twice. */
  predicate Distinct<T(==)>(s: seq<T>) {
    forall i, j :: 0 <= i < j < |s| ==> s[i] != s[j]
  }

  /** Entry `i` is the last entry of `entries` with its key. */
  predicate LastWrite<V>(entries: seq<(string, V)>, i: nat)
    requires i < |entries|
  {
    forall j :: i < j < |entries| ==> entries[j].0 != entries[i].0
  }

  /** The dict that a literal `{k0: v0, k1: v1, ...}` evaluates to: the
      entries are written from left to right. */
  function ToDict<V>(entries: seq<(string, V)>): map<string, V> {
    if entries == [] then map[]
    else ToDict(entries[..|entries| - 1])[entries[|entries| - 1].0 := entries[|entries| - 1].1]
  }

  /** The dict's keys are exactly the keys written in the literal. */
  lemma {:induction false} ToDictKeys<V>(entries: seq<(string, V)>)
    ensures ToDict(entries).Keys == set i | 0 <= i < |entries| :: entries[i].0
  {
    if entries != [] {
      var init := entries[..|entries| - 1];
      ToDictKeys(init);
      assert forall i :: 0 <= i < |init| ==> init[i] == entries[i];
      var all := set i | 0 <= i < |entries| :: entries[i].0;
      var front := set i | 0 <= i < |init| :: init[i].0;
      assert all == front + {entries[|entries| - 1].0} by {
        forall x | x in all ensures x in front + {entries[|entries| - 1].0} {
          var i :| 0 <= i < |entries| && entries[i].0 == x;
          if i < |init| { assert init[i].0 == x; }
        }
      }
    }
  }

  /** A key holds the value of its last entry in the literal. */
  lemma {:induction false} ToDictLastWrite<V>(entries: seq<(string, V)>, i: nat)
    requires i < |entries| && LastWrite(entries, i)
    ensures entries[i].0 in ToDict(entries) && ToDict(entries)[entries[i].0] == entries[i].1
  {
    var init := entries[..|entries| - 1];
    if i < |init| {
      assert init[i] == entries[i];
      assert LastWrite(init, i);
      ToDictLastWrite(init, i);
    }
  }

  /** `d.get(key, default)`. */
  function Get<V>(d: map<string, V>, key: string, default: V): V {
    if key in d then d[key] else default
  }

  /** `get` on a dict literal: a written key gives the value of its last entry,
      a key never written gives the default. */
  lemma GetLiteral<V>(entries: seq<(string, V)>, key: string, default: V)
    ensures (forall i :: 0 <= i < |entries| ==> entries[i].0 != key) ==> Get(ToDict(entries), key, default) == default
    ensures forall i :: 0 <= i < |entries| && entries[i].0 == key && LastWrite(entries, i)
              ==> Get(ToDict(entries), key, default) == entries[i].1
  {
    ToDictKeys(entries);
    forall i | 0 <= i < |entries| && entries[i].0 == key && LastWrite(entries, i)
      ensures Get(ToDict(entries), key, default) == entries[i].1
    {
      ToDictLastWrite(entries, i);
    }
  }

  /** The keys, in order, of a dict comprehension `{k: ... for k in keys}`:
      a repeated key keeps the position of its first occurrence. */
  function Columns(keys: seq<string>): (c: seq<string>)
    ensures Distinct(c)
    ensures forall x :: x in c <==> x in keys
    ensures |c| <= |keys|
    ensures Distinct(keys) ==> c == keys
  {
    if keys == [] then []
    else
      var init, last := keys[..|keys| - 1], keys[|keys| - 1];
      assert keys == init + [last];
      var c0 := Columns(init);
      if last in c0 then c0 else c0 + [last]
  }

  /** The position of the first occurrence of `x` in `keys`. */
  function FirstIndex(keys: seq<string>, x: string): (i: nat)
    requires x in keys
    ensures i < |keys| && keys[i] == x
    ensures forall j :: 0 <= j < i ==> keys[j] != x
  {
    if keys[0] == x then 0 else 1 + FirstIndex(keys[1..], x)
  }

  /** Appending a key moves no first occurrence of an earlier key. */
  lemma FirstIndexAppend(keys: seq<string>, last: string, x: string)
    requires x in keys + [last]
    ensures x in keys ==> FirstIndex(keys + [last], x) == FirstIndex(keys, x)
    ensures x !in keys ==> FirstIndex(keys + [last], x) == |keys|
  {
    if x in keys {
      var k := FirstIndex(keys, x);
      assert (keys + [last])[k] == x;
    }
  }

  /** The comprehension's keys come in the order of their first occurrence
      among `keys`; with `Columns`' own contract this fixes the result. */
  lemma {:induction false} ColumnsOrder(keys: seq<string>)
    ensures forall i, j :: 0 <= i < j < |Columns(keys)| ==>
              FirstIndex(keys, Columns(keys)[i]) < FirstIndex(keys, Columns(keys)[j])
  {
    if keys != [] {
      var init, last := keys[..|keys| - 1], keys[|keys| - 1];
      assert keys == init + [last];
      var c0 := Columns(init);
      ColumnsOrder(init);
      var c := Columns(keys);
      forall x | x in c0 ensures FirstIndex(keys, x) == FirstIndex(init, x) {
        FirstIndexAppend(init, last, x);
      }
      if last !in c0 {
        FirstIndexAppend(init, last, last);
        assert c == c0 + [last];
        forall i, j | 0 <= i < j < |c| ensures FirstIndex(keys, c[i]) < FirstIndex(keys, c[j]) {
          assert c[i] == c0[i];
          if j < |c0| { assert c[j] == c0[j]; }
        }
      }
    }
  }

  /** The value of the first cell named `name` in a one-row table, if any. */
  function RowGet(row: seq<(string, int)>, name: string): (v: Option<int>)
    ensures v.None? <==> forall i :: 0 <= i < |row| ==> row[i].0 != name
    ensures forall i :: 0 <= i < |row| && row[i].0 == name && (forall j :: 0 <= j < i ==> row[j].0 != name)
              ==> v == Some(row[i].1)
  {
    if row == [] then None
    else if row[0].0 == name then Some(row[0].1)
    else
      var v := RowGet(row[1..], name);
      assert forall i :: 1 <= i < |row| ==> row[1..][i - 1] == row[i];
      v
  }

  /** A set of distinct keys has as many elements as the sequence listing them. */
  lemma {:induction false} DistinctKeysCount<V>(entries: seq<(string, V)>)
    requires forall i, j :: 0 <= i < j < |entries| ==> entries[i].0 != entries[j].0
    ensures |set i | 0 <= i < |entries| :: entries[i].0| == |entries|
  {
    if entries != [] {
      var init := entries[..|entries| - 1];
      var last := entries[|entries| - 1].0;
      DistinctKeysCount(init);
      var all := set i | 0 <= i < |entries| :: entries[i].0;
      var front := set i | 0 <= i < |init| :: init[i].0;
      assert all == front + {last} by {
        forall x | x in all ensures x in front + {last} {
          var i :| 0 <= i < |entries| && entries[i].0 == x;
          if i < |init| { assert init[i].0 == x; }
        }
        forall x | x in front + {last} ensures x in all {
          if x in front {
            var i :| 0 <= i < |init| && init[i].0 == x;
            assert entries[i].0 == x;
          } else {
            assert entries[|entries| - 1].0 == x;
          }
        }
      }
      assert last !in front;
    }
  }
}
