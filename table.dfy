/** The table merge of every `save_*` function: concatenate the existing
    rows and the new rows, then drop rows whose key occurs again later
    (`pd.concat([...]).drop_duplicates(subset=..., keep="last")`), or write
    the new rows unchanged when there is no file yet. */
module Table {
  import opened Wrappers

  /** The set of keys present in a table. */
  function KeysOf<R, K>(rows: seq<R>, key: R -> K): set<K>
  {
    if rows == [] then {} else {key(rows[0])} + KeysOf(rows[1..], key)
  }

  /** No two rows share a key. */
  predicate UniqueKeys<R, K(==)>(rows: seq<R>, key: R -> K)
  {
    forall i, j :: 0 <= i < j < |rows| ==> key(rows[i]) != key(rows[j])
  }

  /** Row `i` is the last one carrying its key. */
  predicate IsLastOccurrence<R, K(==)>(rows: seq<R>, key: R -> K, i: int)
  {
    0 <= i < |rows| && forall j :: i < j < |rows| ==> key(rows[j]) != key(rows[i])
  }

  /** The rows whose key is not in `ks`, in order. */
  function RemoveKeys<R, K(==)>(rows: seq<R>, ks: set<K>, key: R -> K): (r: seq<R>)
    ensures KeysOf(r, key) == KeysOf(rows, key) - ks
  {
    if rows == [] then []
    else if key(rows[0]) in ks then RemoveKeys(rows[1..], ks, key)
    else [rows[0]] + RemoveKeys(rows[1..], ks, key)
  }

  lemma {:induction false} KeyAt<R, K>(rows: seq<R>, key: R -> K, i: int)
    requires 0 <= i < |rows|
    ensures key(rows[i]) in KeysOf(rows, key)
  {
    if i > 0 { KeyAt(rows[1..], key, i - 1); }
  }

  lemma {:induction false} KeyWitness<R, K>(rows: seq<R>, key: R -> K, k: K) returns (i: nat)
    requires k in KeysOf(rows, key)
    ensures i < |rows| && key(rows[i]) == k
  {
    if key(rows[0]) == k { i := 0; }
    else { i := KeyWitness(rows[1..], key, k); i := i + 1; }
  }

  lemma {:induction false} KeysOfAppend<R, K>(a: seq<R>, b: seq<R>, key: R -> K)
    ensures KeysOf(a + b, key) == KeysOf(a, key) + KeysOf(b, key)
  {
    if a != [] {
      assert (a + b)[0] == a[0] && (a + b)[1..] == a[1..] + b;
      KeysOfAppend(a[1..], b, key);
    } else {
      assert a + b == b;
    }
  }

  /** `drop_duplicates(keep="last")`: a row survives exactly when no later
      row has the same key. The result has unique keys and loses no key. */
  function DropDuplicatesKeepLast<R, K(==)>(rows: seq<R>, key: R -> K): (r: seq<R>)
    ensures UniqueKeys(r, key)
    ensures KeysOf(r, key) == KeysOf(rows, key)
    ensures |r| <= |rows|
  {
    if rows == [] then []
    else
      var rest := DropDuplicatesKeepLast(rows[1..], key);
      if key(rows[0]) in KeysOf(rows[1..], key) then rest
      else
        assert forall j :: 0 <= j < |rest| ==> key(rest[j]) != key(rows[0]) by {
          forall j | 0 <= j < |rest| { KeyAt(rest, key, j); }
        }
        [rows[0]] + rest
  }

  /** The index of the last row carrying key `k`. */
  function LastIndexOf<R, K(==)>(rows: seq<R>, key: R -> K, k: K): (i: nat)
    requires k in KeysOf(rows, key)
    ensures i < |rows| && key(rows[i]) == k && IsLastOccurrence(rows, key, i)
  {
    if k in KeysOf(rows[1..], key) then 1 + LastIndexOf(rows[1..], key, k)
    else
      assert forall j :: 0 < j < |rows| ==> key(rows[j]) != k by {
        forall j | 0 < j < |rows| ensures key(rows[j]) in KeysOf(rows[1..], key) { KeyAt(rows[1..], key, j - 1); }
      }
      0
  }

  /** The last occurrence is the only one with no later row of the same key. */
  lemma {:induction false} LastIndexUnique<R, K>(rows: seq<R>, key: R -> K, i: int)
    requires IsLastOccurrence(rows, key, i)
    ensures key(rows[i]) in KeysOf(rows, key)
    ensures LastIndexOf(rows, key, key(rows[i])) == i
  {
    KeyAt(rows, key, i);
  }

  /** Keep-last, spelled out: every surviving row is the last occurrence of
      its key in the input. With the unique keys, the unchanged key set and
      `DropDuplicatesKeepsOrder` this pins the result down completely. */
  lemma {:induction false} DropDuplicatesKeepsLastOccurrences<R, K>(rows: seq<R>, key: R -> K)
    ensures forall m :: 0 <= m < |DropDuplicatesKeepLast(rows, key)| ==>
      var x := DropDuplicatesKeepLast(rows, key)[m];
      key(x) in KeysOf(rows, key) && x == rows[LastIndexOf(rows, key, key(x))]
  {
    if rows != [] {
      var tail := rows[1..];
      var rest := DropDuplicatesKeepLast(tail, key);
      DropDuplicatesKeepsLastOccurrences(tail, key);
      LastIndicesShift(rows, key);
      if key(rows[0]) !in KeysOf(tail, key) {
        LastIndexFirst(rows, key);
        assert DropDuplicatesKeepLast(rows, key) == [rows[0]] + rest;
      }
    }
  }

  /** The survivors keep the input order of their last occurrences. */
  lemma {:induction false} DropDuplicatesKeepsOrder<R, K>(rows: seq<R>, key: R -> K)
    ensures forall m, n :: 0 <= m < n < |DropDuplicatesKeepLast(rows, key)| ==>
      var x, y := DropDuplicatesKeepLast(rows, key)[m], DropDuplicatesKeepLast(rows, key)[n];
      key(x) in KeysOf(rows, key) && key(y) in KeysOf(rows, key) &&
      LastIndexOf(rows, key, key(x)) < LastIndexOf(rows, key, key(y))
  {
    if rows != [] {
      var tail := rows[1..];
      var rest := DropDuplicatesKeepLast(tail, key);
      DropDuplicatesKeepsOrder(tail, key);
      LastIndicesShift(rows, key);
      if key(rows[0]) !in KeysOf(tail, key) {
        LastIndexFirst(rows, key);
        var r := [rows[0]] + rest;
        assert DropDuplicatesKeepLast(rows, key) == r;
        forall m, n | 0 <= m < n < |r|
          ensures key(r[m]) in KeysOf(rows, key) && key(r[n]) in KeysOf(rows, key)
          ensures LastIndexOf(rows, key, key(r[m])) < LastIndexOf(rows, key, key(r[n]))
        {
          assert r[n] == rest[n - 1];
          if m > 0 {
            assert r[m] == rest[m - 1];
          }
        }
      } else {
        assert DropDuplicatesKeepLast(rows, key) == rest;
      }
    }
  }

  /** Every survivor of the tail has its last occurrence one further on in
      the whole table. */
  lemma LastIndicesShift<R, K>(rows: seq<R>, key: R -> K)
    requires rows != []
    ensures forall m :: 0 <= m < |DropDuplicatesKeepLast(rows[1..], key)| ==>
      var k := key(DropDuplicatesKeepLast(rows[1..], key)[m]);
      k in KeysOf(rows[1..], key) && k in KeysOf(rows, key) &&
      LastIndexOf(rows, key, k) == 1 + LastIndexOf(rows[1..], key, k)
  {
    var tail := rows[1..];
    var rest := DropDuplicatesKeepLast(tail, key);
    forall m | 0 <= m < |rest|
      ensures key(rest[m]) in KeysOf(tail, key) && key(rest[m]) in KeysOf(rows, key)
      ensures LastIndexOf(rows, key, key(rest[m])) == 1 + LastIndexOf(tail, key, key(rest[m]))
    {
      KeyAt(rest, key, m);
      var k := key(rest[m]);
      var t := LastIndexOf(tail, key, k);
      assert IsLastOccurrence(rows, key, 1 + t);
      LastIndexUnique(rows, key, 1 + t);
    }
  }

  /** A first row whose key does not reappear is its key's last occurrence. */
  lemma LastIndexFirst<R, K>(rows: seq<R>, key: R -> K)
    requires rows != [] && key(rows[0]) !in KeysOf(rows[1..], key)
    ensures key(rows[0]) in KeysOf(rows, key) && LastIndexOf(rows, key, key(rows[0])) == 0
  {
    assert IsLastOccurrence(rows, key, 0) by {
      forall j | 0 < j < |rows| ensures key(rows[j]) != key(rows[0]) { KeyAt(rows[1..], key, j - 1); }
    }
    LastIndexUnique(rows, key, 0);
  }

  /** A row that is the last of its key survives. */
  lemma {:induction false} LastOccurrenceSurvives<R, K>(rows: seq<R>, key: R -> K, i: int)
    requires IsLastOccurrence(rows, key, i)
    ensures rows[i] in DropDuplicatesKeepLast(rows, key)
  {
    if i == 0 {
      if key(rows[0]) in KeysOf(rows[1..], key) {
        var j := KeyWitness(rows[1..], key, key(rows[0]));
        assert false;
      }
    } else {
      LastOccurrenceSurvives(rows[1..], key, i - 1);
    }
  }

  /** Deduplicating a table whose keys are already unique changes nothing. */
  lemma {:induction false} DropDuplicatesOfUnique<R, K>(rows: seq<R>, key: R -> K)
    requires UniqueKeys(rows, key)
    ensures DropDuplicatesKeepLast(rows, key) == rows
  {
    if rows != [] {
      if key(rows[0]) in KeysOf(rows[1..], key) {
        var j := KeyWitness(rows[1..], key, key(rows[0]));
        assert false;
      }
      DropDuplicatesOfUnique(rows[1..], key);
    }
  }

  /** Deduplicating a concatenation: the rows of `a` whose key reappears in
      `b` are superseded; everything else keeps its place. */
  lemma {:induction false} DropDuplicatesAppend<R, K>(a: seq<R>, b: seq<R>, key: R -> K)
    ensures DropDuplicatesKeepLast(a + b, key)
         == RemoveKeys(DropDuplicatesKeepLast(a, key), KeysOf(b, key), key) + DropDuplicatesKeepLast(b, key)
  {
    if a != [] {
      var tail, kb := a[1..], KeysOf(b, key);
      assert (a + b)[0] == a[0] && (a + b)[1..] == tail + b;
      DropDuplicatesAppend(tail, b, key);
      KeysOfAppend(tail, b, key);
      var dt := DropDuplicatesKeepLast(tail, key);
      var k := key(a[0]);
      if k in KeysOf(tail, key) {
        // `a[0]` is superseded within `a` already.
        assert DropDuplicatesKeepLast(a, key) == dt;
        assert DropDuplicatesKeepLast(a + b, key) == DropDuplicatesKeepLast(tail + b, key);
      } else if k in kb {
        // `a[0]` survives in `a` but is superseded by `b`.
        assert DropDuplicatesKeepLast(a, key) == [a[0]] + dt;
        assert RemoveKeys([a[0]] + dt, kb, key) == RemoveKeys(dt, kb, key);
        assert DropDuplicatesKeepLast(a + b, key) == DropDuplicatesKeepLast(tail + b, key);
      } else {
        assert DropDuplicatesKeepLast(a, key) == [a[0]] + dt;
        assert RemoveKeys([a[0]] + dt, kb, key) == [a[0]] + RemoveKeys(dt, kb, key);
        assert DropDuplicatesKeepLast(a + b, key) == [a[0]] + DropDuplicatesKeepLast(tail + b, key);
      }
    } else {
      assert a + b == b;
    }
  }

  lemma {:induction false} RemoveKeysAppend<R, K>(a: seq<R>, b: seq<R>, ks: set<K>, key: R -> K)
    ensures RemoveKeys(a + b, ks, key) == RemoveKeys(a, ks, key) + RemoveKeys(b, ks, key)
  {
    if a != [] {
      assert (a + b)[0] == a[0] && (a + b)[1..] == a[1..] + b;
      RemoveKeysAppend(a[1..], b, ks, key);
    } else {
      assert a + b == b;
    }
  }

  lemma {:induction false} RemoveKeysTwice<R, K>(rows: seq<R>, ks: set<K>, key: R -> K)
    ensures RemoveKeys(RemoveKeys(rows, ks, key), ks, key) == RemoveKeys(rows, ks, key)
  {
    if rows != [] { RemoveKeysTwice(rows[1..], ks, key); }
  }

  lemma {:induction false} RemoveOwnKeys<R, K>(rows: seq<R>, ks: set<K>, key: R -> K)
    requires KeysOf(rows, key) <= ks
    ensures RemoveKeys(rows, ks, key) == []
  {
    if rows != [] { RemoveOwnKeys(rows[1..], ks, key); }
  }

  lemma {:induction false} UniqueKeysCount<R, K>(rows: seq<R>, key: R -> K)
    requires UniqueKeys(rows, key)
    ensures |KeysOf(rows, key)| == |rows|
  {
    if rows != [] {
      UniqueKeysCount(rows[1..], key);
      if key(rows[0]) in KeysOf(rows[1..], key) {
        var j := KeyWitness(rows[1..], key, key(rows[0]));
        assert false;
      }
    }
  }

  /** The table after `save_*`: the new rows alone when the file is absent,
      otherwise the keep-last deduplication of existing rows then new rows. */
  function Merge<R, K(==)>(existing: Option<seq<R>>, newRows: seq<R>, key: R -> K): (r: seq<R>)
    ensures existing.None? ==> r == newRows
    ensures existing.Some? ==> UniqueKeys(r, key)
    ensures existing.Some? ==> KeysOf(r, key) == KeysOf(existing.value, key) + KeysOf(newRows, key)
  {
    match existing
    case None => newRows
    case Some(rows) =>
      KeysOfAppend(rows, newRows, key);
      DropDuplicatesKeepLast(rows + newRows, key)
  }

  /** For an existing file, merging once more with the same new rows gives
      the same table. */
  lemma {:induction false} MergeIdempotent<R, K>(rows: seq<R>, newRows: seq<R>, key: R -> K)
    ensures Merge(Some(Merge(Some(rows), newRows, key)), newRows, key) == Merge(Some(rows), newRows, key)
  {
    var ks := KeysOf(newRows, key);
    var d := DropDuplicatesKeepLast(newRows, key);
    var dr := DropDuplicatesKeepLast(rows, key);
    var kept := RemoveKeys(dr, ks, key);
    var once := DropDuplicatesKeepLast(rows + newRows, key);
    assert Merge(Some(rows), newRows, key) == once;
    calc {
      Merge(Some(once), newRows, key);
      DropDuplicatesKeepLast(once + newRows, key);
      == { DropDuplicatesAppend(once, newRows, key); }
      RemoveKeys(DropDuplicatesKeepLast(once, key), ks, key) + d;
      == { DropDuplicatesOfUnique(once, key); }
      RemoveKeys(once, ks, key) + d;
      == { DropDuplicatesAppend(rows, newRows, key); }
      RemoveKeys(kept + d, ks, key) + d;
      == { RemoveKeysAppend(kept, d, ks, key); }
      RemoveKeys(kept, ks, key) + RemoveKeys(d, ks, key) + d;
      == { RemoveKeysTwice(dr, ks, key); RemoveOwnKeys(d, ks, key); assert kept + [] == kept; }
      kept + d;
      == { DropDuplicatesAppend(rows, newRows, key); }
      once;
    }
  }

  /** For an absent file the first save writes the new rows verbatim; saving
      them again deduplicates them, so the second save leaves the table
      unchanged exactly when the new rows already had unique keys. */
  lemma {:induction false} MergeTwiceIntoAbsent<R, K>(newRows: seq<R>, key: R -> K)
    ensures Merge(Some(Merge(None, newRows, key)), newRows, key) == DropDuplicatesKeepLast(newRows, key)
    ensures Merge(Some(Merge(None, newRows, key)), newRows, key) == Merge(None, newRows, key)
        <==> UniqueKeys(newRows, key)
  {
    var d := DropDuplicatesKeepLast(newRows, key);
    DropDuplicatesAppend(newRows, newRows, key);
    RemoveOwnKeys(d, KeysOf(newRows, key), key);
    assert [] + d == d;
    if UniqueKeys(newRows, key) { DropDuplicatesOfUnique(newRows, key); }
  }

  /** Row count after merging into an existing file: one row per distinct
      key, so the table shrinks below `|existing| + |new|` exactly when some
      keys collide, and a table that had unique keys never loses rows. */
  lemma {:induction false} MergeCount<R, K>(rows: seq<R>, newRows: seq<R>, key: R -> K)
    ensures |Merge(Some(rows), newRows, key)| == |KeysOf(rows, key) + KeysOf(newRows, key)|
    ensures |Merge(Some(rows), newRows, key)| == |rows| + |newRows| <==> UniqueKeys(rows + newRows, key)
    ensures UniqueKeys(rows, key) ==> |Merge(Some(rows), newRows, key)| >= |rows|
  {
    var r := Merge(Some(rows), newRows, key);
    UniqueKeysCount(r, key);
    KeysOfAppend(rows, newRows, key);
    if UniqueKeys(rows + newRows, key) { DropDuplicatesOfUnique(rows + newRows, key); }
    if |r| == |rows + newRows| && !UniqueKeys(rows + newRows, key) {
      var i, j :| 0 <= i < j < |rows + newRows| && key((rows + newRows)[i]) == key((rows + newRows)[j]);
      DropDuplicatesCountBelow(rows + newRows, key, i, j);
    }
    if UniqueKeys(rows, key) {
      UniqueKeysCount(rows, key);
      var ka, kb := KeysOf(rows, key), KeysOf(newRows, key);
      assert ka + kb == ka + (kb - ka);
      assert |ka + (kb - ka)| == |ka| + |kb - ka|;
    }
  }

  /** Two rows sharing a key leave fewer distinct keys than rows. */
  lemma {:induction false} DropDuplicatesCountBelow<R, K>(rows: seq<R>, key: R -> K, i: int, j: int)
    requires 0 <= i < j < |rows| && key(rows[i]) == key(rows[j])
    ensures |DropDuplicatesKeepLast(rows, key)| < |rows|
  {
    if i == 0 {
      KeyAt(rows[1..], key, j - 1);
    } else {
      DropDuplicatesCountBelow(rows[1..], key, i - 1, j - 1);
    }
  }

  /** For an existing file: a new row that is the last of its key among the
      new rows is in the result, and an existing row that is the last of its
      key and whose key no new row carries is kept. */
  lemma {:induction false} MergeKeepsSurvivors<R, K>(rows: seq<R>, newRows: seq<R>, key: R -> K)
    ensures forall i :: IsLastOccurrence(newRows, key, i) ==> newRows[i] in Merge(Some(rows), newRows, key)
    ensures forall i :: IsLastOccurrence(rows, key, i) && key(rows[i]) !in KeysOf(newRows, key) ==>
      rows[i] in Merge(Some(rows), newRows, key)
  {
    DropDuplicatesAppend(rows, newRows, key);
    forall i | IsLastOccurrence(newRows, key, i) ensures newRows[i] in Merge(Some(rows), newRows, key) {
      LastOccurrenceSurvives(newRows, key, i);
    }
    forall i | IsLastOccurrence(rows, key, i) && key(rows[i]) !in KeysOf(newRows, key)
      ensures rows[i] in Merge(Some(rows), newRows, key)
    {
      LastOccurrenceSurvives(rows, key, i);
      RemoveKeysKeeps(DropDuplicatesKeepLast(rows, key), KeysOf(newRows, key), key, rows[i]);
    }
  }

  lemma {:induction false} RemoveKeysKeeps<R, K>(rows: seq<R>, ks: set<K>, key: R -> K, x: R)
    requires x in rows && key(x) !in ks
    ensures x in RemoveKeys(rows, ks, key)
  {
    if rows[0] != x { RemoveKeysKeeps(rows[1..], ks, key, x); }
  }
}
