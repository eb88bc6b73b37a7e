/** Reconciliation: keep the scraped records whose key is not among the
    keys already saved (`[eo for eo in executive_orders if eo["ID"] not in
    existing_orders]`), and `load_existing_orders`. */
module Reconcile {
  import opened Wrappers
  import opened Identity
  import opened Records
  import opened Table
  import opened CsvStore

  /** The `ID` column of a table, in row order. */
  function IdsOf(rows: seq<OrderRow>): (ids: seq<Id>)
    ensures |ids| == |rows|
    ensures forall i :: 0 <= i < |rows| ==> ids[i] == rows[i].id
  {
    seq(|rows|, i requires 0 <= i < |rows| => rows[i].id)
  }

  /** `load_existing_orders`: the saved keys, or none when there is no file. */
  function ExistingIds(contents: Option<seq<OrderRow>>): (ids: seq<Id>)
    ensures forall k :: k in ids <==> contents.Some? && k in KeysOf(contents.value, OrderKey)
  {
    match contents
    case None => []
    case Some(rows) =>
      assert forall k :: k in IdsOf(rows) <==> k in KeysOf(rows, OrderKey) by {
        forall k ensures k in IdsOf(rows) <==> k in KeysOf(rows, OrderKey) {
          if k in IdsOf(rows) {
            var i :| 0 <= i < |rows| && IdsOf(rows)[i] == k;
            KeyAt(rows, OrderKey, i);
          }
          if k in KeysOf(rows, OrderKey) {
            var i := KeyWitness(rows, OrderKey, k);
            assert IdsOf(rows)[i] == k;
          }
        }
      }
      IdsOf(rows)
  }

  /** `load_existing_orders`: read the `ID` column if the file exists. */
  method LoadExistingOrders(eoFile: CsvTable<OrderRow>) returns (ids: seq<Id>)
    ensures ids == ExistingIds(eoFile.contents)
  {
    if eoFile.contents.Some? {
      ids := IdsOf(eoFile.contents.value);
    } else {
      ids := [];
    }
  }

  /** `a` is `b` with some elements left out, in the same order. */
  predicate IsSubsequence<T(==)>(a: seq<T>, b: seq<T>)
    decreases |b|
  {
    a == [] || (b != [] && ((a[0] == b[0] && IsSubsequence(a[1..], b[1..])) || IsSubsequence(a, b[1..])))
  }

  /** The new records: exactly the scraped ones whose key is not saved yet.
      Two scraped records with the same key both stay new. */
  function NewOrders(scraped: seq<OrderRow>, existing: seq<Id>): (unseen: seq<OrderRow>)
    ensures |unseen| <= |scraped|
    ensures forall o :: o in unseen <==> o in scraped && o.id !in existing
  {
    if scraped == [] then []
    else
      var rest := NewOrders(scraped[1..], existing);
      if scraped[0].id in existing then rest else [scraped[0]] + rest
  }

  /** Reconciliation preserves the scrape order. */
  lemma {:induction false} NewOrdersIsSubsequence(scraped: seq<OrderRow>, existing: seq<Id>)
    ensures IsSubsequence(NewOrders(scraped, existing), scraped)
  {
    if scraped != [] {
      NewOrdersIsSubsequence(scraped[1..], existing);
      var unseen := NewOrders(scraped, existing);
      if scraped[0].id !in existing {
        assert unseen[1..] == NewOrders(scraped[1..], existing);
      }
    }
  }

  /** Reconciliation works record by record: a batch splits into its parts. */
  lemma {:induction false} NewOrdersAppend(a: seq<OrderRow>, b: seq<OrderRow>, existing: seq<Id>)
    ensures NewOrders(a + b, existing) == NewOrders(a, existing) + NewOrders(b, existing)
  {
    if a == [] {
      assert a + b == b;
    } else {
      assert (a + b)[0] == a[0] && (a + b)[1..] == a[1..] + b;
      NewOrdersAppend(a[1..], b, existing);
    }
  }

  /** A batch whose keys are all unsaved is new in full, duplicates included. */
  lemma {:induction false} NewOrdersAllFresh(scraped: seq<OrderRow>, existing: seq<Id>)
    requires forall i :: 0 <= i < |scraped| ==> scraped[i].id !in existing
    ensures NewOrders(scraped, existing) == scraped
  {
    if scraped != [] { NewOrdersAllFresh(scraped[1..], existing); }
  }

  /** Reconciling twice against the same keys changes nothing more. */
  lemma {:induction false} NewOrdersIdempotent(scraped: seq<OrderRow>, existing: seq<Id>)
    ensures NewOrders(NewOrders(scraped, existing), existing) == NewOrders(scraped, existing)
  {
    var unseen := NewOrders(scraped, existing);
    forall i | 0 <= i < |unseen| ensures unseen[i].id !in existing {
      assert unseen[i] in unseen;
    }
    NewOrdersAllFresh(unseen, existing);
  }

  /** Running again against an unchanged listing finds nothing new: once the
      new records have been saved (merged into the table, or written as the
      whole table when there was no file), every scraped key is saved. */
  lemma SecondRunFindsNothing(scraped: seq<OrderRow>, contents: Option<seq<OrderRow>>)
    ensures var after := SavedIfAny(contents, NewOrders(scraped, ExistingIds(contents)), OrderKey);
      NewOrders(scraped, ExistingIds(after)) == []
  {
    var unseen := NewOrders(scraped, ExistingIds(contents));
    var after := SavedIfAny(contents, unseen, OrderKey);
    var again := NewOrders(scraped, ExistingIds(after));
    if again != [] {
      var o := again[0];
      assert o in again;
      if o.id !in ExistingIds(contents) {
        assert o in unseen;
        KeyAt(unseen, OrderKey, IndexOf(unseen, o));
      }
      assert false;
    }
  }

  function IndexOf<T(==)>(s: seq<T>, x: T): (i: nat)
    requires x in s
    ensures i < |s| && s[i] == x
  {
    if s[0] == x then 0 else 1 + IndexOf(s[1..], x)
  }
}
