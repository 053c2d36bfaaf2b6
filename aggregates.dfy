/** Group-and-sum over the history: the filters and per-key quantity
    totals that the reports are built from. */
module Aggregates {
  import opened Tables

  function KindOf(r: Record): Kind { r.kind }
  function TitleOf(r: Record): string { r.title }
  function ClientOf(r: Record): string { r.client }

  /** The records whose key equals `k`, in history order. */
  function Where<K(==)>(recs: seq<Record>, key: Record -> K, k: K): (out: seq<Record>)
    ensures |out| <= |recs|
    ensures forall r :: r in out <==> r in recs && key(r) == k
  {
    if recs == [] then []
    else (if key(recs[0]) == k then [recs[0]] else []) + Where(recs[1..], key, k)
  }

  lemma {:induction false} WhereConcat<K>(a: seq<Record>, b: seq<Record>, key: Record -> K, k: K)
    ensures Where(a + b, key, k) == Where(a, key, k) + Where(b, key, k)
  {
    if a == [] {
      assert a + b == b;
    } else {
      assert (a + b)[1..] == a[1..] + b;
      WhereConcat(a[1..], b, key, k);
    }
  }

  /** No record has the key exactly when filtering by it leaves nothing. */
  lemma WhereEmpty<K>(recs: seq<Record>, key: Record -> K, k: K)
    ensures Where(recs, key, k) == [] <==> forall r :: r in recs ==> key(r) != k
  {
    var out := Where(recs, key, k);
    if out != [] {
      assert out[0] in out;
    }
  }

  /** The total quantity of a list of records. */
  function QtyTotal(recs: seq<Record>): int {
    if recs == [] then 0 else recs[0].quantity + QtyTotal(recs[1..])
  }

  lemma {:induction false} QtyTotalConcat(a: seq<Record>, b: seq<Record>)
    ensures QtyTotal(a + b) == QtyTotal(a) + QtyTotal(b)
  {
    if a == [] {
      assert a + b == b;
    } else {
      assert (a + b)[1..] == a[1..] + b;
      QtyTotalConcat(a[1..], b);
    }
  }

  predicate Distinct<K(==)>(ks: seq<K>) {
    forall i, j :: 0 <= i < j < |ks| ==> ks[i] != ks[j]
  }

  /** The distinct keys that occur in the records (the group labels). */
  function Keys<K(==)>(recs: seq<Record>, key: Record -> K): (ks: seq<K>)
    ensures Distinct(ks)
    ensures forall r :: r in recs ==> key(r) in ks
  {
    if recs == [] then []
    else
      var rest := Keys(recs[1..], key);
      if key(recs[0]) in rest then rest else [key(recs[0])] + rest
  }

  /** Every listed key is the key of at least one record. */
  lemma {:induction false} KeysOccur<K>(recs: seq<Record>, key: Record -> K)
    ensures forall i :: 0 <= i < |Keys(recs, key)| ==> Where(recs, key, Keys(recs, key)[i]) != []
  {
    if recs != [] {
      KeysOccur(recs[1..], key);
      var ks, rest := Keys(recs, key), Keys(recs[1..], key);
      forall i | 0 <= i < |ks| ensures Where(recs, key, ks[i]) != [] {
        if ks[i] != key(recs[0]) {
          var j := if key(recs[0]) in rest then i else i - 1;
          assert rest[j] == ks[i];
        }
      }
    } else {
      assert Keys(recs, key) == [];
    }
  }

  /** The summed quantity per key, one entry per key of `ks`. */
  function Tally<K(==)>(recs: seq<Record>, key: Record -> K, ks: seq<K>): (t: seq<int>)
    ensures |t| == |ks|
    ensures forall i :: 0 <= i < |ks| ==> t[i] == QtyTotal(Where(recs, key, ks[i]))
  {
    if ks == [] then [] else [QtyTotal(Where(recs, key, ks[0]))] + Tally(recs, key, ks[1..])
  }

  /** Splitting the records by key and summing every group gives back the
      overall total, as long as every record's key is listed exactly once. */
  lemma {:induction false} TallyPartition<K>(recs: seq<Record>, key: Record -> K, ks: seq<K>)
    requires Distinct(ks)
    requires forall r :: r in recs ==> key(r) in ks
    ensures Sum(Tally(recs, key, ks)) == QtyTotal(recs)
  {
    if recs == [] {
      TallyOfNothing(key, ks);
    } else {
      TallyCons(recs, key, ks);
      TallyPartition(recs[1..], key, ks);
    }
  }

  lemma {:induction false} TallyOfNothing<K>(key: Record -> K, ks: seq<K>)
    ensures Sum(Tally([], key, ks)) == 0
  {
    if ks != [] {
      TallyOfNothing(key, ks[1..]);
    }
  }

  /** The first record adds its quantity to exactly the group of its key. */
  lemma {:induction false} TallyCons<K>(recs: seq<Record>, key: Record -> K, ks: seq<K>)
    requires recs != [] && Distinct(ks)
    ensures Sum(Tally(recs, key, ks))
         == (if key(recs[0]) in ks then recs[0].quantity else 0) + Sum(Tally(recs[1..], key, ks))
  {
    if ks != [] {
      assert Distinct(ks[1..]) by {
        forall i, j | 0 <= i < j < |ks[1..]| ensures ks[1..][i] != ks[1..][j] {
          assert ks[1..][i] == ks[i + 1] && ks[1..][j] == ks[j + 1];
        }
      }
      TallyCons(recs, key, ks[1..]);
      assert key(recs[0]) == ks[0] ==> key(recs[0]) !in ks[1..];
      var head := if key(recs[0]) == ks[0] then [recs[0]] else [];
      assert Where(recs, key, ks[0]) == head + Where(recs[1..], key, ks[0]);
      QtyTotalConcat(head, Where(recs[1..], key, ks[0]));
    }
  }
}
