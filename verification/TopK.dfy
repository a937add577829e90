/**
 * Meaning of `ORDER BY received_at DESC LIMIT k`.
 *
 * SQL leaves ties open; a fixed total order (newest first, then smaller row identifier)
 * settles them. A row is selected exactly when fewer than `k` rows precede it.
 */
module TopK {
  import opened Prelude

  datatype Item = Item(at: int, id: nat)

  predicate Before(x: Item, y: Item) {
    x.at > y.at || (x.at == y.at && x.id < y.id)
  }

  function Preds(s: set<Item>, x: Item): set<Item> {
    set y | y in s && Before(y, x)
  }

  /** The rows a query selects; SQLite reads a negative limit as "no limit". */
  function Top(s: set<Item>, k: int): set<Item> {
    if k < 0 then s else set x | x in s && |Preds(s, x)| < k
  }

  /** Every non-empty set of rows has a row that all others precede. */
  lemma {:induction false} LastRow(s: set<Item>) returns (z: Item)
    requires s != {}
    ensures z in s && forall x | x in s && x != z :: Before(x, z)
    decreases |s|
  {
    var x :| x in s;
    z := x;
    if s != {x} {
      assert s - {x} != {};
      var y := LastRow(s - {x});
      assert forall w | w in s && w != x :: w in s - {x};
      z := if Before(x, y) then y else x;
    }
  }

  lemma {:induction false} TopSize(s: set<Item>, k: nat)
    ensures |Top(s, k)| == Min(|s|, k)
    decreases |s|
  {
    if s != {} {
      var z := LastRow(s);
      var rest := s - {z};
      TopSize(rest, k);
      assert Preds(s, z) == rest;
      forall x | x in rest
        ensures Preds(s, x) == Preds(rest, x)
      {
        assert Before(x, z) && !Before(z, x);
      }
      assert Top(s, k) == Top(rest, k) + if |rest| < k then {z} else {};
    }
  }

  /** A selected row precedes every row that was not selected. */
  lemma SelectedFirst(s: set<Item>, k: int, t: Item, y: Item)
    requires t in Top(s, k) && y in s && y !in Top(s, k)
    ensures Before(t, y)
  {
    if Before(y, t) {
      assert Preds(s, y) <= Preds(s, t);
      SubsetSize(Preds(s, y), Preds(s, t));
    }
  }

  /**
   * Dropping rows that an earlier selection already rejected does not change any later
   * selection, whatever rows `b` arrived in between.
   */
  lemma Absorb(s: set<Item>, t: set<Item>, b: set<Item>, k: int)
    requires Top(s, k) <= t <= s
    ensures Top(t + b, k) == Top(s + b, k)
  {
    if k >= 0 {
      forall x | x in s + b
        ensures x in Top(t + b, k) <==> x in Top(s + b, k)
      {
        AbsorbOne(s, t, b, k, x);
      }
    }
  }

  lemma AbsorbOne(s: set<Item>, t: set<Item>, b: set<Item>, k: nat, x: Item)
    requires Top(s, k) <= t <= s
    requires x in s + b
    ensures x in Top(t + b, k) <==> x in Top(s + b, k)
  {
    var few, all := Preds(t + b, x), Preds(s + b, x);
    assert few <= all;
    SubsetSize(few, all);
    if x in s {
      SubsetSize(Preds(s, x), all);
    }
    if few != all {
      var y :| y in all && y !in few;
      forall r | r in Top(s, k)
        ensures r in few
      {
        SelectedFirst(s, k, r, y);
      }
      SubsetSize(Top(s, k), few);
      SubsetSize(Preds(s, y), s);
      TopSize(s, k);
    }
  }
}
