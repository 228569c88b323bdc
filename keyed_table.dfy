/** A table keyed by an auto-increment integer, as both backend tables are
    (gestion_conge_back/routes/leaves.js, gestion_conge_back/routes/users.js),
    and the `SELECT * ... WHERE` scan their routes share. `key` reads a
    row's own `id` column. */
module KeyedTable {

  /** Keys are positive, below the next auto-increment id, and each row
      carries its own key. */
  ghost predicate Keyed<T>(rows: map<int, T>, nextId: int, key: T -> int) {
    && 1 <= nextId
    && forall id :: id in rows ==> 1 <= id < nextId && key(rows[id]) == id
  }

  /** `SELECT * FROM table WHERE p`, in primary-key order. */
  method SelectWhere<T(==)>(rows: map<int, T>, nextId: int, key: T -> int, p: T -> bool) returns (rs: seq<T>)
    requires Keyed(rows, nextId, key)
    ensures forall i :: 0 <= i < |rs| ==> key(rs[i]) in rows && rows[key(rs[i])] == rs[i] && p(rs[i])
    ensures forall id :: id in rows && p(rows[id]) ==> rows[id] in rs
    ensures forall i, j :: 0 <= i < j < |rs| ==> key(rs[i]) < key(rs[j])
  {
    rs := [];
    var k := 1;
    while k < nextId
      invariant 1 <= k <= nextId
      invariant forall i :: 0 <= i < |rs| ==> key(rs[i]) in rows && rows[key(rs[i])] == rs[i] && p(rs[i]) && key(rs[i]) < k
      invariant forall id :: id in rows && id < k && p(rows[id]) ==> rows[id] in rs
      invariant forall i, j :: 0 <= i < j < |rs| ==> key(rs[i]) < key(rs[j])
    {
      if k in rows && p(rows[k]) {
        rs := rs + [rows[k]];
      }
      k := k + 1;
    }
  }

  /** A listing that holds each row of a keyed table, and only those, in
      strictly increasing key order has as many entries as the table. */
  lemma ListingSize<T>(rows: map<int, T>, rs: seq<T>, key: T -> int)
    requires forall i :: 0 <= i < |rs| ==> key(rs[i]) in rows && rows[key(rs[i])] == rs[i]
    requires forall id :: id in rows ==> key(rows[id]) == id && rows[id] in rs
    requires forall i, j :: 0 <= i < j < |rs| ==> key(rs[i]) < key(rs[j])
    ensures |rs| == |rows|
  {
    var ids := set i | 0 <= i < |rs| :: key(rs[i]);
    assert ids == rows.Keys by {
      forall id | id in rows ensures id in ids {
        var i :| 0 <= i < |rs| && rs[i] == rows[id];
      }
    }
    KeysOfListingCount(rs, key);
  }

  /** Strictly increasing keys are pairwise distinct, so there are as many
      keys as entries. */
  lemma {:induction false} KeysOfListingCount<T>(rs: seq<T>, key: T -> int)
    requires forall i, j :: 0 <= i < j < |rs| ==> key(rs[i]) < key(rs[j])
    ensures |set i | 0 <= i < |rs| :: key(rs[i])| == |rs|
    decreases |rs|
  {
    if rs != [] {
      var last := |rs| - 1;
      var front := rs[..last];
      KeysOfListingCount(front, key);
      var ids := set i | 0 <= i < |rs| :: key(rs[i]);
      var frontIds := set i | 0 <= i < |front| :: key(front[i]);
      assert ids == frontIds + {key(rs[last])} by {
        forall x | x in ids ensures x in frontIds + {key(rs[last])} {
          var i :| 0 <= i < |rs| && key(rs[i]) == x;
          if i < last { assert front[i] == rs[i]; }
        }
      }
      assert key(rs[last]) !in frontIds by {
        forall i | 0 <= i < |front| ensures key(front[i]) != key(rs[last]) {
          assert front[i] == rs[i];
        }
      }
    }
  }
}
