/** A table of rows identified by a primary key, as a JPA repository keeps
    them: `findById` and `save` (replace the row with the same key, or insert). */
module Keyed {
  import opened Common

  ghost predicate UniqueKeys<T>(rows: seq<T>, key: T -> Uuid)
  {
    forall i, j :: 0 <= i < |rows| && 0 <= j < |rows| && key(rows[i]) == key(rows[j]) ==> i == j
  }

  function Keys<T>(rows: seq<T>, key: T -> Uuid): set<Uuid>
  {
    set i | 0 <= i < |rows| :: key(rows[i])
  }

  /** `findById`. */
  function FindKey<T>(rows: seq<T>, key: T -> Uuid, id: Uuid): (r: Option<T>)
    ensures r.Some? <==> id in Keys(rows, key)
    ensures r.Some? ==> r.value in rows && key(r.value) == id
    ensures UniqueKeys(rows, key) ==>
      forall i :: 0 <= i < |rows| && key(rows[i]) == id ==> r == Some(rows[i])
  {
    if rows == [] then None
    else if key(rows[0]) == id then Some(rows[0])
    else
      var r := FindKey(rows[1..], key, id);
      assert Keys(rows, key) == {key(rows[0])} + Keys(rows[1..], key) by {
        forall x | x in Keys(rows, key) ensures x in {key(rows[0])} + Keys(rows[1..], key) {
          var i :| 0 <= i < |rows| && key(rows[i]) == x;
          if i > 0 { assert key(rows[1..][i - 1]) == x; }
        }
      }
      r
  }

  /** `save`. */
  function Upsert<T>(rows: seq<T>, key: T -> Uuid, x: T): (r: seq<T>)
    ensures key(x) !in Keys(rows, key) ==> r == rows + [x]
    ensures forall k :: 0 <= k < |rows| && key(rows[k]) == key(x) && UniqueKeys(rows, key) ==> r == rows[k := x]
    ensures UniqueKeys(rows, key) ==> UniqueKeys(r, key)
    ensures Keys(r, key) == Keys(rows, key) + {key(x)}
  {
    if key(x) in Keys(rows, key) then
      var r := seq(|rows|, k requires 0 <= k < |rows| => if key(rows[k]) == key(x) then x else rows[k]);
      var i :| 0 <= i < |rows| && key(rows[i]) == key(x);
      assert key(r[i]) == key(x);
      assert Keys(r, key) == Keys(rows, key) by {
        forall y | y in Keys(rows, key) ensures y in Keys(r, key) {
          var j :| 0 <= j < |rows| && key(rows[j]) == y;
          assert key(r[j]) == y;
        }
      }
      r
    else
      var r := rows + [x];
      assert key(r[|rows|]) == key(x);
      assert forall i | 0 <= i < |rows| :: key(r[i]) in Keys(rows, key);
      assert Keys(r, key) == Keys(rows, key) + {key(x)} by {
        forall y | y in Keys(rows, key) ensures y in Keys(r, key) {
          var j :| 0 <= j < |rows| && key(rows[j]) == y;
          assert key(r[j]) == y;
        }
      }
      r
  }
}
