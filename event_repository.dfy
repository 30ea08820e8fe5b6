/** The catalog's table (`EventRepository`): the filtered listing query, plus
    `findById` and `save` through the keyed-table operations. */
module EventRepository {
  import opened Common
  import opened EventModel
  import opened Keyed

  /** The primary key of an event row. */
  function Key(e: Event): Uuid
  {
    e.id
  }

  /** The WHERE clause of `getEvents`: each filter that is null imposes nothing;
      a search text matches when it occurs in the title. */
  predicate Matches(e: Event, organizerID: Option<Uuid>, categoryID: Option<Uuid>, search: Option<string>)
  {
    && (organizerID.None? || e.organizerID == organizerID.value)
    && (categoryID.None? || e.categoryID == categoryID.value)
    && (search.None? || Contains(e.title, search.value))
  }

  /** The search looks at the title only: the description never decides. */
  lemma SearchIgnoresDescription(e: Event, d: string, organizerID: Option<Uuid>, categoryID: Option<Uuid>,
                                 search: Option<string>)
    ensures Matches(e.(description := d), organizerID, categoryID, search) == Matches(e, organizerID, categoryID, search)
  {
  }

  /** The rows the WHERE clause keeps, in table order. */
  function Filter(rows: seq<Event>, organizerID: Option<Uuid>, categoryID: Option<Uuid>, search: Option<string>)
    : (r: seq<Event>)
    ensures forall e :: e in r <==> e in rows && Matches(e, organizerID, categoryID, search)
  {
    if rows == [] then []
    else
      var rest := Filter(rows[1..], organizerID, categoryID, search);
      assert rows == [rows[0]] + rows[1..];
      if Matches(rows[0], organizerID, categoryID, search) then [rows[0]] + rest else rest
  }

  /** The query never returns two rows with the same id. */
  lemma {:induction false} FilterKeepsUniqueKeys(rows: seq<Event>, organizerID: Option<Uuid>, categoryID: Option<Uuid>,
                                                search: Option<string>)
    requires UniqueKeys(rows, Key)
    ensures UniqueKeys(Filter(rows, organizerID, categoryID, search), Key)
  {
    if rows != [] {
      assert UniqueKeys(rows[1..], Key) by {
        forall i, j | 0 <= i < |rows| - 1 && 0 <= j < |rows| - 1 && rows[1..][i].id == rows[1..][j].id
          ensures i == j
        {
          assert rows[i + 1].id == rows[j + 1].id;
        }
      }
      FilterKeepsUniqueKeys(rows[1..], organizerID, categoryID, search);
      var rest := Filter(rows[1..], organizerID, categoryID, search);
      if Matches(rows[0], organizerID, categoryID, search) {
        var r := [rows[0]] + rest;
        forall k | 0 <= k < |rest| ensures rest[k].id != rows[0].id {
          assert rest[k] in rest;
          var m :| 0 <= m < |rows[1..]| && rows[1..][m] == rest[k];
          assert rows[m + 1] == rest[k];
        }
        forall i, j | 0 <= i < |r| && 0 <= j < |r| && r[i].id == r[j].id ensures i == j {
          if i > 0 && j > 0 {
            assert r[i] == rest[i - 1] && r[j] == rest[j - 1];
          }
        }
        assert Filter(rows, organizerID, categoryID, search) == r;
      }
    }
  }

  /** `ORDER BY e.startDateTime DESC`: the latest start first. */
  ghost predicate LatestFirst(s: seq<Event>)
  {
    forall i, j :: 0 <= i < j < |s| ==> s[i].startDateTime >= s[j].startDateTime
  }

  /** An event starting no earlier than the head of a newest-first list can go in front. */
  lemma PrependLatest(h: Event, rest: seq<Event>)
    requires LatestFirst(rest) && (rest != [] ==> h.startDateTime >= rest[0].startDateTime)
    ensures LatestFirst([h] + rest)
  {
    var r := [h] + rest;
    forall i, j | 0 <= i < j < |r| ensures r[i].startDateTime >= r[j].startDateTime {
      if i == 0 {
        assert rest[0].startDateTime >= rest[j - 1].startDateTime;
      } else {
        assert r[i] == rest[i - 1] && r[j] == rest[j - 1];
      }
    }
  }

  lemma LatestFirstTail(s: seq<Event>)
    requires s != [] && LatestFirst(s)
    ensures LatestFirst(s[1..])
  {
    forall i, j | 0 <= i < j < |s| - 1 ensures s[1..][i].startDateTime >= s[1..][j].startDateTime {
      assert s[1..][i] == s[i + 1] && s[1..][j] == s[j + 1];
    }
  }

  /** Puts `x` in front of the first event that does not start after it. */
  function Insert(x: Event, s: seq<Event>): (r: seq<Event>)
    ensures multiset(r) == multiset(s) + multiset{x}
    ensures |r| == |s| + 1 && (r[0] == x || (s != [] && r[0] == s[0]))
  {
    if s == [] then [x]
    else if x.startDateTime >= s[0].startDateTime then [x] + s
    else
      assert s == [s[0]] + s[1..];
      [s[0]] + Insert(x, s[1..])
  }

  /** Inserting into a newest-first list keeps it newest-first. */
  lemma {:induction false} InsertKeepsOrder(x: Event, s: seq<Event>)
    requires LatestFirst(s)
    ensures LatestFirst(Insert(x, s))
  {
    if s != [] && x.startDateTime < s[0].startDateTime {
      LatestFirstTail(s);
      InsertKeepsOrder(x, s[1..]);
      var rest := Insert(x, s[1..]);
      assert s[0].startDateTime >= rest[0].startDateTime by {
        if rest[0] != x { assert rest[0] == s[1]; }
      }
      PrependLatest(s[0], rest);
    } else {
      PrependLatest(x, s);
    }
  }

  /** Orders events latest start first, keeping every row. */
  function SortLatestFirst(s: seq<Event>): (r: seq<Event>)
    ensures LatestFirst(r)
    ensures multiset(r) == multiset(s)
  {
    if s == [] then []
    else
      assert s == [s[0]] + s[1..];
      var sorted := SortLatestFirst(s[1..]);
      InsertKeepsOrder(s[0], sorted);
      Insert(s[0], sorted)
  }


  /** An element that occurs twice in `a` sits at two indices. */
  lemma TwoOccurrences<T>(a: seq<T>, x: T) returns (k: nat, m: nat)
    requires multiset(a)[x] >= 2
    ensures k < |a| && m < |a| && k != m && a[k] == x && a[m] == x
  {
    assert x in multiset(a);
    k :| 0 <= k < |a| && a[k] == x;
    assert a == a[..k] + [x] + a[k + 1..];
    assert x in multiset(a[..k] + a[k + 1..]);
    var n :| 0 <= n < |a[..k] + a[k + 1..]| && (a[..k] + a[k + 1..])[n] == x;
    m := if n < k then n else n + 1;
  }

  /** Reordering rows keeps their keys unique. */
  lemma PermutationKeepsUniqueKeys<T>(a: seq<T>, b: seq<T>, key: T -> Uuid)
    requires multiset(a) == multiset(b) && UniqueKeys(a, key)
    ensures UniqueKeys(b, key)
  {
    forall i, j | 0 <= i < |b| && 0 <= j < |b| && key(b[i]) == key(b[j]) ensures i == j {
      if i != j {
        var p := if i < j then i else j;
        var q := if i < j then j else i;
        assert b[p] in multiset(a) && b[q] in multiset(a);
        if b[p] == b[q] {
          assert b == b[..q] + [b[q]] + b[q + 1..];
          assert b[..q][p] == b[q];
          var k, m := TwoOccurrences(a, b[q]);
        }
      }
    }
  }

  /** `getEvents(organizerID, categoryID, search)`: exactly the matching rows,
      each once, the latest start first. */
  function GetEvents(rows: seq<Event>, organizerID: Option<Uuid>, categoryID: Option<Uuid>, search: Option<string>)
    : (r: seq<Event>)
    ensures forall e :: e in r <==> e in rows && Matches(e, organizerID, categoryID, search)
    ensures multiset(r) == multiset(Filter(rows, organizerID, categoryID, search))
    ensures LatestFirst(r)
    ensures UniqueKeys(rows, Key) ==> UniqueKeys(r, Key)
  {
    var kept := Filter(rows, organizerID, categoryID, search);
    var r := SortLatestFirst(kept);
    assert forall e :: e in r <==> e in multiset(kept);
    assert UniqueKeys(rows, Key) ==> UniqueKeys(r, Key) by {
      if UniqueKeys(rows, Key) {
        FilterKeepsUniqueKeys(rows, organizerID, categoryID, search);
        PermutationKeepsUniqueKeys(kept, r, Key);
      }
    }
    r
  }

  /** With no filter at all the listing holds the whole table. */
  lemma UnfilteredListsEverything(rows: seq<Event>)
    ensures multiset(GetEvents(rows, None, None, None)) == multiset(rows)
  {
    FilterAll(rows);
  }

  lemma {:induction false} FilterAll(rows: seq<Event>)
    ensures Filter(rows, None, None, None) == rows
  {
    if rows != [] {
      FilterAll(rows[1..]);
      assert Matches(rows[0], None, None, None);
      assert Filter(rows, None, None, None) == [rows[0]] + Filter(rows[1..], None, None, None);
      assert rows == [rows[0]] + rows[1..];
    }
  }

  /** The catalog table. */
  class EventDb {
    var rows: seq<Event>

    ghost predicate Valid()
      reads this
    {
      UniqueKeys(rows, Key)
    }

    constructor ()
      ensures Valid() && rows == []
    {
      rows := [];
    }

    /** `eventRepository.save(event)`. */
    method Save(e: Event)
      requires Valid()
      modifies this
      ensures Valid()
      ensures rows == Upsert(old(rows), Key, e)
    {
      rows := Upsert(rows, Key, e);
    }
  }
}
