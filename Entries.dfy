/** Every list the dashboard keeps (trips, meetings, links, leads, contracts,
    master data) holds objects `{ id, ...data }`. The three ways the screens
    rebuild such a list are defined once here: replace by id (`list.map`),
    delete by id (`list.filter`) and append with a fresh id (`[...list, x]`). */
module Entries {
  import opened Common

  datatype Entry<T> = Entry(id: string, data: T)

  ghost function Ids<T>(xs: seq<Entry<T>>): set<string> {
    set i | 0 <= i < |xs| :: xs[i].id
  }

  /** No two entries of the list share an id. */
  ghost predicate UniqueIds<T>(xs: seq<Entry<T>>) {
    forall i, j :: 0 <= i < j < |xs| ==> xs[i].id != xs[j].id
  }

  /** `xs.map(e => e.id === id ? { ...f(e), id } : e)`. */
  function Update<T>(xs: seq<Entry<T>>, id: string, f: T -> T): (r: seq<Entry<T>>)
    ensures |r| == |xs|
    ensures forall i :: 0 <= i < |xs| ==> r[i].id == xs[i].id
    ensures forall i :: 0 <= i < |xs| && xs[i].id != id ==> r[i] == xs[i]
    ensures forall i :: 0 <= i < |xs| && xs[i].id == id ==> r[i].data == f(xs[i].data)
  {
    if xs == [] then []
    else
      var head := if xs[0].id == id then Entry(id, f(xs[0].data)) else xs[0];
      [head] + Update(xs[1..], id, f)
  }

  /** `xs.filter(e => !ids.has(e.id))`: drops exactly the entries whose id is in
      `ids` and keeps the rest in order. */
  function Without<T(==,!new)>(xs: seq<Entry<T>>, ids: set<string>): (r: seq<Entry<T>>)
    ensures SubSeq(r, xs)
    ensures forall e :: e in r <==> e in xs && e.id !in ids
    ensures Ids(r) == Ids(xs) - ids
  {
    KeepShape(xs, Outside(ids));
    Keep(xs, Outside(ids))
  }

  /** The filter test of `Without`. */
  function Outside<T>(ids: set<string>): Entry<T> -> bool {
    (e: Entry<T>) => e.id !in ids
  }

  /** Deleting ids no entry carries changes nothing. */
  lemma WithoutNone<T(!new)>(xs: seq<Entry<T>>, ids: set<string>)
    requires Ids(xs) !! ids
    ensures Without(xs, ids) == xs
  {
    forall e | e in xs ensures Outside<T>(ids)(e) {
      var i :| 0 <= i < |xs| && xs[i] == e;
      assert xs[i].id in Ids(xs);
    }
    KeepAll(xs, Outside<T>(ids));
  }

  /** Deleting by id after appending an entry with a deleted id is deleting
      from the original list. */
  lemma WithoutAppended<T(!new)>(xs: seq<Entry<T>>, e: Entry<T>, ids: set<string>)
    requires e.id in ids
    ensures Without(xs + [e], ids) == Without(xs, ids)
  {
    KeepSnoc(xs, e, Outside<T>(ids));
  }

  /** Replacing by id keeps the id of every entry, hence id uniqueness. */
  lemma UpdateKeepsIds<T>(xs: seq<Entry<T>>, id: string, f: T -> T)
    ensures Ids(Update(xs, id, f)) == Ids(xs)
    ensures UniqueIds(xs) ==> UniqueIds(Update(xs, id, f))
  {
    var r := Update(xs, id, f);
    forall k | k in Ids(xs) ensures k in Ids(r) {
      var i :| 0 <= i < |xs| && xs[i].id == k;
      assert r[i] in r;
    }
  }

  /** Appending an entry whose id is fresh keeps ids unique. */
  lemma AppendFresh<T>(xs: seq<Entry<T>>, e: Entry<T>)
    requires UniqueIds(xs) && e.id !in Ids(xs)
    ensures UniqueIds(xs + [e]) && Ids(xs + [e]) == Ids(xs) + {e.id}
  {
    var r := xs + [e];
    forall i, j | 0 <= i < j < |r| ensures r[i].id != r[j].id {
      if j == |xs| {
        assert r[i].id in Ids(xs);
      }
    }
    assert r[|xs|].id == e.id;
    forall k | k in Ids(xs) ensures k in Ids(r) {
      var i :| 0 <= i < |xs| && xs[i].id == k;
      assert r[i] == xs[i];
    }
  }

  /** Deleting keeps ids unique. */
  lemma {:induction false} WithoutKeepsUnique<T(!new)>(xs: seq<Entry<T>>, ids: set<string>)
    requires UniqueIds(xs)
    ensures UniqueIds(Without(xs, ids))
  {
    if xs != [] {
      WithoutKeepsUnique(xs[1..], ids);
      var rest := Without(xs[1..], ids);
      assert Keep(xs, Outside<T>(ids)) == (if xs[0].id !in ids then [xs[0]] + rest else rest);
      if xs[0].id !in ids {
        var r := [xs[0]] + rest;
        forall i, j | 0 <= i < j < |r| ensures r[i].id != r[j].id {
          if i == 0 {
            assert r[j] in rest;
            assert r[j] in xs[1..];
          }
        }
      }
    }
  }
}
