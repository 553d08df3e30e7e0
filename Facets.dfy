/** The list screens for leads and contracts share one way of narrowing a
    list. Each screen keeps a map from field names to chosen values, and a
    row is shown when every chosen value matches. The empty value means
    "all", and a sentinel value means "the field is empty". Each filter's
    drop-down offers the values present in the rows that the other filters
    let through. The screens also share a set of selected ids and the form
    that saves a draft. */
module Facets {
  import opened Common
  import opened Entries

  type Fields = map<string, string>
  type Row = Entry<Fields>

  /** Which of the two panels of a list screen is showing. */
  datatype View = List | Edit

  /** The drop-down value that stands for "the field is empty". */
  const EmptyValueSentinel: string := "__EMPTY_VALUE__"

  /** `c[key] || ''`: a missing field reads as the empty string. */
  function FieldOf(r: Fields, key: string): string {
    if key in r then r[key] else ""
  }

  /** One `[key, value]` test of the filter's `every`. */
  predicate Matches(r: Fields, key: string, value: string) {
    if value == "" then true
    else if value == EmptyValueSentinel then FieldOf(r, key) == ""
    else FieldOf(r, key) == value
  }

  /** Every filter entry matches. */
  predicate Passes(filters: map<string, string>, r: Fields) {
    forall k :: k in filters ==> Matches(r, k, filters[k])
  }

  /** Every filter entry except the one on `own` matches. */
  predicate PassesOthers(filters: map<string, string>, own: string, r: Fields) {
    forall k :: k in filters && k != own ==> Matches(r, k, filters[k])
  }

  /** The rows the list shows: an order-preserving sub-list of `list`. */
  function Filtered(list: seq<Row>, filters: map<string, string>): (r: seq<Row>)
    ensures SubSeq(r, list)
    ensures forall e :: e in r <==> e in list && Passes(filters, e.data)
  {
    KeepShape(list, (e: Row) => Passes(filters, e.data));
    Keep(list, (e: Row) => Passes(filters, e.data))
  }

  /** The rows a drop-down draws its values from. */
  function Relevant(list: seq<Row>, filters: map<string, string>, own: string): (r: seq<Row>)
    ensures SubSeq(r, list)
    ensures forall e :: e in r <==> e in list && PassesOthers(filters, own, e.data)
  {
    KeepShape(list, (e: Row) => PassesOthers(filters, own, e.data));
    Keep(list, (e: Row) => PassesOthers(filters, own, e.data))
  }

  /** With no filter set, which is the state `resetFilters` leaves, the
      whole list shows. */
  lemma NoFiltersShowsAll(list: seq<Row>)
    ensures Filtered(list, map[]) == list
  {
    KeepAll(list, (e: Row) => Passes(map[], e.data));
  }

  /** A filter set to `''` constrains nothing: it is as if it were absent. */
  lemma BlankFilterIgnored(list: seq<Row>, filters: map<string, string>, key: string)
    ensures Filtered(list, filters[key := ""]) == Filtered(list, filters - {key})
  {
    var f1 := filters[key := ""];
    var f2 := filters - {key};
    forall e | e in list ensures Passes(f1, e.data) == Passes(f2, e.data) {
      if Passes(f2, e.data) {
        forall k | k in f1 ensures Matches(e.data, k, f1[k]) {
          if k != key {
            assert k in f2;
          }
        }
      }
      if Passes(f1, e.data) {
        forall k | k in f2 ensures Matches(e.data, k, f2[k]) {
          assert k in f1 && f1[k] == f2[k];
        }
      }
    }
    KeepCongruent(list, (e: Row) => Passes(f1, e.data), (e: Row) => Passes(f2, e.data));
  }

  /** The sentinel lets through exactly the rows whose field is empty or
      missing; any other non-empty value lets through exactly the rows
      whose field equals it. */
  lemma SingleFilterMeaning(list: seq<Row>, key: string, value: string)
    ensures value == EmptyValueSentinel ==>
      forall e :: e in Filtered(list, map[key := value]) <==> e in list && (key !in e.data || e.data[key] == "")
    ensures value != "" && value != EmptyValueSentinel ==>
      forall e :: e in Filtered(list, map[key := value]) <==> e in list && key in e.data && e.data[key] == value
  {
    var f := map[key := value];
    forall e: Row ensures Passes(f, e.data) <==> Matches(e.data, key, value) {
      assert key in f && f[key] == value;
      if Matches(e.data, key, value) {
        assert forall k :: k in f ==> k == key;
      }
    }
  }

  /** A drop-down's values do not depend on the value chosen in that same
      drop-down: its rows are those of the list with that filter removed. */
  lemma OptionsIgnoreOwnFilter(list: seq<Row>, filters: map<string, string>, own: string, value: string)
    ensures Relevant(list, filters[own := value], own) == Relevant(list, filters, own)
    ensures Relevant(list, filters, own) == Filtered(list, filters - {own})
  {
    var g := filters[own := value];
    forall e | e in list ensures PassesOthers(g, own, e.data) == PassesOthers(filters, own, e.data) {
      if PassesOthers(filters, own, e.data) {
        forall k | k in g && k != own ensures Matches(e.data, k, g[k]) {
          assert k in filters;
        }
      }
      if PassesOthers(g, own, e.data) {
        forall k | k in filters && k != own ensures Matches(e.data, k, filters[k]) {
          assert k in g && g[k] == filters[k];
        }
      }
    }
    KeepCongruent(list, (e: Row) => PassesOthers(g, own, e.data), (e: Row) => PassesOthers(filters, own, e.data));
    var h := filters - {own};
    forall e | e in list ensures PassesOthers(filters, own, e.data) == Passes(h, e.data) {
      if Passes(h, e.data) {
        forall k | k in filters && k != own ensures Matches(e.data, k, filters[k]) {
          assert k in h;
        }
      }
    }
    KeepCongruent(list, (e: Row) => PassesOthers(filters, own, e.data), (e: Row) => Passes(h, e.data));
  }

  /** `rows.map(c => c[key] || '')`. */
  function Values(rows: seq<Row>, key: string): (r: seq<string>)
    ensures |r| == |rows|
    ensures forall i :: 0 <= i < |rows| ==> r[i] == FieldOf(rows[i].data, key)
  {
    seq(|rows|, (i: int) requires 0 <= i < |rows| => FieldOf(rows[i].data, key))
  }

  /** A value is among the mapped values exactly when some row carries it. */
  lemma ValuesMembership(rows: seq<Row>, key: string)
    ensures forall v :: v in Values(rows, key) <==> exists e :: e in rows && FieldOf(e.data, key) == v
  {
    var vals := Values(rows, key);
    forall v ensures v in vals <==> exists e :: e in rows && FieldOf(e.data, key) == v {
      if v in vals {
        var i :| 0 <= i < |vals| && vals[i] == v;
        assert rows[i] in rows;
      }
      if exists e :: e in rows && FieldOf(e.data, key) == v {
        var e :| e in rows && FieldOf(e.data, key) == v;
        var i :| 0 <= i < |rows| && rows[i] == e;
        assert vals[i] == v;
      }
    }
  }

  /** `[...new Set(s)]`: each value once, at its first occurrence. */
  function Distinct(s: seq<string>): (r: seq<string>)
    ensures NoDuplicates(r)
    ensures forall x :: x in r <==> x in s
  {
    if s == [] then []
    else
      var n := |s| - 1;
      var d := Distinct(s[..n]);
      assert forall x :: x in s <==> x in s[..n] || x == s[n];
      if s[n] in d then d
      else
        assert multiset(d + [s[n]]) == multiset(d) + multiset{s[n]};
        d + [s[n]]
  }

  /** The sort comparator: `''` goes before everything, and two non-empty
      values are ordered by `less`, which stands for `localeCompare`. */
  predicate Precedes(a: string, b: string, less: (string, string) -> bool) {
    a == "" || (b != "" && less(a, b))
  }

  /** `less` orders any two different non-empty values one way or the other. */
  ghost predicate Total(less: (string, string) -> bool) {
    forall a, b :: a != "" && b != "" && a != b ==> less(a, b) || less(b, a)
  }

  /** Each value precedes the next. */
  ghost predicate Ordered(s: seq<string>, less: (string, string) -> bool) {
    forall i :: 0 < i < |s| ==> Precedes(s[i - 1], s[i], less)
  }

  function Insert(x: string, s: seq<string>, less: (string, string) -> bool): (r: seq<string>)
    ensures multiset(r) == multiset(s) + multiset{x}
    ensures ("" in s ==> s[0] == "") ==> ("" in r ==> r[0] == "")
  {
    if s == [] || Precedes(x, s[0], less) then [x] + s
    else
      assert s == [s[0]] + s[1..];
      [s[0]] + Insert(x, s[1..], less)
  }

  /** `values.sort(comparator)`: insertion into an ordered list. */
  function SortOptions(s: seq<string>, less: (string, string) -> bool): (r: seq<string>)
    ensures multiset(r) == multiset(s)
    ensures "" in r ==> r[0] == ""
  {
    if s == [] then []
    else
      assert s == [s[0]] + s[1..];
      Insert(s[0], SortOptions(s[1..], less), less)
  }

  /** `filterOptions[key]`. */
  function Options(list: seq<Row>, filters: map<string, string>, key: string, less: (string, string) -> bool): seq<string> {
    SortOptions(Distinct(Values(Relevant(list, filters, key), key)), less)
  }

  lemma {:induction false} InsertOrdered(x: string, s: seq<string>, less: (string, string) -> bool)
    requires Total(less) && Ordered(s, less) && x !in s
    ensures Ordered(Insert(x, s, less), less)
  {
    if s != [] && !Precedes(x, s[0], less) {
      assert x != s[0];
      assert Precedes(s[0], x, less);
      InsertOrdered(x, s[1..], less);
      var t := Insert(x, s[1..], less);
      assert t[0] == x || t[0] == s[1] by {
        if s[1..] != [] && !Precedes(x, s[1], less) {
          assert s[1..] == [s[1]] + s[2..];
        }
      }
    }
  }

  lemma {:induction false} SortOrdered(s: seq<string>, less: (string, string) -> bool)
    requires Total(less) && NoDuplicates(s)
    ensures Ordered(SortOptions(s, less), less)
  {
    if s != [] {
      assert s == [s[0]] + s[1..];
      assert multiset(s) == multiset{s[0]} + multiset(s[1..]);
      assert NoDuplicates(s[1..]) by {
        forall y ensures multiset(s[1..])[y] <= 1 {
          assert multiset(s[1..])[y] <= multiset(s)[y];
        }
      }
      SortOrdered(s[1..], less);
      assert s[0] !in SortOptions(s[1..], less) by {
        assert multiset(s)[s[0]] == 1 + multiset(s[1..])[s[0]];
        assert multiset(SortOptions(s[1..], less))[s[0]] == 0;
      }
      InsertOrdered(s[0], SortOptions(s[1..], less), less);
    }
  }

  /** A drop-down lists each value of its field once, in the rows the other
      filters let through, and no other value; `''` is listed exactly when
      one of those rows has the field empty, and then first; and under a
      total `localeCompare` the values are in order. */
  lemma OptionsShape(list: seq<Row>, filters: map<string, string>, key: string, less: (string, string) -> bool)
    ensures NoDuplicates(Options(list, filters, key, less))
    ensures forall v :: v in Options(list, filters, key, less) <==>
      exists e :: e in Relevant(list, filters, key) && FieldOf(e.data, key) == v
    ensures "" in Options(list, filters, key, less) ==> Options(list, filters, key, less)[0] == ""
    ensures Total(less) ==> Ordered(Options(list, filters, key, less), less)
  {
    var rel := Relevant(list, filters, key);
    var vals := Values(rel, key);
    var d := Distinct(vals);
    var r := Options(list, filters, key, less);
    assert multiset(r) == multiset(d);
    ValuesMembership(rel, key);
    forall v ensures v in r <==> v in vals {
      assert v in r <==> v in multiset(d);
    }
    if Total(less) {
      SortOrdered(d, less);
    }
  }

  /** The `forEach` over the filter keys that fills the options object. */
  method BuildOptions(list: seq<Row>, filters: map<string, string>, filterKeys: seq<string>, less: (string, string) -> bool)
    returns (options: map<string, seq<string>>)
    ensures forall k :: k in options <==> k in filterKeys
    ensures forall k :: k in options ==> options[k] == Options(list, filters, k, less)
  {
    options := map[];
    var i := 0;
    while i < |filterKeys|
      invariant 0 <= i <= |filterKeys|
      invariant forall k :: k in options <==> k in filterKeys[..i]
      invariant forall k :: k in options ==> options[k] == Options(list, filters, k, less)
    {
      assert forall k :: k in filterKeys[..i + 1] <==> k in filterKeys[..i] || k == filterKeys[i];
      var relevantData := Relevant(list, filters, filterKeys[i]);
      var uniqueValues := Distinct(Values(relevantData, filterKeys[i]));
      options := options[filterKeys[i] := SortOptions(uniqueValues, less)];
      i := i + 1;
    }
    assert filterKeys[..|filterKeys|] == filterKeys;
  }

  /** `handleSelect`: the copy of the selection with `id` added when it was
      absent and removed when it was present. */
  function Toggle(selected: set<string>, id: string): (r: set<string>)
    ensures id in r <==> id !in selected
    ensures forall x :: x != id ==> (x in r <==> x in selected)
  {
    if id in selected then selected - {id} else selected + {id}
  }

  /** Toggling the same id twice restores the selection. */
  lemma ToggleTwice(selected: set<string>, id: string)
    ensures Toggle(Toggle(selected, id), id) == selected
  {
  }

  /** `new Set(rows.map(c => c.id))`. */
  function IdSet(rows: seq<Row>): (r: set<string>)
    ensures r == Ids(rows)
  {
    set e | e in rows :: e.id
  }

  /** Selecting all and then deleting the selection removes exactly the rows
      shown, provided ids are unique: otherwise a hidden row sharing an id
      with a shown one would go too. */
  lemma SelectAllDeletesShown(list: seq<Row>, filters: map<string, string>)
    requires UniqueIds(list)
    ensures forall e :: e in Without(list, IdSet(Filtered(list, filters))) <==> e in list && !Passes(filters, e.data)
  {
    var shown := Filtered(list, filters);
    forall e | e in list ensures e.id in IdSet(shown) <==> Passes(filters, e.data) {
      if e.id in IdSet(shown) {
        var d :| d in shown && d.id == e.id;
        var i :| 0 <= i < |list| && list[i] == e;
        var j :| 0 <= j < |list| && list[j] == d;
        assert i == j;
      }
    }
  }

  /** `handleSubmit` past its guard: an edit replaces the data of the rows with
      the edited id and keeps that id; an add appends the draft under a
      fresh id. */
  function Saved(list: seq<Row>, draft: Fields, editingId: Option<string>, freshId: string): (r: seq<Row>)
    ensures Truthy(editingId) ==> |r| == |list|
    ensures Truthy(editingId) ==> forall i :: 0 <= i < |list| ==>
      r[i] == (if list[i].id == editingId.value then Entry(editingId.value, draft) else list[i])
    ensures !Truthy(editingId) ==> |r| == |list| + 1 && r[..|list|] == list && r[|list|] == Entry(freshId, draft)
  {
    if Truthy(editingId) then Update(list, editingId.value, (_: Fields) => draft)
    else list + [Entry(freshId, draft)]
  }

  /** Saving keeps ids unique when the id given to an added row is fresh. */
  lemma SavedKeepsUnique(list: seq<Row>, draft: Fields, editingId: Option<string>, freshId: string)
    requires UniqueIds(list) && freshId !in Ids(list)
    ensures UniqueIds(Saved(list, draft, editingId, freshId))
  {
    if Truthy(editingId) {
      UpdateKeepsIds(list, editingId.value, (_: Fields) => draft);
    } else {
      AppendFresh(list, Entry(freshId, draft));
    }
  }

  /** The blank draft of the add form: every form field set to `''`. */
  function BlankDraft(keys: seq<string>): (r: Fields)
    ensures forall k :: k in r <==> k in keys
    ensures forall k :: k in r ==> r[k] == ""
  {
    map k | k in keys :: ""
  }
}
