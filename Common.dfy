/** Small sequence vocabulary shared by every screen of the dashboard:
    an optional value, JavaScript's truthiness test on an optional string,
    order-preserving filtering (Array.prototype.filter) and joining. */
module Common {

  datatype Option<T> = None | Some(value: T)

  /** `if (x)` on a `string | null`: null and the empty string are falsy. */
  predicate Truthy(o: Option<string>) {
    o.Some? && o.value != ""
  }

  /** `sub` is obtained from `s` by deleting elements, keeping the order of the rest. */
  ghost predicate SubSeq<T(!new)>(sub: seq<T>, s: seq<T>)
    decreases |s|
  {
    sub == [] || (s != [] && ((sub[0] == s[0] && SubSeq(sub[1..], s[1..])) || SubSeq(sub, s[1..])))
  }

  /** No value occurs twice in `s`. */
  ghost predicate NoDuplicates<T(!new)>(s: seq<T>) {
    forall x :: multiset(s)[x] <= 1
  }

  /** `s.filter(p)`: the elements satisfying `p`, in their original order and multiplicity. */
  function Keep<T(==,!new)>(s: seq<T>, p: T -> bool): (r: seq<T>)
    ensures forall x :: x in r <==> x in s && p(x)
  {
    if s == [] then []
    else
      var rest := Keep(s[1..], p);
      assert s == [s[0]] + s[1..];
      if p(s[0]) then [s[0]] + rest else rest
  }

  /** The filter keeps the order of the kept elements and the number of
      times each occurs, and drops every occurrence of the others. */
  lemma {:induction false} KeepShape<T(!new)>(s: seq<T>, p: T -> bool)
    ensures SubSeq(Keep(s, p), s)
    ensures forall x :: multiset(Keep(s, p))[x] == if p(x) then multiset(s)[x] else 0
  {
    if s != [] {
      KeepShape(s[1..], p);
      assert s == [s[0]] + s[1..];
    }
  }

  /** A filter whose predicate holds of every element returns the sequence unchanged. */
  lemma {:induction false} KeepAll<T(!new)>(s: seq<T>, p: T -> bool)
    requires forall x :: x in s ==> p(x)
    ensures Keep(s, p) == s
  {
    if s != [] {
      KeepAll(s[1..], p);
    }
  }

  /** Two predicates that agree on the elements of `s` filter it alike. */
  lemma {:induction false} KeepCongruent<T(!new)>(s: seq<T>, p: T -> bool, q: T -> bool)
    requires forall x :: x in s ==> p(x) == q(x)
    ensures Keep(s, p) == Keep(s, q)
  {
    if s != [] {
      KeepCongruent(s[1..], p, q);
    }
  }

  /** Filtering a sequence with one more element at the end. */
  lemma {:induction false} KeepSnoc<T(!new)>(s: seq<T>, x: T, p: T -> bool)
    ensures Keep(s + [x], p) == Keep(s, p) + (if p(x) then [x] else [])
  {
    if s == [] {
      assert Keep([x], p) == (if p(x) then [x] else []) + Keep([x][1..], p);
    } else {
      var t := s + [x];
      assert t[0] == s[0] && t[1..] == s[1..] + [x];
      KeepSnoc(s[1..], x, p);
      var head: seq<T> := if p(s[0]) then [s[0]] else [];
      var tail: seq<T> := if p(x) then [x] else [];
      assert Keep(t, p) == head + (Keep(s[1..], p) + tail);
      assert Keep(s, p) == head + Keep(s[1..], p);
      assert head + (Keep(s[1..], p) + tail) == (head + Keep(s[1..], p)) + tail;
    }
  }

  /** `parts.join(sep)`. */
  function JoinWith(parts: seq<string>, sep: string): string {
    if |parts| == 0 then ""
    else if |parts| == 1 then parts[0]
    else parts[0] + sep + JoinWith(parts[1..], sep)
  }

  /** Moving the first element of `s` to the end of `a` keeps `a` followed
      by all of `s` but its last element. */
  lemma ShiftFirst<T>(a: seq<T>, s: seq<T>)
    requires |s| >= 2
    ensures (a + [s[0]]) + s[1..][..|s| - 2] == a + s[..|s| - 1]
  {
    assert s[..|s| - 1] == [s[0]] + s[1..][..|s| - 2];
  }
}
