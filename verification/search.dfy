/** The list mechanics the CRUD pages repeat: `Array.filter` (kept in
    order), `filter(...).length` counts, and the case-insensitive search box
    that keeps a row when any of a page's fields contains the term. */
module Search {
  import opened Common
  import opened Text

  /** `a` is `b` with some elements left out, the rest in their order. */
  ghost predicate Subseq<T>(a: seq<T>, b: seq<T>)
    decreases |b|
  {
    if |a| == 0 then true
    else if |b| == 0 then false
    else (a[0] == b[0] && Subseq(a[1..], b[1..])) || Subseq(a, b[1..])
  }

  /** `s.filter(p).length`. */
  function Count<T>(s: seq<T>, p: T -> bool): (n: nat)
    ensures n <= |s|
  {
    if |s| == 0 then 0 else (if p(s[0]) then 1 else 0) + Count(s[1..], p)
  }

  /** `s.filter(p)`. */
  function Filter<T>(s: seq<T>, p: T -> bool): (r: seq<T>)
    ensures |r| == Count(s, p)
    ensures forall x :: x in r ==> x in s && p(x)
    ensures forall x :: x in s && p(x) ==> x in r
    ensures Subseq(r, s)
  {
    if |s| == 0 then []
    else if p(s[0]) then [s[0]] + Filter(s[1..], p)
    else Filter(s[1..], p)
  }

  /** A filter that every element passes returns its input. */
  lemma {:induction false} FilterKeepsAll<T>(s: seq<T>, p: T -> bool)
    requires forall x :: x in s ==> p(x)
    ensures Filter(s, p) == s
    ensures Count(s, p) == |s|
  {
    if |s| > 0 {
      assert s[0] in s;
      assert forall x :: x in s[1..] ==> x in s;
      FilterKeepsAll(s[1..], p);
      assert [s[0]] + s[1..] == s;
    }
  }

  /** A filter keeps any property that holds of every ordered pair of the
      input: what is kept apart stays apart. */
  lemma {:induction false} FilterKeepsPairwise<T>(s: seq<T>, p: T -> bool, apart: (T, T) -> bool)
    requires forall i, j :: 0 <= i < j < |s| ==> apart(s[i], s[j])
    ensures forall i, j :: 0 <= i < j < |Filter(s, p)| ==> apart(Filter(s, p)[i], Filter(s, p)[j])
  {
    if |s| > 0 {
      var rest := s[1..];
      FilterKeepsPairwise(rest, p, apart);
      var fr := Filter(rest, p);
      if p(s[0]) {
        var r := [s[0]] + fr;
        assert Filter(s, p) == r;
        forall i, j | 0 <= i < j < |r|
          ensures apart(r[i], r[j])
        {
          if i == 0 {
            assert r[j] == fr[j - 1] && fr[j - 1] in rest;
            var k :| 0 <= k < |rest| && rest[k] == fr[j - 1];
            assert s[k + 1] == rest[k];
          } else {
            assert r[i] == fr[i - 1] && r[j] == fr[j - 1];
          }
        }
      }
    }
  }

  /** Counting under a predicate and under its negation splits the list. */
  lemma {:induction false} CountSplit<T>(s: seq<T>, p: T -> bool, q: T -> bool)
    requires forall x :: q(x) == !p(x)
    ensures Count(s, p) + Count(s, q) == |s|
  {
    if |s| > 0 {
      CountSplit(s[1..], p, q);
    }
  }

  /** Counts of two predicates that never hold together add up to at most
      the length. */
  lemma {:induction false} CountDisjoint<T>(s: seq<T>, p: T -> bool, q: T -> bool)
    requires forall x :: !(p(x) && q(x))
    ensures Count(s, p) + Count(s, q) <= |s|
  {
    if |s| > 0 {
      CountDisjoint(s[1..], p, q);
    }
  }

  /** Counting over a concatenation. */
  lemma {:induction false} CountAppend<T>(a: seq<T>, b: seq<T>, p: T -> bool)
    ensures Count(a + b, p) == Count(a, p) + Count(b, p)
  {
    if |a| == 0 {
      assert a + b == b;
    } else {
      assert (a + b)[1..] == a[1..] + b;
      CountAppend(a[1..], b, p);
    }
  }

  /** Two predicates that agree everywhere count the same elements. */
  lemma {:induction false} CountExt<T>(s: seq<T>, p: T -> bool, q: T -> bool)
    requires forall x :: p(x) == q(x)
    ensures Count(s, p) == Count(s, q)
  {
    if |s| > 0 {
      CountExt(s[1..], p, q);
    }
  }

  /** One field's test: `(field || '').toLowerCase().includes(term.toLowerCase())`. */
  predicate FieldHit(term: string, field: Option<string>) {
    Contains(Lower(OrEmpty(field)), Lower(term))
  }

  /** A row matches when any of its search fields contains the term. */
  function Matches(term: string, fields: seq<Option<string>>): (r: bool)
    ensures r <==> exists i :: 0 <= i < |fields| && FieldHit(term, fields[i])
    ensures r <==> exists f :: f in fields && FieldHit(term, f)
  {
    if |fields| == 0 then false
    else FieldHit(term, fields[0]) || Matches(term, fields[1..])
  }

  /** The search box every list page puts in front of its rows: an empty
      term returns the rows untouched, any other term keeps, in order,
      exactly the rows one of whose fields contains it. */
  function SearchList<T>(items: seq<T>, term: string, fieldsOf: T -> seq<Option<string>>): (r: seq<T>)
    ensures term == "" ==> r == items
    ensures term != "" ==> forall x :: x in r ==> x in items && Matches(term, fieldsOf(x))
    ensures forall x :: x in items && Matches(term, fieldsOf(x)) ==> x in r
    ensures term != "" ==> |r| == Count(items, (x: T) => Matches(term, fieldsOf(x)))
    ensures Subseq(r, items)
  {
    if term == "" then
      SubseqRefl(items);
      items
    else Filter(items, x => Matches(term, fieldsOf(x)))
  }

  /** A page's own hit test, when it agrees with `Matches` on its fields,
      counts the rows the search keeps. */
  lemma SearchCount<T>(items: seq<T>, term: string, fieldsOf: T -> seq<Option<string>>, hit: T -> bool)
    requires forall x :: hit(x) == Matches(term, fieldsOf(x))
    ensures term != "" ==> |SearchList(items, term, fieldsOf)| == Count(items, hit)
  {
    CountExt(items, (x: T) => Matches(term, fieldsOf(x)), hit);
  }

  /** A search every row matches returns the rows unchanged. */
  lemma SearchKeepsAll<T>(items: seq<T>, term: string, fieldsOf: T -> seq<Option<string>>)
    requires forall x :: x in items ==> Matches(term, fieldsOf(x))
    ensures SearchList(items, term, fieldsOf) == items
  {
    if term != "" {
      FilterKeepsAll(items, x => Matches(term, fieldsOf(x)));
    }
  }

  lemma {:induction false} SubseqRefl<T>(s: seq<T>)
    ensures Subseq(s, s)
    decreases |s|
  {
    if |s| > 0 {
      SubseqRefl(s[1..]);
    }
  }

  /** The empty term hits every field, so the early return for an empty
      search is only a shortcut: filtering with "" would keep every row of
      a page that searches at least one field. */
  lemma EmptyTermMatchesAll(fields: seq<Option<string>>)
    requires |fields| > 0
    ensures Matches("", fields)
  {
    ContainsEmpty(Lower(OrEmpty(fields[0])));
    assert Lower("") == "";
    assert FieldHit("", fields[0]);
  }

  /** The search ignores the case of the term. */
  lemma MatchesIgnoresTermCase(term: string, fields: seq<Option<string>>)
    ensures Matches(Lower(term), fields) == Matches(term, fields)
  {
    LowerIdempotent(term);
    assert forall f :: FieldHit(Lower(term), f) == FieldHit(term, f);
  }

  /** A field holding the term itself, in any letter case, is a hit. */
  lemma FieldHitSelf(term: string)
    ensures FieldHit(term, Some(term))
  {
    ContainsSelf(Lower(term));
  }

  /** A missing field only matches the empty term. */
  lemma MissingFieldHit(term: string)
    ensures FieldHit(term, None) <==> term == ""
  {
    if FieldHit(term, None) {
      var i :| OccursAt(Lower(""), Lower(term), i);
    } else {
      assert term != "" by {
        if term == "" {
          ContainsEmpty(Lower(""));
        }
      }
    }
  }
}
