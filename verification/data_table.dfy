/** The shared table component: the sort header's state machine, the
    client-side sort it applies to the rows of the current page, and the
    pagination footer's range label and previous/next buttons. */
module DataTable {
  import opened Common
  import opened Search

  /** JavaScript `<` on two strings: lexicographic by character code, a
      proper prefix coming first. */
  predicate StrLess(a: string, b: string)
    decreases |a|
  {
    if |a| == 0 then |b| > 0
    else if |b| == 0 then false
    else if a[0] != b[0] then a[0] < b[0]
    else StrLess(a[1..], b[1..])
  }

  lemma {:induction false} StrLessIrreflexive(a: string)
    ensures !StrLess(a, a)
  {
    if |a| > 0 {
      StrLessIrreflexive(a[1..]);
    }
  }

  lemma {:induction false} StrLessTransitive(a: string, b: string, c: string)
    requires StrLess(a, b) && StrLess(b, c)
    ensures StrLess(a, c)
    decreases |a|
  {
    if |a| > 0 && a[0] == b[0] && b[0] == c[0] {
      StrLessTransitive(a[1..], b[1..], c[1..]);
    }
  }

  lemma {:induction false} StrLessTotal(a: string, b: string)
    requires a != b
    ensures StrLess(a, b) || StrLess(b, a)
    decreases |a|
  {
    if |a| > 0 && |b| > 0 && a[0] == b[0] {
      assert a == [a[0]] + a[1..] && b == [b[0]] + b[1..];
      StrLessTotal(a[1..], b[1..]);
    }
  }

  datatype Direction = Asc | Desc

  /** The header's sort state; no key means unsorted. */
  datatype SortConfig = SortConfig(key: Option<string>, direction: Direction)

  function InitialSort(): (c: SortConfig)
    ensures c.key.None? && c.direction == Asc
  {
    SortConfig(None, Asc)
  }

  /** A click on a sortable header. An empty key is ignored; the current
      key while ascending turns descending; any other click sorts
      ascending on the clicked key. */
  function HandleSort(c: SortConfig, key: string): (r: SortConfig)
    ensures key == "" ==> r == c
    ensures key != "" ==> r.key == Some(key)
    ensures key != "" ==> (r.direction == Desc <==> c.key == Some(key) && c.direction == Asc)
  {
    if key == "" then c
    else SortConfig(Some(key), if c.key == Some(key) && c.direction == Asc then Desc else Asc)
  }

  /** Clicking the same header cycles ascending, descending, ascending. */
  lemma SortCycle(c: SortConfig, key: string)
    requires key != ""
    ensures HandleSort(HandleSort(c, key), key).key == Some(key)
    ensures HandleSort(HandleSort(c, key), key).direction != HandleSort(c, key).direction
    ensures HandleSort(HandleSort(HandleSort(c, key), key), key) == HandleSort(c, key)
  {
  }

  /** Switching to another header always restarts ascending. */
  lemma OtherKeyRestartsAscending(c: SortConfig, key: string)
    requires key != "" && c.key != Some(key)
    ensures HandleSort(c, key) == SortConfig(Some(key), Asc)
  {
  }

  /** Whether key `a` is ordered strictly before key `b` by the comparator. */
  predicate Before(d: Direction, a: string, b: string) {
    if d == Asc then StrLess(a, b) else StrLess(b, a)
  }

  lemma BeforeIsStrictOrder(d: Direction, a: string, b: string, c: string)
    ensures !Before(d, a, a)
    ensures Before(d, a, b) && Before(d, b, c) ==> Before(d, a, c)
    ensures a != b ==> Before(d, a, b) || Before(d, b, a)
  {
    StrLessIrreflexive(a);
    if Before(d, a, b) && Before(d, b, c) {
      if d == Asc {
        StrLessTransitive(a, b, c);
      } else {
        StrLessTransitive(c, b, a);
      }
    }
    if a != b {
      StrLessTotal(a, b);
    }
  }

  /** Not strictly before is transitive as well. */
  lemma NotBeforeTransitive(d: Direction, a: string, b: string, c: string)
    requires !Before(d, b, a) && !Before(d, c, b)
    ensures !Before(d, c, a)
  {
    BeforeIsStrictOrder(d, c, a, b);
    BeforeIsStrictOrder(d, c, b, a);
    BeforeIsStrictOrder(d, a, b, c);
  }

  /** No later row is strictly before an earlier one. */
  ghost predicate SortedBy<T>(s: seq<T>, key: T -> string, d: Direction) {
    forall i, j :: 0 <= i < j < |s| ==> !Before(d, key(s[j]), key(s[i]))
  }

  /** Puts `x` in front of the first row not strictly before it. */
  function Insert<T>(x: T, t: seq<T>, key: T -> string, d: Direction): (r: seq<T>)
    ensures multiset(r) == multiset(t) + multiset{x}
    ensures |r| == |t| + 1
  {
    if |t| == 0 then [x]
    else if Before(d, key(t[0]), key(x)) then
      assert t == [t[0]] + t[1..];
      [t[0]] + Insert(x, t[1..], key, d)
    else [x] + t
  }

  lemma {:induction false} InsertSorted<T>(x: T, t: seq<T>, key: T -> string, d: Direction)
    requires SortedBy(t, key, d)
    ensures SortedBy(Insert(x, t, key, d), key, d)
  {
    if |t| > 0 {
      if Before(d, key(t[0]), key(x)) {
        var rest := Insert(x, t[1..], key, d);
        InsertSorted(x, t[1..], key, d);
        var r := [t[0]] + rest;
        forall i, j | 0 <= i < j < |r|
          ensures !Before(d, key(r[j]), key(r[i]))
        {
          if i == 0 {
            assert r[j] in multiset(rest);
            assert r[j] == x || r[j] in multiset(t[1..]);
            if r[j] == x {
              BeforeIsStrictOrder(d, key(t[0]), key(x), key(t[0]));
            } else {
              var k :| 0 <= k < |t[1..]| && t[1..][k] == r[j];
              assert t[k + 1] == r[j];
            }
          } else {
            assert r[i] == rest[i - 1] && r[j] == rest[j - 1];
          }
        }
      } else {
        var r := [x] + t;
        forall i, j | 0 <= i < j < |r|
          ensures !Before(d, key(r[j]), key(r[i]))
        {
          if i == 0 {
            if j > 1 {
              NotBeforeTransitive(d, key(x), key(t[0]), key(t[j - 1]));
            }
          } else {
            assert r[i] == t[i - 1] && r[j] == t[j - 1];
          }
        }
      }
    }
  }

  /** The rows whose key is `v`, in order. */
  function WithKey<T>(s: seq<T>, key: T -> string, v: string): seq<T> {
    Filter(s, (y: T) => key(y) == v)
  }

  lemma FilterCons<T>(x: T, s: seq<T>, p: T -> bool)
    ensures Filter([x] + s, p) == if p(x) then [x] + Filter(s, p) else Filter(s, p)
  {
    assert ([x] + s)[0] == x && ([x] + s)[1..] == s;
  }

  /** Insertion skips only rows strictly before `x`, so no row with `x`'s
      key: among equal keys `x` lands first. */
  lemma {:induction false} InsertWithKey<T>(x: T, t: seq<T>, key: T -> string, d: Direction, v: string)
    ensures WithKey(Insert(x, t, key, d), key, v) ==
      if key(x) == v then [x] + WithKey(t, key, v) else WithKey(t, key, v)
  {
    var p := (y: T) => key(y) == v;
    if |t| == 0 {
      FilterCons(x, [], p);
    } else if Before(d, key(t[0]), key(x)) {
      BeforeIsStrictOrder(d, key(x), key(x), key(x));
      InsertWithKey(x, t[1..], key, d, v);
      FilterCons(t[0], Insert(x, t[1..], key, d), p);
      FilterCons(t[0], t[1..], p);
      assert [t[0]] + t[1..] == t;
    } else {
      FilterCons(x, t, p);
    }
  }

  /** The stable sort `[...data].sort(comparator)` computes: insertion from
      the back keeps the earlier of two equal rows in front. */
  function Sort<T>(s: seq<T>, key: T -> string, d: Direction): (r: seq<T>)
    ensures multiset(r) == multiset(s)
    ensures SortedBy(r, key, d)
    ensures forall v :: WithKey(r, key, v) == WithKey(s, key, v)
  {
    if |s| == 0 then []
    else
      var rest := Sort(s[1..], key, d);
      InsertSorted(s[0], rest, key, d);
      assert s == [s[0]] + s[1..];
      assert forall v :: WithKey(Insert(s[0], rest, key, d), key, v) == WithKey(s, key, v) by {
        forall v
          ensures WithKey(Insert(s[0], rest, key, d), key, v) == WithKey(s, key, v)
        {
          InsertWithKey(s[0], rest, key, d, v);
          FilterCons(s[0], s[1..], (y: T) => key(y) == v);
        }
      }
      Insert(s[0], rest, key, d)
  }

  /** The rows as the table shows them: the input order when no key is
      set, else sorted on the key's cell with a missing cell read as "". */
  function SortedData<T>(rows: seq<T>, c: SortConfig, cell: (T, string) -> Option<string>): (r: seq<T>)
    ensures c.key.None? || c.key.value == "" ==> r == rows
    ensures multiset(r) == multiset(rows)
    ensures c.key.Some? && c.key.value != "" ==>
      SortedBy(r, (x: T) => Coalesce(cell(x, c.key.value), ""), c.direction)
  {
    if c.key.None? || c.key.value == "" then rows
    else Sort(rows, (x: T) => Coalesce(cell(x, c.key.value), ""), c.direction)
  }

  /** Rows with equal cells keep their relative order in both directions,
      so sorting descending is not the reverse of sorting ascending. */
  lemma EqualCellsKeepOrder<T>(rows: seq<T>, c: SortConfig, cell: (T, string) -> Option<string>, v: string)
    requires c.key.Some? && c.key.value != ""
    ensures var key := (x: T) => Coalesce(cell(x, c.key.value), "");
      WithKey(SortedData(rows, c, cell), key, v) == WithKey(rows, key, v)
  {
  }

  /** Two rows with equal cells, sorted either way, stay as given. */
  lemma DescendingIsNotReverse()
    ensures Sort(["b", "a"], (x: string) => "", Desc) == ["b", "a"]
    ensures Sort(["b", "a"], (x: string) => "", Asc) == ["b", "a"]
  {
    var key := (x: string) => "";
    BeforeIsStrictOrder(Desc, "", "", "");
    BeforeIsStrictOrder(Asc, "", "", "");
    assert ["b", "a"][1..] == ["a"] && ["a"][1..] == [];
    assert Sort(["a"], key, Desc) == ["a"] && Sort(["a"], key, Asc) == ["a"];
  }

  /** The pagination block a page hands to the table. */
  datatype Pagination = Pagination(number: int, size: int, totalElements: int, totalPages: int)

  /** The first row number of the footer's "start–end of total": a page
      that is not the first starts right after the previous page ended,
      when that page was full. */
  function RangeStart(p: Pagination): (s: int)
    ensures p.number >= 1 && p.number * p.size <= p.totalElements ==>
      s == RangeEnd(p.(number := p.number - 1)) + 1
  {
    p.number * p.size + 1
  }

  /** The last row number: the end of the page, or the total on the last page. */
  function RangeEnd(p: Pagination): (e: int)
    ensures e <= p.totalElements && e <= (p.number + 1) * p.size
    ensures e == p.totalElements || e == (p.number + 1) * p.size
  {
    if (p.number + 1) * p.size < p.totalElements then (p.number + 1) * p.size else p.totalElements
  }

  predicate PrevDisabled(p: Pagination) {
    p.number == 0
  }

  predicate NextDisabled(p: Pagination) {
    p.number >= p.totalPages - 1
  }

  /** A page the server could send: a positive size, and a page number
      inside `0 .. totalPages - 1` with enough pages for every row. */
  predicate WellFormed(p: Pagination) {
    p.size > 0 && 0 <= p.number < p.totalPages && p.totalElements >= 0
    && p.totalElements <= p.totalPages * p.size
    && (p.totalPages == 1 || (p.totalPages - 1) * p.size < p.totalElements)
  }

  /** On any non-empty page of a well-formed pagination the footer counts
      exactly the rows of that page: between 1 and `size` of them. */
  lemma RangeCountsPageRows(p: Pagination)
    requires WellFormed(p) && p.totalElements > 0
    requires p.number * p.size < p.totalElements
    ensures 1 <= RangeStart(p) <= RangeEnd(p)
    ensures RangeEnd(p) - RangeStart(p) + 1 <= p.size
  {
  }

  /** With no rows at all the footer reads "1–0 of 0": the start is past
      the end. */
  lemma EmptyRange(size: int)
    requires size > 0
    ensures RangeStart(Pagination(0, size, 0, 1)) == 1
    ensures RangeEnd(Pagination(0, size, 0, 1)) == 0
  {
  }

  /** The buttons never lead off the pagination: an enabled Next goes to a
      page that exists, an enabled Prev to a page that exists; on a single
      page both are disabled. */
  lemma ButtonsStayInRange(p: Pagination)
    requires WellFormed(p)
    ensures !NextDisabled(p) ==> 0 <= p.number + 1 < p.totalPages
    ensures !PrevDisabled(p) ==> 0 <= p.number - 1 < p.totalPages
    ensures p.totalPages == 1 ==> PrevDisabled(p) && NextDisabled(p)
    ensures NextDisabled(p) <==> p.number == p.totalPages - 1
  {
  }
}
