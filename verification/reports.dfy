/**
 * Report aggregation: `AppendIfMissing` keeps a list of strings sorted and
 * free of duplicates, and the two reports group the stored `(URL,
 * ParentURL)` rows with it.  Reading the rows from the store and printing
 * the result are outside this module; the rows are an input.
 */
module Reports {
  import opened Strings
  import opened Seqs

  /** A row of the report query. */
  datatype ReportItem = ReportItem(url: string, parentURL: string)

  ghost predicate Sorted(s: seq<string>)
  {
    forall i, j :: 0 <= i < j < |s| ==> LessEq(s[i], s[j])
  }

  lemma SortedCons(x: string, s: seq<string>)
    requires Sorted(s)
    requires forall k :: 0 <= k < |s| ==> LessEq(x, s[k])
    ensures Sorted([x] + s)
  {
  }

  lemma SortedTail(s: seq<string>)
    requires |s| > 0 && Sorted(s)
    ensures Sorted(s[1..])
    ensures forall k :: 0 <= k < |s| ==> LessEq(s[0], s[k])
  {
  }

  /** Putting `x` in front of a sorted list whose head is not below it. */
  lemma InsertFront(x: string, s: seq<string>)
    requires Sorted(s) && |s| > 0 && LessEq(x, s[0])
    ensures Sorted([x] + s)
  {
    SortedTail(s);
    forall k | 0 <= k < |s| ensures LessEq(x, s[k]) {
      LessEqTransitive(x, s[0], s[k]);
    }
    SortedCons(x, s);
  }

  /** Keeping the head of a sorted list and inserting `x` into its tail. */
  lemma InsertBehind(x: string, s: seq<string>, t: seq<string>)
    requires Sorted(s) && |s| > 0 && !LessEq(x, s[0])
    requires Sorted(t) && multiset(t) == multiset(s[1..]) + multiset{x}
    ensures Sorted([s[0]] + t)
    ensures multiset([s[0]] + t) == multiset(s) + multiset{x}
  {
    SortedTail(s);
    assert s == [s[0]] + s[1..];
    LessTotal(x, s[0]);
    forall k | 0 <= k < |t| ensures t[k] in s[1..] || t[k] == x {
      assert t[k] in multiset(t);
    }
    forall k | 0 <= k < |t| ensures LessEq(s[0], t[k]) {
      if t[k] != x {
        assert t[k] in s[1..];
      }
    }
    SortedCons(s[0], t);
  }

  /** The head kept by `InsertBehind` is not among the inserted tail when nothing repeats. */
  lemma InsertBehindDistinct(x: string, s: seq<string>, t: seq<string>)
    requires |s| > 0 && multiset(t) == multiset(s[1..]) + multiset{x}
    ensures Distinct(s) && x !in s && Distinct(t) ==> Distinct([s[0]] + t)
  {
    if Distinct(s) && x !in s && Distinct(t) {
      assert s == [s[0]] + s[1..];
      assert s[0] !in multiset(s[1..]);
      assert s[0] in t <==> s[0] in multiset(t);
    }
  }

  /** Insertion into a sorted list, as one step of sorting. */
  function Insert(x: string, s: seq<string>): (r: seq<string>)
    requires Sorted(s)
    ensures Sorted(r)
    ensures multiset(r) == multiset(s) + multiset{x}
    ensures Distinct(s) && x !in s ==> Distinct(r)
  {
    if |s| == 0 then [x]
    else if LessEq(x, s[0]) then
      InsertFront(x, s);
      [x] + s
    else
      SortedTail(s);
      var t := Insert(x, s[1..]);
      assert Distinct(s) && x !in s ==> Distinct(s[1..]) && x !in s[1..];
      InsertBehind(x, s, t);
      InsertBehindDistinct(x, s, t);
      [s[0]] + t
  }

  /** `sort.Strings`: the ascending arrangement of the same strings. */
  function SortStrings(s: seq<string>): (r: seq<string>)
    ensures Sorted(r)
    ensures multiset(r) == multiset(s)
    ensures Distinct(s) ==> Distinct(r)
  {
    if |s| == 0 then []
    else
      SortTail(s);
      var t := SortStrings(s[1..]);
      SortHead(s, t);
      Insert(s[0], t)
  }

  lemma SortTail(s: seq<string>)
    requires |s| > 0
    ensures Distinct(s) ==> Distinct(s[1..])
  {
  }

  /** The head of the input, inserted into the sorted tail, completes the multiset. */
  lemma SortHead(s: seq<string>, t: seq<string>)
    requires |s| > 0 && multiset(t) == multiset(s[1..])
    ensures multiset(t) + multiset{s[0]} == multiset(s)
    ensures Distinct(s) ==> s[0] !in t
  {
    assert s == [s[0]] + s[1..];
    assert s[0] in t <==> s[0] in multiset(s[1..]);
  }

  /**
   * `AppendIfMissing(slice, item)`: a present item leaves the slice as it
   * was; an absent one is added and the whole slice is sorted.
   */
  function AppendIfMissing(slice: seq<string>, item: string): (r: seq<string>)
    ensures item in r
    ensures item in slice ==> r == slice
    ensures item !in slice ==> |r| == |slice| + 1
    ensures item !in slice ==> multiset(r) == multiset(slice) + multiset{item}
    ensures item !in slice ==> Sorted(r)
    ensures forall x :: x in r <==> x in slice || x == item
  {
    if item in slice then slice
    else
      assert multiset(slice + [item]) == multiset(slice) + multiset{item};
      var r := SortStrings(slice + [item]);
      forall x ensures x in r <==> x in slice || x == item {
        assert x in r <==> x in multiset(r);
        assert x in slice <==> x in multiset(slice);
      }
      r
  }

  /** `AppendIfMissing` keeps a sorted, duplicate-free list sorted and duplicate-free. */
  lemma AppendIfMissingKeepsInvariant(s: seq<string>, item: string)
    requires Sorted(s) && Distinct(s)
    ensures Sorted(AppendIfMissing(s, item))
    ensures Distinct(AppendIfMissing(s, item))
    ensures forall x :: x in AppendIfMissing(s, item) <==> x in s || x == item
  {
    assert item !in s ==> Distinct(s + [item]);
  }

  /** The list built by a run of `AppendIfMissing` calls starting from the empty list. */
  function AppendAll(items: seq<string>): (r: seq<string>)
    ensures |r| <= |items|
  {
    if |items| == 0 then [] else AppendIfMissing(AppendAll(items[..|items| - 1]), items[|items| - 1])
  }

  /** Any run of `AppendIfMissing` from the empty list yields the sorted, duplicate-free set of its items. */
  lemma {:induction false} AppendAllSortedDistinct(items: seq<string>)
    ensures Sorted(AppendAll(items))
    ensures Distinct(AppendAll(items))
    ensures forall x :: x in AppendAll(items) <==> x in items
  {
    if |items| > 0 {
      var init := items[..|items| - 1];
      assert items == init + [items[|items| - 1]];
      AppendAllSortedDistinct(init);
      AppendIfMissingKeepsInvariant(AppendAll(init), items[|items| - 1]);
    }
  }

  lemma TailMembers(a: seq<string>, x: string)
    requires |a| > 0 && Distinct(a)
    ensures x in a[1..] <==> x in a && x != a[0]
  {
    assert a == [a[0]] + a[1..];
    if x in a[1..] {
      var k :| 0 <= k < |a[1..]| && a[1..][k] == x;
      assert a[k + 1] == x;
    }
  }

  /** A sorted, duplicate-free list is determined by its elements. */
  lemma {:induction false} SortedDistinctUnique(a: seq<string>, b: seq<string>)
    requires Sorted(a) && Distinct(a) && Sorted(b) && Distinct(b)
    requires forall x :: x in a <==> x in b
    ensures a == b
  {
    if |a| > 0 {
      assert a[0] in b;
    }
    if |b| > 0 {
      assert b[0] in a;
    }
    if |a| > 0 {
      var i :| 0 <= i < |b| && b[i] == a[0];
      var j :| 0 <= j < |a| && a[j] == b[0];
      assert LessEq(b[0], a[0]);
      assert LessEq(a[0], b[0]);
      LessEqAntisymmetric(a[0], b[0]);
      forall x ensures x in a[1..] <==> x in b[1..] {
        TailMembers(a, x);
        TailMembers(b, x);
      }
      SortedDistinctUnique(a[1..], b[1..]);
      assert a == [a[0]] + a[1..];
      assert b == [b[0]] + b[1..];
    }
  }

  /** The two groupings: by `URL` (inbound links) and by `ParentURL` (parent/child links). */
  datatype Report = InboundLinks | ParentChildLinks

  function KeyOf(report: Report, item: ReportItem): string
  {
    match report
    case InboundLinks => item.url
    case ParentChildLinks => item.parentURL
  }

  function ValueOf(report: Report, item: ReportItem): string
  {
    match report
    case InboundLinks => item.parentURL
    case ParentChildLinks => item.url
  }

  /** The row that files `value` under `key` in the given report. */
  function Row(report: Report, key: string, value: string): ReportItem
  {
    match report
    case InboundLinks => ReportItem(key, value)
    case ParentChildLinks => ReportItem(value, key)
  }

  lemma RowMatches(report: Report, key: string, value: string, item: ReportItem)
    ensures Row(report, key, value) == item <==> KeyOf(report, item) == key && ValueOf(report, item) == value
  {
  }

  /** A Go map read: a missing key yields the empty (nil) slice. */
  function Lookup(m: map<string, seq<string>>, key: string): seq<string>
  {
    if key in m then m[key] else []
  }

  /** The grouping loop: for each row in order, `AppendIfMissing` its value to its key's list. */
  function Group(report: Report, items: seq<ReportItem>): (container: map<string, seq<string>>)
    ensures forall k | k in container :: |container[k]| > 0
  {
    if |items| == 0 then map[]
    else
      var container := Group(report, items[..|items| - 1]);
      var item := items[|items| - 1];
      container[KeyOf(report, item) := AppendIfMissing(Lookup(container, KeyOf(report, item)), ValueOf(report, item))]
  }

  /** `key` is the key of some row. */
  ghost predicate HasKey(report: Report, items: seq<ReportItem>, key: string)
  {
    exists it :: it in items && KeyOf(report, it) == key
  }

  /** One step of the grouping loop. */
  lemma GroupSnoc(report: Report, items: seq<ReportItem>)
    requires |items| > 0
    ensures var init := items[..|items| - 1];
      var item := items[|items| - 1];
      && items == init + [item]
      && Group(report, items)
         == Group(report, init)[KeyOf(report, item) := AppendIfMissing(Lookup(Group(report, init), KeyOf(report, item)), ValueOf(report, item))]
  {
    assert items == items[..|items| - 1] + [items[|items| - 1]];
  }

  lemma {:induction false} GroupKeys(report: Report, items: seq<ReportItem>)
    ensures forall k :: k in Group(report, items) <==> HasKey(report, items, k)
  {
    if |items| > 0 {
      var init := items[..|items| - 1];
      var item := items[|items| - 1];
      GroupSnoc(report, items);
      GroupKeys(report, init);
      forall k ensures k in Group(report, items) <==> HasKey(report, items, k) {
        if HasKey(report, items, k) {
          var it :| it in items && KeyOf(report, it) == k;
          if it != item {
            assert it in init;
          }
        }
        if HasKey(report, init, k) {
          var it :| it in init && KeyOf(report, it) == k;
          assert it in items;
        }
      }
    }
  }

  lemma {:induction false} GroupListsSortedDistinct(report: Report, items: seq<ReportItem>)
    ensures forall k | k in Group(report, items) :: Sorted(Group(report, items)[k]) && Distinct(Group(report, items)[k])
  {
    if |items| > 0 {
      var init := items[..|items| - 1];
      var item := items[|items| - 1];
      GroupSnoc(report, items);
      GroupListsSortedDistinct(report, init);
      AppendIfMissingKeepsInvariant(Lookup(Group(report, init), KeyOf(report, item)), ValueOf(report, item));
    }
  }

  lemma {:induction false} GroupMembers(report: Report, items: seq<ReportItem>)
    ensures forall k, v | k in Group(report, items) :: v in Group(report, items)[k] <==> Row(report, k, v) in items
  {
    if |items| > 0 {
      var init := items[..|items| - 1];
      var item := items[|items| - 1];
      GroupSnoc(report, items);
      GroupMembers(report, init);
      GroupKeys(report, init);
      var c := Group(report, init);
      var key := KeyOf(report, item);
      var g := Group(report, items);
      forall k, v | k in g
        ensures v in g[k] <==> Row(report, k, v) in items
      {
        var row := Row(report, k, v);
        RowMatches(report, k, v, item);
        RowMatches(report, k, v, row);
        assert row in items <==> row in init || row == item;
        if k == key {
          assert g[k] == AppendIfMissing(Lookup(c, key), ValueOf(report, item));
          assert row in init ==> HasKey(report, init, k);
        } else {
          assert g[k] == c[k];
        }
      }
    }
  }

  /**
   * The keys are the keys of the rows; each list is sorted, free of
   * duplicates, and holds exactly the values of the rows with that key.
   */
  lemma GroupSpec(report: Report, items: seq<ReportItem>)
    ensures forall k :: k in Group(report, items) <==> HasKey(report, items, k)
    ensures forall k | k in Group(report, items) :: Sorted(Group(report, items)[k]) && Distinct(Group(report, items)[k])
    ensures forall k, v | k in Group(report, items) :: v in Group(report, items)[k] <==> Row(report, k, v) in items
  {
    GroupKeys(report, items);
    GroupListsSortedDistinct(report, items);
    GroupMembers(report, items);
  }

  /** Same rows, in any order and with any repetition, give the same report. */
  lemma GroupOrderIndependent(report: Report, a: seq<ReportItem>, b: seq<ReportItem>)
    requires forall it :: it in a <==> it in b
    ensures Group(report, a) == Group(report, b)
  {
    var ga := Group(report, a);
    var gb := Group(report, b);
    SameKeys(report, a, b);
    forall k | k in ga
      ensures ga[k] == gb[k]
    {
      SameList(report, a, b, k);
    }
  }

  lemma SameList(report: Report, a: seq<ReportItem>, b: seq<ReportItem>, k: string)
    requires forall it :: it in a <==> it in b
    requires k in Group(report, a) && Group(report, a).Keys == Group(report, b).Keys
    ensures Group(report, a)[k] == Group(report, b)[k]
  {
    var la := Group(report, a)[k];
    var lb := Group(report, b)[k];
    GroupListsSortedDistinct(report, a);
    GroupListsSortedDistinct(report, b);
    GroupMembers(report, a);
    GroupMembers(report, b);
    forall v ensures v in la <==> v in lb {
      assert Row(report, k, v) in a <==> Row(report, k, v) in b;
    }
    SortedDistinctUnique(la, lb);
  }

  lemma SameKeys(report: Report, a: seq<ReportItem>, b: seq<ReportItem>)
    requires forall it :: it in a <==> it in b
    ensures Group(report, a).Keys == Group(report, b).Keys
  {
    GroupKeys(report, a);
    GroupKeys(report, b);
    forall k ensures HasKey(report, a, k) <==> HasKey(report, b, k) {
      if HasKey(report, a, k) {
        var it :| it in a && KeyOf(report, it) == k;
        assert it in b;
      }
      if HasKey(report, b, k) {
        var it :| it in b && KeyOf(report, it) == k;
        assert it in a;
      }
    }
  }

  /**
   * `GenerateInboundLinksReport`'s container: each linked-to URL maps to the
   * sorted, duplicate-free list of the parents recorded for it.
   */
  function InboundLinksReport(items: seq<ReportItem>): (container: map<string, seq<string>>)
    ensures forall u :: u in container <==> exists p :: ReportItem(u, p) in items
    ensures forall u, p | u in container :: p in container[u] <==> ReportItem(u, p) in items
    ensures forall u | u in container :: Sorted(container[u]) && Distinct(container[u])
  {
    GroupSpec(InboundLinks, items);
    var container := Group(InboundLinks, items);
    forall u ensures u in container <==> exists p :: ReportItem(u, p) in items {
      if u in container {
        var it :| it in items && it.url == u;
        assert ReportItem(u, it.parentURL) == it;
      }
    }
    container
  }

  /**
   * `GenerateParentChildLinksReport`'s container: each parent maps to the
   * sorted, duplicate-free list of the URLs recorded under it.
   */
  function ParentChildLinksReport(items: seq<ReportItem>): (container: map<string, seq<string>>)
    ensures forall p :: p in container <==> exists u :: ReportItem(u, p) in items
    ensures forall p, u | p in container :: u in container[p] <==> ReportItem(u, p) in items
    ensures forall p | p in container :: Sorted(container[p]) && Distinct(container[p])
  {
    GroupSpec(ParentChildLinks, items);
    var container := Group(ParentChildLinks, items);
    forall p ensures p in container <==> exists u :: ReportItem(u, p) in items {
      if p in container {
        var it :| it in items && it.parentURL == p;
        assert ReportItem(it.url, p) == it;
      }
    }
    container
  }
}
