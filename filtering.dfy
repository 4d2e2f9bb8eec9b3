/** The filter chain of the transaction listing: optional date range,
    category and super-category criteria, each applied only when present. */
module Filtering {
  import opened Wrappers
  import opened Categorize

  /** The elements of s that satisfy p, in their original order. */
  function Where<T>(s: seq<T>, p: T -> bool): (r: seq<T>)
    ensures |r| <= |s|
    ensures forall x :: x in r ==> x in s && p(x)
  {
    if s == [] then []
    else if p(s[0]) then [s[0]] + Where(s[1..], p)
    else Where(s[1..], p)
  }

  /** a can be obtained from b by deleting elements: a keeps b's order. */
  ghost predicate IsSubsequence<T>(a: seq<T>, b: seq<T>)
    decreases |b|
  {
    a == [] || (|b| > 0 && ((a[0] == b[0] && IsSubsequence(a[1..], b[1..])) || IsSubsequence(a, b[1..])))
  }

  lemma {:induction false} WhereIsSubsequence<T>(s: seq<T>, p: T -> bool)
    ensures IsSubsequence(Where(s, p), s)
    decreases |s|
  {
    if s != [] {
      WhereIsSubsequence(s[1..], p);
      if p(s[0]) {
        assert Where(s, p)[1..] == Where(s[1..], p);
      }
    }
  }

  /** Where keeps every occurrence of an element that satisfies p and no
      occurrence of one that does not. */
  lemma {:induction false} WhereCount<T>(s: seq<T>, p: T -> bool, x: T)
    ensures multiset(Where(s, p))[x] == if p(x) then multiset(s)[x] else 0
    decreases |s|
  {
    if s != [] {
      WhereCount(s[1..], p, x);
      assert s == [s[0]] + s[1..];
    }
  }

  lemma {:induction false} WhereAll<T>(s: seq<T>, p: T -> bool)
    requires forall x :: x in s ==> p(x)
    ensures Where(s, p) == s
    decreases |s|
  {
    if s != [] {
      WhereAll(s[1..], p);
      assert s == [s[0]] + s[1..];
    }
  }

  lemma {:induction false} WhereExt<T>(s: seq<T>, p: T -> bool, q: T -> bool)
    requires forall x :: x in s ==> p(x) == q(x)
    ensures Where(s, p) == Where(s, q)
    decreases |s|
  {
    if s != [] {
      WhereExt(s[1..], p, q);
    }
  }

  function And<T>(p: T -> bool, q: T -> bool): T -> bool {
    x => p(x) && q(x)
  }

  /** Two successive filters are one filter on the conjunction. */
  lemma {:induction false} WhereFusion<T>(s: seq<T>, p: T -> bool, q: T -> bool)
    ensures Where(Where(s, p), q) == Where(s, And(p, q))
    decreases |s|
  {
    if s != [] {
      WhereFusion(s[1..], p, q);
      if p(s[0]) {
        assert Where(s, p) == [s[0]] + Where(s[1..], p);
        assert Where(s, p)[1..] == Where(s[1..], p);
      }
    }
  }

  /** The order in which two filters run does not matter. */
  lemma WhereCommutes<T>(s: seq<T>, p: T -> bool, q: T -> bool)
    ensures Where(Where(s, p), q) == Where(Where(s, q), p)
  {
    WhereFusion(s, p, q);
    WhereFusion(s, q, p);
    WhereExt(s, And(p, q), And(q, p));
  }

  /** The optional query parameters; dates are day ordinals. */
  datatype Criteria = Criteria(start: Option<int>, end: Option<int>,
                               category: Option<string>, superCategory: Option<string>)

  const NoCriteria := Criteria(None, None, None, None)

  predicate InRange(lo: int, hi: int, r: Record) {
    lo <= r.row.date <= hi
  }

  predicate HasCategory(category: string, r: Record) {
    r.row.category == category
  }

  predicate HasSuperCategory(name: string, r: Record) {
    Name(r.superCategory) == name
  }

  /** A record passes exactly when it meets every criterion that is present;
      the date range counts only when both of its bounds are. */
  predicate Matches(c: Criteria, r: Record) {
    && (c.start.Some? && c.end.Some? ==> InRange(c.start.value, c.end.value, r))
    && (c.category.Some? ==> HasCategory(c.category.value, r))
    && (c.superCategory.Some? ==> HasSuperCategory(c.superCategory.value, r))
  }

  function MatchFn(c: Criteria): (f: Record -> bool)
    ensures forall x :: f(x) == Matches(c, x)
  {
    r => Matches(c, r)
  }

  /** The listing in one pass: the records meeting every present criterion. */
  function Select(table: seq<Record>, c: Criteria): seq<Record> {
    Where(table, MatchFn(c))
  }

  // The three steps of the chain, each a no-op when its criterion is absent.

  function ByDate(s: seq<Record>, start: Option<int>, end: Option<int>): seq<Record> {
    if start.Some? && end.Some? then Where(s, r => InRange(start.value, end.value, r)) else s
  }

  function ByCategory(s: seq<Record>, category: Option<string>): seq<Record> {
    if category.Some? then Where(s, r => HasCategory(category.value, r)) else s
  }

  function BySuperCategory(s: seq<Record>, superCategory: Option<string>): seq<Record> {
    if superCategory.Some? then Where(s, r => HasSuperCategory(superCategory.value, r)) else s
  }

  /** Narrowing the selection for `before` by q selects for `after`. */
  lemma Narrow(table: seq<Record>, before: Criteria, after: Criteria, q: Record -> bool)
    requires forall x :: Matches(after, x) == (Matches(before, x) && q(x))
    ensures Where(Select(table, before), q) == Select(table, after)
  {
    WhereFusion(table, MatchFn(before), q);
    WhereExt(table, And(MatchFn(before), q), MatchFn(after));
  }

  /** get_transactions: narrows the table step by step, date range, then
      category, then super-category, and ends with the one-pass selection. */
  method GetTransactions(table: seq<Record>, c: Criteria) returns (filtered: seq<Record>)
    ensures filtered == Select(table, c)
  {
    filtered := table;
    NoCriteriaIsIdentity(table);
    ghost var done := NoCriteria;
    if c.start.Some? && c.end.Some? {
      filtered := ByDate(filtered, c.start, c.end);
      Narrow(table, done, done.(start := c.start, end := c.end), r => InRange(c.start.value, c.end.value, r));
      done := done.(start := c.start, end := c.end);
    }
    if c.category.Some? {
      filtered := ByCategory(filtered, c.category);
      Narrow(table, done, done.(category := c.category), r => HasCategory(c.category.value, r));
      done := done.(category := c.category);
    }
    if c.superCategory.Some? {
      filtered := BySuperCategory(filtered, c.superCategory);
      Narrow(table, done, done.(superCategory := c.superCategory), r => HasSuperCategory(c.superCategory.value, r));
      done := done.(superCategory := c.superCategory);
    }
    WhereExt(table, MatchFn(done), MatchFn(c));
  }

  /** What the listing keeps: an order-preserving subsequence of the table
      holding every occurrence of each matching record and nothing else. */
  lemma SelectCharacterized(table: seq<Record>, c: Criteria, x: Record)
    ensures IsSubsequence(Select(table, c), table)
    ensures x in Select(table, c) <==> x in table && Matches(c, x)
    ensures multiset(Select(table, c))[x] == if Matches(c, x) then multiset(table)[x] else 0
  {
    WhereIsSubsequence(table, MatchFn(c));
    WhereCount(table, MatchFn(c), x);
  }

  /** With no criteria the listing is the whole table. */
  lemma NoCriteriaIsIdentity(table: seq<Record>)
    ensures Select(table, NoCriteria) == table
  {
    WhereAll(table, MatchFn(NoCriteria));
  }

  /** A single date bound is ignored. */
  lemma HalfRangeIgnored(table: seq<Record>, c: Criteria)
    requires c.start.None? || c.end.None?
    ensures Select(table, c) == Select(table, c.(start := None, end := None))
  {
    WhereExt(table, MatchFn(c), MatchFn(c.(start := None, end := None)));
  }

  /** The date range is inclusive at both ends. */
  lemma RangeInclusive(table: seq<Record>, lo: int, hi: int, x: Record)
    requires x in table
    ensures x in Select(table, Criteria(Some(lo), Some(hi), None, None)) <==> lo <= x.row.date <= hi
  {
    SelectCharacterized(table, Criteria(Some(lo), Some(hi), None, None), x);
  }

  /** Filtering on category and super-category together is filtering on
      one and then on the other, in either order. */
  lemma CombinedCriteria(table: seq<Record>, cat: string, sup: string)
    ensures Select(table, Criteria(None, None, Some(cat), Some(sup)))
         == Select(Select(table, Criteria(None, None, Some(cat), None)), Criteria(None, None, None, Some(sup)))
    ensures Select(table, Criteria(None, None, Some(cat), Some(sup)))
         == Select(Select(table, Criteria(None, None, None, Some(sup))), Criteria(None, None, Some(cat), None))
  {
    var both := Criteria(None, None, Some(cat), Some(sup));
    var byCat := Criteria(None, None, Some(cat), None);
    var bySup := Criteria(None, None, None, Some(sup));
    WhereFusion(table, MatchFn(byCat), MatchFn(bySup));
    WhereFusion(table, MatchFn(bySup), MatchFn(byCat));
    WhereExt(table, And(MatchFn(byCat), MatchFn(bySup)), MatchFn(both));
    WhereExt(table, And(MatchFn(bySup), MatchFn(byCat)), MatchFn(both));
  }

  /** Filtering keeps records intact, so a labelled table stays labelled. */
  lemma WhereKeepsLabels(s: seq<Record>, p: Record -> bool)
    requires IsLabelled(s)
    ensures IsLabelled(Where(s, p))
  {
    var r := Where(s, p);
    forall i | 0 <= i < |r|
      ensures r[i].superCategory == Classify(r[i].row.txType, r[i].row.category)
    {
      assert r[i] in r;
      var j :| 0 <= j < |s| && s[j] == r[i];
    }
  }
}
