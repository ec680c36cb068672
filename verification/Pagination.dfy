/** Validated paging through a list whose size the origin may or may not advertise. */
module Pagination {
  import opened Basics

  const PAGE_BOUND := 100000

  datatype Page<T> = Page(size: Option<int>, offset: Option<int>, total: Option<int>, items: seq<T>)

  /** Failed: no response, or one that cannot be decoded. */
  datatype Response<T> = Failed | Got(page: Page<T>)

  // ---- When a list is complete ---------------------------------------------------------------

  function Items<T>(pages: seq<Page<T>>): seq<T> {
    if pages == [] then [] else Items(pages[..|pages| - 1]) + pages[|pages| - 1].items
  }

  /** The number of items before page i. */
  function Start<T>(pages: seq<Page<T>>, i: nat): nat
    requires i <= |pages|
  {
    |Items(pages[..i])|
  }

  /** Page i answers the question asked, and does not contradict the total of the page before it. */
  predicate Fits<T>(pages: seq<Page<T>>, i: nat, pageSize: nat)
    requires i < |pages|
  {
    var p := pages[i];
    && |p.items| <= pageSize
    && (p.size.Some? ==> p.size.value == |p.items|)
    && (p.offset.Some? ==> p.offset.value == Start(pages, i))
    && (i > 0 && pages[i - 1].total.Some? ==> p.total == pages[i - 1].total)
  }

  /** There is more to come: items are still missing, or the page is full and no total is known. */
  predicate Continues<T>(pages: seq<Page<T>>, i: nat, pageSize: nat)
    requires i < |pages|
  {
    var p := pages[i];
    match p.total
    case Some(total) => p.items != [] && Start(pages, i + 1) < total
    case None => |p.items| == pageSize
  }

  /** The list ends here: the total is reached, or the page is short. An empty list needs a total. */
  predicate Ends<T>(pages: seq<Page<T>>, i: nat, pageSize: nat)
    requires i < |pages|
  {
    var p := pages[i];
    match p.total
    case Some(total) => Start(pages, i + 1) == total
    case None => |p.items| < pageSize && Start(pages, i + 1) > 0
  }

  ghost predicate DistinctKeys<T>(items: seq<T>, key: T -> string) {
    && (forall i | 0 <= i < |items| :: key(items[i]) != "")
    && (forall i, j | 0 <= i < j < |items| :: key(items[i]) != key(items[j]))
  }

  ghost predicate Unfinished<T>(pages: seq<Page<T>>, pageSize: nat) {
    forall i | 0 <= i < |pages| :: Fits(pages, i, pageSize) && Continues(pages, i, pageSize)
  }

  /** The pages of a complete list. */
  ghost predicate Complete<T>(pages: seq<Page<T>>, pageSize: nat) {
    && 0 < |pages| <= PAGE_BOUND
    && Unfinished(pages[..|pages| - 1], pageSize)
    && Fits(pages, |pages| - 1, pageSize) && Ends(pages, |pages| - 1, pageSize)
  }

  ghost predicate Answers<T>(responses: seq<Response<T>>, pages: seq<Page<T>>) {
    |pages| <= |responses| && forall i | 0 <= i < |pages| :: responses[i] == Got(pages[i])
  }

  /** These responses make up the complete list items, each with its own key. */
  ghost predicate Lists<T(!new)>(responses: seq<Response<T>>, pageSize: nat, key: T -> string, items: seq<T>) {
    exists pages: seq<Page<T>> :: Answers(responses, pages) && Complete(pages, pageSize) && items == Items(pages) && DistinctKeys(items, key)
  }

  // ---- What completeness means -----------------------------------------------------------------

  lemma ItemsNext<T>(pages: seq<Page<T>>, p: Page<T>)
    ensures Items(pages + [p]) == Items(pages) + p.items
  {
    assert (pages + [p])[..|pages|] == pages;
  }

  lemma StartNext<T>(pages: seq<Page<T>>, i: nat)
    requires i < |pages|
    ensures Start(pages, i + 1) == Start(pages, i) + |pages[i].items|
  {
    assert pages[..i + 1][..i] == pages[..i];
  }

  lemma PrefixSame<T>(pages: seq<Page<T>>, n: nat, i: nat, pageSize: nat)
    requires i < n <= |pages|
    ensures Fits(pages[..n], i, pageSize) == Fits(pages, i, pageSize)
    ensures Continues(pages[..n], i, pageSize) == Continues(pages, i, pageSize)
    ensures Ends(pages[..n], i, pageSize) == Ends(pages, i, pageSize)
  {
    assert pages[..n][..i] == pages[..i] && pages[..n][..i + 1] == pages[..i + 1];
  }

  /** A total, once advertised, is the number of items of the complete list. */
  lemma TotalIsExact<T>(pages: seq<Page<T>>, pageSize: nat, i: nat)
    requires Complete(pages, pageSize) && i < |pages| && pages[i].total.Some?
    ensures pages[i].total == Some(|Items(pages)|)
    decreases |pages| - i
  {
    var n := |pages| - 1;
    if i < n {
      if i + 1 < n {
        PrefixSame(pages, n, i + 1, pageSize);
      }
      assert Fits(pages, i + 1, pageSize);
      TotalIsExact(pages, pageSize, i + 1);
    } else {
      assert pages[..n + 1] == pages;
    }
  }

  lemma {:induction false} FullPages<T>(pages: seq<Page<T>>, pageSize: nat, n: nat)
    requires n <= |pages| && forall i | 0 <= i < n :: |pages[i].items| == pageSize
    ensures Start(pages, n) == n * pageSize
  {
    if n > 0 {
      FullPages(pages, pageSize, n - 1);
      StartNext(pages, n - 1);
      assert n * pageSize == (n - 1) * pageSize + pageSize;
    }
  }

  /** Without any total the list is full pages followed by one short page. */
  lemma ShortPageEnds<T>(pages: seq<Page<T>>, pageSize: nat)
    requires Complete(pages, pageSize) && pages[|pages| - 1].total.None?
    ensures forall i | 0 <= i < |pages| :: pages[i].total.None?
    ensures forall i | 0 <= i < |pages| - 1 :: |pages[i].items| == pageSize
    ensures |Items(pages)| == (|pages| - 1) * pageSize + |pages[|pages| - 1].items| && |pages[|pages| - 1].items| < pageSize
  {
    var n := |pages| - 1;
    forall i | 0 <= i < |pages| ensures pages[i].total.None? {
      if pages[i].total.Some? {
        AllLaterTotals(pages, pageSize, i, n);
      }
    }
    forall i | 0 <= i < n ensures |pages[i].items| == pageSize {
      PrefixSame(pages, n, i, pageSize);
    }
    FullPages(pages, pageSize, n);
    StartNext(pages, n);
    assert pages[..n + 1] == pages;
  }

  lemma {:induction false} AllLaterTotals<T>(pages: seq<Page<T>>, pageSize: nat, i: nat, j: nat)
    requires Complete(pages, pageSize) && i <= j < |pages| && pages[i].total.Some?
    ensures pages[j].total == pages[i].total
  {
    if i < j {
      AllLaterTotals(pages, pageSize, i, j - 1);
      if j < |pages| - 1 {
        PrefixSame(pages, |pages| - 1, j, pageSize);
      }
      assert Fits(pages, j, pageSize);
    }
  }

  /** Every page but the last one adds items, so the start grows with every request. */
  lemma PagesMakeProgress<T>(pages: seq<Page<T>>, pageSize: nat, i: nat)
    requires Unfinished(pages, pageSize) && i < |pages| && pageSize > 0
    ensures Start(pages, i) < Start(pages, i + 1)
    ensures pages[i].total.Some? ==> Start(pages, i + 1) < pages[i].total.value
  {
    StartNext(pages, i);
    assert Continues(pages, i, pageSize);
  }

  // ---- Checking one page -------------------------------------------------------------------------

  /** The check the worker applies to a page; expected is -1 until a total was seen. */
  function PageComplete(start: int, requested: int, count: int, size: Option<int>, offset: Option<int>, total: Option<int>, expected: int)
    : (r: Option<(bool, int)>)
  {
    if count > requested || (size.Some? && size.value != count) || (offset.Some? && offset.value != start) then None
    else if total.Some? && (total.value < 0 || (expected >= 0 && expected != total.value) || count > total.value - start) then None
    else if total.None? && expected >= 0 then None
    else if start == 0 && count == 0 && (total.None? || total.value != 0) then None
    else
      var wanted := if total.Some? then total.value else expected;
      if wanted >= 0 then
        if start + count == wanted then Some((true, wanted))
        else if count == 0 then None
        else Some((false, wanted))
      else Some((count < requested, wanted))
  }

  function Expected<T>(pages: seq<Page<T>>): int {
    if pages != [] && pages[|pages| - 1].total.Some? then pages[|pages| - 1].total.value else -1
  }

  /** The check accepts exactly the pages that continue or end the list. */
  lemma CheckIsExact<T>(pages: seq<Page<T>>, p: Page<T>, pageSize: nat)
    requires Unfinished(pages, pageSize) && pageSize > 0
    ensures
      var next := pages + [p];
      var r := PageComplete(|Items(pages)|, pageSize, |p.items|, p.size, p.offset, p.total, Expected(pages));
      && (r.Some? <==> Fits(next, |pages|, pageSize) && (Continues(next, |pages|, pageSize) || Ends(next, |pages|, pageSize)))
      && (r.Some? ==> r.value.0 == Ends(next, |pages|, pageSize) == !Continues(next, |pages|, pageSize) && r.value.1 == Expected(next))
  {
    hide Items;
    var n, next := |pages|, pages + [p];
    assert next[..n] == pages && next[..n + 1] == next;
    ItemsNext(pages, p);
    if n > 0 {
      assert Continues(pages, n - 1, pageSize);
      assert pages[..n - 1 + 1] == pages;
    }
  }

  // ---- Reading ---------------------------------------------------------------------------------------

  function KeysOf<T>(items: seq<T>, key: T -> string): set<string> {
    set i | 0 <= i < |items| :: key(items[i])
  }

  lemma DistinctNext<T>(items: seq<T>, x: T, key: T -> string)
    requires DistinctKeys(items, key)
    ensures DistinctKeys(items + [x], key) <==> key(x) != "" && key(x) !in KeysOf(items, key)
    ensures KeysOf(items + [x], key) == KeysOf(items, key) + {key(x)}
  {
    var next := items + [x];
    if DistinctKeys(next, key) {
      assert next[|items|] == x;
      forall i | 0 <= i < |items| ensures key(items[i]) != key(x) {
        assert next[i] == items[i];
      }
    }
    forall k | k in KeysOf(items, key) + {key(x)} ensures k in KeysOf(next, key) {
      if k == key(x) {
        assert next[|items|] == x;
      } else {
        var i :| 0 <= i < |items| && key(items[i]) == k;
        assert next[i] == items[i];
      }
    }
  }

  lemma DistinctPrefix<T>(items: seq<T>, more: seq<T>, key: T -> string)
    requires DistinctKeys(items + more, key)
    ensures DistinctKeys(items, key)
  {
    forall i | 0 <= i < |items| ensures key(items[i]) != "" {
      assert (items + more)[i] == items[i];
    }
    forall i, j | 0 <= i < j < |items| ensures key(items[i]) != key(items[j]) {
      assert (items + more)[i] == items[i] && (items + more)[j] == items[j];
    }
  }

  /** No item may lack a key or repeat one. */
  method CheckKeys<T>(items: seq<T>, key: T -> string, seen: set<string>, ghost before: seq<T>) returns (ok: bool, seen': set<string>)
    requires DistinctKeys(before, key) && seen == KeysOf(before, key)
    ensures ok <==> DistinctKeys(before + items, key)
    ensures ok ==> seen' == KeysOf(before + items, key)
  {
    ok, seen' := true, seen;
    var i := 0;
    assert before + items[..0] == before;
    while i < |items| && ok
      invariant 0 <= i <= |items|
      invariant ok <==> DistinctKeys(before + items[..i], key)
      invariant ok ==> seen' == KeysOf(before + items[..i], key)
    {
      ghost var sofar := before + items[..i];
      DistinctNext(sofar, items[i], key);
      assert before + items[..i + 1] == sofar + [items[i]];
      ok := key(items[i]) != "" && key(items[i]) !in seen';
      seen' := seen' + {key(items[i])};
      i := i + 1;
    }
    assert before + items == before + items[..i] + items[i..];
    if !ok && DistinctKeys(before + items, key) {
      DistinctPrefix(before + items[..i], items[i..], key);
    }
    assert i == |items| ==> items[..i] == items;
  }

  datatype Verdict = Rejected | More | Done

  /** What a reader knows after some accepted pages. */
  ghost predicate ReadSoFar<T>(pages: seq<Page<T>>, pageSize: nat, key: T -> string, start: int, expected: int, seen: set<string>) {
    && Unfinished(pages, pageSize) && DistinctKeys(Items(pages), key)
    && start == |Items(pages)| && expected == Expected(pages) && seen == KeysOf(Items(pages), key)
  }

  /** The page carries the list on, or ends it. */
  ghost predicate Acceptable<T>(pages: seq<Page<T>>, r: Response<T>, pageSize: nat, key: T -> string) {
    && r.Got?
    && var next := pages + [r.page];
       && Fits(next, |pages|, pageSize) && DistinctKeys(Items(next), key)
       && (Continues(next, |pages|, pageSize) || Ends(next, |pages|, pageSize))
  }

  lemma UnfinishedNext<T>(pages: seq<Page<T>>, p: Page<T>, pageSize: nat)
    requires Unfinished(pages, pageSize)
    requires var next := pages + [p]; Fits(next, |pages|, pageSize) && Continues(next, |pages|, pageSize)
    ensures Unfinished(pages + [p], pageSize)
  {
    var next := pages + [p];
    forall i | 0 <= i < |next| ensures Fits(next, i, pageSize) && Continues(next, i, pageSize) {
      if i < |pages| {
        PrefixSame(next, |pages|, i, pageSize);
        assert next[..|pages|] == pages;
      }
    }
  }

  method ReadPage<T>(r: Response<T>, pageSize: nat, key: T -> string, start: int, expected: int, seen: set<string>, ghost pages: seq<Page<T>>)
    returns (verdict: Verdict, expected': int, seen': set<string>)
    requires pageSize > 0 && ReadSoFar(pages, pageSize, key, start, expected, seen)
    ensures verdict.Rejected? <==> !Acceptable(pages, r, pageSize, key)
    ensures verdict.Done? ==> Ends(pages + [r.page], |pages|, pageSize)
    ensures verdict.More? ==> ReadSoFar(pages + [r.page], pageSize, key, start + |r.page.items|, expected', seen')
  {
    verdict, expected', seen' := Rejected, expected, seen;
    if r.Got? {
      var p := r.page;
      CheckIsExact(pages, p, pageSize);
      ItemsNext(pages, p);
      var check := PageComplete(start, pageSize, |p.items|, p.size, p.offset, p.total, expected);
      if check.Some? {
        var ok;
        ok, seen' := CheckKeys(p.items, key, seen, Items(pages));
        if ok {
          expected' := check.value.1;
          verdict := if check.value.0 then Done else More;
          if verdict.More? {
            UnfinishedNext(pages, p, pageSize);
          }
        }
      }
    }
  }

  lemma AnswersNext<T>(responses: seq<Response<T>>, pages: seq<Page<T>>)
    requires Answers(responses, pages) && |pages| < |responses| && responses[|pages|].Got?
    ensures Answers(responses, pages + [responses[|pages|].page])
  {
  }

  lemma SamePrefix<T>(responses: seq<Response<T>>, pages: seq<Page<T>>, other: seq<Page<T>>)
    requires Answers(responses, pages) && Answers(responses, other) && |pages| <= |other|
    ensures other[..|pages|] == pages
  {
    forall i | 0 <= i < |pages| ensures other[i] == pages[i] {
      assert responses[i] == Got(pages[i]) && responses[i] == Got(other[i]);
    }
  }

  /** Pages that only continue are not a complete list, nor is any part of them. */
  lemma StillUnfinished<T>(responses: seq<Response<T>>, pages: seq<Page<T>>, other: seq<Page<T>>, pageSize: nat)
    requires Answers(responses, pages) && Unfinished(pages, pageSize) && Answers(responses, other) && |other| <= |pages|
    ensures !Complete(other, pageSize)
  {
    if |other| > 0 {
      SamePrefix(responses, other, pages);
      PrefixSame(pages, |other|, |other| - 1, pageSize);
      assert Continues(pages, |other| - 1, pageSize);
    }
  }

  lemma {:induction false} ItemsPrefix<T>(pages: seq<Page<T>>, n: nat)
    requires n <= |pages|
    ensures exists more: seq<T> :: Items(pages) == Items(pages[..n]) + more
    decreases |pages|
  {
    if n == |pages| {
      assert pages[..n] == pages && Items(pages) == Items(pages[..n]) + [];
    } else {
      var m := |pages| - 1;
      ItemsPrefix(pages[..m], n);
      assert pages[..m][..n] == pages[..n];
      var more :| Items(pages[..m]) == Items(pages[..n]) + more;
      assert Items(pages) == Items(pages[..n]) + (more + pages[m].items);
    }
  }

  lemma DistinctInPrefix<T>(pages: seq<Page<T>>, n: nat, key: T -> string)
    requires n <= |pages| && DistinctKeys(Items(pages), key)
    ensures DistinctKeys(Items(pages[..n]), key)
  {
    ItemsPrefix(pages, n);
    var more :| Items(pages) == Items(pages[..n]) + more;
    DistinctPrefix(Items(pages[..n]), more, key);
  }

  lemma CompleteFits<T>(pages: seq<Page<T>>, n: nat, pageSize: nat)
    requires Complete(pages, pageSize) && n < |pages|
    ensures Fits(pages, n, pageSize) && (Continues(pages, n, pageSize) || Ends(pages, n, pageSize))
  {
    if n < |pages| - 1 {
      PrefixSame(pages, |pages| - 1, n, pageSize);
      assert Fits(pages[..|pages| - 1], n, pageSize);
    }
  }

  lemma CompleteExtends<T>(pages: seq<Page<T>>, n: nat, pageSize: nat, next: seq<Page<T>>)
    requires Complete(pages, pageSize) && n < |pages| && next == pages[..n + 1]
    ensures Fits(next, n, pageSize) && (Continues(next, n, pageSize) || Ends(next, n, pageSize))
  {
    CompleteFits(pages, n, pageSize);
    PrefixSame(pages, n + 1, n, pageSize);
  }

  /** Once a page is rejected, or the bound is reached, these responses list nothing. */
  lemma RejectedListsNothing<T(!new)>(responses: seq<Response<T>>, pages: seq<Page<T>>, pageSize: nat, key: T -> string, items: seq<T>)
    requires Answers(responses, pages) && Unfinished(pages, pageSize)
    requires |pages| >= PAGE_BOUND || |pages| == |responses| || !Acceptable(pages, responses[|pages|], pageSize, key)
    ensures !Lists(responses, pageSize, key, items)
  {
    hide Items, Fits, Continues, Ends, DistinctKeys;
    if Lists(responses, pageSize, key, items) {
      var other: seq<Page<T>> :| Answers(responses, other) && Complete(other, pageSize) && items == Items(other) && DistinctKeys(items, key);
      if |other| <= |pages| {
        StillUnfinished(responses, pages, other, pageSize);
      } else {
        SamePrefix(responses, pages, other);
        var n := |pages|;
        var next := pages + [other[n]];
        assert other[..n + 1] == next;
        DistinctInPrefix(other, n + 1, key);
        CompleteExtends(other, n, pageSize, next);
      }
    }
  }

  lemma DoneLists<T(!new)>(responses: seq<Response<T>>, pages: seq<Page<T>>, pageSize: nat, key: T -> string)
    requires Answers(responses, pages) && Unfinished(pages, pageSize) && |pages| < PAGE_BOUND && |pages| < |responses|
    requires Acceptable(pages, responses[|pages|], pageSize, key) && Ends(pages + [responses[|pages|].page], |pages|, pageSize)
    ensures Lists(responses, pageSize, key, Items(pages + [responses[|pages|].page]))
  {
    hide Items, DistinctKeys;
    var next := pages + [responses[|pages|].page];
    assert next[..|pages|] == pages;
    assert Answers(responses, next) && Complete(next, pageSize);
  }
}
