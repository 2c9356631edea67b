/**
 * The list view the page derives on every render: the todos kept by the
 * current filter, the page count, and the slice shown for the current page.
 * The page slice follows JavaScript's `Array.prototype.slice`, negative
 * indices included, because the current page can become 0 (see NextPage).
 */
module ListView {
  import opened Records

  /** Todos shown per page. */
  const ItemsPerPage: nat := 5

  function Min(a: int, b: int): int { if a <= b then a else b }
  function Max(a: int, b: int): int { if a <= b then b else a }

  /** Whether a todo passes the filter; any value other than the two named ones keeps every todo. */
  predicate Keeps(filter: string, t: Todo)
    ensures filter == "completed" || filter == "uncompleted" ==>
      (Keeps(filter, t) <==> (t.completed <==> filter == "completed"))
    ensures !Keeps(filter, t) ==> filter == "completed" || filter == "uncompleted"
  {
    if filter == "completed" then t.completed
    else if filter == "uncompleted" then !t.completed
    else true
  }

  /** `todos.filter(...)`: the kept todos, in list order. */
  function Filtered(s: seq<Todo>, filter: string): (r: seq<Todo>)
    ensures |r| <= |s|
    ensures forall k :: 0 <= k < |r| ==> Keeps(filter, r[k])
  {
    if |s| == 0 then []
    else (if Keeps(filter, s[0]) then [s[0]] else []) + Filtered(s[1..], filter)
  }

  lemma {:induction false} FilteredConcat(a: seq<Todo>, b: seq<Todo>, filter: string)
    ensures Filtered(a + b, filter) == Filtered(a, filter) + Filtered(b, filter)
  {
    if |a| == 0 {
      assert a + b == b;
    } else {
      assert (a + b)[1..] == a[1..] + b;
      FilteredConcat(a[1..], b, filter);
    }
  }

  /** The positions of `s` at or after `lo` whose todos pass the filter, in increasing order. */
  function KeptPositions(s: seq<Todo>, filter: string, lo: nat): (r: seq<nat>)
    requires lo <= |s|
    ensures forall i :: 0 <= i < |r| ==> lo <= r[i] < |s| && Keeps(filter, s[r[i]])
    ensures forall i, j :: 0 <= i < j < |r| ==> r[i] < r[j]
    decreases |s| - lo
  {
    if lo == |s| then []
    else (if Keeps(filter, s[lo]) then [lo] else []) + KeptPositions(s, filter, lo + 1)
  }

  /** No passing position is missed. */
  lemma {:induction false} KeptPositionsComplete(s: seq<Todo>, filter: string, lo: nat, k: nat)
    requires lo <= k < |s| && Keeps(filter, s[k])
    ensures k in KeptPositions(s, filter, lo)
    decreases |s| - lo
  {
    if lo < k {
      KeptPositionsComplete(s, filter, lo + 1, k);
    }
  }

  /**
   * The filter is exactly "pick the kept positions in order": the i-th
   * filtered todo is the todo at the i-th kept position.
   */
  lemma {:induction false} FilteredIsKeptPositions(s: seq<Todo>, filter: string, lo: nat)
    requires lo <= |s|
    ensures var ps := KeptPositions(s, filter, lo);
      |Filtered(s[lo..], filter)| == |ps| &&
      forall i :: 0 <= i < |ps| ==> Filtered(s[lo..], filter)[i] == s[ps[i]]
    decreases |s| - lo
  {
    if lo < |s| {
      var head := if Keeps(filter, s[lo]) then [lo] else [];
      var rest, tail := KeptPositions(s, filter, lo + 1), Filtered(s[lo + 1..], filter);
      assert s[lo..][1..] == s[lo + 1..];
      assert KeptPositions(s, filter, lo) == head + rest;
      var here := if Keeps(filter, s[lo]) then [s[lo]] else [];
      assert Filtered(s[lo..], filter) == here + tail;
      FilteredIsKeptPositions(s, filter, lo + 1);
      var ps, fs := head + rest, here + tail;
      forall i | 0 <= i < |ps| ensures fs[i] == s[ps[i]] {
        if i < |head| {
          assert ps[i] == lo && fs[i] == s[lo];
        } else {
          assert ps[i] == rest[i - |head|] && fs[i] == tail[i - |head|];
        }
      }
    }
  }

  /** With any filter value other than "completed" and "uncompleted" nothing is dropped. */
  lemma {:induction false} FilteredOtherKeepsAll(s: seq<Todo>, filter: string)
    requires filter != "completed" && filter != "uncompleted"
    ensures Filtered(s, filter) == s
  {
    if |s| > 0 {
      FilteredOtherKeepsAll(s[1..], filter);
      assert s == [s[0]] + s[1..];
    }
  }

  /** "completed" and "uncompleted" split the list: each todo is shown under exactly one of them. */
  lemma {:induction false} CompletedSplit(s: seq<Todo>)
    ensures |Filtered(s, "completed")| + |Filtered(s, "uncompleted")| == |s|
    ensures multiset(Filtered(s, "completed")) + multiset(Filtered(s, "uncompleted")) == multiset(s)
  {
    if |s| > 0 {
      var done, open := Filtered(s, "completed"), Filtered(s, "uncompleted");
      var done', open' := Filtered(s[1..], "completed"), Filtered(s[1..], "uncompleted");
      CompletedSplit(s[1..]);
      assert s == [s[0]] + s[1..];
      assert multiset(s) == multiset{s[0]} + multiset(s[1..]);
      if s[0].completed {
        assert done == [s[0]] + done';
        assert open == open';
      } else {
        assert done == done';
        assert open == [s[0]] + open';
      }
    }
  }

  /** `Math.ceil(n / ITEMS_PER_PAGE)`. */
  function TotalPages(n: nat): (r: nat)
    ensures n <= r * ItemsPerPage
    ensures r == 0 || (r - 1) * ItemsPerPage < n
    ensures r == 0 <==> n == 0
  {
    (n + ItemsPerPage - 1) / ItemsPerPage
  }

  /** JavaScript's resolution of a `slice` bound against a length `n`. */
  function ResolveIndex(i: int, n: nat): (r: nat)
    ensures r <= n
    ensures 0 <= i ==> r == Min(i, n)
    ensures i < 0 ==> r == Max(n + i, 0)
  {
    if i < 0 then (if n + i < 0 then 0 else n + i)
    else if i > n then n
    else i
  }

  /** `s.slice(start, end)`. */
  function JsSlice(s: seq<Todo>, start: int, end: int): (r: seq<Todo>)
    ensures 0 <= start <= end ==> r == s[Min(start, |s|)..Min(end, |s|)]
    ensures start <= end ==> |r| <= end - start
  {
    var lo, hi := ResolveIndex(start, |s|), ResolveIndex(end, |s|);
    if lo < hi then s[lo..hi] else []
  }

  /** `filteredTodos.slice((currentPage - 1) * 5, currentPage * 5)`. */
  function PageSlice(s: seq<Todo>, page: int): (r: seq<Todo>)
    ensures |r| <= ItemsPerPage
    ensures 1 <= page ==> r == s[Min((page - 1) * ItemsPerPage, |s|)..Min(page * ItemsPerPage, |s|)]
    ensures page == 0 ==> r == []
    ensures page > TotalPages(|s|) ==> r == []
    ensures 1 <= page <= TotalPages(|s|) ==> r != []
  {
    JsSlice(s, (page - 1) * ItemsPerPage, page * ItemsPerPage)
  }

  /** Pages 1 to k, one after the other. */
  function FirstPages(s: seq<Todo>, k: nat): seq<Todo> {
    if k == 0 then [] else FirstPages(s, k - 1) + PageSlice(s, k)
  }

  /** The pages 1..TotalPages, read in order, are the filtered list: nothing is skipped or repeated. */
  lemma {:induction false} PagesCoverList(s: seq<Todo>)
    ensures FirstPages(s, TotalPages(|s|)) == s
  {
    PagesPrefix(s, TotalPages(|s|));
    assert s[..|s|] == s;
  }

  lemma {:induction false} PagesPrefix(s: seq<Todo>, k: nat)
    ensures FirstPages(s, k) == s[..Min(k * ItemsPerPage, |s|)]
  {
    if k > 0 {
      PagesPrefix(s, k - 1);
      var a, b := Min((k - 1) * ItemsPerPage, |s|), Min(k * ItemsPerPage, |s|);
      assert s[..a] + s[a..b] == s[..b];
    }
  }

  /** Previous: `Math.max(1, page - 1)`. */
  function PrevPage(page: int): (r: int)
    ensures r >= 1
    ensures page >= 2 ==> r == page - 1
    ensures page <= 1 ==> r == 1
  {
    Max(1, page - 1)
  }

  /** Next: `Math.min(totalPages, page + 1)`. */
  function NextPage(page: int, totalPages: nat): (r: int)
    ensures r <= totalPages
    ensures page < totalPages ==> r == page + 1
    ensures page >= totalPages ==> r == totalPages
  {
    Min(totalPages, page + 1)
  }

  /** Previous is disabled exactly on page 1, the one page where clicking it would not move. */
  predicate PrevEnabled(page: int)
    ensures !PrevEnabled(page) <==> PrevPage(page) == page
    ensures page >= 2 ==> PrevEnabled(page)
  {
    page != 1
  }

  /** Next is disabled exactly when the page equals the page count, the one page where clicking it would not move. */
  predicate NextEnabled(page: int, totalPages: nat)
    ensures !NextEnabled(page, totalPages) <==> NextPage(page, totalPages) == page
    ensures page < totalPages ==> NextEnabled(page, totalPages)
  {
    page != totalPages
  }

  /** From a page in range, an enabled button moves exactly one page and stays in range. */
  lemma NavigationInRange(page: int, totalPages: nat)
    requires 1 <= page <= totalPages
    ensures PrevEnabled(page) ==> PrevPage(page) == page - 1 && 1 <= PrevPage(page) <= totalPages
    ensures NextEnabled(page, totalPages) ==> NextPage(page, totalPages) == page + 1 && 1 <= NextPage(page, totalPages) <= totalPages
  {
  }

  /** The buttons never take the page below 0 from a page at or above 0. */
  lemma NavigationNonNegative(page: int, totalPages: nat)
    requires 0 <= page
    ensures 1 <= PrevPage(page)
    ensures 0 <= NextPage(page, totalPages)
  {
  }

  /**
   * With nothing to show (0 pages) on page 1, Next is still enabled and takes
   * the page to 0; the table stays empty and Previous leads back to page 1.
   */
  lemma EmptyListNextGoesToZero(s: seq<Todo>)
    requires |s| == 0
    ensures NextEnabled(1, TotalPages(|s|)) && NextPage(1, TotalPages(|s|)) == 0
    ensures PageSlice(s, 0) == [] && PrevEnabled(0) && PrevPage(0) == 1
  {
  }

  /** Twelve todos on page 3: the last two todos are shown and Next is disabled. */
  lemma TwelveTodosPageThree(s: seq<Todo>)
    requires |s| == 12
    ensures TotalPages(|s|) == 3
    ensures PageSlice(s, 3) == s[10..12]
    ensures !NextEnabled(3, TotalPages(|s|))
  {
  }
}
