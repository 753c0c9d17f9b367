/**
 * The catalog view: the product list held in memory, the case-insensitive
 * search that filters it, the fixed-size page shown from the filtered list,
 * delete and edit, and logout.
 */
module Dashboard {

  import opened Wrappers
  import opened Storage
  import opened ProductCard
  import Pagination

  /** The page size; the page never changes it. */
  const ItemsPerPage: nat := 9

  // ---------------------------------------------------------------------
  // Array.prototype.filter
  // ---------------------------------------------------------------------

  /** The elements of s that `keep` accepts, in their original order. */
  function Filter<T>(s: seq<T>, keep: T -> bool): seq<T>
    decreases |s|
  {
    if s == [] then []
    else (if keep(s[0]) then [s[0]] else []) + Filter(s[1..], keep)
  }

  /** a can be obtained from b by deleting elements, without reordering what is left. */
  ghost predicate IsSubsequence<T>(a: seq<T>, b: seq<T>)
    decreases |b|
  {
    if a == [] then true
    else if b == [] then false
    else (a[0] == b[0] && IsSubsequence(a[1..], b[1..])) || IsSubsequence(a, b[1..])
  }

  /** An element survives the filter iff it was in the list and is accepted. */
  lemma {:induction false} FilterMembers<T>(s: seq<T>, keep: T -> bool, x: T)
    ensures x in Filter(s, keep) <==> x in s && keep(x)
    decreases |s|
  {
    if s != [] {
      FilterMembers(s[1..], keep, x);
      assert s == [s[0]] + s[1..];
    }
  }

  /** The filtered list keeps the original order: it is a subsequence of its input. */
  lemma {:induction false} FilterIsSubsequence<T>(s: seq<T>, keep: T -> bool)
    ensures IsSubsequence(Filter(s, keep), s)
    decreases |s|
  {
    if s != [] {
      FilterIsSubsequence(s[1..], keep);
      var rest := Filter(s[1..], keep);
      if keep(s[0]) {
        assert Filter(s, keep) == [s[0]] + rest;
        assert ([s[0]] + rest)[1..] == rest;
      } else {
        assert Filter(s, keep) == rest;
        SubsequenceOfTail(rest, s);
      }
    }
  }

  lemma SubsequenceOfTail<T>(a: seq<T>, b: seq<T>)
    requires b != [] && IsSubsequence(a, b[1..])
    ensures IsSubsequence(a, b)
  {
  }

  /** When every element is accepted, the filter returns its input unchanged. */
  lemma {:induction false} FilterKeepsAll<T>(s: seq<T>, keep: T -> bool)
    requires forall i :: 0 <= i < |s| ==> keep(s[i])
    ensures Filter(s, keep) == s
    decreases |s|
  {
    if s != [] {
      assert keep(s[0]);
      FilterKeepsAll(s[1..], keep);
      assert s == [s[0]] + s[1..];
    }
  }

  /** Filtering keeps every copy of an accepted element and no copy of a rejected one. */
  lemma {:induction false} FilterCount<T>(s: seq<T>, keep: T -> bool, x: T)
    ensures multiset(Filter(s, keep))[x] == if keep(x) then multiset(s)[x] else 0
    decreases |s|
  {
    if s != [] {
      FilterCount(s[1..], keep, x);
      assert s == [s[0]] + s[1..];
      assert Filter(s, keep) == (if keep(s[0]) then [s[0]] else []) + Filter(s[1..], keep);
    }
  }

  lemma {:induction false} FilterLength<T>(s: seq<T>, keep: T -> bool)
    ensures |Filter(s, keep)| <= |s|
    decreases |s|
  {
    if s != [] {
      FilterLength(s[1..], keep);
    }
  }

  // ---------------------------------------------------------------------
  // The search: toLowerCase and String.prototype.includes
  // ---------------------------------------------------------------------

  /** toLowerCase on one character, for the ASCII letters. */
  function LowerChar(c: char): char
  {
    if 'A' <= c <= 'Z' then (c as int + 32) as char else c
  }

  /** toLowerCase on a string: character by character, so the length is kept. */
  function ToLower(s: string): (lowered: string)
    ensures |lowered| == |s|
  {
    seq(|s|, i requires 0 <= i < |s| => LowerChar(s[i]))
  }

  /** needle occurs in hay starting at index i. */
  ghost predicate OccursAt(hay: string, needle: string, i: int)
  {
    0 <= i && i + |needle| <= |hay| && hay[i..i + |needle|] == needle
  }

  /** Whether needle occurs in hay at index `from` or later. */
  function IncludesFrom(hay: string, needle: string, from: nat): (found: bool)
    ensures found <==> exists i :: from <= i && OccursAt(hay, needle, i)
    decreases |hay| - from
  {
    if from + |needle| > |hay| then false
    else if hay[from..from + |needle|] == needle then assert OccursAt(hay, needle, from); true
    else IncludesFrom(hay, needle, from + 1)
  }

  /** String.prototype.includes: needle occurs somewhere in hay. */
  function Includes(hay: string, needle: string): (found: bool)
    ensures found <==> exists i :: OccursAt(hay, needle, i)
  {
    IncludesFrom(hay, needle, 0)
  }

  /** The empty string occurs in every string. */
  lemma IncludesEmpty(hay: string)
    ensures Includes(hay, "")
  {
    assert OccursAt(hay, "", 0);
  }

  predicate MatchesQuery(product: Product, query: string)
  {
    Includes(ToLower(product.title), ToLower(query))
  }

  /** filteredProducts: the products whose lowercased title contains the lowercased query. */
  function FilterProducts(products: seq<Product>, query: string): (filtered: seq<Product>)
    ensures |filtered| <= |products|
  {
    FilterLength(products, p => MatchesQuery(p, query));
    Filter(products, p => MatchesQuery(p, query))
  }

  /**
   * The filtered list is the order-preserving subsequence of the products
   * whose lowercased title contains the lowercased query, each such product
   * kept as many times as it occurs.
   */
  lemma FilteredProductsSpec(products: seq<Product>, query: string)
    ensures IsSubsequence(FilterProducts(products, query), products)
    ensures forall p :: p in FilterProducts(products, query) <==> p in products && MatchesQuery(p, query)
    ensures forall p :: multiset(FilterProducts(products, query))[p] ==
                        if MatchesQuery(p, query) then multiset(products)[p] else 0
    ensures |FilterProducts(products, query)| <= |products|
  {
    var keep := (p: Product) => MatchesQuery(p, query);
    FilterIsSubsequence(products, keep);
    forall p ensures p in FilterProducts(products, query) <==> p in products && MatchesQuery(p, query) {
      FilterMembers(products, keep, p);
    }
    forall p ensures multiset(FilterProducts(products, query))[p] ==
                     if MatchesQuery(p, query) then multiset(products)[p] else 0 {
      FilterCount(products, keep, p);
    }
    FilterLength(products, keep);
  }

  /** With an empty query every product is shown. */
  lemma EmptyQueryShowsAll(products: seq<Product>)
    ensures FilterProducts(products, "") == products
  {
    assert ToLower("") == "";
    forall i | 0 <= i < |products| ensures MatchesQuery(products[i], "") {
      IncludesEmpty(ToLower(products[i].title));
    }
    FilterKeepsAll(products, p => MatchesQuery(p, ""));
  }

  // ---------------------------------------------------------------------
  // Array.prototype.slice and the page shown
  // ---------------------------------------------------------------------

  /** How slice reads one bound: a negative bound counts from the end; then it is clamped to 0..len. */
  function SliceBound(bound: int, len: nat): (k: nat)
    ensures k <= len
    ensures 0 <= bound ==> k == if bound <= len then bound else len
  {
    if bound < 0 then (if len + bound < 0 then 0 else len + bound)
    else if bound > len then len
    else bound
  }

  /** s.slice(begin, end): the items between the two bounds as slice reads them, or none when they cross. */
  function Slice<T>(s: seq<T>, begin: int, end: int): seq<T>
  {
    var b := SliceBound(begin, |s|);
    var e := SliceBound(end, |s|);
    if b < e then s[b..e] else []
  }

  function Min(a: int, b: int): int { if a <= b then a else b }

  /** A window of `count` items from `start` on, read as slice(start, start + count). */
  function Window<T>(s: seq<T>, start: int, count: nat): (shown: seq<T>)
    ensures |shown| <= count
    ensures 0 <= start ==> shown == s[Min(start, |s|)..Min(start + count, |s|)]
  {
    Slice(s, start, start + count)
  }

  /** The index of a page's first item: startIndex = (currentPage - 1) * itemsPerPage. */
  function PageStart(page: int, perPage: nat): int
  {
    (page - 1) * perPage
  }

  /** Consecutive pages start perPage apart, and page 1 onwards start at a non-negative index. */
  lemma PageStartStep(page: int, perPage: nat)
    ensures PageStart(page + 1, perPage) == PageStart(page, perPage) + perPage
    ensures page >= 1 ==> PageStart(page, perPage) >= 0
  {
  }

  /** paginatedProducts: the window of perPage items starting at the page's first index. */
  function PageSlice<T>(s: seq<T>, page: int, perPage: nat): (shown: seq<T>)
    ensures |shown| <= perPage
  {
    Window(s, PageStart(page, perPage), perPage)
  }

  /**
   * For every page from 1 on, the page shown is the plain slice
   * filtered[start .. min(start + perPage, |filtered|)]; it is empty once
   * start reaches the end of the list.
   */
  lemma PageSliceSpec<T>(s: seq<T>, page: int, perPage: nat)
    requires page >= 1
    ensures PageSlice(s, page, perPage) ==
            s[Min(PageStart(page, perPage), |s|)..Min(PageStart(page, perPage) + perPage, |s|)]
    ensures PageStart(page, perPage) >= |s| ==> PageSlice(s, page, perPage) == []
  {
    PageStartStep(page, perPage);
  }

  /** The pages 1..m shown one after another. */
  function PagesUpTo<T>(s: seq<T>, perPage: nat, m: nat): seq<T>
  {
    if m == 0 then [] else PagesUpTo(s, perPage, m - 1) + PageSlice(s, m, perPage)
  }

  /** One more page extends the shown prefix up to the start of the page after it. */
  lemma PagesUpToStep<T>(s: seq<T>, perPage: nat, m: nat)
    requires m > 0
    requires PagesUpTo(s, perPage, m - 1) == s[..Min(PageStart(m, perPage), |s|)]
    ensures PagesUpTo(s, perPage, m) == s[..Min(PageStart(m + 1, perPage), |s|)]
  {
    PageStartStep(m, perPage);
    PageSliceSpec(s, m, perPage);
    var lo := Min(PageStart(m, perPage), |s|);
    var hi := Min(PageStart(m + 1, perPage), |s|);
    assert s[..lo] + s[lo..hi] == s[..hi];
  }

  /** The first m pages together are the items before page m + 1 starts (or all of them). */
  lemma {:induction false} PagesUpToPrefix<T>(s: seq<T>, perPage: nat, m: nat)
    ensures PagesUpTo(s, perPage, m) == s[..Min(PageStart(m + 1, perPage), |s|)]
  {
    if m > 0 {
      PagesUpToPrefix(s, perPage, m - 1);
      assert m - 1 + 1 == m;
      PagesUpToStep(s, perPage, m);
    }
  }

  /** Concatenating pages 1..ceil(n / perPage) gives back the whole filtered list. */
  lemma PagesCoverAll<T>(s: seq<T>, perPage: nat)
    requires perPage > 0
    ensures PagesUpTo(s, perPage, Pagination.PageCount(|s|, perPage)) == s
  {
    var n := Pagination.PageCount(|s|, perPage);
    PagesUpToPrefix(s, perPage, n);
    assert PageStart(n + 1, perPage) == n * perPage;
  }

  /** Item i of the list is shown on page i / perPage + 1, at position i % perPage: the pages partition the list. */
  lemma ItemOnItsPage<T>(s: seq<T>, perPage: nat, i: nat)
    requires perPage > 0 && i < |s|
    ensures i % perPage < |PageSlice(s, i / perPage + 1, perPage)|
    ensures PageSlice(s, i / perPage + 1, perPage)[i % perPage] == s[i]
  {
    var q, r := i / perPage, i % perPage;
    var page := q + 1;
    var start := PageStart(page, perPage);
    assert start == q * perPage;
    assert start + r == i;
    PageSliceSpec(s, page, perPage);
    var shown := PageSlice(s, page, perPage);
    assert shown == s[start..Min(start + perPage, |s|)];
    assert shown[r] == s[start + r];
  }

  /** Every page the pagination control offers holds at least one item. */
  lemma OfferedPageNotEmpty<T>(s: seq<T>, perPage: nat, page: int)
    requires perPage > 0 && 1 <= page <= Pagination.PageCount(|s|, perPage)
    ensures |PageSlice(s, page, perPage)| > 0
  {
    var n := Pagination.PageCount(|s|, perPage);
    Pagination.MulMonotone(page - 1, n - 1, perPage);
    PageSliceSpec(s, page, perPage);
  }

  /**
   * currentPage is never clamped: when it lies past the last page, the page
   * shows nothing and no pagination button is active.
   */
  lemma StalePageShowsNothing<T>(s: seq<T>, perPage: nat, page: int)
    requires perPage > 0 && page > Pagination.PageCount(|s|, perPage)
    ensures PageSlice(s, page, perPage) == []
    ensures forall i :: 0 <= i < |Pagination.PageButtons(|s|, perPage, page)| ==>
              !Pagination.PageButtons(|s|, perPage, page)[i].active
  {
    var n := Pagination.PageCount(|s|, perPage);
    Pagination.MulMonotone(n, page - 1, perPage);
    PageSliceSpec(s, page, perPage);
    Pagination.ActiveButton(|s|, perPage, page);
  }

  // ---------------------------------------------------------------------
  // Delete
  // ---------------------------------------------------------------------

  /** The list after a confirmed delete: every product whose id differs, in order. */
  function RemoveProduct(products: seq<Product>, productId: int): (remaining: seq<Product>)
    ensures |remaining| <= |products|
  {
    FilterLength(products, (p: Product) => p.id != productId);
    Filter(products, (p: Product) => p.id != productId)
  }

  /**
   * A delete removes exactly the products carrying that id (all of them, if
   * ids repeat) and keeps every copy of the rest, in order; an absent id
   * changes nothing.
   */
  lemma RemoveProductSpec(products: seq<Product>, productId: int)
    ensures IsSubsequence(RemoveProduct(products, productId), products)
    ensures forall p :: p in RemoveProduct(products, productId) <==> p in products && p.id != productId
    ensures forall p :: multiset(RemoveProduct(products, productId))[p] ==
                        if p.id != productId then multiset(products)[p] else 0
    ensures (forall i :: 0 <= i < |products| ==> products[i].id != productId) ==>
              RemoveProduct(products, productId) == products
  {
    var keep := (p: Product) => p.id != productId;
    FilterIsSubsequence(products, keep);
    forall p ensures p in RemoveProduct(products, productId) <==> p in products && p.id != productId {
      FilterMembers(products, keep, p);
    }
    forall p ensures multiset(RemoveProduct(products, productId))[p] ==
                     if p.id != productId then multiset(products)[p] else 0 {
      FilterCount(products, keep, p);
    }
    if forall i :: 0 <= i < |products| ==> products[i].id != productId {
      FilterKeepsAll(products, keep);
    }
  }

  // ---------------------------------------------------------------------
  // The page's state and its handlers
  // ---------------------------------------------------------------------

  class DashboardPage {
    var products: seq<Product>
    var searchQuery: string
    var currentPage: int

    /** currentPage starts at 1 and is only ever set from a pagination button. */
    ghost predicate Valid()
      reads this
    {
      currentPage >= 1
    }

    constructor ()
      ensures Valid()
      ensures products == [] && searchQuery == "" && currentPage == 1
    {
      products := [];
      searchQuery := "";
      currentPage := 1;
    }

    function FilteredProducts(): (filtered: seq<Product>)
      reads this
      ensures IsSubsequence(filtered, products)
    {
      FilteredProductsSpec(products, searchQuery);
      FilterProducts(products, searchQuery)
    }

    /**
     * The current page of the filtered view: the items from index
     * (currentPage - 1) * 9 up to nine further on, cut at the end of the list.
     */
    function PaginatedProducts(): (shown: seq<Product>)
      requires Valid()
      reads this
      ensures |shown| <= ItemsPerPage
      ensures var filtered := FilteredProducts();
              var start := (currentPage - 1) * ItemsPerPage;
              shown == filtered[Min(start, |filtered|)..Min(start + ItemsPerPage, |filtered|)]
    {
      PageSliceSpec(FilteredProducts(), currentPage, ItemsPerPage);
      PageSlice(FilteredProducts(), currentPage, ItemsPerPage)
    }

    /** The initial fetch: the response's product list, or the empty list when it has none. */
    method ReceiveProducts(fetched: Option<seq<Product>>)
      requires Valid()
      modifies this
      ensures Valid()
      ensures products == (match fetched case Some(list) => list case None => [])
      ensures searchQuery == old(searchQuery) && currentPage == old(currentPage)
    {
      products := match fetched case Some(list) => list case None => [];
    }

    /** Typing in the search box: only the query changes; the current page is not reset. */
    method HandleSearchChange(query: string)
      requires Valid()
      modifies this
      ensures Valid()
      ensures searchQuery == query
      ensures products == old(products) && currentPage == old(currentPage)
    {
      searchQuery := query;
    }

    /** A click on the pagination button at `index` selects its page. */
    method SelectPage(index: nat)
      requires Valid()
      requires index < |Pagination.PageButtons(|FilteredProducts()|, ItemsPerPage, currentPage)|
      modifies this
      ensures Valid()
      ensures currentPage == index + 1
      ensures 1 <= currentPage <= Pagination.PageCount(|FilteredProducts()|, ItemsPerPage)
      ensures products == old(products) && searchQuery == old(searchQuery)
    {
      var buttons := Pagination.PageButtons(|FilteredProducts()|, ItemsPerPage, currentPage);
      Pagination.ClickSelectsOfferedPage(|FilteredProducts()|, ItemsPerPage, currentPage, index);
      currentPage := Pagination.ClickedPage(buttons, index);
    }

    /**
     * handleDelete: when the visitor confirms, sends the remote delete and,
     * once the request completes (whatever its status), removes the product
     * locally; when the request fails at the network level the awaited call
     * throws and the list stays. When the visitor declines, nothing happens.
     * The current page is never adjusted.
     */
    method HandleDelete(productId: int, confirmed: bool, delivered: bool) returns (deleteRequest: Option<int>)
      requires Valid()
      modifies this
      ensures Valid()
      ensures confirmed ==> deleteRequest == Some(productId)
      ensures confirmed && delivered ==> products == RemoveProduct(old(products), productId)
      ensures confirmed && !delivered ==> products == old(products)
      ensures !confirmed ==> products == old(products) && deleteRequest == None
      ensures currentPage == old(currentPage) && searchQuery == old(searchQuery)
    {
      if confirmed {
        deleteRequest := Some(productId);
        if delivered {
          products := RemoveProduct(products, productId);
        }
      } else {
        deleteRequest := None;
      }
    }

    /** handleEdit: the dashboard's edit callback does nothing. */
    method HandleEdit(productId: int)
      ensures unchanged(this)
    {
    }

    /** handleLogout: empties the session slot; the user list stays. */
    method HandleLogout(store: LocalStore)
      modifies store
      ensures store.loggedUser == None
      ensures store.userData == old(store.userData)
    {
      store.loggedUser := None;
    }
  }
}
