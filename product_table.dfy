/**
 * ProductTable: the product and company catalogue table. Products are
 * filtered by a search text and four exact-match filters, companies by the
 * search text alone; the list of the active tab is cut into pages; and the
 * view state (tab, page, rows per page) is reset to the first page by the
 * handlers that change what is listed.
 */
module ProductTable {
  import opened Wrappers
  import opened Lists
  import opened Strings

  /** A product record of the catalogue; a field missing from the JSON is `None`. */
  datatype Product = Product(
    productCode: Option<string>,
    productName: Option<string>,
    companyName: Option<string>,
    categoryName: Option<string>,
    productType: Option<string>,
    sellStatus: Option<string>,
    policyPeriod: Option<string>,
    logo: Option<string>)

  /** A company record of the catalogue. */
  datatype Company = Company(
    code: Option<string>,
    name: Option<string>,
    region: Option<string>,
    desc: Option<string>,
    logo: Option<string>)

  /** The search text and the four filters the table receives from the search bar; `""` means "any". */
  datatype Criteria = Criteria(
    searchText: string,
    filterCompany: string,
    filterCategory: string,
    filterType: string,
    filterStatus: string)

  /** A row of the table: a product on tab 0, a company on any other tab. */
  datatype Row = ProductRow(product: Product) | CompanyRow(company: Company)

  const NoCriteria := Criteria("", "", "", "", "")

  /** `field?.toLowerCase().includes(search.toLowerCase())`: a missing field never matches. */
  predicate FieldMatches(field: Option<string>, search: string)
  {
    field.Some? && Includes(Lower(field.value), Lower(search))
  }

  /** `filter === '' || field === filter`. */
  predicate ExactMatch(filter: string, field: Option<string>)
  {
    filter == "" || field == Some(filter)
  }

  predicate ProductMatchesSearch(p: Product, search: string)
  {
    search == "" || FieldMatches(p.productName, search) || FieldMatches(p.productCode, search)
  }

  /** The predicate `filteredProducts` keeps a product by. */
  predicate ProductMatches(p: Product, c: Criteria)
  {
    && ProductMatchesSearch(p, c.searchText)
    && ExactMatch(c.filterCompany, p.companyName)
    && ExactMatch(c.filterCategory, p.categoryName)
    && ExactMatch(c.filterType, p.productType)
    && ExactMatch(c.filterStatus, p.sellStatus)
  }

  /** The predicate `filteredCompanies` keeps a company by: the search text against name, code or region. */
  predicate CompanyMatches(co: Company, search: string)
  {
    search == "" || FieldMatches(co.name, search) || FieldMatches(co.code, search) || FieldMatches(co.region, search)
  }

  /** `filteredProducts`: an order-preserving subsequence holding exactly the matching products. */
  function FilterProducts(products: seq<Product>, c: Criteria): (r: seq<Product>)
    ensures IsSubsequence(r, products)
    ensures forall p :: p in r <==> p in products && ProductMatches(p, c)
  {
    var keep := (p: Product) => ProductMatches(p, c);
    FilterIsSubsequence(products, keep);
    forall p ensures p in Filter(products, keep) <==> p in products && keep(p) {
      FilterMembership(products, keep, p);
    }
    Filter(products, keep)
  }

  /** `filteredCompanies`: depends on the search text only, as its signature shows. */
  function FilterCompanies(companies: seq<Company>, search: string): (r: seq<Company>)
    ensures IsSubsequence(r, companies)
    ensures forall co :: co in r <==> co in companies && CompanyMatches(co, search)
  {
    var keep := (co: Company) => CompanyMatches(co, search);
    FilterIsSubsequence(companies, keep);
    forall co ensures co in Filter(companies, keep) <==> co in companies && keep(co) {
      FilterMembership(companies, keep, co);
    }
    Filter(companies, keep)
  }

  /** A matching product is kept as many times as it occurs; any other product is dropped entirely. */
  lemma FilterProductsCount(products: seq<Product>, c: Criteria, p: Product)
    ensures multiset(FilterProducts(products, c))[p] == if ProductMatches(p, c) then multiset(products)[p] else 0
  {
    FilterCount(products, (q: Product) => ProductMatches(q, c), p);
  }

  /** A matching company is kept as many times as it occurs; any other company is dropped entirely. */
  lemma FilterCompaniesCount(companies: seq<Company>, search: string, co: Company)
    ensures multiset(FilterCompanies(companies, search))[co] == if CompanyMatches(co, search) then multiset(companies)[co] else 0
  {
    FilterCount(companies, (x: Company) => CompanyMatches(x, search), co);
  }

  /** A field matches a non-empty search exactly when the lower-cased search text occurs in the lower-cased field. */
  lemma FieldMatchesOccurrence(field: Option<string>, search: string)
    ensures FieldMatches(field, search) ==> field.Some? && exists i :: OccursAt(Lower(field.value), Lower(search), i)
    ensures field.Some? && (exists i :: OccursAt(Lower(field.value), Lower(search), i)) ==> FieldMatches(field, search)
  {
  }

  /** The search text matches a product exactly when it is empty or matches its name or its code. */
  lemma SearchMatchesOccurrence(p: Product, search: string)
    ensures ProductMatchesSearch(p, search) <==>
      || search == ""
      || (p.productName.Some? && exists i :: OccursAt(Lower(p.productName.value), Lower(search), i))
      || (p.productCode.Some? && exists i :: OccursAt(Lower(p.productCode.value), Lower(search), i))
  {
    FieldMatchesOccurrence(p.productName, search);
    FieldMatchesOccurrence(p.productCode, search);
  }

  /** With all five criteria empty every product is listed. */
  lemma {:induction false} NoCriteriaKeepsAllProducts(products: seq<Product>)
    ensures FilterProducts(products, NoCriteria) == products
  {
    FilterKeepsAll(products, (p: Product) => ProductMatches(p, NoCriteria));
  }

  /** Filtering the filtered products again with the same criteria changes nothing. */
  lemma {:induction false} FilterProductsIdempotent(products: seq<Product>, c: Criteria)
    ensures FilterProducts(FilterProducts(products, c), c) == FilterProducts(products, c)
  {
    FilterIdempotent(products, (p: Product) => ProductMatches(p, c));
  }

  /** Filtering the filtered companies again with the same search text changes nothing. */
  lemma {:induction false} FilterCompaniesIdempotent(companies: seq<Company>, search: string)
    ensures FilterCompanies(FilterCompanies(companies, search), search) == FilterCompanies(companies, search)
  {
    FilterIdempotent(companies, (co: Company) => CompanyMatches(co, search));
  }

  /** Each product as a table row, in order. */
  function ProductRows(ps: seq<Product>): (r: seq<Row>)
    ensures |r| == |ps| && forall i :: 0 <= i < |r| ==> r[i] == ProductRow(ps[i])
  {
    if ps == [] then [] else [ProductRow(ps[0])] + ProductRows(ps[1..])
  }

  /** Each company as a table row, in order. */
  function CompanyRows(cs: seq<Company>): (r: seq<Row>)
    ensures |r| == |cs| && forall i :: 0 <= i < |r| ==> r[i] == CompanyRow(cs[i])
  {
    if cs == [] then [] else [CompanyRow(cs[0])] + CompanyRows(cs[1..])
  }

  /** `currentData`: the filtered products, in order, on tab 0; the filtered companies, in order, otherwise. */
  function CurrentData(products: seq<Product>, companies: seq<Company>, activeTab: int, c: Criteria): (r: seq<Row>)
    ensures activeTab == 0 ==>
      var ps := FilterProducts(products, c);
      |r| == |ps| && forall i :: 0 <= i < |r| ==> r[i] == ProductRow(ps[i])
    ensures activeTab != 0 ==>
      var cs := FilterCompanies(companies, c.searchText);
      |r| == |cs| && forall i :: 0 <= i < |r| ==> r[i] == CompanyRow(cs[i])
  {
    if activeTab == 0 then ProductRows(FilterProducts(products, c))
    else CompanyRows(FilterCompanies(companies, c.searchText))
  }

  /** On the companies tab the four product filters have no effect. */
  lemma CompanyTabIgnoresProductFilters(products: seq<Product>, companies: seq<Company>, activeTab: int, c1: Criteria, c2: Criteria)
    requires activeTab != 0 && c1.searchText == c2.searchText
    ensures CurrentData(products, companies, activeTab, c1) == CurrentData(products, companies, activeTab, c2)
  {
  }

  // ---------------------------------------------------------------------------
  // Pagination

  function Min(a: int, b: int): int
  {
    if a <= b then a else b
  }

  /** `s.slice(start, end)` for non-negative bounds: both are clamped to the length, and an empty range gives `[]`. */
  function Slice<T>(s: seq<T>, start: nat, end: nat): (r: seq<T>)
    ensures start < |s| && start < end ==> r == s[start..Min(end, |s|)]
    ensures start >= |s| || end <= start ==> r == []
  {
    var from := Min(start, |s|);
    var to := Min(end, |s|);
    if to <= from then [] else s[from..to]
  }

  /**
   * `r` is page `page` of `s` at `n` rows per page: at most `n` rows, empty
   * past the end, otherwise as many rows as remain (up to `n`), and row `k`
   * of the page is row `page * n + k` of the list.
   */
  ghost predicate IsPageOf<T>(r: seq<T>, s: seq<T>, page: nat, n: nat)
  {
    && |r| <= n
    && (page * n >= |s| ==> r == [])
    && (page * n < |s| ==> |r| == Min(n, |s| - page * n))
    && forall k :: 0 <= k < |r| ==> page * n + k < |s| && r[k] == s[page * n + k]
  }

  /** `currentData.slice(page * rowsPerPage, page * rowsPerPage + rowsPerPage)`. */
  function Page<T>(s: seq<T>, page: nat, n: nat): (r: seq<T>)
    ensures IsPageOf(r, s, page, n)
  {
    Slice(s, page * n, page * n + n)
  }

  /** Pages `0 .. count - 1` concatenated in order. */
  function Pages<T>(s: seq<T>, n: nat, count: nat): seq<T>
  {
    if count == 0 then [] else Pages(s, n, count - 1) + Page(s, count - 1, n)
  }

  /** Page `k` is the segment of the list that starts at row `start == k * n`. */
  lemma PageSegment<T>(s: seq<T>, k: nat, n: nat, start: nat)
    requires start == k * n
    ensures Page(s, k, n) == s[Min(start, |s|)..Min(start + n, |s|)]
  {
  }

  /** The first `count` pages together are the first `count * n` rows (or all of them). */
  lemma {:induction false} PagesArePrefix<T>(s: seq<T>, n: nat, count: nat)
    ensures Pages(s, n, count) == s[..Min(count * n, |s|)]
  {
    if count > 0 {
      var k := count - 1;
      var start := k * n;
      var a, b := Min(start, |s|), Min(start + n, |s|);
      assert b == Min(count * n, |s|) by {
        assert count * n == start + n;
      }
      assert Pages(s, n, count) == s[..a] + s[a..b] by {
        PagesArePrefix(s, n, k);
        PageSegment(s, k, n, start);
      }
      assert s[..b] == s[..a] + s[a..b];
    }
  }

  /** The number of pages the pagination control offers for `len` rows. */
  function PageCount(len: nat, n: nat): (r: nat)
    requires n > 0
    ensures r * n >= len
    ensures r > 0 ==> (r - 1) * n < len
  {
    (len + n - 1) / n
  }

  /** Concatenating every page in order rebuilds the list; every page but the last is full. */
  lemma PagesRebuildList<T>(s: seq<T>, n: nat)
    requires n > 0
    ensures Pages(s, n, PageCount(|s|, n)) == s
    ensures forall p :: 0 <= p < PageCount(|s|, n) - 1 ==> |Page(s, p, n)| == n
  {
    PagesArePrefix(s, n, PageCount(|s|, n));
    assert Min(PageCount(|s|, n) * n, |s|) == |s|;
    forall p | 0 <= p < PageCount(|s|, n) - 1 ensures |Page(s, p, n)| == n {
      assert (p + 1) * n <= (PageCount(|s|, n) - 1) * n;
    }
  }

  // ---------------------------------------------------------------------------
  // View state

  /** The choices the pagination control offers for rows per page. */
  const RowsPerPageOptions: set<nat> := {5, 10, 25, 50}

  /** The component state of the table and the criteria it last received. */
  class ProductTableView {
    var products: seq<Product>
    var companies: seq<Company>
    var criteria: Criteria
    var activeTab: int
    var page: nat
    var rowsPerPage: nat

    ghost predicate Valid()
      reads this
    {
      rowsPerPage in RowsPerPageOptions
    }

    /** The list of the active tab. */
    function Current(): seq<Row>
      reads this
    {
      CurrentData(products, companies, activeTab, criteria)
    }

    /** `paginatedData`: the rows shown. */
    function Paginated(): (r: seq<Row>)
      reads this
      ensures IsPageOf(r, Current(), page, rowsPerPage)
    {
      Page(Current(), page, rowsPerPage)
    }

    /**
     * With one of the offered page sizes, the pages the pagination control
     * offers, shown one after another, are exactly the current list, and every
     * page but the last is full.
     */
    lemma PagesCoverCurrent()
      requires Valid()
      ensures Pages(Current(), rowsPerPage, PageCount(|Current()|, rowsPerPage)) == Current()
      ensures forall p :: 0 <= p < PageCount(|Current()|, rowsPerPage) - 1 ==>
        |Page(Current(), p, rowsPerPage)| == rowsPerPage
    {
      PagesRebuildList(Current(), rowsPerPage);
    }

    /** Mounting: products tab, first page, ten rows, nothing loaded yet. */
    constructor (c: Criteria)
      ensures Valid()
      ensures products == [] && companies == [] && criteria == c
      ensures activeTab == 0 && page == 0 && rowsPerPage == 10
    {
      products, companies, criteria := [], [], c;
      activeTab, page, rowsPerPage := 0, 0, 10;
    }

    /** The product catalogue arrived: `setProducts(data.list || [])`; the page is kept. */
    method ProductsLoaded(list: Option<seq<Product>>)
      requires Valid()
      modifies this
      ensures Valid()
      ensures products == (if list.Some? then list.value else [])
      ensures companies == old(companies) && criteria == old(criteria)
      ensures activeTab == old(activeTab) && page == old(page) && rowsPerPage == old(rowsPerPage)
    {
      products := if list.Some? then list.value else [];
    }

    /** The company catalogue arrived: `setCompanies(data.list || [])`; the page is kept. */
    method CompaniesLoaded(list: Option<seq<Company>>)
      requires Valid()
      modifies this
      ensures Valid()
      ensures companies == (if list.Some? then list.value else [])
      ensures products == old(products) && criteria == old(criteria)
      ensures activeTab == old(activeTab) && page == old(page) && rowsPerPage == old(rowsPerPage)
    {
      companies := if list.Some? then list.value else [];
    }

    /** `handleChangePage`: only the page changes. */
    method ChangePage(newPage: nat)
      requires Valid()
      modifies this
      ensures Valid()
      ensures page == newPage
      ensures products == old(products) && companies == old(companies) && criteria == old(criteria)
      ensures activeTab == old(activeTab) && rowsPerPage == old(rowsPerPage)
    {
      page := newPage;
    }

    /** `handleChangeRowsPerPage`: new page size, back to the first page. */
    method ChangeRowsPerPage(value: nat)
      requires Valid() && value in RowsPerPageOptions
      modifies this
      ensures Valid()
      ensures rowsPerPage == value && page == 0
      ensures products == old(products) && companies == old(companies) && criteria == old(criteria)
      ensures activeTab == old(activeTab)
      ensures Paginated() == Current()[..Min(value, |Current()|)]
    {
      rowsPerPage := value;
      page := 0;
      assert Paginated() == Current()[..Min(value, |Current()|)];
    }

    /** `handleTabChange`: new tab, back to the first page. */
    method TabChange(newValue: int)
      requires Valid()
      modifies this
      ensures Valid()
      ensures activeTab == newValue && page == 0
      ensures products == old(products) && companies == old(companies) && criteria == old(criteria)
      ensures rowsPerPage == old(rowsPerPage)
      ensures Paginated() == Current()[..Min(rowsPerPage, |Current()|)]
    {
      activeTab := newValue;
      page := 0;
    }

    /** New search/filter props; the effect on those five values sets the page to 0 when any of them changed. */
    method CriteriaChanged(c: Criteria)
      requires Valid()
      modifies this
      ensures Valid()
      ensures criteria == c
      ensures page == (if c != old(criteria) then 0 else old(page))
      ensures products == old(products) && companies == old(companies)
      ensures activeTab == old(activeTab) && rowsPerPage == old(rowsPerPage)
      ensures c != old(criteria) ==> Paginated() == Current()[..Min(rowsPerPage, |Current()|)]
    {
      if c != criteria {
        page := 0;
      }
      criteria := c;
    }
  }
}
