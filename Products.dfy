/** The product listing query of the shop: a filter with optional fields is
    completed with defaults, turned into a `where` predicate, and run as a
    sorted, paginated read together with a count of all matching products.
    The database is interpreted as an in-memory sequence of products. */
module Products {
  import opened Wrappers
  import opened Text

  /** The fields a listing may be sorted by. */
  datatype SortField = Price | Name | CreatedAt

  datatype SortOrder = Asc | Desc

  /** A catalogue row. `price` is in integer cents; `createdAt` is a timestamp. */
  datatype Product = Product(
    id: string,
    name: string,
    slug: string,
    description: string,
    price: int,
    images: seq<string>,
    sizes: seq<string>,
    colors: seq<string>,
    stock: nat,
    active: bool,
    createdAt: int)

  /** A listing request as it arrives: every field may be absent. */
  datatype ProductFilter = ProductFilter(
    page: Option<int>,
    limit: Option<int>,
    minPrice: Option<int>,
    maxPrice: Option<int>,
    search: Option<string>,
    sortBy: Option<SortField>,
    sortOrder: Option<SortOrder>)

  /** A listing request after the defaults have been filled in. The price
      bounds and the search term have no default and stay optional. */
  datatype FilledFilter = FilledFilter(
    minPrice: Option<int>,
    maxPrice: Option<int>,
    search: Option<string>,
    page: int,
    limit: int,
    sortBy: SortField,
    sortOrder: SortOrder)

  const DefaultPage: int := 1
  const DefaultLimit: int := 10
  const DefaultSortBy: SortField := CreatedAt
  const DefaultSortOrder: SortOrder := Desc

  function OrDefault<T>(o: Option<T>, default: T): T
  {
    match o
    case Some(v) => v
    case None => default
  }

  /** Fills in the defaults of a listing request: an absent field takes its
      default, a supplied field is kept unchanged. */
  function Normalize(f: ProductFilter): (n: FilledFilter)
    ensures n.page == (if f.page.None? then DefaultPage else f.page.value)
    ensures n.limit == (if f.limit.None? then DefaultLimit else f.limit.value)
    ensures n.sortBy == (if f.sortBy.None? then DefaultSortBy else f.sortBy.value)
    ensures n.sortOrder == (if f.sortOrder.None? then DefaultSortOrder else f.sortOrder.value)
    ensures n.minPrice == f.minPrice && n.maxPrice == f.maxPrice && n.search == f.search
  {
    FilledFilter(
      f.minPrice, f.maxPrice, f.search,
      OrDefault(f.page, DefaultPage),
      OrDefault(f.limit, DefaultLimit),
      OrDefault(f.sortBy, DefaultSortBy),
      OrDefault(f.sortOrder, DefaultSortOrder))
  }

  /** What the request validation guarantees of a listing request: a page
      number of at least one and a positive page size. */
  predicate ValidFilter(f: ProductFilter)
  {
    (f.page.None? || f.page.value >= 1) && (f.limit.None? || f.limit.value > 0)
  }

  // ---------------------------------------------------------------------
  // The `where` predicate

  /** An inclusive price range; either bound may be absent. */
  datatype PriceRange = PriceRange(gte: Option<int>, lte: Option<int>)

  /** The predicate handed to both the page query and the count: an
      `active` flag, an optional price range and an optional search term
      that the product name or its description must contain, ignoring case. */
  datatype Where = Where(active: bool, price: Option<PriceRange>, search: Option<string>)

  /** JavaScript truthiness of an optional string: present and not empty. */
  predicate Truthy(s: Option<string>)
  {
    s.Some? && s.value != ""
  }

  /** Builds the `where` predicate of a filled-in request. */
  function BuildWhere(n: FilledFilter): (w: Where)
    ensures w.active
    ensures w.price.Some? <==> n.minPrice.Some? || n.maxPrice.Some?
    ensures w.price.Some? ==> w.price.value.gte == n.minPrice && w.price.value.lte == n.maxPrice
    ensures w.search.Some? <==> Truthy(n.search)
    ensures w.search.Some? ==> w.search == n.search
  {
    Where(
      true,
      if n.minPrice.Some? || n.maxPrice.Some? then Some(PriceRange(n.minPrice, n.maxPrice)) else None,
      if Truthy(n.search) then n.search else None)
  }

  /** The same predicate built the way the service builds it: start from
      `active` alone, then add the price object and each of its bounds, then
      the search clause, one field at a time. */
  method BuildWhereInPlace(n: FilledFilter) returns (w: Where)
    ensures w == BuildWhere(n)
  {
    w := Where(true, None, None);
    if n.minPrice.Some? || n.maxPrice.Some? {
      w := w.(price := Some(PriceRange(None, None)));
      if n.minPrice.Some? {
        w := w.(price := Some(w.price.value.(gte := n.minPrice)));
      }
      if n.maxPrice.Some? {
        w := w.(price := Some(w.price.value.(lte := n.maxPrice)));
      }
    }
    if Truthy(n.search) {
      w := w.(search := n.search);
    }
  }

  /** How the database reads a `where` predicate for one product. */
  predicate Matches(w: Where, p: Product)
  {
    p.active == w.active
    && (match w.price
        case None => true
        case Some(r) =>
          (r.gte.None? || r.gte.value <= p.price) && (r.lte.None? || p.price <= r.lte.value))
    && (match w.search
        case None => true
        case Some(t) => ContainsInsensitive(p.name, t) || ContainsInsensitive(p.description, t))
  }

  /** Occurrence of `term` in `text`, ignoring ASCII case, stated by position. */
  ghost predicate MentionsIgnoringCase(text: string, term: string)
  {
    exists i :: OccursAt(LowerStr(text), LowerStr(term), i)
  }

  /** The listing's meaning, stated directly on the request: only active
      products, inside every price bound that was given, and, when the search
      term is not empty, mentioning it in the name or the description. */
  ghost predicate Selected(n: FilledFilter, p: Product)
  {
    p.active
    && (n.minPrice.Some? ==> n.minPrice.value <= p.price)
    && (n.maxPrice.Some? ==> p.price <= n.maxPrice.value)
    && (Truthy(n.search) ==>
          MentionsIgnoringCase(p.name, n.search.value)
          || MentionsIgnoringCase(p.description, n.search.value))
  }

  /** The built predicate selects exactly the products the request asks for. */
  lemma WhereMeansSelected(n: FilledFilter, p: Product)
    ensures Matches(BuildWhere(n), p) <==> Selected(n, p)
  {
    if Truthy(n.search) {
      ContainsIffOccurs(LowerStr(p.name), LowerStr(n.search.value));
      ContainsIffOccurs(LowerStr(p.description), LowerStr(n.search.value));
    }
  }

  /** Dropping an empty search term loses nothing: had it been added, every
      product would contain it. */
  lemma EmptySearchSelectsAll(w: Where, p: Product)
    requires w.search == Some("")
    ensures Matches(w, p) <==> Matches(w.(search := None), p)
  {
  }

  // ---------------------------------------------------------------------
  // Filtering, sorting and pagination over the in-memory catalogue

  /** The products of `s` that match `w`, in catalogue order. */
  function Filter(w: Where, s: seq<Product>): seq<Product>
  {
    if s == [] then []
    else if Matches(w, s[0]) then [s[0]] + Filter(w, s[1..])
    else Filter(w, s[1..])
  }

  /** Filtering keeps every matching product with its multiplicity and no
      other product. */
  lemma {:induction false} FilterSelects(w: Where, s: seq<Product>)
    ensures |Filter(w, s)| <= |s|
    ensures forall i :: 0 <= i < |Filter(w, s)| ==> Matches(w, Filter(w, s)[i])
    ensures forall p :: multiset(Filter(w, s))[p] == if Matches(w, p) then multiset(s)[p] else 0
  {
    if s != [] {
      FilterSelects(w, s[1..]);
      assert s == [s[0]] + s[1..];
    }
  }

  /** The order of one sort key, without direction. */
  predicate KeyLe(key: SortField, a: Product, b: Product)
  {
    match key
    case Price => a.price <= b.price
    case Name => StrLe(a.name, b.name)
    case CreatedAt => a.createdAt <= b.createdAt
  }

  /** `a` may be listed before `b` under `orderBy: { [key]: order }`. */
  predicate Precedes(key: SortField, order: SortOrder, a: Product, b: Product)
  {
    if order == Asc then KeyLe(key, a, b) else KeyLe(key, b, a)
  }

  lemma PrecedesTotal(key: SortField, order: SortOrder, a: Product, b: Product)
    ensures Precedes(key, order, a, b) || Precedes(key, order, b, a)
  {
    if key == Name {
      StrLeTotal(a.name, b.name);
    }
  }

  lemma PrecedesTransitive(key: SortField, order: SortOrder, a: Product, b: Product, c: Product)
    requires Precedes(key, order, a, b) && Precedes(key, order, b, c)
    ensures Precedes(key, order, a, c)
  {
    if key == Name {
      if order == Asc {
        StrLeTransitive(a.name, b.name, c.name);
      } else {
        StrLeTransitive(c.name, b.name, a.name);
      }
    }
  }

  /** Every product is listed no later than each product after it. */
  predicate Sorted(s: seq<Product>, key: SortField, order: SortOrder)
  {
    forall i, j :: 0 <= i < j < |s| ==> Precedes(key, order, s[i], s[j])
  }

  /** Inserts `x` before the first product it may precede. */
  function Insert(x: Product, s: seq<Product>, key: SortField, order: SortOrder): seq<Product>
  {
    if s == [] then [x]
    else if Precedes(key, order, x, s[0]) then [x] + s
    else [s[0]] + Insert(x, s[1..], key, order)
  }

  /** Insertion adds `x` and nothing else, and keeps a sorted list sorted. */
  lemma {:induction false} InsertSorted(x: Product, s: seq<Product>, key: SortField, order: SortOrder)
    ensures multiset(Insert(x, s, key, order)) == multiset(s) + multiset{x}
    ensures Sorted(s, key, order) ==> Sorted(Insert(x, s, key, order), key, order)
  {
    if s != [] {
      assert s == [s[0]] + s[1..];
      if Precedes(key, order, x, s[0]) {
        if Sorted(s, key, order) {
          InsertFront(x, s, key, order);
        }
      } else {
        InsertSorted(x, s[1..], key, order);
        PrecedesTotal(key, order, x, s[0]);
        if Sorted(s, key, order) {
          InsertBehind(x, s, Insert(x, s[1..], key, order), key, order);
        }
      }
    }
  }

  lemma InsertFront(x: Product, s: seq<Product>, key: SortField, order: SortOrder)
    requires Sorted(s, key, order) && s != [] && Precedes(key, order, x, s[0])
    ensures Sorted([x] + s, key, order)
  {
    forall j | 0 < j < |s| ensures Precedes(key, order, x, s[j]) {
      PrecedesTransitive(key, order, x, s[0], s[j]);
    }
  }

  lemma InsertBehind(x: Product, s: seq<Product>, rest: seq<Product>, key: SortField, order: SortOrder)
    requires Sorted(s, key, order) && s != [] && Precedes(key, order, s[0], x)
    requires Sorted(rest, key, order)
    requires multiset(rest) == multiset(s[1..]) + multiset{x}
    ensures Sorted([s[0]] + rest, key, order)
  {
    forall j | 0 <= j < |rest| ensures Precedes(key, order, s[0], rest[j]) {
      assert rest[j] in multiset(rest);
      if rest[j] != x {
        assert rest[j] in multiset(s[1..]);
        var k :| 0 <= k < |s[1..]| && s[1..][k] == rest[j];
        assert s[k + 1] == rest[j];
      }
    }
  }

  /** Insertion sort by one key. */
  function SortProducts(s: seq<Product>, key: SortField, order: SortOrder): seq<Product>
  {
    if s == [] then [] else Insert(s[0], SortProducts(s[1..], key, order), key, order)
  }

  /** Sorting yields a sorted permutation of its input. */
  lemma {:induction false} SortProductsSorted(s: seq<Product>, key: SortField, order: SortOrder)
    ensures Sorted(SortProducts(s, key, order), key, order)
    ensures multiset(SortProducts(s, key, order)) == multiset(s)
  {
    if s != [] {
      assert s == [s[0]] + s[1..];
      SortProductsSorted(s[1..], key, order);
      InsertSorted(s[0], SortProducts(s[1..], key, order), key, order);
    }
  }

  /** The window `skip` .. `skip + take` of `s`, cut short at its end. */
  function Paginate(s: seq<Product>, skip: nat, take: nat): (r: seq<Product>)
    ensures |r| <= take && |r| <= |s|
    ensures skip >= |s| ==> r == []
    ensures skip < |s| ==> |r| == if skip + take <= |s| then take else |s| - skip
    ensures forall i :: 0 <= i < |r| ==> skip + i < |s| && r[i] == s[skip + i]
  {
    if skip >= |s| then []
    else if skip + take <= |s| then s[skip..skip + take]
    else s[skip..]
  }

  /** A window of a sorted list is sorted. */
  lemma PaginateKeepsOrder(s: seq<Product>, skip: nat, take: nat, key: SortField, order: SortOrder)
    requires Sorted(s, key, order)
    ensures Sorted(Paginate(s, skip, take), key, order)
  {
  }

  // ---------------------------------------------------------------------
  // Pagination arithmetic

  /** The number of matching products to pass over before the page starts. */
  function Skip(page: int, take: int): (r: int)
    ensures page == 1 ==> r == 0
    ensures page >= 1 && take >= 0 ==> r >= 0
  {
    (page - 1) * take
  }

  /** The offset is a whole number of pages: dividing it by the page size
      gives back the pages before the requested one. */
  lemma SkipIsWholePages(page: int, take: int)
    requires take > 0
    ensures Skip(page, take) % take == 0
    ensures Skip(page, take) / take == page - 1
  {
    MultipleDivides(page - 1, take);
  }

  /** A multiple of `t` divides back exactly. */
  lemma MultipleDivides(q: int, t: int)
    requires t > 0
    ensures (q * t) % t == 0 && (q * t) / t == q
  {
    var d, m := (q * t) / t, (q * t) % t;
    assert (q - d) * t == m;
    MultipleSign(q - d, t);
  }

  lemma MultipleSign(k: int, t: int)
    requires t > 0
    ensures k >= 1 ==> k * t >= t
    ensures k <= -1 ==> k * t <= -t
  {
  }

  /** The number of pages, `Math.ceil(total / take)`: the least number of
      pages of `take` products that holds all `total` of them. */
  function TotalPages(total: nat, take: int): (r: nat)
    requires take > 0
    ensures (r - 1) * take < total <= r * take
    ensures r == 0 <==> total == 0
  {
    (total + take - 1) / take
  }

  // ---------------------------------------------------------------------
  // The listing

  datatype Meta = Meta(total: nat, page: int, limit: int, totalPages: nat)

  datatype ProductPage = ProductPage(products: seq<Product>, meta: Meta)

  /** The page query: filter, sort key one key, pass over `skip` products and
      keep `take`. */
  function FindMany(w: Where, key: SortField, order: SortOrder, skip: nat, take: nat, db: seq<Product>): seq<Product>
  {
    Paginate(SortProducts(Filter(w, db), key, order), skip, take)
  }

  /** The count query: all products matching `w`, ignoring pagination. */
  function Count(w: Where, db: seq<Product>): nat
  {
    |Filter(w, db)|
  }

  /** All products the request selects, in listing order, before pagination. */
  function Listing(n: FilledFilter, db: seq<Product>): seq<Product>
  {
    SortProducts(Filter(BuildWhere(n), db), n.sortBy, n.sortOrder)
  }

  /** Lists one page of products together with the pagination metadata. The
      page query and the count read the same catalogue with the same `where`. */
  function GetProducts(f: ProductFilter, db: seq<Product>): (r: ProductPage)
    requires ValidFilter(f)
    ensures r.meta.page == Normalize(f).page && r.meta.limit == Normalize(f).limit
    ensures r.meta.total == |Listing(Normalize(f), db)|
    ensures r.products == Paginate(Listing(Normalize(f), db), Skip(Normalize(f).page, Normalize(f).limit), Normalize(f).limit)
    ensures |r.products| <= r.meta.limit && |r.products| <= r.meta.total
    ensures forall i :: 0 <= i < |r.products| ==>
              r.products[i] in db && Matches(BuildWhere(Normalize(f)), r.products[i])
    ensures Sorted(r.products, Normalize(f).sortBy, Normalize(f).sortOrder)
    ensures r.meta.totalPages == TotalPages(r.meta.total, r.meta.limit)
    ensures Skip(r.meta.page, r.meta.limit) >= r.meta.total ==> r.products == []
  {
    var n := Normalize(f);
    var w := BuildWhere(n);
    var take := n.limit;
    var skip := Skip(n.page, take);
    var products := FindMany(w, n.sortBy, n.sortOrder, skip, take, db);
    var total := Count(w, db);
    var totalPages := TotalPages(total, take);
    ListingFacts(n, db);
    PaginateKeepsOrder(Listing(n, db), skip, take, n.sortBy, n.sortOrder);
    ProductPage(products, Meta(total, n.page, n.limit, totalPages))
  }

  /** The listing holds the products the `where` predicate selects, from the
      catalogue, each exactly as often as the catalogue holds it. */
  lemma ListingFacts(n: FilledFilter, db: seq<Product>)
    ensures |Listing(n, db)| == |Filter(BuildWhere(n), db)|
    ensures forall i :: 0 <= i < |Listing(n, db)| ==> Listing(n, db)[i] in db && Matches(BuildWhere(n), Listing(n, db)[i])
    ensures Sorted(Listing(n, db), n.sortBy, n.sortOrder)
  {
    var w := BuildWhere(n);
    var filtered := Filter(w, db);
    var l := Listing(n, db);
    FilterSelects(w, db);
    SortProductsSorted(filtered, n.sortBy, n.sortOrder);
    assert |l| == |multiset(l)| == |multiset(filtered)| == |filtered|;
    forall i | 0 <= i < |l| ensures l[i] in db && Matches(w, l[i]) {
      assert l[i] in multiset(filtered);
      assert multiset(db)[l[i]] > 0;
    }
  }

  // ---------------------------------------------------------------------
  // What a listing promises

  /** Every listed product is one the request selects: active, inside the
      price bounds that were given, and mentioning a non-empty search term in
      its name or description. */
  lemma ListedAreSelected(f: ProductFilter, db: seq<Product>)
    requires ValidFilter(f)
    ensures forall i :: 0 <= i < |GetProducts(f, db).products| ==>
              Selected(Normalize(f), GetProducts(f, db).products[i])
  {
    var n := Normalize(f);
    var items := GetProducts(f, db).products;
    forall i | 0 <= i < |items| ensures Selected(n, items[i]) {
      WhereMeansSelected(n, items[i]);
    }
  }

  /** Inactive products are never counted, and so the count of a request is
      at most the number of active products. */
  lemma {:induction false} CountOnlyActive(w: Where, db: seq<Product>)
    requires w.active
    ensures forall p: Product :: !p.active ==> multiset(Filter(w, db))[p] == 0
    ensures Count(w, db) <= Count(Where(true, None, None), db)
  {
    FilterSelects(w, db);
    if db != [] {
      CountOnlyActive(w, db[1..]);
    }
  }

  lemma MulMonotone(a: int, b: int, t: int)
    requires a <= b && t > 0
    ensures a * t <= b * t
  {
  }

  /** A page past the last one is empty rather than an error. */
  lemma PageBeyondLastIsEmpty(f: ProductFilter, db: seq<Product>)
    requires ValidFilter(f)
    ensures var r := GetProducts(f, db);
      r.meta.page > r.meta.totalPages ==> r.products == []
  {
    var m := GetProducts(f, db).meta;
    if m.page > m.totalPages {
      MulMonotone(m.totalPages, m.page - 1, m.limit);
    }
  }

  /** A page from the first to the last holds `limit` products, except the
      last one, which holds what remains. */
  lemma PageInRangeIsFilled(f: ProductFilter, db: seq<Product>)
    requires ValidFilter(f)
    requires 1 <= GetProducts(f, db).meta.page <= GetProducts(f, db).meta.totalPages
    ensures var r := GetProducts(f, db);
      |r.products| == Min(r.meta.limit, r.meta.total - Skip(r.meta.page, r.meta.limit)) > 0
  {
    var m := GetProducts(f, db).meta;
    MulMonotone(m.page - 1, m.totalPages - 1, m.limit);
  }

  function Min(a: int, b: int): int
  {
    if a <= b then a else b
  }

  /** Pages 1 to `k` of a request, one after the other. */
  ghost function PagesUpTo(f: ProductFilter, db: seq<Product>, k: nat): seq<Product>
    requires ValidFilter(f)
  {
    if k == 0 then []
    else PagesUpTo(f, db, k - 1) + GetProducts(f.(page := Some(k)), db).products
  }

  /** Asking for another page changes only the window, not the listing. */
  lemma OtherPageSameListing(f: ProductFilter, db: seq<Product>, k: int)
    requires ValidFilter(f) && k >= 1
    ensures ValidFilter(f.(page := Some(k)))
    ensures GetProducts(f.(page := Some(k)), db).products
            == Paginate(Listing(Normalize(f), db), (k - 1) * Normalize(f).limit, Normalize(f).limit)
  {
  }

  /** The first `k` windows of size `t` of `l`, one after the other. */
  ghost function Windows(l: seq<Product>, t: nat, k: nat): seq<Product>
  {
    if k == 0 then [] else Windows(l, t, k - 1) + Paginate(l, (k - 1) * t, t)
  }

  lemma {:induction false} WindowsArePrefix(l: seq<Product>, t: nat, k: nat)
    ensures Windows(l, t, k) == l[..Min(k * t, |l|)]
  {
    if k > 0 {
      WindowsArePrefix(l, t, k - 1);
      var a := (k - 1) * t;
      assert k * t == a + t;
      if a < |l| {
        assert l[..Min(a + t, |l|)] == l[..a] + l[a..Min(a + t, |l|)];
      }
    }
  }

  lemma {:induction false} PagesAreWindows(f: ProductFilter, db: seq<Product>, k: nat)
    requires ValidFilter(f)
    ensures PagesUpTo(f, db, k) == Windows(Listing(Normalize(f), db), Normalize(f).limit, k)
  {
    if k > 0 {
      PagesAreWindows(f, db, k - 1);
      OtherPageSameListing(f, db, k);
      var page := GetProducts(f.(page := Some(k)), db).products;
      assert PagesUpTo(f, db, k) == PagesUpTo(f, db, k - 1) + page;
    }
  }

  /** Walking the pages in order yields the start of the listing, one page
      size at a time. */
  lemma PagesUpToIsPrefix(f: ProductFilter, db: seq<Product>, k: nat)
    requires ValidFilter(f)
    ensures var l := Listing(Normalize(f), db);
      PagesUpTo(f, db, k) == l[..Min(k * Normalize(f).limit, |l|)]
  {
    PagesAreWindows(f, db, k);
    WindowsArePrefix(Listing(Normalize(f), db), Normalize(f).limit, k);
  }

  /** Pages 1 to `totalPages` together hold exactly the listing, in order:
      every matching product is shown on exactly one page, and the count
      agrees with the pages. */
  lemma PagesCoverListing(f: ProductFilter, db: seq<Product>)
    requires ValidFilter(f)
    ensures PagesUpTo(f, db, GetProducts(f, db).meta.totalPages) == Listing(Normalize(f), db)
  {
    var m := GetProducts(f, db).meta;
    PagesUpToIsPrefix(f, db, m.totalPages);
  }
}
