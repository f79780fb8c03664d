/** The seed catalogue of the shop as test data for the listing query.
    Prices are in cents. The database assigns ids and creation times; here
    they follow the order in which the seed inserts the products. Only the
    fields a price-filtered listing reads are carried: descriptions, image
    URLs, sizes and colours are left empty. */
module Seed {
  import opened Wrappers
  import opened Products

  function Catalogue(): seq<Product>
  {
    [ Product("1", "Syntax Classic Hoodie", "syntax-classic-hoodie",
        "",
        5999, [], [], [], 50, true, 1),
      Product("2", "Debug Mode T-Shirt", "debug-mode-tee",
        "",
        2499, [], [], [], 100, true, 2),
      Product("3", "Binary Code Beanie", "binary-code-beanie",
        "",
        1999, [], [], [], 75, true, 3),
      Product("4", "Git Commit Cap", "git-commit-cap",
        "",
        2250, [], [], [], 40, true, 4),
      Product("5", "Recursion Oversized Sweater", "recursion-sweater",
        "",
        6500, [], [], [], 30, true, 5),
      Product("6", "Stack Overflow Socks", "stack-overflow-socks",
        "",
        1200, [], [], [], 150, true, 6),
      Product("7", "Null Pointer Joggers", "null-pointer-joggers",
        "",
        4599, [], [], [], 60, true, 7),
      Product("8", "404 Not Found T-Shirt", "404-not-found-tee",
        "",
        2499, [], [], [], 90, true, 8),
      Product("9", "Semantic HTML Hoodie", "semantic-html-hoodie",
        "",
        5999, [], [], [], 45, true, 9),
      Product("10", "Coffee to Code Bomber Jacket", "coffee-code-bomber",
        "",
        8900, [], [], [], 25, true, 10)
    ]
  }

  function Prices(s: seq<Product>): seq<int>
  {
    if s == [] then [] else [s[0].price] + Prices(s[1..])
  }

  /** Prices between 20.00 and 60.00, cheapest first, three per page. */
  function MidRange(page: int): ProductFilter
  {
    ProductFilter(Some(page), Some(3), Some(2000), Some(6000), None, Some(Price), Some(Asc))
  }

  /** Ten active products priced as the seed prices them, in seed order. */
  predicate SeedPriced(db: seq<Product>)
  {
    |db| == 10 && (forall i | 0 <= i < 10 :: db[i].active)
    && db[0].price == 5999 && db[1].price == 2499 && db[2].price == 1999
    && db[3].price == 2250 && db[4].price == 6500 && db[5].price == 1200
    && db[6].price == 4599 && db[7].price == 2499 && db[8].price == 5999
    && db[9].price == 8900
  }

  lemma CatalogueIsSeedPriced()
    ensures SeedPriced(Catalogue())
  {
  }

  lemma FilterKeeps(w: Where, s: seq<Product>)
    requires s != [] && Matches(w, s[0])
    ensures Filter(w, s) == [s[0]] + Filter(w, s[1..])
  {
  }

  lemma FilterDrops(w: Where, s: seq<Product>)
    requires s != [] && !Matches(w, s[0])
    ensures Filter(w, s) == Filter(w, s[1..])
  {
  }

  /** The products of a seed-priced catalogue between 20.00 and 60.00, in
      catalogue order. */
  lemma MidRangeFilter(db: seq<Product>)
    requires SeedPriced(db)
    ensures Filter(BuildWhere(Normalize(MidRange(1))), db) == [db[0], db[1], db[3], db[6], db[7], db[8]]
  {
    var w := BuildWhere(Normalize(MidRange(1)));
    assert w == Where(true, Some(PriceRange(Some(2000), Some(6000))), None);
    assert Filter(w, db[10..]) == [];
    FilterDrops(w, db[9..]);
    FilterKeeps(w, db[8..]);
    FilterKeeps(w, db[7..]);
    FilterKeeps(w, db[6..]);
    FilterDrops(w, db[5..]);
    FilterDrops(w, db[4..]);
    FilterKeeps(w, db[3..]);
    FilterDrops(w, db[2..]);
    FilterKeeps(w, db[1..]);
    FilterKeeps(w, db[0..]);
    assert db[9..][1..] == db[10..];
    assert db[8..][1..] == db[9..];
    assert db[7..][1..] == db[8..];
    assert db[6..][1..] == db[7..];
    assert db[5..][1..] == db[6..];
    assert db[4..][1..] == db[5..];
    assert db[3..][1..] == db[4..];
    assert db[2..][1..] == db[3..];
    assert db[1..][1..] == db[2..];
    assert db[0..][1..] == db[1..];
    assert db[0..] == db;
    assert Filter(w, db[8..]) == [db[8]];
    assert Filter(w, db[7..]) == [db[7], db[8]];
    assert Filter(w, db[4..]) == [db[6], db[7], db[8]];
    assert Filter(w, db[3..]) == [db[3], db[6], db[7], db[8]];
    assert Filter(w, db[1..]) == [db[1], db[3], db[6], db[7], db[8]];
  }

  lemma InsertBefore(x: Product, y: Product, rest: seq<Product>)
    requires x.price <= y.price
    ensures Insert(x, [y] + rest, Price, Asc) == [x, y] + rest
  {
  }

  lemma InsertAfter(x: Product, y: Product, rest: seq<Product>)
    requires x.price > y.price
    ensures Insert(x, [y] + rest, Price, Asc) == [y] + Insert(x, rest, Price, Asc)
  {
    assert ([y] + rest)[1..] == rest;
  }

  lemma SortCons(x: Product, rest: seq<Product>)
    ensures SortProducts([x] + rest, Price, Asc) == Insert(x, SortProducts(rest, Price, Asc), Price, Asc)
  {
    assert ([x] + rest)[1..] == rest;
  }

  /** Insertion sort by ascending price of the six mid-range products. */
  lemma MidRangeSort(a: Product, b: Product, c: Product, d: Product, e: Product, f: Product)
    requires a.price == 5999 && b.price == 2499 && c.price == 2250
    requires d.price == 4599 && e.price == 2499 && f.price == 5999
    ensures SortProducts([a, b, c, d, e, f], Price, Asc) == [c, b, e, d, a, f]
  {
    assert SortProducts([f], Price, Asc) == [f];
    SortCons(e, [f]);
    InsertBefore(e, f, []);
    assert SortProducts([e, f], Price, Asc) == [e, f];
    SortCons(d, [e, f]);
    InsertAfter(d, e, [f]);
    InsertBefore(d, f, []);
    assert SortProducts([d, e, f], Price, Asc) == [e, d, f];
    SortCons(c, [d, e, f]);
    InsertBefore(c, e, [d, f]);
    assert SortProducts([c, d, e, f], Price, Asc) == [c, e, d, f];
    SortCons(b, [c, d, e, f]);
    InsertAfter(b, c, [e, d, f]);
    InsertBefore(b, e, [d, f]);
    assert SortProducts([b, c, d, e, f], Price, Asc) == [c, b, e, d, f];
    SortCons(a, [b, c, d, e, f]);
    InsertAfter(a, c, [b, e, d, f]);
    InsertAfter(a, b, [e, d, f]);
    InsertAfter(a, e, [d, f]);
    InsertAfter(a, d, [f]);
    InsertBefore(a, f, []);
  }

  /** The listing of the mid-range request over any catalogue priced like
      the seed: the six products between 20.00 and 60.00, cheapest first. */
  lemma MidRangeListing(db: seq<Product>)
    requires SeedPriced(db)
    ensures Listing(Normalize(MidRange(1)), db) == [db[3], db[1], db[7], db[6], db[0], db[8]]
  {
    MidRangeFilter(db);
    MidRangeSort(db[0], db[1], db[3], db[6], db[7], db[8]);
  }

  /** The first mid-range page over any catalogue priced like the seed. */
  lemma MidRangeFirstPageOf(db: seq<Product>)
    requires SeedPriced(db)
    ensures var r := GetProducts(MidRange(1), db);
      && r.meta == Meta(6, 1, 3, 2)
      && Prices(r.products) == [2250, 2499, 2499]
  {
    MidRangeFilter(db);
    MidRangeListing(db);
    var l := Listing(Normalize(MidRange(1)), db);
    assert |l| == 6;
    assert Count(BuildWhere(Normalize(MidRange(1))), db) == 6;
    assert TotalPages(6, 3) == 2;
    var n := Normalize(MidRange(1));
    assert n.page == 1 && n.limit == 3 && n.sortBy == Price && n.sortOrder == Asc;
    assert Skip(n.page, n.limit) == 0;
    assert FindMany(BuildWhere(n), Price, Asc, 0, 3, db) == Paginate(l, 0, 3) == l[0..3];
    assert GetProducts(MidRange(1), db).products == l[0..3];
    assert l[0..3] == [db[3], db[1], db[7]];
    assert Prices([db[7]]) == [2499];
    assert Prices([db[1], db[7]]) == [2499, 2499];
    assert Prices([db[3], db[1], db[7]]) == [2250, 2499, 2499];
  }

  /** The seed catalogue filtered to 20.00 .. 60.00, cheapest first, three
      per page: six products in two pages, the first holding 22.50, 24.99 and
      24.99, the second 45.99, 59.99 and 59.99, and a third page empty. */
  lemma MidRangeScenario()
    ensures var r := GetProducts(MidRange(1), Catalogue());
      && r.meta == Meta(6, 1, 3, 2)
      && Prices(r.products) == [2250, 2499, 2499]
    ensures Prices(GetProducts(MidRange(2), Catalogue()).products) == [4599, 5999, 5999]
    ensures GetProducts(MidRange(3), Catalogue()).products == []
  {
    CatalogueIsSeedPriced();
    MidRangeFirstPageOf(Catalogue());
    MidRangeLaterPagesOf(Catalogue());
  }

  /** The second mid-range page holds the three dearer products; a third
      page is past the last one and empty. */
  lemma MidRangeLaterPagesOf(db: seq<Product>)
    requires SeedPriced(db)
    ensures Prices(GetProducts(MidRange(2), db).products) == [4599, 5999, 5999]
    ensures GetProducts(MidRange(3), db).products == []
  {
    MidRangeFilter(db);
    MidRangeListing(db);
    var n := Normalize(MidRange(1));
    var l := Listing(n, db);
    OtherPageSameListing(MidRange(1), db, 2);
    OtherPageSameListing(MidRange(1), db, 3);
    assert MidRange(1).(page := Some(2)) == MidRange(2);
    assert MidRange(1).(page := Some(3)) == MidRange(3);
    assert n.limit == 3;
    assert Paginate(l, 3, 3) == l[3..6] == [db[6], db[0], db[8]];
    assert Prices([db[8]]) == [5999];
    assert Prices([db[0], db[8]]) == [5999, 5999];
    assert Prices([db[6], db[0], db[8]]) == [4599, 5999, 5999];
  }
}
