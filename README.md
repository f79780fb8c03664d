# Shop backend: product listing query and authentication, in Dafny

This project models the two pieces of the shop backend that have logic of their
own, and proves properties of the model.

- **Product listing** (`getProducts`). A `ProductFilter` whose fields may all
  be absent gets its defaults filled in (page 1, limit 10, sort by `createdAt`,
  descending). It is turned into a `where` predicate: always `active`, an
  inclusive price range when either bound is given, and a case-insensitive
  name-or-description search when the search term is non-empty. That predicate
  drives a sorted, paginated page query (`take = limit`,
  `skip = (page - 1) * take`) and an unpaginated count. The count gives the
  `meta` record with `totalPages = ceil(total / take)`. The database is
  interpreted as an in-memory sequence of products: filter, sort by one key,
  pass over `skip` products, keep `take`. Prices are integer cents.
- **Authentication** (`registerUser`, `loginUser`). A `UserStore` class holds
  the user table as a `map` from e-mail address to user record. Registration
  fails on a taken address and otherwise inserts one record with the hashed
  password and role USER. Login fails for an unknown address or a rejected
  password, and otherwise returns the stored record. `bcrypt.hash` and
  `bcrypt.compare` are function parameters, and nothing is assumed about them.

Files:

- `Wrappers.dfy`: `Option` and `Result`.
- `Text.dfy`: ASCII lower-casing, substring search and code-point string order.
- `Products.dfy`: the listing query and its lemmas.
- `Seed.dfy`: the seed catalogue and the mid-range listing scenario.
- `Auth.dfy`: the user store.

## Model

| member | source | states |
|---|---|---|
| `Products.Normalize` | src/services/products.service.ts:5-13 | An absent page, limit, sortBy or sortOrder becomes 1, 10, createdAt or desc. A supplied one is kept unchanged. The price bounds and search term pass through. |
| `Products.BuildWhere` | src/services/products.service.ts:16-38 | The predicate always requires `active`. It has a price range iff minPrice or maxPrice is given, with `gte` = minPrice and `lte` = maxPrice exactly as given. It has a search clause iff the term is truthy (present and non-empty). |
| `Products.BuildWhereInPlace` | src/services/products.service.ts:16-38 | Building the predicate one field at a time gives the same predicate as `BuildWhere`. |
| `Products.WhereMeansSelected` | src/services/products.service.ts:16-38 | A product matches the built predicate iff it is active, satisfies every price bound given, and, when the term is non-empty, has the term at some position of its name or description, ignoring case. |
| `Products.EmptySearchSelectsAll` | src/services/products.service.ts:33-38 | A search clause with the empty term would select the same products as no clause, so skipping a falsy term changes nothing. |
| `Text.ContainsIffOccurs` | src/services/products.service.ts:35-36 | The `contains` scan succeeds exactly when the term occurs at some position of the text. |
| `Products.FilterSelects` | src/services/products.service.ts:49-58 | Filtering by `where` keeps every matching product with its multiplicity and drops every other product. |
| `Products.InsertSorted` | src/services/products.service.ts:52-54 | Inserting into a list adds exactly that product and keeps a sorted list sorted. |
| `Products.SortProductsSorted` | src/services/products.service.ts:52-54 | Sorting by `{ [sortBy]: sortOrder }` gives a sorted permutation of its input. |
| `Products.Paginate` | src/services/products.service.ts:55-56 | The page holds at most `take` and at most all products. It is empty when `skip` reaches the end, and otherwise is the products from position `skip` on, in order. |
| `Products.PaginateKeepsOrder` | src/services/products.service.ts:52-56 | A page cut from a sorted listing is sorted. |
| `Products.Skip` | src/services/products.service.ts:41 | Page 1 starts at offset 0, and a page of at least 1 never starts at a negative offset. |
| `Products.SkipIsWholePages` | src/services/products.service.ts:40-41 | The offset is a multiple of `take`, and dividing it by `take` gives back `page - 1`. |
| `Products.TotalPages` | src/services/products.service.ts:67 | For `take > 0`, `(totalPages - 1) * take < total <= totalPages * take`, which characterises `ceil(total / take)`. It is 0 iff total is 0. |
| `Products.ListingFacts` | src/services/products.service.ts:49-59 | The sorted listing is as long as the count, holds only catalogue products that match `where`, and is sorted. |
| `Products.GetProducts` | src/services/products.service.ts:4-70 | `meta` echoes the filled-in page and limit. `total` is the unpaginated match count. The page is the window of `limit` products at offset `(page - 1) * limit` of the sorted listing. It has at most `limit` and at most `total` products, all from the catalogue, all matching `where`, in sort order. `totalPages` is the ceiling, and an offset at or past `total` gives an empty page. |
| `Products.ListedAreSelected` | src/services/products.service.ts:16-57 | Every listed product is active, within the given price bounds, and mentions a non-empty search term in its name or description. |
| `Products.CountOnlyActive` | src/services/products.service.ts:16-58 | No inactive product is counted (its multiplicity among the counted products is 0), and so the count never exceeds the number of active products. |
| `Products.PageBeyondLastIsEmpty` | src/services/products.service.ts:40-67 | For every valid request, a page number above `totalPages` gives an empty list, not an error. |
| `Products.PageInRangeIsFilled` | src/services/products.service.ts:40-67 | Every page from 1 to `totalPages` is non-empty and holds `min(limit, total - skip)` products. |
| `Products.OtherPageSameListing` | src/services/products.service.ts:40-57 | Asking for another page changes only the window: page `k` is the window at `(k - 1) * limit` of the same listing, given the model's single tie order. |
| `Products.WindowsArePrefix` | src/services/products.service.ts:40-56 | The first `k` windows of size `t`, one after another, are the first `min(k * t, n)` products. |
| `Products.PagesAreWindows` | src/services/products.service.ts:40-57 | Pages 1 to `k` of a request are the first `k` windows of its listing, given the model's single tie order. |
| `Products.PagesUpToIsPrefix` | src/services/products.service.ts:40-57 | Pages 1 to `k` together are the first `min(k * limit, total)` products of the listing, given the model's single tie order. |
| `Products.PagesCoverListing` | src/services/products.service.ts:40-67 | Pages 1 to `totalPages` together are exactly the listing, in order, and the pages agree with the count. So when every request orders ties the same way, every match appears on exactly one page. |
| `Seed.CatalogueIsSeedPriced` | prisma/seed.ts:15-126 | The seed catalogue has ten active products at 59.99, 24.99, 19.99, 22.50, 65.00, 12.00, 45.99, 24.99, 59.99 and 89.00, in that order. |
| `Seed.MidRangeFilter` | prisma/seed.ts:15-126 | Over the seed prices, the 20.00 to 60.00 predicate keeps six products, in catalogue order. |
| `Seed.MidRangeSort` | src/services/products.service.ts:52-54 | Sorting the six mid-range products by ascending price orders them 22.50, 24.99, 24.99, 45.99, 59.99, 59.99. |
| `Seed.MidRangeListing` | prisma/seed.ts:15-126 | The mid-range listing of the seed is those six products, cheapest first. |
| `Seed.MidRangeFirstPageOf` | src/services/products.service.ts:4-70 | With minPrice 2000, maxPrice 6000, price ascending and limit 3, page 1 has total 6, totalPages 2 and prices [2250, 2499, 2499]. |
| `Seed.MidRangeLaterPagesOf` | src/services/products.service.ts:4-70 | Page 2 of that request has prices [4599, 5999, 5999], and page 3 is empty. |
| `Seed.MidRangeScenario` | prisma/seed.ts:15-126 | On the seed catalogue itself: total 6, two pages, [22.50, 24.99, 24.99] then [45.99, 59.99, 59.99], then an empty third page. |
| `Auth.BirthDate` | src/services/auth.service.ts:23 | The stored birth date is the date of the given string when that string is non-empty, and null otherwise. |
| `Auth.UserStore.FindUnique` | src/services/auth.service.ts:7-9 | The lookup finds a record iff the address is in the store, and then it is the stored record. |
| `Auth.UserStore.Register` | src/services/auth.service.ts:5-29 | A taken address fails with "User with this email already exists" and leaves the store unchanged. Otherwise exactly that address gains a record: its password hash is `hash(password)`, its role is USER, its birth date follows `BirthDate`, its other fields are copied from the request, and its id is new. Every other record is unchanged and the created record is returned. The store invariant (records filed under their own address, distinct ids) is kept. |
| `Auth.UserStore.Login` | src/services/auth.service.ts:31-45 | An unknown address fails with "User not found". A password that `compare` rejects against the stored hash fails with "Invalid email or password". Otherwise the stored record is returned exactly. The method has no `modifies` clause, so the store is only read. |
| `Auth.RegisterTwice` | src/services/auth.service.ts:7-14 | Registering the same address twice makes the second call fail with the conflict error, and the store keeps only the first record. |
| `Auth.RegisterThenLogin` | src/services/auth.service.ts:5-45 | When `compare` accepts a password against its own hash, logging in after a fresh registration returns the created record. |

## Behaviour worth noting

- Login: an unknown address fails with "User not found" and a wrong password with "Invalid email or password" (src/services/auth.service.ts:36-43), so a caller can tell whether an address is registered. `Auth.UserStore.Login` keeps the two apart.
- Search: a present but empty term adds no text clause, because the code tests the term's truthiness (src/services/products.service.ts:33). `Products.EmptySearchSelectsAll` shows this selects the same products as an empty-term clause would.
- Pagination: each page is a separate query that sorts by one key that need not be unique, with no tie-breaker, then skips and takes (src/services/products.service.ts:50-57). The database may order tied rows differently from one query to the next. With two products at the same price on either side of a page boundary, two pages can show the same product and never show the other.

## Left out

- SQL generation and database semantics: the `where`, `orderBy`, `skip` and `take` arguments are interpreted over an in-memory sequence.
- The concurrent `Promise.all` of the page query and the count: they are two reads of the same catalogue.
- Floating-point and `Prisma.Decimal` prices: prices are integer cents. `Math.ceil(total / take)` over floats becomes integer ceiling division.
- `Number(...)` coercion of query-string values: page and limit are integers. A limit of 0 (which gives `NaN` pages when nothing matches and `Infinity` otherwise), a negative limit (a negative `take`, and `Math.ceil(total / take)` of 0 or less, e.g. -1 for 6 and -5) and a page below 1 (a negative `skip`) are excluded by `ValidFilter`, since the request validation layer is responsible for them.
- `sortBy` or `sortOrder` values outside their enumerations: validation rejects them.
- Unicode case folding of `mode: "insensitive"`: only ASCII letters are folded.
- Database collation for name order: names compare by code point.
- Database tie order: products with equal sort keys come out in catalogue order (a stable insertion sort). The database leaves their relative order unspecified, and may choose it afresh for every query.
- Products.OtherPageSameListing, Products.PagesAreWindows, Products.PagesUpToIsPrefix, Products.PagesCoverListing: these cross-page lemmas hold only because every page request in the model sorts ties the same way. With offset pagination over a non-unique sort key and no tie-breaker, the real pages can repeat a tied product or omit one (see "Behaviour worth noting").
- bcrypt internals, the cost factor 10 and the random salt: `hash` and `compare` are parameters. For the same reason the model cannot show that a stored hash differs from the raw password.
- JWT issuance and the route layer: response serialisation (which drops `passwordHash`), JSON-schema checks such as the minimum password length, and HTTP status codes.
- `new Date(...)` parsing of the birth date: a date is the string it was built from.
- User ids and timestamps assigned by the database: ids come from a counter in the store, and timestamps are not modelled.
- The race between the duplicate check and the insert, which the database's unique constraint on email settles.
- The server, CORS, helmet and Swagger setup, and the one-line controller.
- The seed script's database upserts. Its catalogue is used as data only, and descriptions, image URLs, sizes and colours are left empty because the price-filtered scenario does not read them.
