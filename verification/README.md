# Auction back end — a Dafny model

This project models the core of an auction web service. The service is an Express application that keeps its state
in MySQL and keeps uploaded images as files on disk. Users register, log in and receive an opaque token. With
that token they create and edit auctions, bid on other users' auctions, and manage one image per user and one per
auction. Anyone can search the listings, read an auction, and read its bid history.

The model is a single in-memory store, `Store.Database`. It is a class whose fields are the tables:
- users, categories, auctions and the bid ledger;
- the two auto-increment counters.

The image directory is a second class, `Store.ImageFiles`, holding the set of file names present.

The layers follow the source:
- `UserModel` and `AuctionsModel` model the two query modules, `src/app/models/user.model.ts` and
  `src/app/models/auctions.model.ts`. Their writes are methods that reassign the table fields. Their reads are
  functions over the table values.
- `UserController` and `AuctionsController` model the two handler modules under `src/app/controllers/`. Each
  handler is a method that returns either a value or the kind of failure it reports:
  - 400 is `BadRequest`, 401 is `Unauthenticated`, 403 is `Forbidden`, 404 is `NotFound` and 500 is
    `ServerError`.
  - Its contract lists every guard in the order the handler tests it, and states the table and file state the
    call leaves behind.
  - Read-only handlers are methods that change nothing; their contracts state what the reply means.
- `Text`, `Sorting` and `Images` hold the string, ordering and file-name rules the handlers rely on.
- `Wrappers` holds `Option`, `Result` and the failure kinds.

Some abstractions are made throughout:
- SQL `where` clauses become predicates over rows. `order by`, `limit` and `offset` become a stable insertion sort
  and a slice.
- A `select` with no `order by` returns rows in primary-key order.
- A bcrypt digest is a `Digest(salt, secret)` value. Comparing a password with it succeeds exactly when the
  password is the secret.
- Time is an integer `now` passed in by the caller. The fresh login token and the salt are also parameters.
- A request field the client left out is `None`. The source's truthiness tests are written out as `Present`: a
  given, non-empty string.

Some source defects are kept as written:
- `addAuction` (`src/app/controllers/auctions.controller.ts:118-120`) sends 401 when the token does not belong to
  exactly one user, but does not return.
  - When several users hold the token, the auction is still created, for the lowest user id.
  - When nobody holds it, the following lookup throws and nothing is created.
  - The client sees the 401 in both cases.
- `makeBid` has the same missing `return` (`src/app/controllers/auctions.controller.ts:442-443`). When several
  users hold the token, the bid is still recorded and the self-bid test is skipped.
- `updateId` (`src/app/controllers/user.controller.ts:191`) stores a fresh digest of the *current* password, not
  of the requested new one. A password change therefore keeps the old password (`PasswordChangeKeepsCurrent`).
  It also does not check a new email against other users' emails, so only `register` keeps emails unique.
- `viewBids` reports the bid row's own id in the `bidderId` column (`src/app/models/auctions.model.ts:119`).
- The listing count query (`src/app/models/auctions.model.ts:15`) does not join the seller. The page query
  (line 12) does. The count can therefore include auctions whose seller row is gone.
- `auctions.getOne` inner-joins the seller, so an auction without its seller reads as not found
  (`AuctionsModel.Listed`). The later "seller not found" branches of `updateAuction`, `removeAuction` and
  `setAucImage` can never be reached after that lookup, and the model has no state for them.

One defect is corrected in the model: the bid amount test. See "## Findings".

## Model

| member | source | states |
|---|---|---|
| Text.IndexOf | src/app/controllers/user.controller.ts:20 | result is -1 exactly when the character is absent, otherwise the position of its first occurrence |
| Text.LastIndexOf | src/app/controllers/user.controller.ts:21 | result is -1 exactly when the character is absent, otherwise the position of its last occurrence |
| Text.IndexOfAt | src/app/controllers/user.controller.ts:20 | a position holding the character with no earlier copy is the first occurrence |
| Text.LastIndexOfAt | src/app/controllers/user.controller.ts:21 | a position holding the character with no later copy is the last occurrence |
| Text.LowerChar | src/app/controllers/auctions.controller.ts:330 | an upper-case ASCII letter moves 32 code points down to its small letter; every other character is left alone; no upper-case letter remains |
| Text.Lower | src/app/controllers/auctions.controller.ts:298 | lower-casing a string lower-cases each character in place: same length, position by position, and the identity on text without upper-case letters |
| Text.LastSegment | src/app/controllers/auctions.controller.ts:297-298 | the last `split('.')` piece holds no separator, is a suffix of the name, and when shorter than the name is preceded by the separator |
| Text.LastSegmentAfter | src/app/controllers/auctions.controller.ts:297-298 | for `prefix + "." + tail` with no dot in the tail, the last piece is the tail |
| Text.Digit | src/app/models/auctions.model.ts:111 | a digit value 0-9 becomes the character '0'-'9' whose code is that far above '0' |
| Text.Decimal | src/app/models/auctions.model.ts:111 | the decimal rendering of an id is non-empty, made of digits, with no leading zero, and has at least two digits from 10 on |
| Text.DecimalValue | src/app/models/auctions.model.ts:111 | reading the rendering of an id back as decimal digits gives the id |
| Text.DecimalInjective | src/app/models/auctions.model.ts:111 | distinct ids render as distinct decimal texts |
| Text.StrLeTotal | src/app/controllers/auctions.controller.ts:37-41 | title order compares any two titles |
| Text.StrLeTransitive | src/app/controllers/auctions.controller.ts:37-41 | title order is transitive |
| Images.ExtensionFor | src/app/controllers/auctions.controller.ts:330-345 | a type whose text after six characters is `png`, `jpeg` or `gif` (any letter case) maps to `png`, `jpg` and `gif` respectively, each exactly in its own case; every other content type is refused |
| Images.ContentTypeFor | src/app/controllers/auctions.controller.ts:297-302 | the reply type is `image/` and the file's last extension lower-cased, `jpeg` exactly for `jpg` or `jpeg`, and never `image/jpg` |
| Images.Filename | src/app/models/auctions.model.ts:111 | the stored name starts with `<kind>_` and ends with `.` and the extension |
| Images.ContentTypeRoundTrip | src/app/controllers/auctions.controller.ts:296-302 | storing an upload under its mapped extension and reading the type back gives `image/` plus the uploaded type |
| Images.ExtensionForImageTypes | src/app/controllers/user.controller.ts:263-278 | each supported image type is accepted and reads back as itself |
| Images.FilenameInjective | src/app/models/user.model.ts:96 | two ids, or two extensions, never share an image file name |
| Store.HashVerifies | src/app/models/user.model.ts:12-14 | a stored digest accepts a candidate password exactly when it is the hashed one |
| Store.SelectIds | src/app/models/auctions.model.ts:12 | the primary-key scan returns exactly the matching rows below the counter, in strictly increasing id order |
| Store.SelectIdsAgree | src/app/models/user.model.ts:26-30 | a scan gives the same ids over two tables on which the predicate agrees |
| Store.SelectedStep | src/app/models/auctions.model.ts:15 | raising the counter by one adds that id to the matching set exactly when its row matches |
| Store.SelectIdsCount | src/app/models/auctions.model.ts:15 | the scan's length is the number of distinct matching ids |
| Store.SelectIdsCountAll | src/app/models/auctions.model.ts:15 | when every key is below the counter, that number covers the whole table |
| Sorting.Insert | src/app/models/auctions.model.ts:12 | insertion adds exactly one element and keeps the multiset |
| Sorting.SortBy | src/app/models/auctions.model.ts:12 | the `order by` result is a permutation of its input |
| Sorting.InsertSorted | src/app/models/auctions.model.ts:12 | inserting into a sorted sequence under a total preorder keeps it sorted |
| Sorting.SortBySorted | src/app/models/auctions.model.ts:12 | the `order by` result is sorted under any total preorder |
| Sorting.SliceSorted | src/app/controllers/auctions.controller.ts:63-70 | a slice of a sorted sequence is sorted |
| Sorting.Page | src/app/controllers/auctions.controller.ts:63-70 | `limit`/`offset` gives at most `limit` rows, exactly `min(limit, n - offset)` of them, each the row `offset` places further on |
| Sorting.SortByPage | src/app/models/auctions.model.ts:12 | sorting all rows and then cutting the page yields a page of an ordering of all the rows |
| Sorting.DistinctPermutation | src/app/models/auctions.model.ts:12 | reordering rows keeps them free of repeats |
| Sorting.PageSorted | src/app/controllers/auctions.controller.ts:63-70 | a page of a sorted result is sorted |
| UserModel.UsersWithEmail | src/app/models/user.model.ts:57-66 | the users with an email are exactly the rows holding it |
| UserModel.GetAuth | src/app/models/user.model.ts:108-114 | the token holders are exactly the rows holding that token, in increasing id order |
| UserModel.Insert | src/app/models/user.model.ts:7-19 | a new user gets the next id and a digest of the password, with no token and no image |
| UserModel.Authorised | src/app/models/user.model.ts:26-27 | every user with the email gets the token and nobody else changes |
| UserModel.SetAuth | src/app/models/user.model.ts:22-33 | the table becomes `Authorised`, and the reported ids are the users with that email |
| UserModel.RemoveAuth | src/app/models/user.model.ts:35-44 | every holder of the token loses it, and the affected count is how many held it |
| UserModel.Alter | src/app/models/user.model.ts:68-77 | names, email and password are overwritten; token and image stay |
| UserModel.SetPhoto | src/app/models/user.model.ts:91-98 | the image reference becomes `user_<id>.<ext>` |
| UserModel.DeletePhoto | src/app/models/user.model.ts:100-106 | the reference is cleared only when both id and token match |
| AuctionsModel.NumBids | src/app/models/auctions.model.ts:10 | the bid count is zero exactly when no recorded bid is on the auction |
| AuctionsModel.HighestBid | src/app/models/auctions.model.ts:11 | the highest bid is null exactly when there are no bids, otherwise it is attained and bounds every bid |
| AuctionsModel.AppendBidAggregates | src/app/models/auctions.model.ts:10-11 | a new bid adds one to its own auction's count and leaves other auctions' figures alone |
| AuctionsModel.CheckCat | src/app/models/auctions.model.ts:38-47 | a category id is accepted exactly when a category row with that id exists |
| AuctionsModel.Listed | src/app/models/auctions.model.ts:49-60 | `getOne` finds a row only when the auction exists and its seller row exists (the inner join) |
| AuctionsModel.Matches | src/app/controllers/auctions.controller.ts:12-27 | with no criteria (`where true`) every auction matches |
| AuctionsModel.MatchesConjoins | src/app/controllers/auctions.controller.ts:12-27 | the criteria combine with `and`: a filter matches exactly when each of its criteria alone does |
| AuctionsModel.ClosingSoonByEndDate | src/app/controllers/auctions.controller.ts:58-59 | sorted closing soonest first means end dates never decrease |
| AuctionsModel.KeyOrderIsPreorder | src/app/controllers/auctions.controller.ts:36-61 | every `sortBy` ordering is a total preorder |
| AuctionsModel.Summaries | src/app/models/auctions.model.ts:9-12 | one summary row per selected auction, in the same order, each the auction's columns, its seller's names and its bid figures; no repeated row when the ids ascend |
| AuctionsModel.PageRowsFrom | src/app/models/auctions.model.ts:12 | every row on the page is one of the selected rows |
| AuctionsModel.SortedRows | src/app/models/auctions.model.ts:12 | the sorted rows are a permutation of the selected rows, ordered by the key |
| AuctionsModel.FindAuc | src/app/models/auctions.model.ts:5-23 | a search never returns more rows than its limit |
| AuctionsModel.FindAucCount | src/app/models/auctions.model.ts:15-16 | the count is the number of distinct matching auctions; sort, limit and offset play no part |
| AuctionsModel.FindAucCountAll | src/app/models/auctions.model.ts:15-16 | with every id below the counter, the count is over all matching auctions |
| AuctionsModel.FindAucRowsMatch | src/app/models/auctions.model.ts:9-12 | every listed row is an auction with a seller that meets every given criterion, and is that auction's current summary |
| AuctionsModel.FindAucSortedPage | src/app/models/auctions.model.ts:12 | the page is cut by `limit`/`offset` from an ordering of ALL joined matching rows by the key, not sorted after cutting |
| AuctionsModel.FindAucDistinct | src/app/models/auctions.model.ts:12 | no auction appears twice on a page |
| AuctionsModel.FindAucSorted | src/app/models/auctions.model.ts:12 | the page is sorted by the requested key |
| AuctionsModel.FindAucPageSize | src/app/models/auctions.model.ts:12-16 | with every seller present, the page holds `min(limit, count - offset)` rows |
| AuctionsModel.BidsOn | src/app/models/auctions.model.ts:119 | the history rows are exactly the auction's bids whose bidder exists, and there are as many as bids when all bidders exist |
| AuctionsModel.Views | src/app/models/auctions.model.ts:119 | each history row carries its bid's row id, amount and timestamp, and its bidder's first and last name |
| AuctionsModel.ViewOf | src/app/models/auctions.model.ts:119 | the row of one bid carries its id, amount and time and its bidder's names |
| AuctionsModel.ViewBids | src/app/models/auctions.model.ts:115-122 | the history is the rows of some highest-first ordering of exactly the auction's joined bids, each bid once |
| AuctionsModel.ViewBidsOrdered | src/app/models/auctions.model.ts:119 | the history lists the highest amount first |
| AuctionsModel.ViewBidsFromLedger | src/app/models/auctions.model.ts:119 | every history row is the row of a recorded bid on that auction by an existing user, with that user's names |
| AuctionsModel.ViewBidsComplete | src/app/models/auctions.model.ts:119 | every recorded bid on the auction by an existing user has its row in the history |
| AuctionsModel.CreateAuc | src/app/models/auctions.model.ts:25-36 | a new auction gets the next id, the given fields and no image |
| AuctionsModel.Alter | src/app/models/auctions.model.ts:63-72 | title, description, category, end date and reserve are overwritten; seller and image stay |
| AuctionsModel.DeleteAuc | src/app/models/auctions.model.ts:74-83 | the auction row is removed and nothing else changes |
| AuctionsModel.SetAucImage | src/app/models/auctions.model.ts:107-113 | the image reference becomes `auction_<id>.<ext>` |
| AuctionsModel.MakeBid | src/app/models/auctions.model.ts:124-132 | a bid is appended to the ledger with the next bid id and the current time |
| AuctionsController.AmountAccepted | src/app/controllers/auctions.controller.ts:432-438 | a first bid must reach the reserve and be positive; a later bid must beat the highest strictly |
| AuctionsController.AmountAcceptedAsWritten | src/app/controllers/auctions.controller.ts:432-438 | with the route's absent amount parameter the test accepts every bid |
| AuctionsController.AsWrittenAcceptsBelowReserve | src/app/controllers/auctions.controller.ts:432 | as written, a first bid of 50 on a reserve of 100 passes, which the intended test refuses |
| AuctionsController.AcceptedBidExtendsLedger | src/app/controllers/auctions.controller.ts:432-448 | recording an accepted bid keeps each auction's bids strictly increasing and positive, makes it the highest, and adds one to the count |
| AuctionsController.TiesLose | src/app/controllers/auctions.controller.ts:435 | a bid equal to or below the highest is refused |
| AuctionsController.MakeBid | src/app/controllers/auctions.controller.ts:405-455 | guards in order (token, amount, auction, amount test, token holder, self-bid); the ledger gains the bid exactly in the cases the handler writes it, and stays increasing and positive |
| AuctionsController.RecordBid | src/app/controllers/auctions.controller.ts:448 | recording an accepted bid appends it and keeps the ledger increasing and positive |
| AuctionsController.ClearedBidBeatsHighest | src/app/controllers/auctions.controller.ts:432-447 | a bid that reaches the insert beats the highest bid, or meets the reserve when there is none, and its bidder holds the token |
| AuctionsController.ViewBids | src/app/controllers/auctions.controller.ts:380-403 | not found exactly when the auction is not listed; otherwise exactly the auction's joined bids, each once, highest first, each row with its bidder's names |
| AuctionsController.SortKeyFor | src/app/controllers/auctions.controller.ts:30-61 | no `sortBy` means closing soonest first; each known name selects its own ordering; any other name adds no `order by` |
| AuctionsController.SortName | src/app/controllers/auctions.controller.ts:36-60 | every ordering has a name the switch knows |
| AuctionsController.SortKeyForName | src/app/controllers/auctions.controller.ts:36-60 | each ordering is selected by its own name |
| AuctionsController.PageLimit | src/app/controllers/auctions.controller.ts:63-70 | the limit is `count` when given, otherwise 9999999999 |
| AuctionsController.PageOffset | src/app/controllers/auctions.controller.ts:63-70 | the offset is `startIndex` when given, otherwise 0 |
| AuctionsController.ViewAuctions | src/app/controllers/auctions.controller.ts:10-80 | the count is over all matching auctions; the page is cut from all joined matching rows after ordering them by the requested key (end date by default); each row is its auction's current summary and meets every criterion; no auction twice; at most `count` rows, and `min(limit, count - offset)` when every seller exists |
| AuctionsController.ViewOne | src/app/controllers/auctions.controller.ts:130-150 | not found exactly when the auction or its seller is missing; otherwise the stored fields, the seller's names, and the auction's bid count and highest bid |
| AuctionsController.ReserveOrDefault | src/app/controllers/auctions.controller.ts:101-106 | an absent or zero reserve becomes 1; any other value is kept |
| AuctionsController.AddAuction | src/app/controllers/auctions.controller.ts:82-128 | guards in order (token, fields, future end date, category, token holder); exactly the created auction is added, under the next id, including the no-return case |
| AuctionsController.CreatedAuctionReadsBack | src/app/controllers/auctions.controller.ts:121-144 | a created auction reads back with the fields it was created with, no bids and no highest bid |
| AuctionsController.Patched | src/app/controllers/auctions.controller.ts:152-220 | each given field replaces the stored one, absent ones keep theirs; seller and image are never touched |
| AuctionsController.PatchedIdempotent | src/app/controllers/auctions.controller.ts:152-220 | an empty patch changes nothing and a patch applied twice is applied once |
| AuctionsController.AcceptablePatchKeepsBounds | src/app/controllers/auctions.controller.ts:152-220 | a patch that passes the field tests keeps a positive reserve positive, a future end date future and a known category known |
| AuctionsController.UpdateAuction | src/app/controllers/auctions.controller.ts:152-220 | only the seller's token may patch; every given field must pass its test; success writes exactly the patched row and failure writes nothing |
| AuctionsController.RemoveAuction | src/app/controllers/auctions.controller.ts:222-267 | refused while bids exist, then for anyone but the seller; success removes the row and its image file |
| AuctionsController.DeleteNeedsNoBids | src/app/controllers/auctions.controller.ts:241-244 | any recorded bid makes the count nonzero, so deletion is refused |
| AuctionsController.GetAucImage | src/app/controllers/auctions.controller.ts:282-309 | no reference is not found, a missing file is a server error, and otherwise the reply type comes from the file's extension |
| AuctionsController.SetAucImage | src/app/controllers/auctions.controller.ts:311-378 | guards in order (token, content type, auction, seller); the file `auction_<id>.<ext>` is stored and referenced; the reply is Updated when a reference existed, Created otherwise |
| UserController.ValidEmail | src/app/controllers/user.controller.ts:20-27 | a valid email contains '@' and has at least three characters |
| UserController.ValidEmailMeansOneAt | src/app/controllers/user.controller.ts:20-27 | an email passes exactly when it holds a single '@' with text on both sides |
| UserController.Register | src/app/controllers/user.controller.ts:12-46 | all fields, a valid email and an unused email are required; success adds exactly the new user under the next id and keeps emails unique |
| UserController.Login | src/app/controllers/user.controller.ts:48-87 | bad fields or email are 400; an unknown email is a server error; a wrong password is 400; success gives the token to every user with that email and reports the first |
| UserController.LoginTokenIdentifies | src/app/controllers/user.controller.ts:74-79 | with unique emails and a fresh token, after login the token resolves to exactly the user who logged in |
| UserController.RegisteredPasswordLogsIn | src/app/models/user.model.ts:12-14 | the stored digest accepts the password registered with it |
| UserController.Logout | src/app/controllers/user.controller.ts:89-111 | 401 exactly when no user holds the token; afterwards nobody holds it and nothing else changed |
| UserController.FindId | src/app/controllers/user.controller.ts:113-144 | not found exactly when the id is unknown; names always, email only to the holder of the user's own token |
| UserController.UserPatched | src/app/controllers/user.controller.ts:146-211 | each given field replaces the stored one, a new password being stored as a digest of the current one; token and image are never touched |
| UserController.UpdateId | src/app/controllers/user.controller.ts:146-211 | guards in order (token, user, owner, email, current password); success writes exactly the patched row and failure writes nothing |
| UserController.PasswordChangeKeepsCurrent | src/app/controllers/user.controller.ts:188-191 | after a password change the stored digest accepts the current password, and the requested one only when it is the same |
| UserController.NamePatchKeepsCredentials | src/app/controllers/user.controller.ts:198-204 | a names-only patch leaves email, password, token and image alone |
| UserController.GetImage | src/app/controllers/user.controller.ts:213-241 | no reference is not found, a missing file is a server error, and otherwise the reply type comes from the file's extension |
| UserController.SetImage | src/app/controllers/user.controller.ts:243-305 | guards in order (token, content type, user, owner); the file `user_<id>.<ext>` is stored and referenced; the reply is Updated when a reference existed, Created otherwise |
| UserController.DeleteImage | src/app/controllers/user.controller.ts:307-342 | guards in order (token, user, owner); the reference is cleared and the referenced file, or one named "null" when there was none, is removed |

## Left out

- Parsing and validating the `:id` path parameter is not modelled. Ids are natural numbers, and the handlers'
  404 for a malformed id does not arise.
- Dates are not parsed. `Date.parse(endDate)` and `Date.now()` are integers, and an unparsable date is not
  modelled.
- Number parsing is not modelled: `parseInt` on amounts, reserves and category ids. Values arrive as integers, and
  NaN amounts or reserves from non-numeric bodies are not modelled.
- The SQL text that `viewAuctions` builds is not modelled; the criteria are typed values. Query-string injection,
  and malformed `categoryIds`, `count` or `startIndex`, are outside the model.
- `LIKE` matching is not fully modelled. `q` is an exact substring test, ignoring collation, case-insensitive
  matching and `%`/`_` inside `q`.
- Lower-casing covers ASCII letters only.
- Equality in `where email = ?` and `where auth_token = ?` (`src/app/models/user.model.ts:26-29`, 39, 61, 103, 111)
  is exact string equality. Under a case- or accent-insensitive MySQL collation, emails or tokens that differ only in
  case would also match. `UserModel.UsersWithEmail`, `UserModel.GetAuth`, `UserModel.SetAuth`, `UserModel.RemoveAuth`,
  `UserModel.DeletePhoto` and the email-uniqueness results of `UserController.Register` and
  `UserController.LoginTokenIdentifies` hold for that exact equality only.
- Title order is plain character order, not MySQL collation. Ties keep primary-key order, where MySQL leaves
  their order open.
- bcrypt salts, cost factors and the hash function are not modelled, nor is `crypto.randomBytes`. The salt and
  the token are parameters.
- Image bytes, content length and disk errors are not modelled. The image directory is a set of file names.
- A `null` that the client sends explicitly for a patched field is not modelled. Field presence is `None` or a
  value, so the source's `TypeError` paths for such values are absent.
- `viewCategories` and `getCat` are not modelled; they only read the category table.
- Concurrency between requests, the connection pool and logging are not modelled.
- Replies sent after a reply has already gone out (`ERR_HTTP_HEADERS_SENT`) are not modelled. The model reports
  the first reply the client receives.
- AuctionsModel.FindAuc: its own contract states only the page bound; the count, matching, order and page-size
  properties are the separate `FindAuc*` lemmas.
- AuctionsController.ViewAuctions: the exact page size is stated only when every auction's seller exists, because
  the count does not join the seller.

## Findings

| source | as written | input that shows it | evidently intended | confidence | as-written member | corrected member |
|---|---|---|---|---|---|---|
| src/app/controllers/auctions.controller.ts:432-438 | the amount test reads `parseInt(req.params.amount, 10)`. The bid route has no `amount` parameter, so the value is NaN and both comparisons are false | first bid of 50 on an auction with reserve 100 and no bids: accepted and recorded | test the body's amount: a first bid must reach the reserve (and be positive), a later bid must beat the highest | high; not executed | AuctionsController.AsWrittenAcceptsBelowReserve | AuctionsController.AcceptedBidExtendsLedger |
