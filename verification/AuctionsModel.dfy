/** The statements the auction handlers run against the auction, category and auction_bid tables. */
module AuctionsModel {
  import opened Wrappers
  import opened Text
  import opened Store
  import opened Sorting
  import Images

  /** `count(auction_id)` over the auction's bids. */
  function NumBids(bids: seq<Bid>, auctionId: nat): (n: nat)
    ensures n <= |bids|
    ensures n == 0 <==> forall i :: 0 <= i < |bids| ==> bids[i].auctionId != auctionId
  {
    if bids == [] then 0
    else
      var init := bids[..|bids| - 1];
      assert forall i :: 0 <= i < |init| ==> init[i] == bids[i];
      NumBids(init, auctionId) + (if bids[|bids| - 1].auctionId == auctionId then 1 else 0)
  }

  /** `max(amount)` over the auction's bids: null when there are none, otherwise the largest amount bid. */
  function HighestBid(bids: seq<Bid>, auctionId: nat): (h: Option<int>)
    ensures h.None? <==> NumBids(bids, auctionId) == 0
    ensures h.Some? ==> exists i :: 0 <= i < |bids| && bids[i].auctionId == auctionId && bids[i].amount == h.value
    ensures h.Some? ==> forall i :: 0 <= i < |bids| && bids[i].auctionId == auctionId ==> bids[i].amount <= h.value
  {
    if bids == [] then None
    else
      var init := bids[..|bids| - 1];
      var last := bids[|bids| - 1];
      assert forall i :: 0 <= i < |init| ==> init[i] == bids[i];
      var h := HighestBid(init, auctionId);
      if last.auctionId != auctionId then h
      else if h.None? || h.value < last.amount then Some(last.amount)
      else h
  }

  /** Appending a bid adds one to its auction's count and leaves every other auction's aggregates alone. */
  lemma AppendBidAggregates(bids: seq<Bid>, b: Bid, auctionId: nat)
    ensures NumBids(bids + [b], auctionId)
         == NumBids(bids, auctionId) + (if b.auctionId == auctionId then 1 else 0)
    ensures b.auctionId != auctionId ==> HighestBid(bids + [b], auctionId) == HighestBid(bids, auctionId)
  {
    assert (bids + [b])[..|bids|] == bids;
  }

  /** `checkCat`: a category row with that id exists. */
  predicate CheckCat(categories: map<int, string>, categoryId: int)
    ensures CheckCat(categories, categoryId) <==> categoryId in categories.Keys
  {
    categoryId in categories
  }

  /** `getOne` finds an auction only through the inner join with its seller. */
  predicate Listed(users: map<nat, User>, auctions: map<nat, Auction>, id: nat)
    ensures Listed(users, auctions, id) ==> id in auctions.Keys && auctions[id].sellerId in users.Keys
  {
    id in auctions && auctions[id].sellerId in users
  }

  /** A row of the search listing (no description, no image reference). */
  datatype AuctionSummary = AuctionSummary(
    auctionId: nat,
    title: string,
    categoryId: int,
    sellerId: nat,
    sellerFirstName: string,
    sellerLastName: string,
    reserve: int,
    numBids: nat,
    highestBid: Option<int>,
    endDate: int)

  function Summary(users: map<nat, User>, auctions: map<nat, Auction>, bids: seq<Bid>, id: nat): AuctionSummary
    requires Listed(users, auctions, id)
  {
    var a := auctions[id];
    var seller := users[a.sellerId];
    AuctionSummary(id, a.title, a.categoryId, a.sellerId, seller.firstName, seller.lastName,
                   a.reserve, NumBids(bids, id), HighestBid(bids, id), a.endDate)
  }

  /** The search criteria; every one that is given must hold. */
  datatype Filter = Filter(
    sellerId: Option<int>,
    categoryIds: Option<set<int>>,
    bidderId: Option<int>,
    q: Option<string>)

  /** With no criteria every auction matches (the query's `where true`). */
  predicate Matches(bids: seq<Bid>, f: Filter, id: nat, a: Auction)
    ensures f == Filter(None, None, None, None) ==> Matches(bids, f, id, a)
  {
    && (f.sellerId.Some? ==> a.sellerId == f.sellerId.value)
    && (f.categoryIds.Some? ==> a.categoryId in f.categoryIds.value)
    && (f.bidderId.Some? ==>
          exists i :: 0 <= i < |bids| && bids[i].auctionId == id && bids[i].userId == f.bidderId.value)
    && (f.q.Some? ==> Contains(a.title, f.q.value) || Contains(a.description, f.q.value))
  }

  /** The criteria combine with AND: a filter matches exactly when each of its criteria alone does. */
  lemma MatchesConjoins(bids: seq<Bid>, f: Filter, id: nat, a: Auction)
    ensures Matches(bids, f, id, a) <==>
      && Matches(bids, Filter(f.sellerId, None, None, None), id, a)
      && Matches(bids, Filter(None, f.categoryIds, None, None), id, a)
      && Matches(bids, Filter(None, None, f.bidderId, None), id, a)
      && Matches(bids, Filter(None, None, None, f.q), id, a)
  {
  }

  /** The `order by` clauses the listing can use; `Unordered` is the absent clause. */
  datatype SortKey =
    | AlphabeticalAsc | AlphabeticalDesc
    | BidsAsc | BidsDesc
    | ClosingSoon | ClosingLast
    | ReserveAsc | ReserveDesc
    | Unordered

  /** Ascending order on a nullable number: null sorts first, as in the store. */
  predicate NullableLe(a: Option<int>, b: Option<int>) {
    a.None? || (b.Some? && a.value <= b.value)
  }

  predicate KeyLe(key: SortKey, a: AuctionSummary, b: AuctionSummary) {
    match key
    case AlphabeticalAsc => StrLe(a.title, b.title)
    case AlphabeticalDesc => StrLe(b.title, a.title)
    case BidsAsc => NullableLe(a.highestBid, b.highestBid)
    case BidsDesc => NullableLe(b.highestBid, a.highestBid)
    case ClosingSoon => a.endDate <= b.endDate
    case ClosingLast => b.endDate <= a.endDate
    case ReserveAsc => a.reserve <= b.reserve
    case ReserveDesc => b.reserve <= a.reserve
    case Unordered => true
  }

  function OrderBy(key: SortKey): (AuctionSummary, AuctionSummary) -> bool {
    (a: AuctionSummary, b: AuctionSummary) => KeyLe(key, a, b)
  }

  /** Sorted closing-soonest-first means end dates never decrease along the rows. */
  lemma ClosingSoonByEndDate(rows: seq<AuctionSummary>)
    requires Sorted(rows, OrderBy(ClosingSoon))
    ensures forall i, j :: 0 <= i < j < |rows| ==> rows[i].endDate <= rows[j].endDate
  {
    forall i, j | 0 <= i < j < |rows| ensures rows[i].endDate <= rows[j].endDate {
      assert OrderBy(ClosingSoon)(rows[i], rows[j]);
    }
  }

  /** Every sort key is a total preorder, so sorting by it is well defined. */
  lemma KeyOrderIsPreorder(key: SortKey)
    ensures Total(OrderBy(key)) && Transitive(OrderBy(key))
  {
    var le := OrderBy(key);
    forall a: AuctionSummary, b: AuctionSummary ensures le(a, b) || le(b, a) {
      StrLeTotal(a.title, b.title);
    }
    forall a: AuctionSummary, b: AuctionSummary, c: AuctionSummary | le(a, b) && le(b, c) ensures le(a, c) {
      if key == AlphabeticalAsc {
        StrLeTransitive(a.title, b.title, c.title);
      } else if key == AlphabeticalDesc {
        StrLeTransitive(c.title, b.title, a.title);
      }
    }
  }

  function MatchesFilter(bids: seq<Bid>, f: Filter): (nat, Auction) -> bool {
    (id: nat, a: Auction) => Matches(bids, f, id, a)
  }

  function MatchesWithSeller(users: map<nat, User>, bids: seq<Bid>, f: Filter): (nat, Auction) -> bool {
    (id: nat, a: Auction) => Matches(bids, f, id, a) && a.sellerId in users
  }

  function Summaries(users: map<nat, User>, auctions: map<nat, Auction>, bids: seq<Bid>, ids: seq<nat>): (rows: seq<AuctionSummary>)
    requires forall i :: 0 <= i < |ids| ==> Listed(users, auctions, ids[i])
    ensures |rows| == |ids|
    ensures forall i :: 0 <= i < |rows| ==> rows[i] == Summary(users, auctions, bids, ids[i])
    ensures forall i :: 0 <= i < |rows| ==> rows[i].auctionId == ids[i]
    ensures (forall i, j :: 0 <= i < j < |ids| ==> ids[i] < ids[j]) ==> Distinct(rows)
  {
    seq(|ids|, i requires 0 <= i < |ids| => Summary(users, auctions, bids, ids[i]))
  }

  /** Every row of a page of a sorted permutation comes from the unsorted rows. */
  lemma PageRowsFrom<T>(rows: seq<T>, sorted: seq<T>, offset: nat, limit: nat)
    requires multiset(sorted) == multiset(rows)
    ensures forall x :: x in Page(sorted, offset, limit) ==> x in rows
  {
    forall x | x in Page(sorted, offset, limit) ensures x in rows {
      assert x in multiset(sorted);
    }
  }

  datatype SearchResult = SearchResult(auctions: seq<AuctionSummary>, count: nat)

  /** The auctions the page is drawn from: the matching ones that have a seller row, in id order. */
  function JoinedIds(users: map<nat, User>, auctions: map<nat, Auction>, bids: seq<Bid>, bound: nat, f: Filter): seq<nat> {
    SelectIds(auctions, MatchesWithSeller(users, bids, f), bound)
  }

  /** The auctions the count is taken over: every matching one, in id order. */
  function MatchingIds(auctions: map<nat, Auction>, bids: seq<Bid>, bound: nat, f: Filter): seq<nat> {
    SelectIds(auctions, MatchesFilter(bids, f), bound)
  }

  function SortedRows(users: map<nat, User>, auctions: map<nat, Auction>, bids: seq<Bid>, bound: nat,
                      f: Filter, key: SortKey): (rows: seq<AuctionSummary>)
    ensures multiset(rows) == multiset(Summaries(users, auctions, bids, JoinedIds(users, auctions, bids, bound, f)))
    ensures Sorted(rows, OrderBy(key))
  {
    var all := Summaries(users, auctions, bids, JoinedIds(users, auctions, bids, bound, f));
    KeyOrderIsPreorder(key);
    SortBySorted(all, OrderBy(key));
    SortBy(all, OrderBy(key))
  }

  /** `findAuc`: a page of the sorted matching auctions, and the count of all of them. */
  function FindAuc(users: map<nat, User>, auctions: map<nat, Auction>, bids: seq<Bid>, bound: nat,
                   f: Filter, key: SortKey, limit: nat, offset: nat): (r: SearchResult)
    ensures |r.auctions| <= limit
  {
    SearchResult(Page(SortedRows(users, auctions, bids, bound, f, key), offset, limit),
                 |MatchingIds(auctions, bids, bound, f)|)
  }

  /** The count is the number of distinct matching auctions; sort key, limit and offset play no part. */
  lemma FindAucCount(users: map<nat, User>, auctions: map<nat, Auction>, bids: seq<Bid>, bound: nat,
                     f: Filter, key: SortKey, limit: nat, offset: nat)
    ensures FindAuc(users, auctions, bids, bound, f, key, limit, offset).count
         == |set id | id in auctions && id < bound && Matches(bids, f, id, auctions[id])|
  {
    SelectIdsCount(auctions, MatchesFilter(bids, f), bound);
    assert Selected(auctions, MatchesFilter(bids, f), bound)
        == set id | id in auctions && id < bound && Matches(bids, f, id, auctions[id]);
  }

  /** When every auction id is below the bound, the count is over all matching auctions. */
  lemma FindAucCountAll(users: map<nat, User>, auctions: map<nat, Auction>, bids: seq<Bid>, bound: nat,
                        f: Filter, key: SortKey, limit: nat, offset: nat)
    requires forall id :: id in auctions ==> id < bound
    ensures FindAuc(users, auctions, bids, bound, f, key, limit, offset).count
         == |set id | id in auctions && Matches(bids, f, id, auctions[id])|
  {
    FindAucCount(users, auctions, bids, bound, f, key, limit, offset);
    assert (set id | id in auctions && id < bound && Matches(bids, f, id, auctions[id]))
        == (set id | id in auctions && Matches(bids, f, id, auctions[id]));
  }

  /**
   * Every listed row is an auction that satisfies all the given criteria and has a seller, and
   * carries that auction's current columns and bid figures.
   */
  lemma FindAucRowsMatch(users: map<nat, User>, auctions: map<nat, Auction>, bids: seq<Bid>, bound: nat,
                         f: Filter, key: SortKey, limit: nat, offset: nat)
    ensures forall x :: x in FindAuc(users, auctions, bids, bound, f, key, limit, offset).auctions ==>
      && x.auctionId < bound && Listed(users, auctions, x.auctionId) && Matches(bids, f, x.auctionId, auctions[x.auctionId])
      && x == Summary(users, auctions, bids, x.auctionId)
  {
    var joined := JoinedIds(users, auctions, bids, bound, f);
    var rows := Summaries(users, auctions, bids, joined);
    var sorted := SortedRows(users, auctions, bids, bound, f, key);
    forall x | x in Page(sorted, offset, limit)
      ensures && x.auctionId < bound && Listed(users, auctions, x.auctionId) && Matches(bids, f, x.auctionId, auctions[x.auctionId])
              && x == Summary(users, auctions, bids, x.auctionId)
    {
      PageRowsFrom(rows, sorted, offset, limit);
      var i :| 0 <= i < |rows| && rows[i] == x;
      assert x.auctionId == joined[i];
    }
  }

  /**
   * The page is cut from ALL the joined matching rows after they are ordered by the key, not
   * ordered after it is cut.
   */
  lemma FindAucSortedPage(users: map<nat, User>, auctions: map<nat, Auction>, bids: seq<Bid>, bound: nat,
                          f: Filter, key: SortKey, limit: nat, offset: nat)
    ensures SortedPageOf(FindAuc(users, auctions, bids, bound, f, key, limit, offset).auctions,
                         Summaries(users, auctions, bids, JoinedIds(users, auctions, bids, bound, f)),
                         OrderBy(key), offset, limit)
  {
    KeyOrderIsPreorder(key);
    SortByPage(Summaries(users, auctions, bids, JoinedIds(users, auctions, bids, bound, f)), OrderBy(key), offset, limit);
  }

  /** No auction appears twice on a page. */
  lemma FindAucDistinct(users: map<nat, User>, auctions: map<nat, Auction>, bids: seq<Bid>, bound: nat,
                        f: Filter, key: SortKey, limit: nat, offset: nat)
    ensures var page := FindAuc(users, auctions, bids, bound, f, key, limit, offset).auctions;
      forall i, j :: 0 <= i < j < |page| ==> page[i].auctionId != page[j].auctionId
  {
    var rows := Summaries(users, auctions, bids, JoinedIds(users, auctions, bids, bound, f));
    var sorted := SortedRows(users, auctions, bids, bound, f, key);
    var page := Page(sorted, offset, limit);
    DistinctPermutation(rows, sorted);
    PageDistinct(sorted, offset, limit);
    FindAucRowsMatch(users, auctions, bids, bound, f, key, limit, offset);
    forall i, j | 0 <= i < j < |page| ensures page[i].auctionId != page[j].auctionId {
      assert page[i] in page && page[j] in page;
    }
  }

  /** The page is in the order of the sort key: sorting happens before the page is cut. */
  lemma FindAucSorted(users: map<nat, User>, auctions: map<nat, Auction>, bids: seq<Bid>, bound: nat,
                      f: Filter, key: SortKey, limit: nat, offset: nat)
    ensures Sorted(FindAuc(users, auctions, bids, bound, f, key, limit, offset).auctions, OrderBy(key))
  {
    var rows := Summaries(users, auctions, bids, JoinedIds(users, auctions, bids, bound, f));
    KeyOrderIsPreorder(key);
    SortBySorted(rows, OrderBy(key));
    PageSorted(SortedRows(users, auctions, bids, bound, f, key), offset, limit, OrderBy(key));
  }

  /** When every seller exists, the page holds min(limit, count - offset) rows: it is cut from all the counted ones. */
  lemma FindAucPageSize(users: map<nat, User>, auctions: map<nat, Auction>, bids: seq<Bid>, bound: nat,
                        f: Filter, key: SortKey, limit: nat, offset: nat)
    requires forall id :: id in auctions ==> auctions[id].sellerId in users
    ensures var r := FindAuc(users, auctions, bids, bound, f, key, limit, offset);
      |r.auctions| == if offset >= r.count then 0 else if r.count - offset < limit then r.count - offset else limit
  {
    SelectIdsAgree(auctions, MatchesWithSeller(users, bids, f), auctions, MatchesFilter(bids, f), bound);
    assert |SortedRows(users, auctions, bids, bound, f, key)| == |JoinedIds(users, auctions, bids, bound, f)|;
  }

  /** A row of the bid history of one auction. */
  datatype BidView = BidView(bidderId: nat, amount: int, firstName: string, lastName: string, timestamp: int)

  /** The auction's bids whose bidder row exists (the inner join with the user table), in table order. */
  function BidsOn(users: map<nat, User>, bids: seq<Bid>, auctionId: nat): (r: seq<Bid>)
    ensures forall b :: b in r <==> b in bids && b.auctionId == auctionId && b.userId in users
    ensures |r| <= NumBids(bids, auctionId)
    ensures (forall i :: 0 <= i < |bids| ==> bids[i].userId in users) ==> |r| == NumBids(bids, auctionId)
  {
    if bids == [] then []
    else
      var init := bids[..|bids| - 1];
      var last := bids[|bids| - 1];
      assert bids == init + [last];
      var r := BidsOn(users, init, auctionId);
      if last.auctionId == auctionId && last.userId in users then r + [last] else r
  }

  function ByAmountDesc(): (Bid, Bid) -> bool {
    (a: Bid, b: Bid) => a.amount >= b.amount
  }

  /**
   * `viewBids`: the auction's bids, highest amount first. The `bidderId` column carries the bid
   * row's own id, as the select aliases `auction_bid.id`.
   */
  function Views(users: map<nat, User>, sorted: seq<Bid>): (r: seq<BidView>)
    requires forall i :: 0 <= i < |sorted| ==> sorted[i].userId in users
    ensures |r| == |sorted|
    ensures forall i :: 0 <= i < |r| ==>
      r[i].bidderId == sorted[i].id && r[i].amount == sorted[i].amount && r[i].timestamp == sorted[i].timestamp
    ensures forall i :: 0 <= i < |r| ==>
      r[i].firstName == users[sorted[i].userId].firstName && r[i].lastName == users[sorted[i].userId].lastName
  {
    seq(|sorted|, i requires 0 <= i < |sorted| =>
      BidView(sorted[i].id, sorted[i].amount, users[sorted[i].userId].firstName,
              users[sorted[i].userId].lastName, sorted[i].timestamp))
  }

  /**
   * `r` is a bid history of the auction: the views of some highest-first ordering of exactly its
   * joined bids, each bid once (bids of equal amount may come in any order).
   */
  ghost predicate HistoryOf(users: map<nat, User>, bids: seq<Bid>, auctionId: nat, r: seq<BidView>) {
    exists sorted: seq<Bid> ::
      && multiset(sorted) == multiset(BidsOn(users, bids, auctionId))
      && Sorted(sorted, ByAmountDesc())
      && (forall i :: 0 <= i < |sorted| ==> sorted[i].userId in users)
      && r == Views(users, sorted)
  }

  function ViewBids(users: map<nat, User>, bids: seq<Bid>, auctionId: nat): (r: seq<BidView>)
    ensures |r| == |BidsOn(users, bids, auctionId)|
    ensures HistoryOf(users, bids, auctionId, r)
  {
    var on := BidsOn(users, bids, auctionId);
    var sorted := SortBy(on, ByAmountDesc());
    HistoryOfSortedBids(users, bids, auctionId);
    Views(users, sorted)
  }

  /** The highest-first sort of the joined bids is a witness of `HistoryOf`. */
  lemma HistoryOfSortedBids(users: map<nat, User>, bids: seq<Bid>, auctionId: nat)
    ensures var sorted := SortBy(BidsOn(users, bids, auctionId), ByAmountDesc());
      && (forall i :: 0 <= i < |sorted| ==> sorted[i].userId in users)
      && HistoryOf(users, bids, auctionId, Views(users, sorted))
  {
    var on := BidsOn(users, bids, auctionId);
    var sorted := SortBy(on, ByAmountDesc());
    forall i | 0 <= i < |sorted| ensures sorted[i].userId in users {
      assert sorted[i] in multiset(on);
    }
    SortBySorted(on, ByAmountDesc());
  }

  /** The history lists the highest amount first. */
  lemma ViewBidsOrdered(users: map<nat, User>, bids: seq<Bid>, auctionId: nat)
    ensures var r := ViewBids(users, bids, auctionId);
      forall i, j :: 0 <= i < j < |r| ==> r[i].amount >= r[j].amount
  {
    var on := BidsOn(users, bids, auctionId);
    SortBySorted(on, ByAmountDesc());
  }

  /** The history row of one bid: its id, amount and time, and its bidder's names. */
  function ViewOf(users: map<nat, User>, b: Bid): (v: BidView)
    requires b.userId in users
    ensures v.bidderId == b.id && v.amount == b.amount && v.timestamp == b.timestamp
    ensures v.firstName == users[b.userId].firstName && v.lastName == users[b.userId].lastName
  {
    BidView(b.id, b.amount, users[b.userId].firstName, users[b.userId].lastName, b.timestamp)
  }

  /** Every row of the history is a recorded bid on that auction by an existing user, shown with that user's names. */
  lemma ViewBidsFromLedger(users: map<nat, User>, bids: seq<Bid>, auctionId: nat)
    ensures var r := ViewBids(users, bids, auctionId);
      forall i :: 0 <= i < |r| ==>
        exists b :: b in bids && b.auctionId == auctionId && b.userId in users && r[i] == ViewOf(users, b)
  {
    var on := BidsOn(users, bids, auctionId);
    var sorted := SortBy(on, ByAmountDesc());
    var r := ViewBids(users, bids, auctionId);
    forall i | 0 <= i < |r|
      ensures exists b :: b in bids && b.auctionId == auctionId && b.userId in users && r[i] == ViewOf(users, b)
    {
      assert sorted[i] in multiset(on);
      assert sorted[i] in on;
      assert r[i] == ViewOf(users, sorted[i]);
    }
  }

  /** Every recorded bid on the auction by an existing user has its row in the history. */
  lemma ViewBidsComplete(users: map<nat, User>, bids: seq<Bid>, auctionId: nat, b: Bid)
    requires b in bids && b.auctionId == auctionId && b.userId in users
    ensures ViewOf(users, b) in ViewBids(users, bids, auctionId)
  {
    var on := BidsOn(users, bids, auctionId);
    var sorted := SortBy(on, ByAmountDesc());
    var r := ViewBids(users, bids, auctionId);
    assert b in multiset(sorted);
    var k :| 0 <= k < |sorted| && sorted[k] == b;
    assert r[k] == ViewOf(users, b);
  }

  /** `createAuc`: one new auction under the next id, with no image. */
  method CreateAuc(db: Database, title: string, description: string, categoryId: int, endDate: int,
                   reserve: int, sellerId: nat) returns (auctionId: nat)
    requires db.Valid()
    modifies db`auctions, db`nextAuctionId
    ensures db.Valid()
    ensures auctionId == old(db.nextAuctionId) && auctionId !in old(db.auctions)
    ensures db.auctions == old(db.auctions)[auctionId := Auction(title, description, categoryId, sellerId, reserve, endDate, None)]
  {
    auctionId := db.nextAuctionId;
    db.auctions := db.auctions[auctionId := Auction(title, description, categoryId, sellerId, reserve, endDate, None)];
    db.nextAuctionId := db.nextAuctionId + 1;
  }

  /** `alter`: overwrites title, description, category, end date and reserve; seller and image stay. */
  method Alter(db: Database, data: Auction, id: nat)
    requires db.Valid()
    modifies db`auctions
    ensures db.Valid()
    ensures db.auctions == if id in old(db.auctions) then
      old(db.auctions)[id := old(db.auctions)[id].(title := data.title, description := data.description,
        categoryId := data.categoryId, endDate := data.endDate, reserve := data.reserve)]
      else old(db.auctions)
  {
    if id in db.auctions {
      db.auctions := db.auctions[id := db.auctions[id].(title := data.title, description := data.description,
        categoryId := data.categoryId, endDate := data.endDate, reserve := data.reserve)];
    }
  }

  /** `deleteAuc`: removes exactly that auction. */
  method DeleteAuc(db: Database, id: nat)
    requires db.Valid()
    modifies db`auctions
    ensures db.Valid()
    ensures db.auctions == old(db.auctions) - {id}
  {
    db.auctions := db.auctions - {id};
  }

  /** `setAucImage`: the image reference becomes `auction_<id>.<ext>`. */
  method SetAucImage(db: Database, id: nat, ext: string)
    requires db.Valid()
    modifies db`auctions
    ensures db.Valid()
    ensures db.auctions == if id in old(db.auctions) then
      old(db.auctions)[id := old(db.auctions)[id].(imageFilename := Some(Images.Filename("auction", id, ext)))]
      else old(db.auctions)
  {
    if id in db.auctions {
      db.auctions := db.auctions[id := db.auctions[id].(imageFilename := Some(Images.Filename("auction", id, ext)))];
    }
  }

  /**
   * `makeBid`: appends one bid row stamped with the current time. The bid must name an existing
   * auction (the foreign key of auction_bid).
   */
  method MakeBid(db: Database, auctionId: nat, userId: nat, amount: int, now: int)
    requires db.Valid()
    requires auctionId in db.auctions
    modifies db`bids
    ensures db.Valid()
    ensures db.bids == old(db.bids) + [Bid(|old(db.bids)| + 1, auctionId, userId, amount, now)]
  {
    db.bids := db.bids + [Bid(|db.bids| + 1, auctionId, userId, amount, now)];
  }
}
