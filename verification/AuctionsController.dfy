/**
 * The auction handlers: listing and search, creation, reading, patching and deleting an auction,
 * its image slot, its bid history and bidding. Each returns a value or the kind of failure it reports.
 */
module AuctionsController {
  import opened Wrappers
  import opened Store
  import opened Sorting
  import opened AuctionsModel
  import UserModel
  import Images

  // ---------------------------------------------------------------------------------------------
  // Bid ledger

  /**
   * The amount test of `makeBid`, applied to the bid's amount. Without a prior bid the amount must
   * reach the reserve; the second comparison then reads a null highest bid as 0, so a first bid
   * must also be positive. With a prior bid the amount must beat it strictly: ties lose.
   */
  function AmountAccepted(highest: Option<int>, reserve: int, amount: int): (ok: bool)
    ensures highest.None? ==> (ok <==> amount >= reserve && amount > 0)
    ensures highest.Some? ==> (ok <==> amount > highest.value)
  {
    if highest.None? && amount < reserve then false
    else if amount <= (if highest.None? then 0 else highest.value) then false
    else true
  }

  /**
   * The amount test as the handler is written: it parses `req.params.amount`, which the bid route
   * never supplies, so the value is NaN and both comparisons with it are false.
   */
  function AmountAcceptedAsWritten(highest: Option<int>, reserve: int, paramAmount: Option<int>): (ok: bool)
    ensures paramAmount.None? ==> ok
    ensures paramAmount.Some? ==> ok == AmountAccepted(highest, reserve, paramAmount.value)
  {
    match paramAmount
    case None => true
    case Some(n) => AmountAccepted(highest, reserve, n)
  }

  /** As written, a first bid of 50 on an auction with reserve 100 passes, though the intended test rejects it. */
  lemma AsWrittenAcceptsBelowReserve()
    ensures AmountAcceptedAsWritten(None, 100, None)
    ensures !AmountAccepted(None, 100, 50)
  {
  }

  /** Accepted bids on one auction strictly increase in the order they were recorded. */
  ghost predicate Increasing(bids: seq<Bid>) {
    forall i, j :: 0 <= i < j < |bids| && bids[i].auctionId == bids[j].auctionId ==> bids[i].amount < bids[j].amount
  }

  ghost predicate Positive(bids: seq<Bid>) {
    forall i :: 0 <= i < |bids| ==> bids[i].amount > 0
  }

  /**
   * Recording a bid that passed the amount test keeps the ledger increasing and positive, makes it the
   * auction's highest bid and adds exactly one to the auction's count.
   */
  lemma {:induction false} AcceptedBidExtendsLedger(bids: seq<Bid>, b: Bid, reserve: int)
    requires Increasing(bids) && Positive(bids)
    requires AmountAccepted(HighestBid(bids, b.auctionId), reserve, b.amount)
    ensures Increasing(bids + [b]) && Positive(bids + [b])
    ensures HighestBid(bids + [b], b.auctionId) == Some(b.amount)
    ensures NumBids(bids + [b], b.auctionId) == NumBids(bids, b.auctionId) + 1
  {
    var s := bids + [b];
    var h := HighestBid(bids, b.auctionId);
    assert s[..|bids|] == bids;
    forall i, j | 0 <= i < j < |s| && s[i].auctionId == s[j].auctionId ensures s[i].amount < s[j].amount {
      if j == |bids| {
        assert s[i] == bids[i];
        assert h.Some?;
      }
    }
    if h.Some? {
      var k :| 0 <= k < |bids| && bids[k].auctionId == b.auctionId && bids[k].amount == h.value;
      assert bids[k].amount > 0;
    }
  }

  /** A tie with the current highest bid is always rejected, and so is anything below it. */
  lemma TiesLose(bids: seq<Bid>, auctionId: nat, reserve: int, amount: int)
    requires HighestBid(bids, auctionId).Some?
    requires amount <= HighestBid(bids, auctionId).value
    ensures !AmountAccepted(HighestBid(bids, auctionId), reserve, amount)
  {
  }

  /** The checks of `makeBid` that come before the bidder is looked up. */
  predicate BidCleared(users: map<nat, User>, auctions: map<nat, Auction>, bids: seq<Bid>,
                       id: nat, token: Option<string>, amount: Option<int>) {
    && Present(token)
    && amount.Some?
    && Listed(users, auctions, id)
    && AmountAccepted(HighestBid(bids, id), auctions[id].reserve, amount.value)
  }

  /**
   * `makeBid`. After the amount test the token is resolved; with no holder nothing is recorded, with
   * several the 401 reply is not followed by a return, so the bid is still recorded for the first
   * holder and the seller test is skipped; with one holder the seller may not bid.
   */
  method MakeBid(db: Database, id: nat, token: Option<string>, amount: Option<int>, now: int) returns (r: Result<()>)
    requires db.Valid()
    modifies db`bids
    ensures db.Valid()
    ensures !Present(token) ==> r == Err(Unauthenticated)
    ensures Present(token) && amount.None? ==> r == Err(BadRequest)
    ensures Present(token) && amount.Some? && !Listed(db.users, db.auctions, id) ==> r == Err(NotFound)
    ensures (Present(token) && amount.Some? && Listed(db.users, db.auctions, id)
             && !AmountAccepted(HighestBid(old(db.bids), id), db.auctions[id].reserve, amount.value)) ==> r == Err(BadRequest)
    ensures BidCleared(db.users, db.auctions, old(db.bids), id, token, amount) ==>
      var holders := UserModel.GetAuth(db.users, token.value, db.nextUserId);
      var seller := db.auctions[id].sellerId;
      && (|holders| != 1 ==> r == Err(Unauthenticated))
      && (|holders| == 1 && holders[0] == seller ==> r == Err(Forbidden))
      && (|holders| == 1 && holders[0] != seller ==> r == Ok(()))
      && db.bids == if |holders| > 1 || (|holders| == 1 && holders[0] != seller)
                    then old(db.bids) + [Bid(|old(db.bids)| + 1, id, holders[0], amount.value, now)]
                    else old(db.bids)
    ensures !BidCleared(db.users, db.auctions, old(db.bids), id, token, amount) ==> db.bids == old(db.bids)
    ensures Increasing(old(db.bids)) && Positive(old(db.bids)) ==> Increasing(db.bids) && Positive(db.bids)
  {
    if !Present(token) {
      return Err(Unauthenticated);
    }
    if amount.None? {
      return Err(BadRequest);
    }
    if !Listed(db.users, db.auctions, id) {
      return Err(NotFound);
    }
    var auction := db.auctions[id];
    if !AmountAccepted(HighestBid(db.bids, id), auction.reserve, amount.value) {
      return Err(BadRequest);
    }
    var holders := UserModel.GetAuth(db.users, token.value, db.nextUserId);
    if |holders| != 1 {
      r := Err(Unauthenticated);
      if |holders| == 0 {
        return;
      }
    } else if auction.sellerId == holders[0] {
      return Err(Forbidden);
    } else {
      r := Ok(());
    }
    RecordBid(db, id, holders[0], amount.value, now, auction.reserve);
  }

  /** Records a bid that passed the amount test; the ledger stays increasing and positive. */
  method RecordBid(db: Database, id: nat, bidder: nat, amount: int, now: int, reserve: int)
    requires db.Valid() && id in db.auctions
    requires AmountAccepted(HighestBid(db.bids, id), reserve, amount)
    modifies db`bids
    ensures db.Valid()
    ensures db.bids == old(db.bids) + [Bid(|old(db.bids)| + 1, id, bidder, amount, now)]
    ensures Increasing(old(db.bids)) && Positive(old(db.bids)) ==> Increasing(db.bids) && Positive(db.bids)
  {
    if Increasing(db.bids) && Positive(db.bids) {
      AcceptedBidExtendsLedger(db.bids, Bid(|db.bids| + 1, id, bidder, amount, now), reserve);
    }
    AuctionsModel.MakeBid(db, id, bidder, amount, now);
  }

  /**
   * With the token held by one user only, a bid is recorded only when that user is not the seller
   * and the amount passed the test against the current highest bid.
   */
  lemma ClearedBidBeatsHighest(users: map<nat, User>, auctions: map<nat, Auction>, bids: seq<Bid>, bound: nat,
                                   id: nat, token: string, amount: int)
    requires BidCleared(users, auctions, bids, id, Some(token), Some(amount))
    requires |UserModel.GetAuth(users, token, bound)| == 1
    ensures var bidder := UserModel.GetAuth(users, token, bound)[0];
      users[bidder].authToken == Some(token)
    ensures HighestBid(bids, id).Some? ==> amount > HighestBid(bids, id).value
    ensures HighestBid(bids, id).None? ==> amount >= auctions[id].reserve && amount > 0
  {
  }

  /** `viewBids`: the history of a listed auction, highest amount first. */
  method ViewBids(db: Database, id: nat) returns (r: Result<seq<BidView>>)
    ensures r.Err? <==> !Listed(db.users, db.auctions, id)
    ensures r.Err? ==> r.error == NotFound
    ensures r.Ok? ==> HistoryOf(db.users, db.bids, id, r.value)
    ensures r.Ok? ==> |r.value| == |BidsOn(db.users, db.bids, id)| <= NumBids(db.bids, id)
    ensures r.Ok? ==> forall i, j :: 0 <= i < j < |r.value| ==> r.value[i].amount >= r.value[j].amount
    ensures r.Ok? ==> forall i :: 0 <= i < |r.value| ==>
      exists b :: b in db.bids && b.auctionId == id && b.userId in db.users && r.value[i] == ViewOf(db.users, b)
    ensures r.Ok? ==> forall b :: b in db.bids && b.auctionId == id && b.userId in db.users ==> ViewOf(db.users, b) in r.value
  {
    if !Listed(db.users, db.auctions, id) {
      return Err(NotFound);
    }
    ViewBidsOrdered(db.users, db.bids, id);
    ViewBidsFromLedger(db.users, db.bids, id);
    forall b | b in db.bids && b.auctionId == id && b.userId in db.users
      ensures ViewOf(db.users, b) in AuctionsModel.ViewBids(db.users, db.bids, id)
    {
      ViewBidsComplete(db.users, db.bids, id, b);
    }
    r := Ok(AuctionsModel.ViewBids(db.users, db.bids, id));
  }

  // ---------------------------------------------------------------------------------------------
  // Listing and search

  datatype SearchQuery = SearchQuery(filter: Filter, sortBy: Option<string>, count: Option<nat>, startIndex: Option<nat>)

  /** The names the `sortBy` switch knows. */
  const SortNames: set<string> := {"ALPHABETICAL_ASC", "ALPHABETICAL_DESC", "BIDS_ASC", "BIDS_DESC",
                                   "CLOSING_SOON", "CLOSING_LAST", "RESERVE_ASC", "RESERVE_DESC"}

  /** The query-string name of each ordering. */
  function SortName(key: SortKey): (name: string)
    requires key != Unordered
    ensures name in SortNames
  {
    match key
    case AlphabeticalAsc => "ALPHABETICAL_ASC"
    case AlphabeticalDesc => "ALPHABETICAL_DESC"
    case BidsAsc => "BIDS_ASC"
    case BidsDesc => "BIDS_DESC"
    case ClosingSoon => "CLOSING_SOON"
    case ClosingLast => "CLOSING_LAST"
    case ReserveAsc => "RESERVE_ASC"
    case ReserveDesc => "RESERVE_DESC"
  }

  /** The `sortBy` switch: absent means closing soonest first; an unknown name adds no `order by`. */
  function SortKeyFor(sortBy: Option<string>): (key: SortKey)
    ensures sortBy.None? ==> key == ClosingSoon
    ensures key == Unordered <==> sortBy.Some? && sortBy.value !in SortNames
    ensures sortBy.Some? && sortBy.value in SortNames ==> SortName(key) == sortBy.value
  {
    if sortBy.None? then ClosingSoon
    else match sortBy.value
      case "ALPHABETICAL_ASC" => AlphabeticalAsc
      case "ALPHABETICAL_DESC" => AlphabeticalDesc
      case "BIDS_ASC" => BidsAsc
      case "BIDS_DESC" => BidsDesc
      case "CLOSING_LAST" => ClosingLast
      case "RESERVE_ASC" => ReserveAsc
      case "RESERVE_DESC" => ReserveDesc
      case "CLOSING_SOON" => ClosingSoon
      case _ => Unordered
  }

  /** Every ordering is selected by its own name. */
  lemma SortKeyForName(key: SortKey)
    requires key != Unordered
    ensures SortKeyFor(Some(SortName(key))) == key
  {
  }

  /** The limit the handler sends when no `count` is given. */
  const NoCount: nat := 9999999999

  function PageLimit(query: SearchQuery): (limit: nat)
    ensures query.count.Some? ==> limit == query.count.value
    ensures query.count.None? ==> limit == NoCount
  {
    if query.count.Some? then query.count.value else NoCount
  }

  function PageOffset(query: SearchQuery): (offset: nat)
    ensures query.startIndex.Some? ==> offset == query.startIndex.value
    ensures query.startIndex.None? ==> offset == 0
  {
    if query.startIndex.Some? then query.startIndex.value else 0
  }

  /** `viewAuctions`: the criteria combine with AND; the page follows the sort; the count ignores the page. */
  method ViewAuctions(db: Database, query: SearchQuery) returns (r: SearchResult)
    requires db.Valid()
    ensures r.count == |set id | id in db.auctions && Matches(db.bids, query.filter, id, db.auctions[id])|
    ensures SortedPageOf(r.auctions,
                         Summaries(db.users, db.auctions, db.bids, JoinedIds(db.users, db.auctions, db.bids, db.nextAuctionId, query.filter)),
                         OrderBy(SortKeyFor(query.sortBy)), PageOffset(query), PageLimit(query))
    ensures forall x :: x in r.auctions ==>
      && Listed(db.users, db.auctions, x.auctionId) && Matches(db.bids, query.filter, x.auctionId, db.auctions[x.auctionId])
      && x == Summary(db.users, db.auctions, db.bids, x.auctionId)
    ensures forall i, j :: 0 <= i < j < |r.auctions| ==> r.auctions[i].auctionId != r.auctions[j].auctionId
    ensures Sorted(r.auctions, OrderBy(SortKeyFor(query.sortBy)))
    ensures query.sortBy.None? ==> forall i, j :: 0 <= i < j < |r.auctions| ==> r.auctions[i].endDate <= r.auctions[j].endDate
    ensures query.count.Some? ==> |r.auctions| <= query.count.value
    ensures (forall id :: id in db.auctions ==> db.auctions[id].sellerId in db.users) ==>
      var offset, limit := PageOffset(query), PageLimit(query);
      |r.auctions| == if offset >= r.count then 0 else if r.count - offset < limit then r.count - offset else limit
  {
    var key := SortKeyFor(query.sortBy);
    var limit := NoCount;
    if query.count.Some? {
      limit := query.count.value;
    }
    var offset := 0;
    if query.startIndex.Some? {
      offset := query.startIndex.value;
    }
    r := FindAuc(db.users, db.auctions, db.bids, db.nextAuctionId, query.filter, key, limit, offset);
    FindAucCountAll(db.users, db.auctions, db.bids, db.nextAuctionId, query.filter, key, limit, offset);
    FindAucRowsMatch(db.users, db.auctions, db.bids, db.nextAuctionId, query.filter, key, limit, offset);
    FindAucSortedPage(db.users, db.auctions, db.bids, db.nextAuctionId, query.filter, key, limit, offset);
    FindAucDistinct(db.users, db.auctions, db.bids, db.nextAuctionId, query.filter, key, limit, offset);
    FindAucSorted(db.users, db.auctions, db.bids, db.nextAuctionId, query.filter, key, limit, offset);
    if query.sortBy.None? {
      ClosingSoonByEndDate(r.auctions);
    }
    if forall id :: id in db.auctions ==> db.auctions[id].sellerId in db.users {
      FindAucPageSize(db.users, db.auctions, db.bids, db.nextAuctionId, query.filter, key, limit, offset);
    }
  }

  // ---------------------------------------------------------------------------------------------
  // Lifecycle

  /** An auction as `viewOne` returns it: every column but the image reference. */
  datatype AuctionDetail = AuctionDetail(
    auctionId: nat,
    title: string,
    categoryId: int,
    sellerId: nat,
    sellerFirstName: string,
    sellerLastName: string,
    reserve: int,
    numBids: nat,
    highestBid: Option<int>,
    endDate: int,
    description: string)

  function Detail(users: map<nat, User>, auctions: map<nat, Auction>, bids: seq<Bid>, id: nat): AuctionDetail
    requires Listed(users, auctions, id)
  {
    var a := auctions[id];
    var seller := users[a.sellerId];
    AuctionDetail(id, a.title, a.categoryId, a.sellerId, seller.firstName, seller.lastName,
                  a.reserve, NumBids(bids, id), HighestBid(bids, id), a.endDate, a.description)
  }

  /** `viewOne`: found when the auction and its seller exist; the stored fields and the derived bid figures. */
  method ViewOne(db: Database, id: nat) returns (r: Result<AuctionDetail>)
    ensures r.Err? <==> !Listed(db.users, db.auctions, id)
    ensures r.Err? ==> r.error == NotFound
    ensures r.Ok? ==>
      var a := db.auctions[id];
      && r.value.auctionId == id && r.value.title == a.title && r.value.description == a.description
      && r.value.categoryId == a.categoryId && r.value.sellerId == a.sellerId
      && r.value.reserve == a.reserve && r.value.endDate == a.endDate
      && r.value.numBids == NumBids(db.bids, id) && r.value.highestBid == HighestBid(db.bids, id)
      && r.value.sellerFirstName == db.users[a.sellerId].firstName && r.value.sellerLastName == db.users[a.sellerId].lastName
  {
    if !Listed(db.users, db.auctions, id) {
      return Err(NotFound);
    }
    r := Ok(Detail(db.users, db.auctions, db.bids, id));
  }

  /** The request body of `addAuction`; a field the client did not send is `None`. */
  datatype AuctionFields = AuctionFields(
    title: Option<string>,
    description: Option<string>,
    categoryId: Option<int>,
    endDate: Option<int>,
    reserve: Option<int>)

  /** Title, description, category and end date are all truthy (a category id of 0 is falsy). */
  predicate RequiredPresent(body: AuctionFields) {
    && Present(body.title)
    && Present(body.description)
    && body.categoryId.Some? && body.categoryId.value != 0
    && body.endDate.Some?
  }

  /** A falsy reserve (absent or 0) becomes 1; any other value is kept, positive or not. */
  function ReserveOrDefault(reserve: Option<int>): (r: int)
    ensures r != 0
    ensures reserve.None? || reserve.value == 0 ==> r == 1
    ensures reserve.Some? && reserve.value != 0 ==> r == reserve.value
  {
    if reserve.None? || reserve.value == 0 then 1 else reserve.value
  }

  /** The checks of `addAuction` that come before the seller is looked up. */
  predicate CreationCleared(categories: map<int, string>, token: Option<string>, body: AuctionFields, now: int) {
    && Present(token)
    && RequiredPresent(body)
    && now < body.endDate.value
    && CheckCat(categories, body.categoryId.value)
  }

  /**
   * `addAuction`. Like `makeBid`, a token held by several users gets a 401 reply without a return,
   * and the auction is still created for the first holder.
   */
  method AddAuction(db: Database, token: Option<string>, body: AuctionFields, now: int) returns (r: Result<nat>)
    requires db.Valid()
    modifies db`auctions, db`nextAuctionId
    ensures db.Valid()
    ensures !Present(token) ==> r == Err(Unauthenticated)
    ensures Present(token) && !RequiredPresent(body) ==> r == Err(BadRequest)
    ensures Present(token) && RequiredPresent(body) && now >= body.endDate.value ==> r == Err(BadRequest)
    ensures (Present(token) && RequiredPresent(body) && now < body.endDate.value
             && !CheckCat(db.categories, body.categoryId.value)) ==> r == Err(BadRequest)
    ensures CreationCleared(db.categories, token, body, now) ==>
      var holders := UserModel.GetAuth(db.users, token.value, db.nextUserId);
      && (|holders| == 1 ==> r == Ok(old(db.nextAuctionId)))
      && (|holders| != 1 ==> r == Err(Unauthenticated))
      && db.auctions == if |holders| == 0 then old(db.auctions)
         else old(db.auctions)[old(db.nextAuctionId) := Auction(body.title.value, body.description.value,
                body.categoryId.value, holders[0], ReserveOrDefault(body.reserve), body.endDate.value, None)]
    ensures !CreationCleared(db.categories, token, body, now) ==> db.auctions == old(db.auctions)
    ensures r.Ok? ==> r.value !in old(db.auctions) && r.value in db.auctions
  {
    if !Present(token) {
      return Err(Unauthenticated);
    }
    if !RequiredPresent(body) {
      return Err(BadRequest);
    }
    if now >= body.endDate.value {
      return Err(BadRequest);
    }
    var reserve := ReserveOrDefault(body.reserve);
    if !CheckCat(db.categories, body.categoryId.value) {
      return Err(BadRequest);
    }
    var holders := UserModel.GetAuth(db.users, token.value, db.nextUserId);
    if |holders| != 1 {
      r := Err(Unauthenticated);
      if |holders| == 0 {
        return;
      }
    }
    var auctionId := AuctionsModel.CreateAuc(db, body.title.value, body.description.value, body.categoryId.value,
                                              body.endDate.value, reserve, holders[0]);
    if |holders| == 1 {
      r := Ok(auctionId);
    }
  }

  /** Creating an auction and reading it back gives the fields it was created with, and no bids. */
  lemma CreatedAuctionReadsBack(users: map<nat, User>, auctions: map<nat, Auction>, bids: seq<Bid>, bound: nat, a: Auction)
    requires bound !in auctions && a.sellerId in users
    requires forall i :: 0 <= i < |bids| ==> bids[i].auctionId < bound
    ensures var d := Detail(users, auctions[bound := a], bids, bound);
      && d.auctionId == bound && d.title == a.title && d.description == a.description
      && d.categoryId == a.categoryId && d.sellerId == a.sellerId && d.reserve == a.reserve
      && d.endDate == a.endDate && d.numBids == 0 && d.highestBid == None
  {
  }

  /** The fields a client may patch; absent ones keep their value. */
  datatype AuctionPatch = AuctionPatch(
    title: Option<string>,
    description: Option<string>,
    categoryId: Option<int>,
    endDate: Option<int>,
    reserve: Option<int>)

  /** Each field that is given passes its own test. */
  predicate PatchAcceptable(categories: map<int, string>, patch: AuctionPatch, now: int) {
    && (patch.categoryId.Some? ==> CheckCat(categories, patch.categoryId.value))
    && (patch.endDate.Some? ==> now < patch.endDate.value)
    && (patch.reserve.Some? ==> patch.reserve.value > 0)
  }

  /** The auction after a patch: each given field replaces the stored one; seller and image are never touched. */
  function Patched(a: Auction, patch: AuctionPatch): (r: Auction)
    ensures r.sellerId == a.sellerId && r.imageFilename == a.imageFilename
    ensures r.title == (if patch.title.Some? then patch.title.value else a.title)
    ensures r.description == (if patch.description.Some? then patch.description.value else a.description)
    ensures r.categoryId == (if patch.categoryId.Some? then patch.categoryId.value else a.categoryId)
    ensures r.endDate == (if patch.endDate.Some? then patch.endDate.value else a.endDate)
    ensures r.reserve == (if patch.reserve.Some? then patch.reserve.value else a.reserve)
  {
    a.(title := if patch.title.Some? then patch.title.value else a.title,
       description := if patch.description.Some? then patch.description.value else a.description,
       categoryId := if patch.categoryId.Some? then patch.categoryId.value else a.categoryId,
       endDate := if patch.endDate.Some? then patch.endDate.value else a.endDate,
       reserve := if patch.reserve.Some? then patch.reserve.value else a.reserve)
  }

  /** A patch with no fields changes nothing, and applying the same patch again changes nothing more. */
  lemma PatchedIdempotent(a: Auction, patch: AuctionPatch)
    ensures Patched(a, AuctionPatch(None, None, None, None, None)) == a
    ensures Patched(Patched(a, patch), patch) == Patched(a, patch)
  {
  }

  /** An acceptable patch keeps a positive reserve positive and a future end date in the future. */
  lemma AcceptablePatchKeepsBounds(categories: map<int, string>, a: Auction, patch: AuctionPatch, now: int)
    requires PatchAcceptable(categories, patch, now)
    ensures a.reserve > 0 ==> Patched(a, patch).reserve > 0
    ensures now < a.endDate ==> now < Patched(a, patch).endDate
    ensures CheckCat(categories, a.categoryId) ==> CheckCat(categories, Patched(a, patch).categoryId)
  {
  }

  /**
   * `updateAuction`: only the seller, by token; every given field is tested before the single write,
   * so a failed test leaves the auction as it was.
   */
  method UpdateAuction(db: Database, id: nat, token: Option<string>, patch: AuctionPatch, now: int) returns (r: Result<()>)
    requires db.Valid()
    modifies db`auctions
    ensures db.Valid()
    ensures !Present(token) ==> r == Err(Unauthenticated)
    ensures Present(token) && !Listed(db.users, old(db.auctions), id) ==> r == Err(NotFound)
    ensures (Present(token) && Listed(db.users, old(db.auctions), id)
             && !HoldsToken(db.users[old(db.auctions)[id].sellerId], token.value)) ==> r == Err(Forbidden)
    ensures (Present(token) && Listed(db.users, old(db.auctions), id)
             && HoldsToken(db.users[old(db.auctions)[id].sellerId], token.value)
             && !PatchAcceptable(db.categories, patch, now)) ==> r == Err(BadRequest)
    ensures r.Ok? <==>
      && Present(token) && Listed(db.users, old(db.auctions), id)
      && HoldsToken(db.users[old(db.auctions)[id].sellerId], token.value)
      && PatchAcceptable(db.categories, patch, now)
    ensures db.auctions == if r.Ok? then old(db.auctions)[id := Patched(old(db.auctions)[id], patch)] else old(db.auctions)
  {
    if !Present(token) {
      return Err(Unauthenticated);
    }
    if !Listed(db.users, db.auctions, id) {
      return Err(NotFound);
    }
    var item := db.auctions[id];
    if !HoldsToken(db.users[item.sellerId], token.value) {
      return Err(Forbidden);
    }
    if patch.title.Some? {
      item := item.(title := patch.title.value);
    }
    if patch.description.Some? {
      item := item.(description := patch.description.value);
    }
    if patch.categoryId.Some? {
      if !CheckCat(db.categories, patch.categoryId.value) {
        return Err(BadRequest);
      }
      item := item.(categoryId := patch.categoryId.value);
    }
    if patch.endDate.Some? {
      if now >= patch.endDate.value {
        return Err(BadRequest);
      }
      item := item.(endDate := patch.endDate.value);
    }
    if patch.reserve.Some? {
      if patch.reserve.value <= 0 {
        return Err(BadRequest);
      }
      item := item.(reserve := patch.reserve.value);
    }
    AuctionsModel.Alter(db, item, id);
    r := Ok(());
  }

  /**
   * `removeAuction`: refused while the auction has bids (tested before ownership), then only by the
   * seller; removes the auction row and its image file if there is one.
   */
  method RemoveAuction(db: Database, files: ImageFiles, id: nat, token: Option<string>) returns (r: Result<()>)
    requires db.Valid()
    modifies db`auctions, files
    ensures db.Valid()
    ensures !Present(token) ==> r == Err(Unauthenticated)
    ensures Present(token) && !Listed(db.users, old(db.auctions), id) ==> r == Err(NotFound)
    ensures Present(token) && Listed(db.users, old(db.auctions), id) && NumBids(db.bids, id) != 0 ==> r == Err(Forbidden)
    ensures (Present(token) && Listed(db.users, old(db.auctions), id) && NumBids(db.bids, id) == 0
             && !HoldsToken(db.users[old(db.auctions)[id].sellerId], token.value)) ==> r == Err(Forbidden)
    ensures r.Ok? <==>
      && Present(token) && Listed(db.users, old(db.auctions), id) && NumBids(db.bids, id) == 0
      && HoldsToken(db.users[old(db.auctions)[id].sellerId], token.value)
    ensures db.auctions == if r.Ok? then old(db.auctions) - {id} else old(db.auctions)
    ensures files.names ==
      if r.Ok? && old(db.auctions)[id].imageFilename.Some? then old(files.names) - {old(db.auctions)[id].imageFilename.value}
      else old(files.names)
  {
    if !Present(token) {
      return Err(Unauthenticated);
    }
    if !Listed(db.users, db.auctions, id) {
      return Err(NotFound);
    }
    var item := db.auctions[id];
    if NumBids(db.bids, id) != 0 {
      return Err(Forbidden);
    }
    if !HoldsToken(db.users[item.sellerId], token.value) {
      return Err(Forbidden);
    }
    if item.imageFilename.Some? && item.imageFilename.value in files.names {
      files.names := files.names - {item.imageFilename.value};
    }
    AuctionsModel.DeleteAuc(db, id);
    r := Ok(());
  }

  /** Any recorded bid on an auction makes its count nonzero, so `removeAuction` refuses it. */
  lemma DeleteNeedsNoBids(bids: seq<Bid>, id: nat, b: Bid)
    requires b in bids && b.auctionId == id
    ensures NumBids(bids, id) != 0
  {
  }

  // ---------------------------------------------------------------------------------------------
  // Image slot

  /** `getAucImage`: the stored file's content type; a missing reference is NotFound, a missing file a ServerError. */
  method GetAucImage(db: Database, files: ImageFiles, id: nat) returns (r: Result<string>)
    ensures id !in db.auctions || db.auctions[id].imageFilename.None? ==> r == Err(NotFound)
    ensures (id in db.auctions && db.auctions[id].imageFilename.Some?
             && db.auctions[id].imageFilename.value !in files.names) ==> r == Err(ServerError)
    ensures r.Ok? <==> (id in db.auctions && db.auctions[id].imageFilename.Some?
                        && db.auctions[id].imageFilename.value in files.names)
    ensures r.Ok? ==> r.value == Images.ContentTypeFor(db.auctions[id].imageFilename.value)
  {
    if id !in db.auctions || db.auctions[id].imageFilename.None? {
      return Err(NotFound);
    }
    var name := db.auctions[id].imageFilename.value;
    if name !in files.names {
      return Err(ServerError);
    }
    r := Ok(Images.ContentTypeFor(name));
  }

  /**
   * `setAucImage`: only the seller; the image is stored as `auction_<id>.<ext>` and the reply says
   * whether a reference existed before.
   */
  method SetAucImage(db: Database, files: ImageFiles, id: nat, token: Option<string>, contentType: Option<string>)
    returns (r: Result<Images.ImageReply>)
    requires db.Valid()
    modifies db`auctions, files
    ensures db.Valid()
    ensures !Present(token) ==> r == Err(Unauthenticated)
    ensures Present(token) && !Present(contentType) ==> r == Err(BadRequest)
    ensures Present(token) && Present(contentType) && Images.ExtensionFor(contentType.value).None? ==> r == Err(BadRequest)
    ensures (Present(token) && Present(contentType) && Images.ExtensionFor(contentType.value).Some?
             && !Listed(db.users, old(db.auctions), id)) ==> r == Err(NotFound)
    ensures (Present(token) && Present(contentType) && Images.ExtensionFor(contentType.value).Some?
             && Listed(db.users, old(db.auctions), id)
             && !HoldsToken(db.users[old(db.auctions)[id].sellerId], token.value)) ==> r == Err(Forbidden)
    ensures r.Ok? <==>
      && Present(token) && Present(contentType) && Images.ExtensionFor(contentType.value).Some?
      && Listed(db.users, old(db.auctions), id) && HoldsToken(db.users[old(db.auctions)[id].sellerId], token.value)
    ensures r.Ok? ==>
      var name := Images.Filename("auction", id, Images.ExtensionFor(contentType.value).value);
      && db.auctions == old(db.auctions)[id := old(db.auctions)[id].(imageFilename := Some(name))]
      && files.names == old(files.names) + {name}
      && r.value == if old(db.auctions)[id].imageFilename.Some? then Images.Updated else Images.Created
    ensures r.Err? ==> db.auctions == old(db.auctions) && files.names == old(files.names)
  {
    if !Present(token) {
      return Err(Unauthenticated);
    }
    if !Present(contentType) {
      return Err(BadRequest);
    }
    var ext := Images.ExtensionFor(contentType.value);
    if ext.None? {
      return Err(BadRequest);
    }
    if !Listed(db.users, db.auctions, id) {
      return Err(NotFound);
    }
    if !HoldsToken(db.users[db.auctions[id].sellerId], token.value) {
      return Err(Forbidden);
    }
    var current := db.auctions[id].imageFilename;
    AuctionsModel.SetAucImage(db, id, ext.value);
    files.names := files.names + {Images.Filename("auction", id, ext.value)};
    r := Ok(if current.Some? then Images.Updated else Images.Created);
  }
}
