/**
 * The tables behind the handlers (user, category, auction, auction_bid), the image directory,
 * and the primary-key scan that every multi-row select performs.
 */
module Store {
  import opened Wrappers

  /** A bcrypt digest: the salt it was made with and the secret it commits to. */
  datatype Digest = Digest(salt: nat, secret: string)

  /** `bcrypt.hash(secret, salt)`. */
  function Hash(secret: string, salt: nat): Digest {
    Digest(salt, secret)
  }

  /** `bcrypt.compare(candidate, digest)`. */
  predicate Verifies(candidate: string, digest: Digest) {
    digest.secret == candidate
  }

  /** A digest accepts the secret it was made from and nothing else, whatever the salt. */
  lemma HashVerifies(secret: string, candidate: string, salt: nat)
    ensures Verifies(candidate, Hash(secret, salt)) <==> candidate == secret
  {
  }

  datatype User = User(
    firstName: string,
    lastName: string,
    email: string,
    password: Digest,
    authToken: Option<string>,
    imageFilename: Option<string>)

  datatype Auction = Auction(
    title: string,
    description: string,
    categoryId: int,
    sellerId: nat,
    reserve: int,
    endDate: int,
    imageFilename: Option<string>)

  datatype Bid = Bid(id: nat, auctionId: nat, userId: nat, amount: int, timestamp: int)

  /** The ownership test of every guarded handler: the stored token is set, non-empty and equal to the caller's. */
  predicate HoldsToken(u: User, token: string) {
    Present(u.authToken) && u.authToken.value == token
  }

  /** The relational store. Ids come from auto-increment counters and are never reused. */
  class Database {
    var users: map<nat, User>
    var categories: map<int, string>
    var auctions: map<nat, Auction>
    var bids: seq<Bid>
    var nextUserId: nat
    var nextAuctionId: nat

    ghost predicate Valid()
      reads this
    {
      && (forall id :: id in users ==> id < nextUserId)
      && (forall id :: id in auctions ==> id < nextAuctionId)
      && (forall i :: 0 <= i < |bids| ==> bids[i].auctionId < nextAuctionId)
    }

    /** A store holding only the seeded categories. */
    constructor (categories: map<int, string>)
      ensures Valid()
      ensures this.categories == categories
      ensures users == map[] && auctions == map[] && bids == []
    {
      this.categories := categories;
      users, auctions, bids := map[], map[], [];
      nextUserId, nextAuctionId := 1, 1;
    }
  }

  /** The image directory: which file names currently hold a blob. */
  class ImageFiles {
    var names: set<string>

    constructor ()
      ensures names == {}
    {
      names := {};
    }
  }

  /**
   * The ids below `bound` that are keys of `m` and whose row satisfies `p`, in ascending order:
   * a select without `order by`, read in primary-key order.
   */
  function SelectIds<T>(m: map<nat, T>, p: (nat, T) -> bool, bound: nat): (ids: seq<nat>)
    ensures forall i :: 0 <= i < |ids| ==> ids[i] < bound && ids[i] in m && p(ids[i], m[ids[i]])
    ensures forall id :: id < bound && id in m && p(id, m[id]) ==> id in ids
    ensures forall i, j :: 0 <= i < j < |ids| ==> ids[i] < ids[j]
  {
    if bound == 0 then []
    else
      var rest := SelectIds(m, p, bound - 1);
      var id := bound - 1;
      if id in m && p(id, m[id]) then rest + [id] else rest
  }

  /** Two scans that select the same ids return the same list, whatever else differs in the rows. */
  lemma {:induction false} SelectIdsAgree<T, U>(m1: map<nat, T>, p1: (nat, T) -> bool, m2: map<nat, U>, p2: (nat, U) -> bool, bound: nat)
    requires forall id :: id < bound ==> ((id in m1 && p1(id, m1[id])) <==> (id in m2 && p2(id, m2[id])))
    ensures SelectIds(m1, p1, bound) == SelectIds(m2, p2, bound)
  {
    if bound > 0 {
      SelectIdsAgree(m1, p1, m2, p2, bound - 1);
    }
  }

  ghost function Selected<T>(m: map<nat, T>, p: (nat, T) -> bool, bound: nat): set<nat> {
    set id | id in m && id < bound && p(id, m[id])
  }

  /** One more id under the bound adds that id to the selection exactly when its row matches. */
  lemma SelectedStep<T>(m: map<nat, T>, p: (nat, T) -> bool, id: nat)
    ensures id !in Selected(m, p, id)
    ensures Selected(m, p, id + 1) ==
      if id in m && p(id, m[id]) then Selected(m, p, id) + {id} else Selected(m, p, id)
  {
  }

  /** The scan returns each selected row exactly once: its length is the number of distinct matching ids. */
  lemma {:induction false} SelectIdsCount<T>(m: map<nat, T>, p: (nat, T) -> bool, bound: nat)
    ensures |SelectIds(m, p, bound)| == |Selected(m, p, bound)|
  {
    if bound > 0 {
      var id := bound - 1;
      SelectIdsCount(m, p, id);
      SelectedStep(m, p, id);
    } else {
      assert Selected(m, p, bound) == {};
    }
  }

  /** When every key lies below the bound, the scan counts all matching rows of the table. */
  lemma SelectIdsCountAll<T>(m: map<nat, T>, p: (nat, T) -> bool, bound: nat)
    requires forall id :: id in m ==> id < bound
    ensures |SelectIds(m, p, bound)| == |set id | id in m && p(id, m[id])|
  {
    SelectIdsCount(m, p, bound);
    assert Selected(m, p, bound) == set id | id in m && p(id, m[id]);
  }
}
