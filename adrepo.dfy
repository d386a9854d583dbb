/** The ad store (`AdsRepo`): the ads table held in memory, joined with the
    user directory for listings. Ids and created_at come from the store (the
    database's sequence and NOW()), never from the caller. */
module AdsRepository {
  import opened Entity
  import opened AdQuery
  import opened UsersRepository

  /** `scan` lists the rows of `ads a JOIN users u ON a.user_id = u.id`, each
      exactly once, in some order: every row is an ad joined with its owner's
      login, no ad appears twice, and every ad whose owner exists appears. */
  ghost predicate IsJoinScan(scan: seq<AdWithAuthor>, ads: map<int, Ad>, users: map<int, UserRecord>) {
    && (forall i :: 0 <= i < |scan| ==>
          && scan[i].id in ads
          && ads[scan[i].id].userId in users
          && scan[i] == Join(ads[scan[i].id], users[ads[scan[i].id].userId].login))
    && (forall i, j :: 0 <= i < j < |scan| ==> scan[i].id != scan[j].id)
    && (forall id :: id in ads && ads[id].userId in users ==> exists i :: 0 <= i < |scan| && scan[i].id == id)
  }

  /** Every listed row is an ad of the store whose owner exists, carrying that
      owner's login, and it meets the query's price bounds. */
  lemma ListedRowsAreJoinedAds(q: GetAdsQuery, scan: seq<AdWithAuthor>, ads: map<int, Ad>, users: map<int, UserRecord>)
    requires IsJoinScan(scan, ads, users)
    ensures forall row :: row in Listing(q, scan) ==>
              && row.id in ads
              && ads[row.id].userId in users
              && row == Join(ads[row.id], users[ads[row.id].userId].login)
              && PriceInRange(q, row.price)
  {
    ListingContents(q, scan);
    forall row | row in Listing(q, scan)
      ensures row.id in ads && ads[row.id].userId in users
      ensures row == Join(ads[row.id], users[ads[row.id].userId].login)
    {
      var i :| 0 <= i < |scan| && scan[i] == row;
    }
  }

  /** An ad whose owner is missing from the directory is never listed. */
  lemma OrphanAdsAreNotListed(q: GetAdsQuery, scan: seq<AdWithAuthor>, ads: map<int, Ad>, users: map<int, UserRecord>, id: int)
    requires IsJoinScan(scan, ads, users)
    requires id in ads && ads[id].userId !in users
    ensures forall row :: row in Listing(q, scan) ==> row.id != id
  {
    ListedRowsAreJoinedAds(q, scan, ads, users);
  }

  class AdsRepo {
    var ads: map<int, Ad>
    var nextId: int
    var online: bool
    /** The user directory the listing joins with. */
    const users: UsersRepo

    /** Ids are the keys and lie below the next id to hand out. */
    ghost predicate Valid()
      reads this
    {
      && nextId >= 1
      && (forall id :: id in ads ==> ads[id].id == id && 1 <= id < nextId)
    }

    constructor (users: UsersRepo)
      ensures Valid() && ads == map[] && nextId == 1 && online && this.users == users
    {
      ads := map[];
      nextId := 1;
      online := true;
      this.users := users;
    }

    /** INSERT of owner, title, description, image URL and price; the id and
        the creation time are assigned here, so `ad.id` and `ad.createdAt`
        are ignored. */
    method Create(ad: Ad, now: int) returns (r: Result<int>)
      requires Valid()
      modifies this`ads, this`nextId
      ensures Valid()
      ensures r.Ok? <==> online
      ensures !online ==> r == Err(StorageUnavailable) && ads == old(ads) && nextId == old(nextId)
      ensures r.Ok? ==>
                && r.value == old(nextId) && r.value !in old(ads)
                && ads == old(ads)[r.value := Ad(r.value, ad.userId, ad.title, ad.description, ad.imageUrl, ad.price, now)]
                && nextId == old(nextId) + 1
    {
      if !online {
        return Err(StorageUnavailable);
      }
      var id := nextId;
      ads := ads[id := Ad(id, ad.userId, ad.title, ad.description, ad.imageUrl, ad.price, now)];
      nextId := nextId + 1;
      r := Ok(id);
    }

    /** UPDATE of the four editable columns of ad `id`; owner, id and creation
        time stay. No row with that id is `AdNotFound`. */
    method Update(id: int, ad: Ad) returns (err: Option<Error>)
      requires Valid()
      modifies this`ads
      ensures Valid()
      ensures !online ==> err == Some(StorageUnavailable) && ads == old(ads)
      ensures online && id !in old(ads) ==> err == Some(AdNotFound) && ads == old(ads)
      ensures online && id in old(ads) ==>
                && err == None
                && ads == old(ads)[id := old(ads)[id].(title := ad.title, description := ad.description,
                                                       imageUrl := ad.imageUrl, price := ad.price)]
    {
      if !online {
        return Some(StorageUnavailable);
      }
      if id !in ads {
        return Some(AdNotFound);
      }
      ads := ads[id := ads[id].(title := ad.title, description := ad.description, imageUrl := ad.imageUrl, price := ad.price)];
      err := None;
    }

    /** The stored ad with that id, or `AdNotFound`. */
    method GetById(id: int) returns (r: Result<Ad>)
      requires Valid()
      ensures !online ==> r == Err(StorageUnavailable)
      ensures online ==> (r.Ok? <==> id in ads)
      ensures online && id !in ads ==> r == Err(AdNotFound)
      ensures r.Ok? ==> r.value == ads[id] && r.value.id == id
    {
      if !online {
        return Err(StorageUnavailable);
      }
      if id !in ads {
        return Err(AdNotFound);
      }
      r := Ok(ads[id]);
    }

    /** The store's scan of `ads a JOIN users u ON a.user_id = u.id`: every
        ad whose owner exists, once, joined with the owner's login. This scan
        goes by ascending id; the listing's result does not depend on that
        beyond the order of rows with equal sort keys. */
    method ScanJoin() returns (table: seq<AdWithAuthor>)
      requires Valid()
      ensures IsJoinScan(table, ads, users.users)
    {
      table := [];
      for id := 1 to nextId
        invariant forall i :: 0 <= i < |table| ==>
                    && table[i].id in ads && table[i].id < id
                    && ads[table[i].id].userId in users.users
                    && table[i] == Join(ads[table[i].id], users.users[ads[table[i].id].userId].login)
        invariant forall i, j :: 0 <= i < j < |table| ==> table[i].id < table[j].id
        invariant forall k :: k in ads && k < id && ads[k].userId in users.users ==>
                    exists i :: 0 <= i < |table| && table[i].id == k
      {
        if id in ads && ads[id].userId in users.users {
          ghost var before := table;
          table := table + [Join(ads[id], users.users[ads[id].userId].login)];
          assert table[|table| - 1].id == id;
          forall k | k in ads && k < id + 1 && ads[k].userId in users.users
            ensures exists i :: 0 <= i < |table| && table[i].id == k
          {
            if k != id {
              var i :| 0 <= i < |before| && before[i].id == k;
              assert table[i] == before[i];
            }
          }
        }
      }
    }

    /** The listing: builds the query from `q`, lets the store scan the join
        of ads with their owners, and returns the filtered, ordered, windowed
        rows. `scan` is the order in which the store produced the joined rows. */
    method GetAll(q: GetAdsQuery) returns (r: Result<seq<AdWithAuthor>>, ghost scan: seq<AdWithAuthor>)
      requires Valid()
      ensures !online ==> r == Err(StorageUnavailable)
      ensures online ==> IsJoinScan(scan, ads, users.users) && r == Ok(Listing(q, scan))
    {
      var plan := BuildQuery(q);
      if !online {
        return Err(StorageUnavailable), [];
      }
      var table := ScanJoin();
      scan := table;
      r := Ok(Select(plan, table));
    }

    /** DELETE of ad `id`; no row with that id is `AdNotFound`. */
    method Delete(id: int) returns (err: Option<Error>)
      requires Valid()
      modifies this`ads
      ensures Valid()
      ensures !online ==> err == Some(StorageUnavailable) && ads == old(ads)
      ensures online ==> (err == Some(AdNotFound) <==> id !in old(ads))
      ensures online ==> err != Some(AdNotFound) ==> err == None
      ensures ads == (if online then old(ads) - {id} else old(ads))
    {
      if !online {
        return Some(StorageUnavailable);
      }
      if id !in ads {
        return Some(AdNotFound);
      }
      ads := ads - {id};
      err := None;
    }
  }

  /** What `Create` stores is what `GetById` returns for the new id: the
      caller's owner and content, a fresh id and the store's creation time. */
  method CreateThenGetById(repo: AdsRepo, ad: Ad, now: int) returns (r: Result<Ad>)
    requires repo.Valid() && repo.online
    modifies repo`ads, repo`nextId
    ensures repo.Valid()
    ensures r.Ok? && r.value == Ad(old(repo.nextId), ad.userId, ad.title, ad.description, ad.imageUrl, ad.price, now)
  {
    var created := repo.Create(ad, now);
    r := repo.GetById(created.value);
  }

  /** Deleting an ad twice: the second deletion finds nothing and reports
      `AdNotFound`, changing nothing. */
  method DeleteTwice(repo: AdsRepo, id: int) returns (first: Option<Error>, second: Option<Error>)
    requires repo.Valid() && repo.online && id in repo.ads
    modifies repo`ads
    ensures repo.Valid()
    ensures first == None && second == Some(AdNotFound)
    ensures repo.ads == old(repo.ads) - {id}
  {
    first := repo.Delete(id);
    second := repo.Delete(id);
  }
}
