/** The ad service (`AdService`): input validation, creation, owner-only
    update and delete, single lookup and the per-viewer listing, over the ad
    store. */
module AdsServices {
  import opened Entity
  import opened AdQuery
  import opened AdsRepository

  /** The content of a new ad. */
  datatype CreateAdInput = CreateAdInput(title: string, description: string, imageUrl: string, price: real)

  /** A partial update: an absent field keeps its stored value. */
  datatype UpdateAdInput = UpdateAdInput(
    title: Option<string>,
    description: Option<string>,
    imageUrl: Option<string>,
    price: Option<real>)

  /** Longest title and description accepted, in bytes. */
  const MaxTitleLength := 100
  const MaxDescriptionLength := 1000

  /** The content rules every stored ad meets: a title of 1 to 100 bytes, a
      description of at most 1000 bytes, an image URL that is empty or an
      absolute URI or absolute path, and a price that is not negative. */
  predicate AcceptableContent(title: string, description: string, imageUrl: string, price: real,
                              isRequestUri: string -> bool)
  {
    && 1 <= |title| <= MaxTitleLength
    && |description| <= MaxDescriptionLength
    && (imageUrl == "" || isRequestUri(imageUrl))
    && price >= 0.0
  }

  /** The first content rule the fields break, checked in the order title,
      description, image URL, price; None when all hold. `isRequestUri` stands
      for the standard library's request-URI parser accepting the text. */
  function ValidateInput(title: string, description: string, imageUrl: string, price: real,
                         isRequestUri: string -> bool): (r: Option<InvalidReason>)
    ensures r.None? <==> AcceptableContent(title, description, imageUrl, price, isRequestUri)
    ensures r == Some(TitleLength) <==> !(1 <= |title| <= MaxTitleLength)
    ensures r == Some(DescriptionLength) <==> 1 <= |title| <= MaxTitleLength && |description| > MaxDescriptionLength
    ensures r == Some(ImageUrlFormat) <==>
              && 1 <= |title| <= MaxTitleLength && |description| <= MaxDescriptionLength
              && imageUrl != "" && !isRequestUri(imageUrl)
    ensures r.Some? ==> r.value in {TitleLength, DescriptionLength, ImageUrlFormat, NegativePrice}
  {
    if |title| < 1 || |title| > MaxTitleLength then Some(TitleLength)
    else if |description| > MaxDescriptionLength then Some(DescriptionLength)
    else if imageUrl != "" && !isRequestUri(imageUrl) then Some(ImageUrlFormat)
    else if price < 0.0 then Some(NegativePrice)
    else None
  }

  /** The stored ad with the present fields of `input` replacing its own: id,
      owner and creation time are kept, and a field differs from the stored
      one only when the input supplies it. */
  function Merged(ad: Ad, input: UpdateAdInput): (m: Ad)
    ensures m.id == ad.id && m.userId == ad.userId && m.createdAt == ad.createdAt
    ensures m.title != ad.title ==> input.title == Some(m.title)
    ensures m.description != ad.description ==> input.description == Some(m.description)
    ensures m.imageUrl != ad.imageUrl ==> input.imageUrl == Some(m.imageUrl)
    ensures m.price != ad.price ==> input.price == Some(m.price)
  {
    ad.(title := input.title.GetOr(ad.title),
        description := input.description.GetOr(ad.description),
        imageUrl := input.imageUrl.GetOr(ad.imageUrl),
        price := input.price.GetOr(ad.price))
  }

  /** A merge never touches id, owner or creation time, takes every present
      field from the input and keeps every absent one. */
  lemma MergeReplacesOnlyPresentFields(ad: Ad, input: UpdateAdInput)
    ensures var m := Merged(ad, input);
            && m.id == ad.id && m.userId == ad.userId && m.createdAt == ad.createdAt
            && m.title == (if input.title.Some? then input.title.value else ad.title)
            && m.description == (if input.description.Some? then input.description.value else ad.description)
            && m.imageUrl == (if input.imageUrl.Some? then input.imageUrl.value else ad.imageUrl)
            && m.price == (if input.price.Some? then input.price.value else ad.price)
  {
  }

  /** An update with no field present leaves the ad as it is. */
  lemma EmptyUpdateIsIdentity(ad: Ad)
    ensures Merged(ad, UpdateAdInput(None, None, None, None)) == ad
  {
  }

  /** Validation after a merge only looks at the merged content: an update
      that supplies every field is judged exactly as a new ad with that
      content would be. */
  lemma FullUpdateValidatedLikeCreate(ad: Ad, input: CreateAdInput, isRequestUri: string -> bool)
    ensures var m := Merged(ad, UpdateAdInput(Some(input.title), Some(input.description), Some(input.imageUrl), Some(input.price)));
            ValidateInput(m.title, m.description, m.imageUrl, m.price, isRequestUri)
              == ValidateInput(input.title, input.description, input.imageUrl, input.price, isRequestUri)
  {
  }

  /** The ad as it looks to `viewer`: ownership is reported only to a known
      viewer. */
  function ResponseFor(row: AdWithAuthor, viewer: Option<int>): (r: AdResponse)
    ensures r.adWithAuthor == row
    ensures r.isOwner.Some? <==> viewer.Some?
    ensures viewer.Some? ==> (r.isOwner.value <==> row.userId == viewer.value)
  {
    AdResponse(row, if viewer.Some? then Some(row.userId == viewer.value) else None)
  }

  class AdService {
    const repo: AdsRepo
    /** The request-URI check applied to image URLs. */
    const isRequestUri: string -> bool

    ghost predicate Valid()
      reads repo
    {
      repo.Valid()
    }

    constructor (repo: AdsRepo, isRequestUri: string -> bool)
      ensures this.repo == repo && this.isRequestUri == isRequestUri
    {
      this.repo := repo;
      this.isRequestUri := isRequestUri;
    }

    /** Validates the content, stores it as an ad of `userId` and returns the
        stored ad as re-read from the store. */
    method Create(input: CreateAdInput, userId: int, now: int) returns (r: Result<Ad>)
      requires Valid()
      modifies repo`ads, repo`nextId
      ensures Valid()
      ensures var check := ValidateInput(input.title, input.description, input.imageUrl, input.price, isRequestUri);
              check.Some? ==> r == Err(InvalidInput(check.value))
      ensures r.Ok? <==>
                AcceptableContent(input.title, input.description, input.imageUrl, input.price, isRequestUri) && repo.online
      ensures r.Err? ==> repo.ads == old(repo.ads) && repo.nextId == old(repo.nextId)
      ensures r.Ok? ==>
                && r.value == Ad(old(repo.nextId), userId, input.title, input.description, input.imageUrl, input.price, now)
                && r.value.id !in old(repo.ads)
                && repo.ads == old(repo.ads)[r.value.id := r.value]
    {
      var check := ValidateInput(input.title, input.description, input.imageUrl, input.price, isRequestUri);
      if check.Some? {
        return Err(InvalidInput(check.value));
      }
      var ad := Ad(0, userId, input.title, input.description, input.imageUrl, input.price, 0);
      var created := repo.Create(ad, now);
      if created.Err? {
        return Err(created.error);
      }
      r := repo.GetById(created.value);
    }

    /** Loads ad `adId`, refuses a caller who does not own it, merges the
        present fields, validates the merged content, writes it back and
        returns it. */
    method Update(adId: int, userId: int, input: UpdateAdInput) returns (r: Result<Ad>)
      requires Valid()
      modifies repo`ads
      ensures Valid()
      ensures !repo.online ==> r == Err(StorageUnavailable)
      ensures repo.online && adId !in old(repo.ads) ==> r == Err(AdNotFound)
      ensures repo.online && adId in old(repo.ads) && old(repo.ads)[adId].userId != userId ==> r == Err(Forbidden)
      ensures repo.online && adId in old(repo.ads) && old(repo.ads)[adId].userId == userId ==>
                var m := Merged(old(repo.ads)[adId], input);
                var check := ValidateInput(m.title, m.description, m.imageUrl, m.price, isRequestUri);
                r == if check.Some? then Err(InvalidInput(check.value)) else Ok(m)
      ensures r.Err? ==> repo.ads == old(repo.ads)
      ensures r.Ok? ==>
                && adId in old(repo.ads) && r.value == Merged(old(repo.ads)[adId], input)
                && repo.ads == old(repo.ads)[adId := r.value]
    {
      var original := repo.GetById(adId);
      if original.Err? {
        return Err(original.error);
      }
      if original.value.userId != userId {
        return Err(Forbidden);
      }
      var updated := original.value;
      if input.title.Some? {
        updated := updated.(title := input.title.value);
      }
      if input.description.Some? {
        updated := updated.(description := input.description.value);
      }
      if input.imageUrl.Some? {
        updated := updated.(imageUrl := input.imageUrl.value);
      }
      if input.price.Some? {
        updated := updated.(price := input.price.value);
      }
      var check := ValidateInput(updated.title, updated.description, updated.imageUrl, updated.price, isRequestUri);
      if check.Some? {
        return Err(InvalidInput(check.value));
      }
      var err := repo.Update(adId, updated);
      if err.Some? {
        return Err(err.value);
      }
      r := Ok(updated);
    }

    /** The stored ad with that id. */
    method GetByID(id: int) returns (r: Result<Ad>)
      requires Valid()
      ensures !repo.online ==> r == Err(StorageUnavailable)
      ensures repo.online ==> r == if id in repo.ads then Ok(repo.ads[id]) else Err(AdNotFound)
    {
      r := repo.GetById(id);
    }

    /** One page of the listing as `viewer` sees it: the store's rows in
        order, each with `isOwner` set for a known viewer and absent for an
        anonymous one. */
    method GetAll(q: GetAdsQuery, viewer: Option<int>) returns (r: Result<seq<AdResponse>>, ghost scan: seq<AdWithAuthor>)
      requires Valid()
      ensures !repo.online ==> r == Err(StorageUnavailable)
      ensures repo.online ==>
                && IsJoinScan(scan, repo.ads, repo.users.users)
                && r.Ok? && |r.value| == |Listing(q, scan)|
                && forall i :: 0 <= i < |r.value| ==> r.value[i] == ResponseFor(Listing(q, scan)[i], viewer)
    {
      var rows;
      rows, scan := repo.GetAll(q);
      if rows.Err? {
        return Err(rows.error), scan;
      }
      var ads := rows.value;
      var response := new AdResponse[|ads|];
      for i := 0 to |ads|
        invariant forall k :: 0 <= k < i ==> response[k] == ResponseFor(ads[k], viewer)
      {
        var item := AdResponse(ads[i], None);
        if viewer.Some? {
          item := item.(isOwner := Some(ads[i].userId == viewer.value));
        }
        response[i] := item;
      }
      r := Ok(response[..]);
    }

    /** Deletes ad `adId` when `userId` owns it. */
    method Delete(adId: int, userId: int) returns (err: Option<Error>)
      requires Valid()
      modifies repo`ads
      ensures Valid()
      ensures !repo.online ==> err == Some(StorageUnavailable)
      ensures repo.online && adId !in old(repo.ads) ==> err == Some(AdNotFound)
      ensures repo.online && adId in old(repo.ads) && old(repo.ads)[adId].userId != userId ==> err == Some(Forbidden)
      ensures err.None? <==> repo.online && adId in old(repo.ads) && old(repo.ads)[adId].userId == userId
      ensures repo.ads == if err.None? then old(repo.ads) - {adId} else old(repo.ads)
    {
      var ad := repo.GetById(adId);
      if ad.Err? {
        return Some(ad.error);
      }
      if ad.value.userId != userId {
        return Some(Forbidden);
      }
      err := repo.Delete(adId);
    }
  }

  /** Only the owner can delete: a delete by anyone else is `Forbidden`, and
      the owner's delete then succeeds while a repeated one finds nothing. */
  method OwnerOnlyDelete(svc: AdService, adId: int, owner: int, other: int)
    returns (byOther: Option<Error>, byOwner: Option<Error>, again: Option<Error>)
    requires svc.Valid() && svc.repo.online
    requires adId in svc.repo.ads && svc.repo.ads[adId].userId == owner && other != owner
    modifies svc.repo`ads
    ensures byOther == Some(Forbidden) && byOwner == None && again == Some(AdNotFound)
    ensures svc.repo.ads == old(svc.repo.ads) - {adId}
  {
    byOther := svc.Delete(adId, other);
    byOwner := svc.Delete(adId, owner);
    again := svc.Delete(adId, owner);
  }
}
