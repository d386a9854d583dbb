/** Domain values of the marketplace backend: users and their refresh session,
    ads and their joined/annotated projections, the listing query, and the
    error kinds the repositories and services report.

    Conventions used throughout the model:
    - a `string` stands for a Go string's bytes, one `char` per byte, so `|s|`
      is Go's `len(s)`;
    - prices (Go `float64`) are only compared, so they are `real`;
    - instants (Go `time.Time`) and durations are `int` seconds. */
module Entity {

  datatype Option<+T> = None | Some(value: T) {
    /** The present value, or `default` when absent. */
    function GetOr(default: T): T {
      match this
      case Some(v) => v
      case None => default
    }
  }

  /** A value or the error that replaced it (Go's `(T, error)` pair). */
  datatype Result<+T> = Ok(value: T) | Err(error: Error)

  /** Which check rejected a request as invalid input (the text the source
      wraps around `ErrInvalidInput`). */
  datatype InvalidReason =
    | TitleLength
    | DescriptionLength
    | ImageUrlFormat
    | NegativePrice
    | LoginLength
    | PasswordTooShort
    | EmptyRefreshToken

  /** The error kinds. `Unclassified` covers every error that is not one of the
      sentinels (storage failures, hashing and signing failures, and the plain
      "user not found" text of the user directory's id lookup). */
  datatype Error =
    | UserExists
    | UserNotFound
    | InvalidCreds
    | AdNotFound
    | InvalidInput(reason: InvalidReason)
    | Forbidden
    | Unclassified(message: string)

  /** What a repository reports when the database cannot be reached. */
  const StorageUnavailable: Error := Unclassified("storage unavailable")

  /** A stored advertisement. */
  datatype Ad = Ad(
    id: int,
    userId: int,
    title: string,
    description: string,
    imageUrl: string,
    price: real,
    createdAt: int)

  /** An ad joined with its owner's login: a read projection. */
  datatype AdWithAuthor = AdWithAuthor(
    id: int,
    userId: int,
    title: string,
    description: string,
    imageUrl: string,
    price: real,
    createdAt: int,
    authorLogin: string)

  /** An ad as returned to one viewer. `isOwner` is absent for an anonymous
      viewer, which is not the same as `Some(false)`. */
  datatype AdResponse = AdResponse(adWithAuthor: AdWithAuthor, isOwner: Option<bool>)

  /** The listing query: page, page size, sort key and direction, price bounds
      (0 meaning "no bound"). */
  datatype GetAdsQuery = GetAdsQuery(
    page: int,
    limit: int,
    sortBy: string,
    sortDir: string,
    minPrice: real,
    maxPrice: real)

  /** The one refresh session a user holds. */
  datatype Session = Session(refreshToken: string, expiresAt: int)

  /** A user as the directory hands it out; `passwordHash` is "" where the
      lookup does not select it. */
  datatype User = User(id: int, login: string, passwordHash: string, createdAt: int)

  /** An ad joined with the login of its author. */
  function Join(ad: Ad, login: string): AdWithAuthor
  {
    AdWithAuthor(ad.id, ad.userId, ad.title, ad.description, ad.imageUrl, ad.price, ad.createdAt, login)
  }

  function Min(a: int, b: int): int { if a <= b then a else b }

  function Max(a: int, b: int): int { if a >= b then a else b }
}
