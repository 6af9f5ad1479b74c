# memoryland backend: access control and photo links

This project models, in Dafny, the core that decides who may see and change
which photos in the memoryland backend, and how photo bytes are reached. It has
four parts:

- **Blob photo service** (module `BlobStorage`). Each user's photos live in one
  blob container.
  - The container is named `PadLong(userId)`. A photo's blob is named
    `PadLong(photoId)` followed by `.jpg` or `.png`.
  - Uploads create the container if it is absent and overwrite the blob. They
    set the Content-Type and send JPEGs through a rotation pass that is a
    parameter of the model. The EXIF orientation step of that pass
    (`ApplyExifRotation`) is modelled separately, in module `Exif`.
  - Deletes skip blobs that are missing.
  - Reads return a SAS link that grants access to that one blob (module
    `SasTokenGeneratorService`).
  - The account key is taken out of the storage connection string.
- **Identity resolution** (`UserService`). Reads the caller's email and name
  from the claim set. Provisions a user the first time a caller arrives.
  Resolves the caller to a stored user.
- **Token check** (`AuthorizationService`). Anonymous access to a memoryland is
  allowed exactly when the presented Guid is stored as a token of that
  memoryland.
- **Album and photo endpoints** (`PhotoAlbumController`, `PhotoController`).
  Validation chains run in a fixed order and return typed results
  (`WebApi.Response`). Ownership is checked along photo → album → user.
  - Creating an album is an insert.
  - Renaming a photo is an in-place update.
  - Listings are sorted by name.

The store is the `Entities.Database` class. It has one sequence-valued field per
table. `Database.Valid()` is the class invariant. It holds the primary keys, the
unique indexes declared by the entity `[Index]` attributes, and the foreign keys:

- `User.Email`
- `(Name, UserId)` of albums and memorylands
- `(Name, PhotoAlbumId)` of photos
- `(Position, MemorylandId)` of configurations
- `Token` and `MemorylandId` of tokens
- `UserId` of transactions

Every method that changes the store accepts and re-establishes `Valid()`. It
states the whole new state, and says that no other table changes.

The blob space is a map from container name to a map from blob name to blob. It
is both a field of `BlobStorage.BlobServiceClient`, which the service methods
update, and a value that the specification functions `PutBlob` and
`DeleteBlobs` transform.

Strings are `seq<char>`. The C# string operations the core relies on are
defined in `Strings`:

- `Contains` and `Replace`: ordinal.
- `Split` / `Join`.
- `IsNullOrWhiteSpace`, with the .NET white-space set.
- Ordinal `string.Compare`.
- `long.ToString()` and `PadLeft`.

Time is an integer count of 100-ns ticks.

Several things the core gets from outside are **parameters** of the model:

- The current time (`utcNow`).
- The connection string read from configuration.
- The identity the database generates for a new row (`newId`, required to be
  unused).
- The JPEG decode/rotate/encode pass (`rotateImage`).
- The controllers' URL resolver (`resolveUrl`), a function returning
  `Option<SasUri>`.
  - The controllers call `GetPhoto` with argument lists that do not match its
    declaration in `BlobStoragePhotoService.cs`. The resolver follows each call
    site: (user id, album name, photo name) in the album listing, and
    (user id, photo id) in the single-photo fetch.
  - `Core/DTO/PhotoAlbumDto.cs` declares `Photos` as `IEnumerable<PhotoDataDto>`,
    but `GetPhotoAlbumsData` passes `pa.Photos.Select(p => p.Name)`
    (`PhotoAlbumController.cs:151`). `WebApi.PhotoAlbumDto` follows the call
    site: its `photos` field is a `seq<string>` of photo names.
- `UploadController.ContainerNameRegex` (`containerNameRegex`). Its pattern is
  not part of this model.

In these places the model follows the code, which differs from what the
system is described as doing:

- `CreatePhotoAlbum` rejects a name used by **any** album of **any** user. It
  does not limit the check to the caller's albums (`PhotoAlbumController.cs:115-117`).
- Album photos are ordered by name only in the response of
  `GetPhotoAlbumImagesWithDetails`. `GetPhotoAlbumsData` keeps table order.
- `User` carries both `Email` and `Username`, because `UserService.cs` reads and
  writes both.

## Model

| member | source | states |
|---|---|---|
| `BlobStorage.PadLong` | memoryland-backend/BlobStoragePersistence/BlobStoragePhotoService.cs:120-125 | The key is 20 characters long. Stripping its leading zeros gives back `long.ToString()` of the number. |
| `BlobStorage.PadLongRoundTrip` | memoryland-backend/BlobStoragePersistence/BlobStoragePhotoService.cs:120-125 | Parsing the key with its leading zeros stripped recovers the id, for every `long`. |
| `BlobStorage.PadLongInjective` | memoryland-backend/BlobStoragePersistence/BlobStoragePhotoService.cs:120-125 | Distinct ids give distinct keys, so no two users share a container and no two photo ids share a blob stem. |
| `BlobStorage.GetExtension` | memoryland-backend/BlobStoragePersistence/BlobStoragePhotoService.cs:180-185 | ".jpg" exactly when the name contains ".jpg" or ".jpeg" (ordinally); ".png" exactly otherwise. |
| `BlobStorage.ExtensionOfSuffix` | memoryland-backend/BlobStoragePersistence/BlobStoragePhotoService.cs:180-185 | A name ending in ".jpg" or ".jpeg" gets ".jpg". The test is case-sensitive, so "IMG.JPG" gets ".png". |
| `BlobStorage.BlobNameInjective` | memoryland-backend/BlobStoragePersistence/BlobStoragePhotoService.cs:66-67 | A blob name determines the photo id and the extension. |
| `BlobStorage.ContentType` | memoryland-backend/BlobStoragePersistence/BlobStoragePhotoService.cs:54-60 | "image/jpeg" exactly for JPEG names; "image/png" exactly otherwise. |
| `BlobStorage.BlobNamesContains` | memoryland-backend/BlobStoragePersistence/BlobStoragePhotoService.cs:87-90 | The blob name of each listed photo is in the set DeletePhotos removes. |
| `BlobStorage.BlobNamesOnly` | memoryland-backend/BlobStoragePersistence/BlobStoragePhotoService.cs:87-90 | Each name in that set is the blob name of a listed photo, which is returned as a witness. |
| `BlobStorage.PutBlob` | memoryland-backend/BlobStoragePersistence/BlobStoragePhotoService.cs:62-70 | Afterwards the container exists and holds the blob, overwriting any earlier one. Other containers and other blobs are unchanged and nothing else is created. |
| `BlobStorage.DeleteBlobs` | memoryland-backend/BlobStoragePersistence/BlobStoragePhotoService.cs:82-96 | The set of containers is unchanged (a missing container stays missing). Only the named blobs leave that one container, and names with no blob are skipped. All other blobs keep their contents. |
| `BlobStorage.DeleteBlobsIdempotent` | memoryland-backend/BlobStoragePersistence/BlobStoragePhotoService.cs:80-97 | Deleting the same photos twice equals deleting them once. |
| `BlobStorage.DeleteBlobsCompose` | memoryland-backend/BlobStoragePersistence/BlobStoragePhotoService.cs:87-96 | Deleting in two batches equals deleting their union, so the order of the per-photo deletions does not matter. |
| `BlobStorage.DeleteMissing` | memoryland-backend/BlobStoragePersistence/BlobStoragePhotoService.cs:92-93 | Deleting a blob that does not exist changes nothing. |
| `BlobStorage.UploadThenDelete` | memoryland-backend/BlobStoragePersistence/BlobStoragePhotoService.cs:48-97 | After uploading a photo and then deleting it, its blob is gone and the user's container exists. Every other blob name in that container is present exactly when it was present before the upload. |
| `BlobStorage.AccessKeyOf` | memoryland-backend/BlobStoragePersistence/BlobStoragePhotoService.cs:31-45 | A missing or blank connection string fails, and so does one with no ';'-segment containing "AccountKey"; otherwise it succeeds. Which key it yields is stated by `AccessKeyOfJoin`. |
| `BlobStorage.AccessKeyOfJoin` | memoryland-backend/BlobStoragePersistence/BlobStoragePhotoService.cs:34-40 | For a connection string joined from segments without ';' whose first segment mentioning "AccountKey" is exactly "AccountKey=" + `k`, the key is exactly `k` (for example "AccountName=x;AccountKey=abc==;EndpointSuffix=y" yields "abc=="). |
| `BlobStorage.ParseAccessKey` | memoryland-backend/BlobStoragePersistence/BlobStoragePhotoService.cs:31-45 | The segment loop, with its early return, computes `AccessKeyOf`. |
| `BlobStorage.BlobStoragePhotoService.Create` | memoryland-backend/BlobStoragePersistence/BlobStoragePhotoService.cs:17-46 | Construction fails exactly when `AccessKeyOf` fails. Otherwise the service holds the given client and that key. |
| `BlobStorage.BlobStoragePhotoService.UploadPhoto` | memoryland-backend/BlobStoragePersistence/BlobStoragePhotoService.cs:48-78 | The new blob space is `PutBlob` of the old one: container `PadLong(userId)`, blob `PadLong(photoId)+GetExtension(name)`. The bytes are rotated exactly for JPEG names, the Content-Type is `ContentType(name)` and the Content-Disposition is "inline". |
| `BlobStorage.BlobStoragePhotoService.DeletePhotos` | memoryland-backend/BlobStoragePersistence/BlobStoragePhotoService.cs:80-97 | The new blob space is `DeleteBlobs(old, PadLong(userId), BlobNames(photos))`. The loop is proved against it: a missing container is a no-op, and missing blobs are skipped. |
| `BlobStorage.BlobStoragePhotoService.GetPhoto` | memoryland-backend/BlobStoragePersistence/BlobStoragePhotoService.cs:100-118 | None exactly when the container or the blob is missing. Otherwise it returns a SAS link on that blob of `PadLong(userId)`, issued at the given time. It is read-only. |
| `BlobStorage.GetPhotoPermitsOnlyThatBlob` | memoryland-backend/BlobStoragePersistence/BlobStoragePhotoService.cs:100-118 | The link from GetPhoto permits reading and writing that one blob, and nothing else, during its lifetime. |
| `Exif.ApplyExifRotation` | memoryland-backend/BlobStoragePersistence/BlobStoragePhotoService.cs:140-178 | Without a profile or without an orientation tag, the image is unchanged. With a tag, the fixed correction for it is appended (none for values outside 2–8), the tag becomes 1, and a second call then adds nothing. |
| `Exif.CorrectionMatchesTagMeaning` | memoryland-backend/BlobStoragePersistence/BlobStoragePhotoService.cs:150-173 | For each tag value 1–8, the correction puts the stored row 0 and column 0 on the visual sides the tag says they represent, as section "Orientation" of TIFF 6.0 (tag 274) defines them, so the picture then displays upright with tag 1. |
| `Exif.CorrectionsDistinct` | memoryland-backend/BlobStoragePersistence/BlobStoragePhotoService.cs:150-173 | No two orientation values get corrections with the same effect. |
| `SasTokenGeneratorService.CreateUserDelegationSasBlob` | memoryland-backend/BlobStoragePersistence/SasTokenGeneratorService.cs:12-46 | The link is the blob's own URI plus a SAS with these fields: container and blob copied from the client, resource "b", start = issue time, expiry exactly 4 h later, permissions exactly {Read, Write}. It is signed with the account name and the key. |
| `SasTokenGeneratorService.IssuedSasPermitsExactly` | memoryland-backend/BlobStoragePersistence/SasTokenGeneratorService.cs:20-30 | The issued SAS permits an access exactly when it is a read or write of that blob, under that key, within [start, expiry]. |
| `SasTokenGeneratorService.NoSiblingAccess` | memoryland-backend/BlobStoragePersistence/SasTokenGeneratorService.cs:40-45 | The issued link permits nothing on any other blob or container. |
| `UserService.FirstClaimValue` | memoryland-backend/WebApi/Service/UserService.cs:28-29 | None exactly when no claim has the type. Otherwise the value of the first claim that does. |
| `UserService.ExactClaimFoundIgnoringCase` | memoryland-backend/WebApi/Service/UserService.cs:58-62 | If some claim's type is exactly "email", then a claim whose type is "email" ignoring case is found too. |
| `Collections.FirstOrNone` | memoryland-backend/WebApi/Service/UserService.cs:67-69 | None exactly when no element matches. Otherwise the first matching element in table order (the user lookup's FirstOrDefault). |
| `UserService.CheckIfUserAuthenticatedAsWritten` | memoryland-backend/WebApi/Service/UserService.cs:56-72 | Fails with AuthenticationException exactly when no claim type equals "email" ignoring case. Otherwise it returns a stored user whose Username equals the email, or None when there is none. |
| `UserService.CheckIfUserAuthenticated` | memoryland-backend/WebApi/Service/UserService.cs:56-72 | The same exception rule, but the user is looked up by Email. It returns a stored user with that email, or None when there is none. |
| `UserService.ResolvesStoredEmail` | memoryland-backend/WebApi/Service/UserService.cs:67-71 | With the unique index on Email, a caller whose email claim is stored resolves to exactly that user. |
| `UserService.ProvisionedUserMissedAsWritten` | memoryland-backend/WebApi/Service/UserService.cs:67-69 | Counterexample: on a fresh store, after CreateUserIfNotExist provisions a caller whose non-empty email and name claims differ, the same claims resolve to None as written and to exactly the new `User(newId, email, name)` as intended. |
| `UserService.CreateUserIfNotExist` | memoryland-backend/WebApi/Service/UserService.cs:25-54 | The email is the first claim of type exactly "email". A missing or empty email gives false and no change; an email already stored gives true and no change. Otherwise a missing or empty first "name" claim gives false and no change, and a present one appends exactly `User(newId, email, name)` and gives true. True exactly when the email is then stored, so a repeated call returns true without change. Other tables are unchanged and `Valid()` holds. |
| `AuthorizationService.IsAuthorized` | memoryland-backend/WebApi/Service/AuthorizationService.cs:16-34 | False when no memoryland has the id. Otherwise true exactly when a stored token has both the Guid and the memoryland id. It is read-only. |
| `AuthorizationService.AuthorizedIffTokenRegistered` | memoryland-backend/WebApi/Service/AuthorizationService.cs:28-33 | In a valid store, authorized exactly when a token with that Guid is registered for that memoryland. |
| `AuthorizationService.ForeignTokenDoesNotAuthorize` | memoryland-backend/WebApi/Service/AuthorizationService.cs:29-31 | The token of one memoryland never opens another. |
| `AuthorizationService.AuthorizesAtMostOne` | memoryland-backend/WebApi/Service/AuthorizationService.cs:28-33 | With Token unique, one Guid opens at most one memoryland. |
| `AuthorizationService.RegisteredTokenAuthorizes` | memoryland-backend/WebApi/Service/AuthorizationService.cs:20-33 | In a valid store, every registered token opens its own memoryland. |
| `PhotoAlbumController.FindAlbum` | memoryland-backend/WebApi/Controllers/PhotoAlbumController.cs:52-55 | None exactly when no album has the id. Otherwise a stored album with that id. |
| `PhotoAlbumController.AlbumPhotos` | memoryland-backend/WebApi/Controllers/PhotoAlbumController.cs:54-57 | Every entry is a stored photo with the album's id, and every such stored photo is an entry. |
| `PhotoAlbumController.AlbumPhotosCount` | memoryland-backend/WebApi/Controllers/PhotoAlbumController.cs:54-57 | Each photo of the album occurs in the navigation as often as in the table; other photos not at all. |
| `PhotoAlbumController.AlbumOwner` | memoryland-backend/WebApi/Controllers/PhotoAlbumController.cs:60-62 | The stored user the album's UserId refers to. None exactly when there is none. |
| `PhotoAlbumController.InsertByNameSorted` | memoryland-backend/WebApi/Controllers/PhotoAlbumController.cs:84-85 | Inserting into a list sorted ordinally by name keeps it sorted. |
| `PhotoAlbumController.SortByName` | memoryland-backend/WebApi/Controllers/PhotoAlbumController.cs:84-85 | The result is sorted ascending by ordinal name comparison and is a permutation (equal multiset) of the input. |
| `PhotoAlbumController.SortedByNameUnique` | memoryland-backend/WebApi/Controllers/PhotoAlbumController.cs:84-85 | Two name-sorted permutations of entries with distinct names are equal, so the unstable sort still has one outcome. |
| `PhotoAlbumController.Entries` | memoryland-backend/WebApi/Controllers/PhotoAlbumController.cs:67-82 | None exactly when some photo gets no link. Otherwise one entry per photo, in order: name, album id and link. |
| `PhotoAlbumController.ResolveEntries` | memoryland-backend/WebApi/Controllers/PhotoAlbumController.cs:67-82 | The per-photo loop: None exactly when some album photo gets no link; otherwise one entry per photo, in order, each the photo's name and album id with its link. |
| `PhotoAlbumController.GetPhotoAlbumImagesWithDetails` | memoryland-backend/WebApi/Controllers/PhotoAlbumController.cs:35-88 | Checks in order, each with its result: no email claim throws; an unresolved caller gets Unauthorized; no photos at all, a missing album or an empty album gets NotFound; an owner email that differs ignoring case gets Unauthorized; any photo without a link gets NotFound. Otherwise Ok with one entry per album photo, sorted by name. It is read-only. |
| `PhotoAlbumController.CreatePhotoAlbum` | memoryland-backend/WebApi/Controllers/PhotoAlbumController.cs:93-129 | Checks in order, each with its result: the lookup's exception; UnauthorizedAccessException for an unresolved caller, before any name check; BadRequest for a blank name, for a name over 1024 characters, for a name with a character of `!*'();:@&=+$,/?#[]`, and for a name any album has. Every refusal leaves the store unchanged. Otherwise it appends exactly `PhotoAlbum(newId, name, caller.id)`, returns Created and keeps `Valid()`. |
| `PhotoAlbumController.RepeatedCreationRefused` | memoryland-backend/WebApi/Controllers/PhotoAlbumController.cs:115-128 | When a creation succeeds, a second CreatePhotoAlbum with the same claims and name returns BadRequest "Album name already exists", and the album table holds exactly the one album the first call added. No other table changes and `Valid()` holds. |
| `PhotoAlbumController.PhotoNames` | memoryland-backend/WebApi/Controllers/PhotoAlbumController.cs:151 | The names of the album's photos, one per photo, in the same order. |
| `PhotoAlbumController.OwnedAlbums` | memoryland-backend/WebApi/Controllers/PhotoAlbumController.cs:144-145 | Every entry is a stored album of the user, and every stored album of the user is an entry. |
| `Collections.FilterOrder` | memoryland-backend/WebApi/Controllers/PhotoAlbumController.cs:144-145 | The `Where` filter keeps table order: any two kept elements come from positions of the table in the same order. |
| `PhotoAlbumController.OwnedAlbumsCount` | memoryland-backend/WebApi/Controllers/PhotoAlbumController.cs:144-145 | Each album of the user occurs as often as in the table; other albums not at all. |
| `PhotoAlbumController.OwnedAlbumDtos` | memoryland-backend/WebApi/Controllers/PhotoAlbumController.cs:144-151 | One entry per owned album, in table order: entry i is the i-th owned album with its photo names. So every entry is an album of the user, and every album of the user has an entry. |
| `PhotoAlbumController.OwnedAlbumDtosDistinct` | memoryland-backend/WebApi/Controllers/PhotoAlbumController.cs:144-151 | With album ids unique, no entry occurs twice; with the membership both ways, the entries are a permutation of the owned albums' DTOs. |
| `PhotoAlbumController.GetPhotoAlbumsData` | memoryland-backend/WebApi/Controllers/PhotoAlbumController.cs:134-155 | A missing email claim throws. An unresolved caller gets Ok with an empty list. Otherwise Ok with as many entries as the caller has albums: every entry is a DTO of an album whose UserId is the caller's, and every such album has an entry. |
| `PhotoAlbumController.AlbumsListedOnce` | memoryland-backend/WebApi/Controllers/PhotoAlbumController.cs:144-153 | In a valid store an Ok listing has no repeated entry. |
| `PhotoController.FindRequestedPhoto` | memoryland-backend/WebApi/Controllers/PhotoController.cs:55-59 | None exactly when no photo has that album id and name in an album the caller owns. Otherwise a stored photo that does. |
| `PhotoController.GetImageWithDetails` | memoryland-backend/WebApi/Controllers/PhotoController.cs:35-78 | Checks in order, each with its result: the lookup's exception; Unauthorized for an unresolved caller; NotFound for an empty photo table; BadRequest "The photo album doesn't exist." for a missing album; NotFound when no owned photo matches. Ok only for a stored photo of that album and name in an album the caller owns, with the link the resolver gives it. It is read-only. |
| `PhotoController.GetImageFindsOwnedPhoto` | memoryland-backend/WebApi/Controllers/PhotoController.cs:55-77 | With (Name, PhotoAlbumId) unique, requesting a photo the caller owns by its album and name returns exactly that photo once it has a link. |
| `PhotoController.OwnedPhotoIndex` | memoryland-backend/WebApi/Controllers/PhotoController.cs:103-105 | None exactly when no photo with the id is in an album the caller owns. Otherwise the position of the first such photo. |
| `PhotoController.HasPhotoRename` | memoryland-backend/WebApi/Controllers/PhotoController.cs:127 | Renaming a photo keeps every photo id resolvable, so configurations still reference stored photos. |
| `PhotoController.EditPhotoName` | memoryland-backend/WebApi/Controllers/PhotoController.cs:93-130 | Checks in order, each with its result: the lookup's exception; Unauthorized for an unresolved caller; BadRequest "Original photo doesn't exist" unless the caller owns a photo with OldId, checked before any name rule; BadRequest for a blank name, for a length outside 3..63, for a name the pattern rejects, and for a name any photo of the album has, the renamed photo included (so renaming a photo to its own name is refused). Every refusal changes nothing. Otherwise exactly that photo's Name changes (`photos[k := photos[k].(name := newName)]`), it returns Ok and `Valid()` holds. |

## Left out

- Azure Blob Storage SDK calls are foreign (`CreateIfNotExistsAsync`,
  `UploadAsync`, `SetHttpHeadersAsync`, `ExistsAsync`, `DeleteAsync`, `ToSasQueryParameters`).
  `BlobStorage.BlobServiceClient` stands in for them as an in-memory map of maps.
  Signing only records the credential; no HMAC is computed.
- RotateImage and ImageSharp are foreign: the JPEG decode, the pixel
  transforms and the re-encode. Upload takes the rotation pass as a function
  parameter. ApplyExifRotation is modelled on an image that records the
  transforms it receives (`Exif.PixelOp`) and its EXIF orientation tag.
- Reading appsettings.json and user secrets is I/O. The connection string is
  an input. `DateTimeOffset.UtcNow` is an input.
- async/await and the `Task.WhenAll` fan-out of DeletePhotos are concurrency.
  The deletions run as a sequential loop. `DeleteBlobsCompose` shows that their
  order does not change the result.
- EF Core query translation, change tracking and `SaveChangesAsync` are not
  modelled. Each method's effect is the saved state. Identity values are the
  `newId` parameter, and the caller must supply an unused one.
- The `[MaxLength(50)]` column limits are not modelled, so the database's
  rejection of a 51–1024 character album name at save time is missing. Lengths
  count Dafny characters, not UTF-16 code units.
- The ordinal name sort compares Dafny characters (Unicode scalar values),
  while `StringComparison.Ordinal` compares UTF-16 code units. The two orders
  differ only for names with characters above U+FFFF, which .NET sorts before
  U+E000–U+FFFF and the model sorts after them.
- `CurrentCultureIgnoreCase` is approximated by an ASCII case fold (`Strings.EqualsIgnoreCase`).
- `PhotoAlbumController.GetPhotoAlbumImagesWithDetails`: List.Sort runs in place
  on a list. Here it is modelled on values by a functional insertion sort,
  proved sorted and a permutation. Album photo names are unique, so
  `SortedByNameUnique` shows the outcome is the same.
- `PhotoController.GetImageWithDetails` states that a NotFound can also come
  from a photo that has no link, but does not state that case as an exact
  equation. `GetImageFindsOwnedPhoto` gives the converse for valid stores.
- PhotoAlbumController.GetPhotoAlbumImagesWithDetails, PhotoAlbumController.CreatePhotoAlbum,
  PhotoAlbumController.GetPhotoAlbumsData, PhotoController.GetImageWithDetails and
  PhotoController.EditPhotoName resolve the caller with the corrected Email lookup
  (`UserService.CheckIfUserAuthenticated`). The source's controllers call the
  Username lookup (`PhotoAlbumController.cs:38,96,138`, `PhotoController.cs:40,96`),
  so with the code as written a caller whose Username differs from the email is
  treated as unresolved; their rows describe the intended behaviour (see Findings).
- CreatePhotoAlbum (`PhotoAlbumController.cs:96`) and EditPhotoName
  (`PhotoController.cs:96`) call `CheckIfUserAuthenticated(User.Claims, true)`;
  the other three call sites pass one argument. Only the one-argument overload in `UserService.cs` exists, so that is the one
  modelled.
- MemorylandController and UploadController hold no logic. Program.cs
  (hosting, CORS, middleware), ApplicationDbContext and the migrations are
  configuration. Only the entity `[Index]` keys and foreign keys enter, as
  `Database.Valid()`.
- The DTO records are plain datatypes.

## Findings

| source | as written | input that shows it | evidently intended | confidence | as-written member | corrected member |
|---|---|---|---|---|---|---|
| memoryland-backend/WebApi/Service/UserService.cs:67-69 | The caller is looked up by `u.Username.Equals(email)`, but CreateUserIfNotExist stores the email in `Email` and the "name" claim in `Username`. | On a fresh store, a user provisioned from claims `email=ann@example.org`, `name=Ann` is stored as `User(newId, "ann@example.org", "Ann")`, and the same claims then resolve to no user. | Look the caller up by `Email`, the uniquely indexed column that provisioning fills from the same claim. | not executed | `UserService.CheckIfUserAuthenticatedAsWritten` | `UserService.CheckIfUserAuthenticated` |

The counterexample is `UserService.ProvisionedUserMissedAsWritten`.
`UserService.ResolvesStoredEmail` proves the intended property of the
corrected lookup. The controllers use the corrected lookup.
