/**
  The photo endpoints: fetching one photo of an album with a signed link,
  and renaming a photo in place.
*/
module PhotoController {
  import opened Wrappers
  import opened Strings
  import opened Entities
  import opened WebApi
  import opened UserService
  import Sas = SasTokenGeneratorService

  const AlbumMissing := "The photo album doesn't exist."
  const OriginalMissing := "Original photo doesn't exist"
  const FileNameRequired := "FileName name is required"
  const FileNameLength := "A FileName name can't be longer than 63 characters or shorter than 3"
  const FileNameInvalid := "FileName name contains invalid characters"
  const FileNameTaken := "FileName name already exists"
  const MinFileNameLength := 3
  const MaxFileNameLength := 63

  /** The photo's album (its PhotoAlbum navigation) belongs to the user. */
  predicate OwnedBy(albums: seq<PhotoAlbum>, photo: Photo, userId: Long) {
    exists j :: 0 <= j < |albums| && albums[j].id == photo.photoAlbumId && albums[j].userId == userId
  }

  /** The photo GetImageWithDetails looks for: in the album, with the name, owned by the user. */
  predicate IsRequestedPhoto(albums: seq<PhotoAlbum>, photo: Photo, albumId: Long, photoName: string, userId: Long) {
    photo.photoAlbumId == albumId && photo.name == photoName && OwnedBy(albums, photo, userId)
  }

  /** The first photo that is the requested one. */
  function FindRequestedPhoto(photos: seq<Photo>, albums: seq<PhotoAlbum>, albumId: Long, photoName: string, userId: Long)
    : (r: Option<Photo>)
    ensures r.None? <==> forall j :: 0 <= j < |photos| ==> !IsRequestedPhoto(albums, photos[j], albumId, photoName, userId)
    ensures r.Some? ==> r.value in photos && IsRequestedPhoto(albums, r.value, albumId, photoName, userId)
  {
    if |photos| == 0 then None
    else if IsRequestedPhoto(albums, photos[0], albumId, photoName, userId) then Some(photos[0])
    else
      var r := FindRequestedPhoto(photos[1..], albums, albumId, photoName, userId);
      assert forall j :: 1 <= j < |photos| ==> photos[1..][j - 1] == photos[j];
      r
  }

  /**
    Fetches one photo with a signed link. The caller must resolve (else
    Unauthorized, or the lookup's exception); there must be photos at all
    (else NotFound) and the album must exist (else BadRequest); a photo of
    that album with that name in an album the caller owns must exist, and
    must get a link (else NotFound).
  */
  function GetImageWithDetails(db: Database, claims: seq<Claim>, albumId: Long, photoName: string,
                               resolveUrl: (Long, Long) -> Option<Sas.SasUri>): (r: Response<PhotoDto>)
    reads db
    ensures var auth := CheckIfUserAuthenticated(db, claims);
            && (auth.Failure? ==> r == Thrown(auth.error))
            && (auth == Success(None) ==> r == Unauthorized)
    ensures var auth := CheckIfUserAuthenticated(db, claims);
            auth.Success? && auth.value.Some? ==>
              if |db.photos| == 0 then r == NotFound
              else if !HasAlbum(db.photoAlbums, albumId) then r == BadRequest(AlbumMissing)
              else if forall j :: 0 <= j < |db.photos| ==>
                        !IsRequestedPhoto(db.photoAlbums, db.photos[j], albumId, photoName, auth.value.value.id)
              then r == NotFound
              else r.NotFound? || r.Ok?
    ensures r.Ok? ==>
      && CheckIfUserAuthenticated(db, claims).Success? && CheckIfUserAuthenticated(db, claims).value.Some?
      && var user := CheckIfUserAuthenticated(db, claims).value.value;
         exists photo :: photo in db.photos && IsRequestedPhoto(db.photoAlbums, photo, albumId, photoName, user.id)
                         && resolveUrl(user.id, photo.id) == Some(r.value.uri)
                         && r.value == PhotoDto(photo.name, photo.photoAlbumId, r.value.uri)
  {
    match CheckIfUserAuthenticated(db, claims)
    case Failure(e) => Thrown(e)
    case Success(None) => Unauthorized
    case Success(Some(user)) =>
      if |db.photos| == 0 then NotFound
      else if !exists j :: 0 <= j < |db.photoAlbums| && db.photoAlbums[j].id == albumId then BadRequest(AlbumMissing)
      else
        match FindRequestedPhoto(db.photos, db.photoAlbums, albumId, photoName, user.id)
        case None => NotFound
        case Some(photo) =>
          match resolveUrl(user.id, photo.id)
          case None => NotFound
          case Some(uri) => Ok(PhotoDto(photo.name, photo.photoAlbumId, uri))
  }

  /**
    With the unique index on (Name, PhotoAlbumId), a stored photo of an album
    the caller owns is what the request for its album and name returns,
    once it has a link.
  */
  lemma GetImageFindsOwnedPhoto(db: Database, claims: seq<Claim>, k: nat,
                                resolveUrl: (Long, Long) -> Option<Sas.SasUri>)
    requires db.Valid()
    requires CheckIfUserAuthenticated(db, claims).Success? && CheckIfUserAuthenticated(db, claims).value.Some?
    requires k < |db.photos|
    requires OwnedBy(db.photoAlbums, db.photos[k], CheckIfUserAuthenticated(db, claims).value.value.id)
    requires resolveUrl(CheckIfUserAuthenticated(db, claims).value.value.id, db.photos[k].id).Some?
    ensures var photo := db.photos[k];
            GetImageWithDetails(db, claims, photo.photoAlbumId, photo.name, resolveUrl)
              == Ok(PhotoDto(photo.name, photo.photoAlbumId,
                             resolveUrl(CheckIfUserAuthenticated(db, claims).value.value.id, photo.id).value))
  {
    var photo := db.photos[k];
    var user := CheckIfUserAuthenticated(db, claims).value.value;
    assert IsRequestedPhoto(db.photoAlbums, photo, photo.photoAlbumId, photo.name, user.id);
    assert HasAlbum(db.photoAlbums, photo.photoAlbumId);
    var found := FindRequestedPhoto(db.photos, db.photoAlbums, photo.photoAlbumId, photo.name, user.id);
    var i :| 0 <= i < |db.photos| && db.photos[i] == found.value;
    assert i == k;
  }

  // ---------------------------------------------------------------------
  // EditPhotoName
  // ---------------------------------------------------------------------

  /** The position of the first photo with the id whose album the user owns. */
  function OwnedPhotoIndex(photos: seq<Photo>, albums: seq<PhotoAlbum>, photoId: Long, userId: Long): (r: Option<nat>)
    ensures r.None? <==> forall j :: 0 <= j < |photos| ==> !(photos[j].id == photoId && OwnedBy(albums, photos[j], userId))
    ensures r.Some? ==> r.value < |photos| && photos[r.value].id == photoId && OwnedBy(albums, photos[r.value], userId)
    ensures r.Some? ==> forall j :: 0 <= j < r.value ==> !(photos[j].id == photoId && OwnedBy(albums, photos[j], userId))
  {
    if |photos| == 0 then None
    else if photos[0].id == photoId && OwnedBy(albums, photos[0], userId) then Some(0)
    else
      match OwnedPhotoIndex(photos[1..], albums, photoId, userId)
      case None =>
        assert forall j :: 1 <= j < |photos| ==> photos[1..][j - 1] == photos[j];
        None
      case Some(k) => Some(k + 1)
  }

  /** Some photo of the album already has the name. */
  predicate NameUsedInAlbum(photos: seq<Photo>, albumId: Long, name: string) {
    exists j :: 0 <= j < |photos| && photos[j].name == name && photos[j].photoAlbumId == albumId
  }

  /** Renaming keeps every photo id resolvable. */
  lemma HasPhotoRename(photos: seq<Photo>, k: nat, name: string, id: Long)
    requires k < |photos| && HasPhoto(photos, id)
    ensures HasPhoto(photos[k := photos[k].(name := name)], id)
  {
    var j :| 0 <= j < |photos| && photos[j].id == id;
    assert photos[k := photos[k].(name := name)][j].id == id;
  }

  /**
    Renames one of the caller's photos. The caller must resolve (else
    Unauthorized, or the lookup's exception) and own a photo with the old id
    (else BadRequest) before any name rule applies; then, in order, a blank
    name, a length outside 3..63, a name the container-name pattern rejects,
    and a name any photo of the album has (the renamed one included) are
    refused. Otherwise only that photo's Name changes.
  */
  method EditPhotoName(db: Database, claims: seq<Claim>, editNameDto: EditNameDto, containerNameRegex: string -> bool)
    returns (r: Response<()>)
    requires db.Valid()
    modifies db
    ensures db.Valid()
    ensures db.users == old(db.users) && db.photoAlbums == old(db.photoAlbums)
    ensures db.memorylands == old(db.memorylands) && db.memorylandTokens == old(db.memorylandTokens)
    ensures db.memorylandConfigurations == old(db.memorylandConfigurations) && db.transactions == old(db.transactions)
    ensures r != Ok(()) ==> db.photos == old(db.photos)
    ensures var auth := old(CheckIfUserAuthenticated(db, claims));
            && (auth.Failure? ==> r == Thrown(auth.error))
            && (auth == Success(None) ==> r == Unauthorized)
    ensures var auth := old(CheckIfUserAuthenticated(db, claims));
            var newName := editNameDto.newName;
            auth.Success? && auth.value.Some? ==>
              match OwnedPhotoIndex(old(db.photos), old(db.photoAlbums), editNameDto.oldId, auth.value.value.id)
              case None => r == BadRequest(OriginalMissing)
              case Some(k) =>
                if IsBlank(newName) then r == BadRequest(FileNameRequired)
                else if |newName| < MinFileNameLength || |newName| > MaxFileNameLength then r == BadRequest(FileNameLength)
                else if !containerNameRegex(newName) then r == BadRequest(FileNameInvalid)
                else if NameUsedInAlbum(old(db.photos), old(db.photos)[k].photoAlbumId, newName) then r == BadRequest(FileNameTaken)
                else r == Ok(()) && db.photos == old(db.photos)[k := old(db.photos)[k].(name := newName)]
  {
    var auth := CheckIfUserAuthenticated(db, claims);
    if auth.Failure? {
      return Thrown(auth.error);
    }
    if auth.value.None? {
      return Unauthorized;
    }
    var user := auth.value.value;
    var oldPhoto := OwnedPhotoIndex(db.photos, db.photoAlbums, editNameDto.oldId, user.id);
    if oldPhoto.None? {
      return BadRequest(OriginalMissing);
    }
    var k := oldPhoto.value;
    var newName := editNameDto.newName;
    if IsBlank(newName) {
      return BadRequest(FileNameRequired);
    }
    if |newName| < MinFileNameLength || |newName| > MaxFileNameLength {
      return BadRequest(FileNameLength);
    }
    if !containerNameRegex(newName) {
      return BadRequest(FileNameInvalid);
    }
    if exists j :: 0 <= j < |db.photos| && db.photos[j].name == newName && db.photos[j].photoAlbumId == db.photos[k].photoAlbumId {
      return BadRequest(FileNameTaken);
    }
    ghost var photos := db.photos;
    db.photos := db.photos[k := db.photos[k].(name := newName)];
    forall i | 0 <= i < |db.memorylandConfigurations|
      ensures HasPhoto(db.photos, db.memorylandConfigurations[i].photoId)
    {
      HasPhotoRename(photos, k, newName, db.memorylandConfigurations[i].photoId);
    }
    r := Ok(());
  }
}
