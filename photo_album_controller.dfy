/**
  The album endpoints: creating an album for the caller, listing one album's
  photos with signed links, and listing the caller's albums.
*/
module PhotoAlbumController {
  import opened Wrappers
  import opened Strings
  import opened Entities
  import opened WebApi
  import opened UserService
  import Collections
  import Sas = SasTokenGeneratorService

  /** Characters an album name may not contain. */
  const ReservedCharacters := "!*'();:@&=+$,/?#[]"
  const MaxAlbumNameLength := 1024

  const AlbumNameRequired := "Album name is required"
  const AlbumNameTooLong := "An Album name can't be longer than 1024 characters"
  const AlbumNameInvalid := "Album name contains invalid characters"
  const AlbumNameTaken := "Album name already exists"

  // ---------------------------------------------------------------------
  // Lookups
  // ---------------------------------------------------------------------

  /** Some character of the name is one of the reserved characters. */
  predicate HasReservedCharacter(name: string) {
    exists i :: 0 <= i < |name| && name[i] in ReservedCharacters
  }

  /** Some stored album, of any user, has exactly this name. */
  predicate AlbumNameUsed(albums: seq<PhotoAlbum>, name: string) {
    exists j :: 0 <= j < |albums| && albums[j].name == name
  }

  /** The first album with the given id. */
  function FindAlbum(albums: seq<PhotoAlbum>, albumId: Long): (r: Option<PhotoAlbum>)
    ensures r.None? <==> !HasAlbum(albums, albumId)
    ensures r.Some? ==> r.value in albums && r.value.id == albumId
  {
    if |albums| == 0 then None
    else if albums[0].id == albumId then Some(albums[0])
    else
      var r := FindAlbum(albums[1..], albumId);
      assert forall j :: 1 <= j < |albums| ==> albums[1..][j - 1] == albums[j];
      assert HasAlbum(albums[1..], albumId) ==> HasAlbum(albums, albumId);
      r
  }

  /** The album's Photos navigation: the photos whose PhotoAlbumId is its id. */
  function AlbumPhotos(photos: seq<Photo>, albumId: Long): (r: seq<Photo>)
    ensures forall i :: 0 <= i < |r| ==> r[i] in photos && r[i].photoAlbumId == albumId
    ensures forall i :: 0 <= i < |photos| && photos[i].photoAlbumId == albumId ==> photos[i] in r
  {
    Collections.Filter(photos, (p: Photo) => p.photoAlbumId == albumId)
  }

  /** Each photo of the album occurs in the navigation as often as in the table. */
  lemma AlbumPhotosCount(photos: seq<Photo>, albumId: Long)
    ensures forall p :: multiset(AlbumPhotos(photos, albumId))[p] ==
                          if p.photoAlbumId == albumId then multiset(photos)[p] else 0
  {
    Collections.FilterMultiset(photos, (p: Photo) => p.photoAlbumId == albumId);
  }

  /** The album's User navigation: the user its UserId refers to. */
  function AlbumOwner(users: seq<User>, album: PhotoAlbum): (r: Option<User>)
    ensures r.None? <==> !HasUser(users, album.userId)
    ensures r.Some? ==> r.value in users && r.value.id == album.userId
  {
    var r := Collections.FirstOrNone(users, (u: User) => u.id == album.userId);
    assert r.Some? ==> exists i :: 0 <= i < |users| && users[i] == r.value && users[i].id == album.userId;
    r
  }

  // ---------------------------------------------------------------------
  // Sorting by name (List.Sort with an ordinal string comparison)
  // ---------------------------------------------------------------------

  predicate SortedByName(ds: seq<PhotoDto>) {
    forall i, j :: 0 <= i < j < |ds| ==> OrdinalLessOrEqual(ds[i].name, ds[j].name)
  }

  /** Inserts one entry before the first entry whose name does not sort before it. */
  function InsertByName(d: PhotoDto, ds: seq<PhotoDto>): (r: seq<PhotoDto>)
    ensures multiset(r) == multiset(ds) + multiset{d}
    ensures forall i :: 0 <= i < |r| ==> r[i] == d || r[i] in ds
  {
    if |ds| == 0 then [d]
    else if OrdinalLessOrEqual(d.name, ds[0].name) then
      [d] + ds
    else
      var rest := InsertByName(d, ds[1..]);
      assert ds == [ds[0]] + ds[1..];
      assert forall i :: 1 <= i < |ds| ==> ds[1..][i - 1] == ds[i];
      [ds[0]] + rest
  }

  /** Inserting into a name-sorted list keeps it sorted. */
  lemma {:induction false} InsertByNameSorted(d: PhotoDto, ds: seq<PhotoDto>)
    requires SortedByName(ds)
    ensures SortedByName(InsertByName(d, ds))
  {
    if |ds| == 0 {
    } else if OrdinalLessOrEqual(d.name, ds[0].name) {
      forall j | 0 < j < |ds| ensures OrdinalLessOrEqual(d.name, ds[j].name) {
        OrdinalTransitive(d.name, ds[0].name, ds[j].name);
      }
      assert ([d] + ds)[1..] == ds;
    } else {
      OrdinalTotal(d.name, ds[0].name);
      var rest := InsertByName(d, ds[1..]);
      InsertByNameSorted(d, ds[1..]);
      forall i | 0 <= i < |rest| ensures OrdinalLessOrEqual(ds[0].name, rest[i].name) {
        if rest[i] != d {
          var k :| 0 <= k < |ds[1..]| && ds[1..][k] == rest[i];
          assert ds[k + 1] == rest[i];
        }
      }
      assert ([ds[0]] + rest)[1..] == rest;
    }
  }

  /** The entries sorted ascending by name: a sorted permutation. */
  function SortByName(ds: seq<PhotoDto>): (r: seq<PhotoDto>)
    ensures SortedByName(r)
    ensures multiset(r) == multiset(ds)
  {
    if |ds| == 0 then []
    else
      assert ds == [ds[0]] + ds[1..];
      var sorted := SortByName(ds[1..]);
      InsertByNameSorted(ds[0], sorted);
      InsertByName(ds[0], sorted)
  }

  /**
    Two name-sorted lists holding the same entries start with the same entry
    when the names in the first are pairwise distinct.
  */
  lemma SortedByNameSameHead(a: seq<PhotoDto>, b: seq<PhotoDto>)
    requires |a| > 0 && SortedByName(a) && SortedByName(b) && multiset(a) == multiset(b)
    requires forall i, j :: 0 <= i < j < |a| ==> a[i].name != a[j].name
    ensures a[0] == b[0]
  {
    assert a[0] in multiset(b);
    var i :| 0 <= i < |b| && b[i] == a[0];
    assert b[0] in multiset(a);
    var j :| 0 <= j < |a| && a[j] == b[0];
    if a[0] != b[0] {
      assert i > 0 && j > 0;
      assert OrdinalLessOrEqual(b[0].name, a[0].name);
      assert OrdinalLessOrEqual(a[0].name, b[0].name);
      OrdinalAntisymmetric(a[0].name, b[0].name);
      assert false;
    }
  }

  /**
    Two name-sorted lists holding the same entries with pairwise distinct
    names are equal: with names unique in an album the output order is
    fully determined, although List.Sort is not stable.
  */
  lemma {:induction false} SortedByNameUnique(a: seq<PhotoDto>, b: seq<PhotoDto>)
    requires SortedByName(a) && SortedByName(b) && multiset(a) == multiset(b)
    requires forall i, j :: 0 <= i < j < |a| ==> a[i].name != a[j].name
    ensures a == b
  {
    if |a| == 0 {
      assert |b| == |multiset(b)|;
    } else {
      SortedByNameSameHead(a, b);
      SameTail(a, b);
      SortedTail(a);
      SortedTail(b);
      assert forall i, j :: 0 <= i < j < |a[1..]| ==> a[1..][i].name != a[1..][j].name by {
        assert forall i :: 1 <= i < |a| ==> a[1..][i - 1] == a[i];
      }
      SortedByNameUnique(a[1..], b[1..]);
      assert a == [a[0]] + a[1..] && b == [b[0]] + b[1..];
    }
  }

  /** Equal multisets with equal first elements have equal multisets of the rest. */
  lemma SameTail<T>(a: seq<T>, b: seq<T>)
    requires |a| > 0 && |b| > 0 && a[0] == b[0] && multiset(a) == multiset(b)
    ensures multiset(a[1..]) == multiset(b[1..])
  {
    assert a == [a[0]] + a[1..] && b == [b[0]] + b[1..];
    assert multiset(a) == multiset{a[0]} + multiset(a[1..]);
    assert multiset(b) == multiset{b[0]} + multiset(b[1..]);
    forall x ensures multiset(a[1..])[x] == multiset(b[1..])[x] {
      assert multiset(a)[x] == multiset{a[0]}[x] + multiset(a[1..])[x];
      assert multiset(b)[x] == multiset{b[0]}[x] + multiset(b[1..])[x];
    }
  }

  lemma SortedTail(a: seq<PhotoDto>)
    requires |a| > 0 && SortedByName(a)
    ensures SortedByName(a[1..])
  {
    assert forall i :: 1 <= i < |a| ==> a[1..][i - 1] == a[i];
  }

  // ---------------------------------------------------------------------
  // GetPhotoAlbumImagesWithDetails
  // ---------------------------------------------------------------------

  /** One listing entry: the photo with the link `resolveUrl` gives for it, if any. */
  function Entry(photo: Photo, userId: Long, albumName: string,
                 resolveUrl: (Long, string, string) -> Option<Sas.SasUri>): Option<PhotoDto>
  {
    match resolveUrl(userId, albumName, photo.name)
    case None => None
    case Some(uri) => Some(PhotoDto(photo.name, photo.photoAlbumId, uri))
  }

  /** The entries of all the photos, or None as soon as one has no link. */
  function Entries(photos: seq<Photo>, userId: Long, albumName: string,
                   resolveUrl: (Long, string, string) -> Option<Sas.SasUri>): (r: Option<seq<PhotoDto>>)
    ensures r.None? <==> exists i :: 0 <= i < |photos| && Entry(photos[i], userId, albumName, resolveUrl).None?
    ensures r.Some? ==> |r.value| == |photos|
    ensures r.Some? ==> forall i :: 0 <= i < |photos| ==> Entry(photos[i], userId, albumName, resolveUrl) == Some(r.value[i])
  {
    if |photos| == 0 then Some([])
    else
      assert forall i :: 1 <= i < |photos| ==> photos[1..][i - 1] == photos[i];
      match Entry(photos[0], userId, albumName, resolveUrl)
      case None => None
      case Some(d) =>
        match Entries(photos[1..], userId, albumName, resolveUrl)
        case None => None
        case Some(ds) => Some([d] + ds)
  }

  /**
    The loop over the album's photos: asks for each photo's link in turn and
    stops at the first photo without one.
  */
  method ResolveEntries(albumPhotos: seq<Photo>, userId: Long, albumName: string,
                        resolveUrl: (Long, string, string) -> Option<Sas.SasUri>)
    returns (entries: Option<seq<PhotoDto>>)
    ensures entries.None? <==> exists i :: 0 <= i < |albumPhotos| && Entry(albumPhotos[i], userId, albumName, resolveUrl).None?
    ensures entries.Some? ==> |entries.value| == |albumPhotos|
    ensures entries.Some? ==>
      forall i :: 0 <= i < |albumPhotos| ==> Entry(albumPhotos[i], userId, albumName, resolveUrl) == Some(entries.value[i])
  {
    var photos: seq<PhotoDto> := [];
    for i := 0 to |albumPhotos|
      invariant |photos| == i
      invariant forall k :: 0 <= k < i ==> Entry(albumPhotos[k], userId, albumName, resolveUrl) == Some(photos[k])
    {
      var photo := albumPhotos[i];
      var uri := resolveUrl(userId, albumName, photo.name);
      if uri.None? {
        assert Entry(albumPhotos[i], userId, albumName, resolveUrl).None?;
        return None;
      }
      photos := photos + [PhotoDto(photo.name, photo.photoAlbumId, uri.value)];
    }
    return Some(photos);
  }

  /**
    Lists an album's photos with signed links, sorted by name. The caller
    must resolve (else Unauthorized, or the lookup's exception); there must be
    photos at all, the album must exist and have photos (else NotFound); its
    owner's email must equal the caller's ignoring case (else Unauthorized);
    and every photo must get a link (else NotFound).
  */
  method GetPhotoAlbumImagesWithDetails(db: Database, claims: seq<Claim>, albumId: Long,
                                        resolveUrl: (Long, string, string) -> Option<Sas.SasUri>)
    returns (r: Response<seq<PhotoDto>>)
    requires db.Valid()
    ensures var auth := CheckIfUserAuthenticated(db, claims);
            && (auth.Failure? ==> r == Thrown(auth.error))
            && (auth == Success(None) ==> r == Unauthorized)
    ensures var auth := CheckIfUserAuthenticated(db, claims);
            auth.Success? && auth.value.Some? && (|db.photos| == 0 || !HasAlbum(db.photoAlbums, albumId)) ==>
              r == NotFound
    ensures var auth := CheckIfUserAuthenticated(db, claims);
            var album := FindAlbum(db.photoAlbums, albumId);
            auth.Success? && auth.value.Some? && |db.photos| > 0 && album.Some? ==>
              var photos := AlbumPhotos(db.photos, albumId);
              var owner := AlbumOwner(db.users, album.value);
              if |photos| == 0 then r == NotFound
              else if !(owner.Some? && EqualsIgnoreCase(owner.value.email, auth.value.value.email)) then r == Unauthorized
              else
                match Entries(photos, auth.value.value.id, album.value.name, resolveUrl)
                case None => r == NotFound
                case Some(entries) => r.Ok? && SortedByName(r.value) && multiset(r.value) == multiset(entries)
  {
    var auth := CheckIfUserAuthenticated(db, claims);
    if auth.Failure? {
      return Thrown(auth.error);
    }
    if auth.value.None? {
      return Unauthorized;
    }
    var user := auth.value.value;
    if |db.photos| == 0 {
      return NotFound;
    }
    if !exists j :: 0 <= j < |db.photoAlbums| && db.photoAlbums[j].id == albumId {
      return NotFound;
    }
    var album := FindAlbum(db.photoAlbums, albumId).value;
    var albumPhotos := AlbumPhotos(db.photos, albumId);
    if |albumPhotos| == 0 {
      return NotFound;
    }
    var owner := AlbumOwner(db.users, album);
    assert owner.Some? by {
      var j :| 0 <= j < |db.photoAlbums| && db.photoAlbums[j] == album;
    }
    if !EqualsIgnoreCase(owner.value.email, user.email) {
      return Unauthorized;
    }
    var entries := ResolveEntries(albumPhotos, user.id, album.name, resolveUrl);
    if entries.None? {
      return NotFound;
    }
    var photos := entries.value;
    assert Entries(albumPhotos, user.id, album.name, resolveUrl).Some?;
    assert Entries(albumPhotos, user.id, album.name, resolveUrl).value == photos;
    photos := SortByName(photos);
    return Ok(photos);
  }

  // ---------------------------------------------------------------------
  // CreatePhotoAlbum
  // ---------------------------------------------------------------------

  /**
    Creates an album for the caller. An unresolved caller raises before any
    name check; then, in order, a blank name, a name longer than 1024
    characters, one with a reserved character, and one some album of any
    user already has are refused. Otherwise exactly one album with the name
    and the caller as owner is added. `newId` is the identity the database
    generates for the new row.
  */
  method CreatePhotoAlbum(db: Database, claims: seq<Claim>, albumName: string, newId: Long)
    returns (r: Response<()>)
    requires db.Valid()
    requires !HasAlbum(db.photoAlbums, newId)
    modifies db
    ensures db.Valid()
    ensures db.users == old(db.users) && db.photos == old(db.photos)
    ensures db.memorylands == old(db.memorylands) && db.memorylandTokens == old(db.memorylandTokens)
    ensures db.memorylandConfigurations == old(db.memorylandConfigurations) && db.transactions == old(db.transactions)
    ensures r != Created ==> db.photoAlbums == old(db.photoAlbums)
    ensures var auth := old(CheckIfUserAuthenticated(db, claims));
            && (auth.Failure? ==> r == Thrown(auth.error))
            && (auth == Success(None) ==> r == Thrown(UnauthorizedAccessException))
    ensures var auth := old(CheckIfUserAuthenticated(db, claims));
            auth.Success? && auth.value.Some? ==>
              if IsBlank(albumName) then r == BadRequest(AlbumNameRequired)
              else if |albumName| > MaxAlbumNameLength then r == BadRequest(AlbumNameTooLong)
              else if HasReservedCharacter(albumName) then r == BadRequest(AlbumNameInvalid)
              else if AlbumNameUsed(old(db.photoAlbums), albumName) then r == BadRequest(AlbumNameTaken)
              else r == Created && db.photoAlbums == old(db.photoAlbums) + [PhotoAlbum(newId, albumName, auth.value.value.id)]
  {
    var auth := CheckIfUserAuthenticated(db, claims);
    if auth.Failure? {
      return Thrown(auth.error);
    }
    if auth.value.None? {
      return Thrown(UnauthorizedAccessException);
    }
    var user := auth.value.value;
    if IsBlank(albumName) {
      return BadRequest(AlbumNameRequired);
    }
    if |albumName| > MaxAlbumNameLength {
      return BadRequest(AlbumNameTooLong);
    }
    if exists i :: 0 <= i < |albumName| && albumName[i] in ReservedCharacters {
      return BadRequest(AlbumNameInvalid);
    }
    if exists j :: 0 <= j < |db.photoAlbums| && db.photoAlbums[j].name == albumName {
      return BadRequest(AlbumNameTaken);
    }
    var album := PhotoAlbum(newId, albumName, user.id);
    ghost var albums := db.photoAlbums;
    db.photoAlbums := db.photoAlbums + [album];
    assert db.photoAlbums[|albums|] == album;
    assert forall i :: 0 <= i < |albums| ==> db.photoAlbums[i] == albums[i];
    assert HasUser(db.users, user.id) by {
      var j :| 0 <= j < |db.users| && db.users[j] == user;
    }
    forall i | 0 <= i < |db.photos|
      ensures HasAlbum(db.photoAlbums, db.photos[i].photoAlbumId)
    {
      HasAlbumAppend(albums, album, db.photos[i].photoAlbumId);
    }
    forall i | 0 <= i < |db.transactions|
      ensures HasAlbum(db.photoAlbums, db.transactions[i].photoAlbumId)
    {
      HasAlbumAppend(albums, album, db.transactions[i].photoAlbumId);
    }
    r := Created;
  }

  /**
    Repeating a successful creation is refused: the second request with the
    same claims and name gets "Album name already exists" and the table keeps
    the one album the first request added.
  */
  method RepeatedCreationRefused(db: Database, claims: seq<Claim>, albumName: string, firstId: Long, secondId: Long)
    returns (first: Response<()>, second: Response<()>)
    requires db.Valid()
    requires !HasAlbum(db.photoAlbums, firstId) && !HasAlbum(db.photoAlbums, secondId) && firstId != secondId
    modifies db
    ensures db.Valid()
    ensures db.users == old(db.users) && db.photos == old(db.photos)
    ensures db.memorylands == old(db.memorylands) && db.memorylandTokens == old(db.memorylandTokens)
    ensures db.memorylandConfigurations == old(db.memorylandConfigurations) && db.transactions == old(db.transactions)
    ensures first == Created ==>
      && old(CheckIfUserAuthenticated(db, claims)).Success? && old(CheckIfUserAuthenticated(db, claims)).value.Some?
      && second == BadRequest(AlbumNameTaken)
      && db.photoAlbums == old(db.photoAlbums) + [PhotoAlbum(firstId, albumName, old(CheckIfUserAuthenticated(db, claims)).value.value.id)]
  {
    ghost var albums := db.photoAlbums;
    first := CreatePhotoAlbum(db, claims, albumName, firstId);
    if first == Created {
      assert db.photoAlbums[|albums|].name == albumName;
      assert !HasAlbum(db.photoAlbums, secondId) by {
        assert forall j :: 0 <= j < |albums| ==> db.photoAlbums[j] == albums[j];
      }
    }
    second := CreatePhotoAlbum(db, claims, albumName, secondId);
  }

  // ---------------------------------------------------------------------
  // GetPhotoAlbumsData
  // ---------------------------------------------------------------------

  /** The names of the album's photos. */
  function PhotoNames(photos: seq<Photo>, albumId: Long): (names: seq<string>)
    ensures var own := AlbumPhotos(photos, albumId);
            |names| == |own| && forall i :: 0 <= i < |own| ==> names[i] == own[i].name
  {
    var own := AlbumPhotos(photos, albumId);
    seq(|own|, i requires 0 <= i < |own| => own[i].name)
  }

  /** The listing entry of one album. */
  function AlbumDto(album: PhotoAlbum, photos: seq<Photo>): PhotoAlbumDto {
    PhotoAlbumDto(album.id, album.name, PhotoNames(photos, album.id))
  }

  /** The albums whose UserId is the user's id, in table order. */
  function OwnedAlbums(albums: seq<PhotoAlbum>, userId: Long): (r: seq<PhotoAlbum>)
    ensures forall i :: 0 <= i < |r| ==> r[i] in albums && r[i].userId == userId
    ensures forall j :: 0 <= j < |albums| && albums[j].userId == userId ==> albums[j] in r
  {
    Collections.Filter(albums, (a: PhotoAlbum) => a.userId == userId)
  }

  /** Each owned album occurs as often as in the table, every other album not at all. */
  lemma OwnedAlbumsCount(albums: seq<PhotoAlbum>, userId: Long)
    ensures forall a :: multiset(OwnedAlbums(albums, userId))[a] ==
                          if a.userId == userId then multiset(albums)[a] else 0
  {
    Collections.FilterMultiset(albums, (a: PhotoAlbum) => a.userId == userId);
  }

  /** The entries of the albums the user owns: one per owned album, in table order. */
  function OwnedAlbumDtos(albums: seq<PhotoAlbum>, photos: seq<Photo>, userId: Long): (r: seq<PhotoAlbumDto>)
    ensures |r| == |OwnedAlbums(albums, userId)|
    ensures forall i :: 0 <= i < |r| ==> r[i] == AlbumDto(OwnedAlbums(albums, userId)[i], photos)
    ensures forall i :: 0 <= i < |r| ==>
      exists j :: 0 <= j < |albums| && albums[j].userId == userId && r[i] == AlbumDto(albums[j], photos)
    ensures forall j :: 0 <= j < |albums| && albums[j].userId == userId ==> AlbumDto(albums[j], photos) in r
  {
    var owned := OwnedAlbums(albums, userId);
    var r := seq(|owned|, i requires 0 <= i < |owned| => AlbumDto(owned[i], photos));
    assert forall i :: 0 <= i < |r| ==>
      exists j :: 0 <= j < |albums| && albums[j].userId == userId && r[i] == AlbumDto(albums[j], photos) by {
      forall i | 0 <= i < |r|
        ensures exists j :: 0 <= j < |albums| && albums[j].userId == userId && r[i] == AlbumDto(albums[j], photos)
      {
        assert owned[i] in albums;
        var j :| 0 <= j < |albums| && albums[j] == owned[i];
      }
    }
    assert forall j :: 0 <= j < |albums| && albums[j].userId == userId ==> AlbumDto(albums[j], photos) in r by {
      forall j | 0 <= j < |albums| && albums[j].userId == userId
        ensures AlbumDto(albums[j], photos) in r
      {
        assert albums[j] in owned;
        var k :| 0 <= k < |owned| && owned[k] == albums[j];
        assert r[k] == AlbumDto(albums[j], photos);
      }
    }
    r
  }

  /**
    With album ids unique, no album is listed twice: together with the
    membership both ways, the entries are a permutation of the DTOs of the
    owned albums.
  */
  lemma OwnedAlbumDtosDistinct(albums: seq<PhotoAlbum>, users: seq<User>, photos: seq<Photo>, userId: Long)
    requires AlbumsValid(albums, users)
    ensures Collections.Distinct(OwnedAlbumDtos(albums, photos, userId))
  {
    var owned := OwnedAlbums(albums, userId);
    var r := OwnedAlbumDtos(albums, photos, userId);
    assert Collections.Distinct(albums);
    Collections.FilterDistinct(albums, (a: PhotoAlbum) => a.userId == userId);
    assert Collections.Distinct(owned);
  }

  /**
    Lists the caller's albums with their photo names: the lookup's exception
    when there is no email claim, an empty list for an unknown caller, and
    otherwise one entry per album whose UserId is the caller's id.
  */
  function GetPhotoAlbumsData(db: Database, claims: seq<Claim>): (r: Response<seq<PhotoAlbumDto>>)
    reads db
    ensures var auth := CheckIfUserAuthenticated(db, claims);
            && (auth.Failure? <==> r.Thrown?)
            && (auth.Failure? ==> r.exception == auth.error)
            && (auth == Success(None) ==> r == Ok([]))
    ensures var auth := CheckIfUserAuthenticated(db, claims);
            auth.Success? && auth.value.Some? ==>
              && r.Ok?
              && (forall i :: 0 <= i < |r.value| ==>
                    exists j :: 0 <= j < |db.photoAlbums| && db.photoAlbums[j].userId == auth.value.value.id
                                && r.value[i] == AlbumDto(db.photoAlbums[j], db.photos))
              && (forall j :: 0 <= j < |db.photoAlbums| && db.photoAlbums[j].userId == auth.value.value.id ==>
                    AlbumDto(db.photoAlbums[j], db.photos) in r.value)
              && |r.value| == |OwnedAlbums(db.photoAlbums, auth.value.value.id)|
  {
    match CheckIfUserAuthenticated(db, claims)
    case Failure(e) => Thrown(e)
    case Success(None) => Ok([])
    case Success(Some(user)) =>
      var dtos := OwnedAlbumDtos(db.photoAlbums, db.photos, user.id);
      assert user == CheckIfUserAuthenticated(db, claims).value.value;
      Ok(dtos)
  }

  /** In a valid store the listing names each of the caller's albums once. */
  lemma AlbumsListedOnce(db: Database, claims: seq<Claim>)
    requires db.Valid()
    ensures GetPhotoAlbumsData(db, claims).Ok? ==> Collections.Distinct(GetPhotoAlbumsData(db, claims).value)
  {
    var auth := CheckIfUserAuthenticated(db, claims);
    if auth.Success? && auth.value.Some? {
      OwnedAlbumDtosDistinct(db.photoAlbums, db.users, db.photos, auth.value.value.id);
    }
  }
}
