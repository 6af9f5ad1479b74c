/**
  BlobStoragePhotoService: photo bytes live in a private blob space with one
  container per user. The container of user u is PadLong(u); the blob of
  photo p is PadLong(p.Id) followed by ".jpg" or ".png". Reads are brokered
  through blob-scoped SAS links.
*/
module BlobStorage {
  import opened Wrappers
  import opened Strings
  import opened Collections
  import Entities
  import Sas = SasTokenGeneratorService

  type Byte = b: int | 0 <= b < 256

  /** A stored blob: its bytes and the HTTP headers served with it. */
  datatype Blob = Blob(content: seq<Byte>, contentType: string, contentDisposition: string)

  type Container = map<string, Blob>

  /** The storage account's containers, by name. */
  type BlobSpace = map<string, Container>

  /** The NullReferenceException the constructor throws without a usable account key. */
  datatype ConfigurationError = MissingAccessKey

  const AccountKeyName: string := "AccountKey"
  const AccountKeyPrefix: string := "AccountKey="

  /** The content type UploadAsync gives a blob before its headers are set. */
  const DefaultContentType: string := "application/octet-stream"

  // ---------------------------------------------------------------------
  // Storage keys
  // ---------------------------------------------------------------------

  /** A long as a 20-character key: its decimal form left-padded with '0'. */
  function PadLong(number: Long): (key: string)
    ensures |key| == 20
    ensures TrimLeadingZeros(key) == LongToString(number)
  {
    var s := LongToString(number);
    TrimZerosPrefix(20 - |s|, s);
    assert |s| == 20 ==> Repeat('0', 0) + s == s;
    PadLeft(s, 20, '0')
  }

  /** Stripping the padding and parsing gives the number back. */
  lemma PadLongRoundTrip(number: Long)
    ensures ParseLong(TrimLeadingZeros(PadLong(number))) == number
  {
    LongToStringRoundTrip(number);
  }

  /** Different numbers have different keys. */
  lemma PadLongInjective(m: Long, n: Long)
    requires PadLong(m) == PadLong(n)
    ensures m == n
  {
    LongToStringInjective(m, n);
  }

  /** The file name test of UploadPhoto and GetExtension (ordinal, case-sensitive). */
  predicate IsJpegName(photoName: string) {
    Contains(photoName, ".jpg") || Contains(photoName, ".jpeg")
  }

  /** The blob name suffix: ".jpg" for a JPEG name, ".png" for every other name. */
  function GetExtension(photoName: string): (ext: string)
    ensures ext == ".jpg" <==> IsJpegName(photoName)
    ensures ext == ".png" <==> !IsJpegName(photoName)
  {
    if Contains(photoName, ".jpg") || Contains(photoName, ".jpeg") then ".jpg" else ".png"
  }

  /** A name ending in ".jpg" or ".jpeg" is a JPEG name; an upper-case ".JPG" alone is not. */
  lemma {:induction false} ExtensionOfSuffix(stem: string)
    ensures GetExtension(stem + ".jpg") == ".jpg"
    ensures GetExtension(stem + ".jpeg") == ".jpg"
    ensures GetExtension("IMG.JPG") == ".png"
  {
    assert OccursAt(stem + ".jpg", ".jpg", |stem|);
    assert OccursAt(stem + ".jpeg", ".jpeg", |stem|);
    MissingCharNotContained("IMG.JPG", ".jpg", 1);
    MissingCharNotContained("IMG.JPG", ".jpeg", 1);
  }

  /** The blob name of a photo. */
  function BlobName(photoId: Long, photoName: string): string {
    PadLong(photoId) + GetExtension(photoName)
  }

  /** Two photos share a blob name only if they have the same id and the same kind of name. */
  lemma BlobNameInjective(m: Long, x: string, n: Long, y: string)
    requires BlobName(m, x) == BlobName(n, y)
    ensures m == n && GetExtension(x) == GetExtension(y)
  {
    assert PadLong(m) == BlobName(m, x)[..20] == BlobName(n, y)[..20] == PadLong(n);
    PadLongInjective(m, n);
    assert GetExtension(x) == BlobName(m, x)[20..] == BlobName(n, y)[20..] == GetExtension(y);
  }

  /** The Content-Type set after an upload. */
  function ContentType(photoName: string): (t: string)
    ensures t == "image/jpeg" <==> IsJpegName(photoName)
    ensures t == "image/png" <==> !IsJpegName(photoName)
  {
    if IsJpegName(photoName) then "image/jpeg" else "image/png"
  }

  /** The names of the blobs of the given photos. */
  function BlobNames(photos: seq<Entities.Photo>): set<string> {
    if |photos| == 0 then {}
    else BlobNames(photos[..|photos| - 1]) + {BlobName(photos[|photos| - 1].id, photos[|photos| - 1].name)}
  }

  /** The blob name of every one of the photos is among their blob names. */
  lemma {:induction false} BlobNamesContains(photos: seq<Entities.Photo>, k: nat)
    requires k < |photos|
    ensures BlobName(photos[k].id, photos[k].name) in BlobNames(photos)
  {
    if k < |photos| - 1 {
      var init := photos[..|photos| - 1];
      assert init[k] == photos[k];
      BlobNamesContains(init, k);
    }
  }

  /** Every blob name of the photos is the blob name of one of them. */
  lemma {:induction false} BlobNamesOnly(photos: seq<Entities.Photo>, n: string) returns (k: nat)
    requires n in BlobNames(photos)
    ensures k < |photos| && n == BlobName(photos[k].id, photos[k].name)
  {
    var last := photos[|photos| - 1];
    if n == BlobName(last.id, last.name) {
      k := |photos| - 1;
    } else {
      var init := photos[..|photos| - 1];
      k := BlobNamesOnly(init, n);
      assert init[k] == photos[k];
    }
  }

  // ---------------------------------------------------------------------
  // The blob space as a value
  // ---------------------------------------------------------------------

  /** Creates the container if absent and writes (or overwrites) one blob in it. */
  function PutBlob(space: BlobSpace, container: string, name: string, blob: Blob): (r: BlobSpace)
    ensures container in r && name in r[container] && r[container][name] == blob
    ensures forall c :: c != container ==> (c in r <==> c in space)
    ensures forall c :: c != container && c in space ==> r[c] == space[c]
    ensures forall n :: n != name ==> (n in r[container] <==> container in space && n in space[container])
    ensures container in space ==> forall n :: n != name && n in space[container] ==> r[container][n] == space[container][n]
  {
    var existing := if container in space then space[container] else map[];
    space[container := existing[name := blob]]
  }

  /** Removes the named blobs that exist from an existing container; a missing container is left absent. */
  function DeleteBlobs(space: BlobSpace, container: string, names: set<string>): (r: BlobSpace)
    ensures r.Keys == space.Keys
    ensures forall c :: c in space && c != container ==> r[c] == space[c]
    ensures container in space ==> forall n :: n in r[container] <==> n in space[container] && n !in names
    ensures container in space ==> forall n :: n in r[container] ==> r[container][n] == space[container][n]
  {
    if container in space then space[container := space[container] - names] else space
  }

  /** Deleting the same photos twice is the same as deleting them once. */
  lemma DeleteBlobsIdempotent(space: BlobSpace, container: string, names: set<string>)
    ensures DeleteBlobs(DeleteBlobs(space, container, names), container, names) == DeleteBlobs(space, container, names)
  {
    var once := DeleteBlobs(space, container, names);
    if container in space {
      assert once[container] - names == once[container];
    }
  }

  /** Deleting in two batches is deleting their union, so the order of the deletions does not matter. */
  lemma DeleteBlobsCompose(space: BlobSpace, container: string, first: set<string>, second: set<string>)
    ensures DeleteBlobs(DeleteBlobs(space, container, first), container, second)
         == DeleteBlobs(space, container, first + second)
  {
    if container in space {
      assert space[container] - first - second == space[container] - (first + second);
    }
  }

  /** Deleting a blob that is not there changes nothing. */
  lemma DeleteMissing(space: BlobSpace, container: string, name: string)
    requires container in space && name !in space[container]
    ensures DeleteBlobs(space, container, {name}) == space
  {
    assert space[container] - {name} == space[container];
  }

  /** One more photo deleted after the first i: the deletions of the first i + 1. */
  lemma DeletePhotosStep(space: BlobSpace, container: string, photos: seq<Entities.Photo>, i: nat)
    requires i < |photos|
    ensures DeleteBlobs(DeleteBlobs(space, container, BlobNames(photos[..i])), container,
                        {BlobName(photos[i].id, photos[i].name)})
         == DeleteBlobs(space, container, BlobNames(photos[..i + 1]))
  {
    DeleteBlobsCompose(space, container, BlobNames(photos[..i]), {BlobName(photos[i].id, photos[i].name)});
    BlobNamesSnoc(photos, i);
  }

  /** The blob names of the first i + 1 photos: those of the first i and one more. */
  lemma BlobNamesSnoc(photos: seq<Entities.Photo>, i: nat)
    requires i < |photos|
    ensures BlobNames(photos[..i + 1]) == BlobNames(photos[..i]) + {BlobName(photos[i].id, photos[i].name)}
  {
    assert photos[..i + 1][..i] == photos[..i];
  }

  /** After an upload the blob reads back, and deleting its photo removes it again. */
  lemma UploadThenDelete(space: BlobSpace, userId: Long, photo: Entities.Photo, blob: Blob)
    ensures var c := PadLong(userId);
            var b := BlobName(photo.id, photo.name);
            var after := DeleteBlobs(PutBlob(space, c, b, blob), c, BlobNames([photo]));
            && c in after && b !in after[c]
            && forall n :: n != b ==> (n in after[c] <==> c in space && n in space[c])
  {
    assert [photo][..0] == [];
  }

  // ---------------------------------------------------------------------
  // The connection string
  // ---------------------------------------------------------------------

  /**
    The account key of a connection string: the first ';'-separated segment
    that mentions "AccountKey", with every "AccountKey=" removed from it. A
    missing or blank string, or one without such a segment, has none.
  */
  function AccessKeyOf(connectionString: Option<string>): (r: Result<string, ConfigurationError>)
    ensures connectionString.None? || IsBlank(connectionString.value) ==> r.Failure?
    ensures (connectionString.Some? && !IsBlank(connectionString.value) &&
             exists i :: 0 <= i < |Split(connectionString.value, ';')| && Contains(Split(connectionString.value, ';')[i], AccountKeyName))
            <==> r.Success?
  {
    if connectionString.None? || IsBlank(connectionString.value) then Failure(MissingAccessKey)
    else
      var segments := Split(connectionString.value, ';');
      match FirstIndex(segments, (segment: string) => Contains(segment, AccountKeyName))
      case None => Failure(MissingAccessKey)
      case Some(i) => Success(Replace(segments[i], AccountKeyPrefix, ""))
  }

  /**
    For a connection string made of ';'-free segments whose first segment
    mentioning "AccountKey" is "AccountKey=" + key, the account key is key.
  */
  lemma {:induction false} AccessKeyOfJoin(segments: seq<string>, i: nat, key: string)
    requires i < |segments|
    requires forall j :: 0 <= j < |segments| ==> ';' !in segments[j]
    requires forall j :: 0 <= j < i ==> !Contains(segments[j], AccountKeyName)
    requires segments[i] == AccountKeyPrefix + key
    requires !Contains(key, AccountKeyPrefix)
    ensures AccessKeyOf(Some(Join(segments, ';'))) == Success(key)
  {
    var s := Join(segments, ';');
    assert !IsWhiteSpace(segments[i][0]);
    JoinNotBlank(segments, ';', i);
    SplitJoin(segments, ';');
    assert OccursAt(segments[i], AccountKeyName, 0);
    var p := (segment: string) => Contains(segment, AccountKeyName);
    assert FirstIndex(segments, p) == Some(i);
    ReplaceLeading(AccountKeyPrefix, key);
  }

  /** The constructor's scan: stop at the first segment that mentions "AccountKey". */
  method ParseAccessKey(connectionString: Option<string>) returns (r: Result<string, ConfigurationError>)
    ensures r == AccessKeyOf(connectionString)
  {
    if connectionString.None? || IsBlank(connectionString.value) {
      return Failure(MissingAccessKey);
    }
    var segments := Split(connectionString.value, ';');
    var i := 0;
    while i < |segments|
      invariant 0 <= i <= |segments|
      invariant forall j :: 0 <= j < i ==> !Contains(segments[j], AccountKeyName)
    {
      if Contains(segments[i], AccountKeyName) {
        return Success(Replace(segments[i], AccountKeyPrefix, ""));
      }
      i := i + 1;
    }
    return Failure(MissingAccessKey);
  }

  // ---------------------------------------------------------------------
  // The storage account and the service
  // ---------------------------------------------------------------------

  /** The BlobServiceClient's account: the containers it reaches through the storage API. */
  class BlobServiceClient {
    const accountName: string
    var containers: BlobSpace

    constructor (accountName: string, containers: BlobSpace)
      ensures this.accountName == accountName && this.containers == containers
    {
      this.accountName := accountName;
      this.containers := containers;
    }

    predicate ContainerExists(container: string)
      reads this
    {
      container in containers
    }

    predicate BlobExists(container: string, name: string)
      reads this
    {
      container in containers && name in containers[container]
    }

    /** BlobContainerClient.CreateIfNotExistsAsync. */
    method CreateIfNotExists(container: string)
      modifies this
      ensures containers == if container in old(containers) then old(containers) else old(containers)[container := map[]]
    {
      if container !in containers {
        containers := containers[container := map[]];
      }
    }

    /** BlobClient.UploadAsync(stream, overwrite: true): the content is replaced, headers reset. */
    method Upload(container: string, name: string, content: seq<Byte>)
      requires container in containers
      modifies this
      ensures containers == old(containers)[container := old(containers)[container][name := Blob(content, DefaultContentType, "")]]
    {
      containers := containers[container := containers[container][name := Blob(content, DefaultContentType, "")]];
    }

    /** BlobClient.SetHttpHeadersAsync on an existing blob. */
    method SetHttpHeaders(container: string, name: string, contentDisposition: string, contentType: string)
      requires container in containers && name in containers[container]
      modifies this
      ensures containers == old(containers)[container := old(containers)[container][name :=
                old(containers)[container][name].(contentType := contentType, contentDisposition := contentDisposition)]]
    {
      var blob := containers[container][name];
      containers := containers[container := containers[container][name :=
                      blob.(contentType := contentType, contentDisposition := contentDisposition)]];
    }

    /** BlobClient.DeleteAsync on an existing blob. */
    method Delete(container: string, name: string)
      requires container in containers && name in containers[container]
      modifies this
      ensures containers == old(containers)[container := old(containers)[container] - {name}]
    {
      containers := containers[container := containers[container] - {name}];
    }
  }

  class BlobStoragePhotoService {
    const blobSvcClient: BlobServiceClient
    const accessKey: string

    constructor (blobSvcClient: BlobServiceClient, accessKey: string)
      ensures this.blobSvcClient == blobSvcClient && this.accessKey == accessKey
    {
      this.blobSvcClient := blobSvcClient;
      this.accessKey := accessKey;
    }

    /**
      The source's constructor: the configured connection string must yield
      an account key, otherwise construction fails.
    */
    static method Create(blobServiceClient: BlobServiceClient, connectionString: Option<string>)
      returns (r: Result<BlobStoragePhotoService, ConfigurationError>)
      ensures r.Failure? <==> AccessKeyOf(connectionString).Failure?
      ensures r.Success? ==> && fresh(r.value)
                             && r.value.blobSvcClient == blobServiceClient
                             && r.value.accessKey == AccessKeyOf(connectionString).value
    {
      var key := ParseAccessKey(connectionString);
      if key.Failure? {
        return Failure(key.error);
      }
      var service := new BlobStoragePhotoService(blobServiceClient, key.value);
      return Success(service);
    }

    /**
      Stores a photo in its user's container, creating the container when
      absent and overwriting an earlier blob of the same name. A JPEG name
      routes the bytes through `rotateImage` (decode, ApplyExifRotation,
      re-encode) and is served as image/jpeg; any other name stores the bytes
      unchanged as image/png. Both are served inline.
    */
    method UploadPhoto(userId: Long, photoId: Long, photoName: string, photoBytes: seq<Byte>,
                       rotateImage: seq<Byte> -> seq<Byte>)
      modifies blobSvcClient
      ensures blobSvcClient.containers == PutBlob(
        old(blobSvcClient.containers), PadLong(userId), BlobName(photoId, photoName),
        Blob(if IsJpegName(photoName) then rotateImage(photoBytes) else photoBytes, ContentType(photoName), "inline"))
    {
      var photo := photoBytes;
      var contentType := "image/jpeg";
      if Contains(photoName, ".jpg") || Contains(photoName, ".jpeg") {
        photo := rotateImage(photoBytes);
      } else {
        contentType := "image/png";
      }
      var containerName := PadLong(userId);
      ghost var before := blobSvcClient.containers;
      ghost var existing := if containerName in before then before[containerName] else map[];
      blobSvcClient.CreateIfNotExists(containerName);
      assert blobSvcClient.containers[containerName] == existing;
      var blobName := PadLong(photoId) + GetExtension(photoName);
      blobSvcClient.Upload(containerName, blobName, photo);
      blobSvcClient.SetHttpHeaders(containerName, blobName, "inline", contentType);
      assert contentType == ContentType(photoName);
      assert blobSvcClient.containers[containerName] == existing[blobName := Blob(photo, contentType, "inline")];
      assert blobSvcClient.containers == before[containerName := existing[blobName := Blob(photo, contentType, "inline")]];
    }

    /**
      Deletes the blobs of the given photos from the user's container: a
      missing container is a no-op, missing blobs are skipped, every other
      blob stays. The concurrent fan-out is done one photo at a time.
    */
    method DeletePhotos(userId: Long, photos: seq<Entities.Photo>)
      modifies blobSvcClient
      ensures blobSvcClient.containers == DeleteBlobs(old(blobSvcClient.containers), PadLong(userId), BlobNames(photos))
    {
      var containerName := PadLong(userId);
      if !blobSvcClient.ContainerExists(containerName) {
        return;
      }
      assert BlobNames(photos[..0]) == {};
      assert old(blobSvcClient.containers)[containerName] - {} == old(blobSvcClient.containers)[containerName];
      assert old(blobSvcClient.containers)[containerName := old(blobSvcClient.containers)[containerName] - {}]
          == old(blobSvcClient.containers);
      for i := 0 to |photos|
        invariant blobSvcClient.containers == DeleteBlobs(old(blobSvcClient.containers), containerName, BlobNames(photos[..i]))
      {
        var blobName := PadLong(photos[i].id) + GetExtension(photos[i].name);
        ghost var before := blobSvcClient.containers;
        if blobSvcClient.BlobExists(containerName, blobName) {
          blobSvcClient.Delete(containerName, blobName);
        } else {
          DeleteMissing(before, containerName, blobName);
        }
        DeletePhotosStep(old(blobSvcClient.containers), containerName, photos, i);
      }
      assert photos[..|photos|] == photos;
    }

    /**
      A signed link to the blob of a photo: none when the user's container or
      the blob is missing; otherwise a SAS for exactly that blob, issued at
      `utcNow`. Reading the blob space changes nothing.
    */
    function GetPhoto(userId: Long, photoId: Long, photoName: string, utcNow: int): (r: Option<Sas.SasUri>)
      reads blobSvcClient
      ensures r.None? <==> !blobSvcClient.BlobExists(PadLong(userId), BlobName(photoId, photoName))
      ensures r.Some? ==>
        && r.value.blob == Sas.BlobClient(blobSvcClient.accountName, PadLong(userId), BlobName(photoId, photoName))
        && r.value.sas.parameters.blobContainerName == PadLong(userId)
        && r.value.sas.parameters.blobName == BlobName(photoId, photoName)
        && r.value.sas.parameters.startsOn == utcNow
    {
      var containerName := PadLong(userId);
      if !blobSvcClient.ContainerExists(containerName) then None
      else
        var blobName := PadLong(photoId) + GetExtension(photoName);
        if !blobSvcClient.BlobExists(containerName, blobName) then None
        else Some(Sas.CreateUserDelegationSasBlob(
               Sas.BlobClient(blobSvcClient.accountName, containerName, blobName), accessKey, utcNow))
    }
  }

  /** A link GetPhoto returns lets its bearer read and write that photo's blob, and nothing else. */
  lemma GetPhotoPermitsOnlyThatBlob(service: BlobStoragePhotoService, userId: Long, photoId: Long, photoName: string,
                                    utcNow: int, container: string, blob: string,
                                    permission: Sas.BlobSasPermission, time: int)
    requires service.GetPhoto(userId, photoId, photoName, utcNow).Some?
    ensures Sas.Permits(service.GetPhoto(userId, photoId, photoName, utcNow).value, service.accessKey,
                        service.blobSvcClient.accountName, container, blob, permission, time)
        <==> && container == PadLong(userId) && blob == BlobName(photoId, photoName)
             && (permission == Sas.Read || permission == Sas.Write)
             && utcNow <= time <= utcNow + Sas.TokenLifeTimeInHours * Sas.TicksPerHour
  {
    Sas.IssuedSasPermitsExactly(
      Sas.BlobClient(service.blobSvcClient.accountName, PadLong(userId), BlobName(photoId, photoName)),
      service.accessKey, utcNow, service.accessKey, service.blobSvcClient.accountName,
      container, blob, permission, time);
  }
}
