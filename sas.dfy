/**
  SasTokenGeneratorService: builds a shared-access signature that lets the
  bearer read and write exactly one blob for four hours from issuance.
  Time is a tick count (100 ns units) of DateTimeOffset.UtcNow. The HMAC
  signing over the builder is not modelled: the query records the
  parameters and the credential they are signed with.
*/
module SasTokenGeneratorService {

  const TokenLifeTimeInHours: int := 4
  const TicksPerHour: int := 36_000_000_000

  /** The flags of BlobSasPermissions. */
  datatype BlobSasPermission =
    | Read | Add | Create | Write | Delete | DeleteBlobVersion | Tag | List
    | Move | Execute | SetImmutabilityPolicy | PermanentDelete

  /** The addressing part of a BlobClient: its account, its container and its blob name. */
  datatype BlobClient = BlobClient(accountName: string, blobContainerName: string, name: string)

  /** The fields of BlobSasBuilder that the service sets. */
  datatype BlobSasBuilder = BlobSasBuilder(
    blobContainerName: string,
    blobName: string,
    resource: string,
    startsOn: int,
    expiresOn: int,
    permissions: set<BlobSasPermission>)

  datatype StorageSharedKeyCredential = StorageSharedKeyCredential(accountName: string, accountKey: string)

  /** The SAS query string: the signed parameters and the key that signs them. */
  datatype SasQueryParameters = SasQueryParameters(parameters: BlobSasBuilder, signedWith: StorageSharedKeyCredential)

  /** A blob URI with a SAS query appended (what BlobUriBuilder.ToUri returns). */
  datatype SasUri = SasUri(blob: BlobClient, sas: SasQueryParameters)

  function LifeTime(): int {
    TokenLifeTimeInHours * TicksPerHour
  }

  /** CreateUserDelegationSasBlob: a read/write SAS for `blobClient`'s blob, issued at `utcNow`. */
  function CreateUserDelegationSasBlob(blobClient: BlobClient, accessKey: string, utcNow: int): (uri: SasUri)
    ensures uri.blob == blobClient
    ensures uri.sas.parameters.blobContainerName == uri.blob.blobContainerName
    ensures uri.sas.parameters.blobName == uri.blob.name
    ensures uri.sas.parameters.resource == "b"
    ensures uri.sas.parameters.startsOn == utcNow
    ensures uri.sas.parameters.expiresOn - uri.sas.parameters.startsOn == 4 * 60 * 60 * 10_000_000
    ensures uri.sas.parameters.permissions == {Read, Write}
    ensures uri.sas.signedWith == StorageSharedKeyCredential(blobClient.accountName, accessKey)
  {
    var tokenStartTime := utcNow;
    var tokenEndTime := tokenStartTime + LifeTime();
    var sasBuilder := BlobSasBuilder(
      blobClient.blobContainerName, blobClient.name, "b", tokenStartTime, tokenEndTime, {});
    var sasBuilder := sasBuilder.(permissions := {Read, Write});
    var credential := StorageSharedKeyCredential(blobClient.accountName, accessKey);
    SasUri(blobClient, SasQueryParameters(sasBuilder, credential))
  }

  /**
    What a SAS URI lets its bearer do, as the storage service decides it:
    the signature is the account's; a blob-scoped ("b") SAS covers only the
    named blob, a container-scoped ("c") one every blob of its container;
    the operation is among the signed permissions; the time lies in the
    signed interval.
  */
  predicate Permits(uri: SasUri, accountKey: string, accountName: string, container: string, blob: string,
                    permission: BlobSasPermission, time: int)
  {
    var p := uri.sas.parameters;
    && uri.sas.signedWith == StorageSharedKeyCredential(accountName, accountKey)
    && (p.resource == "b" || p.resource == "c")
    && container == p.blobContainerName
    && (p.resource == "b" ==> blob == p.blobName)
    && permission in p.permissions
    && p.startsOn <= time <= p.expiresOn
  }

  /**
    An issued SAS permits exactly reading and writing the one blob it was
    issued for, in the account whose key signed it, from the issue time
    until four hours later; no other blob, no listing, no deletion.
  */
  lemma {:induction false} IssuedSasPermitsExactly(blobClient: BlobClient, accessKey: string, utcNow: int,
                                                   accountKey: string, accountName: string, container: string,
                                                   blob: string, permission: BlobSasPermission, time: int)
    ensures Permits(CreateUserDelegationSasBlob(blobClient, accessKey, utcNow),
                    accountKey, accountName, container, blob, permission, time)
        <==> && accountName == blobClient.accountName && accountKey == accessKey
             && container == blobClient.blobContainerName && blob == blobClient.name
             && (permission == Read || permission == Write)
             && utcNow <= time <= utcNow + TokenLifeTimeInHours * TicksPerHour
  {
  }

  /** A SAS issued for one blob never permits anything on a different blob. */
  lemma NoSiblingAccess(blobClient: BlobClient, accessKey: string, utcNow: int, other: BlobClient,
                        permission: BlobSasPermission, time: int)
    requires other != blobClient
    ensures !Permits(CreateUserDelegationSasBlob(blobClient, accessKey, utcNow),
                     accessKey, other.accountName, other.blobContainerName, other.name, permission, time)
  {
    IssuedSasPermitsExactly(blobClient, accessKey, utcNow, accessKey, other.accountName,
                            other.blobContainerName, other.name, permission, time);
  }
}
