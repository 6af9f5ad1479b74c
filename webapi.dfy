/** The request and response shapes shared by the controllers and services. */
module WebApi {
  import opened Strings
  import SasTokenGeneratorService

  /** A (type, value) pair of the caller's verified claim set. */
  datatype Claim = Claim(claimType: string, value: string)

  /** The exceptions the core throws out of a request. */
  datatype Exception = AuthenticationException | UnauthorizedAccessException

  /** The typed results the endpoints return, and a thrown exception. */
  datatype Response<T> =
    | Ok(value: T)
    | Created
    | NotFound
    | BadRequest(message: string)
    | Unauthorized
    | Thrown(exception: Exception)

  /** A photo's public view: its name, its album and a signed link to its bytes. */
  datatype PhotoDto = PhotoDto(name: string, photoAlbumId: Long, uri: SasTokenGeneratorService.SasUri)

  /** An album with the names of its photos. */
  datatype PhotoAlbumDto = PhotoAlbumDto(id: Long, name: string, photos: seq<string>)

  /** The body of a rename request. */
  datatype EditNameDto = EditNameDto(oldId: Long, newName: string)
}
