/**
  The persisted entities and the database context that holds their tables.
  Each table is a sequence in query order; the unique indexes declared on
  the entity classes and the foreign keys of the schema are the invariant
  `Database.Valid()`.
*/
module Entities {
  import opened Strings

  /** A System.Guid, as its 128-bit value. */
  type Guid = g: int | 0 <= g < 0x1_0000_0000_0000_0000_0000_0000_0000_0000

  datatype User = User(id: Long, email: string, username: string)

  datatype PhotoAlbum = PhotoAlbum(id: Long, name: string, userId: Long)

  datatype Photo = Photo(id: Long, name: string, photoAlbumId: Long)

  datatype Memoryland = Memoryland(id: Long, name: string, memorylandTypeId: Long, userId: Long)

  datatype MemorylandConfiguration = MemorylandConfiguration(id: Long, position: int, memorylandId: Long, photoId: Long)

  datatype MemorylandToken = MemorylandToken(id: Long, token: Guid, memorylandId: Long)

  datatype Transaction = Transaction(id: Long, photoAlbumPath: string, photoAlbumId: Long, userId: Long)

  predicate HasUser(users: seq<User>, id: Long) {
    exists j :: 0 <= j < |users| && users[j].id == id
  }

  predicate HasAlbum(albums: seq<PhotoAlbum>, id: Long) {
    exists j :: 0 <= j < |albums| && albums[j].id == id
  }

  predicate HasPhoto(photos: seq<Photo>, id: Long) {
    exists j :: 0 <= j < |photos| && photos[j].id == id
  }

  predicate HasMemoryland(memorylands: seq<Memoryland>, id: Long) {
    exists j :: 0 <= j < |memorylands| && memorylands[j].id == id
  }

  /** Appending a row keeps every existing user reference resolvable. */
  lemma HasUserAppend(users: seq<User>, user: User, id: Long)
    requires HasUser(users, id)
    ensures HasUser(users + [user], id)
  {
    var j :| 0 <= j < |users| && users[j].id == id;
    assert (users + [user])[j] == users[j];
  }

  /** Appending a row keeps every existing album reference resolvable. */
  lemma HasAlbumAppend(albums: seq<PhotoAlbum>, album: PhotoAlbum, id: Long)
    requires HasAlbum(albums, id)
    ensures HasAlbum(albums + [album], id)
  {
    var j :| 0 <= j < |albums| && albums[j].id == id;
    assert (albums + [album])[j] == albums[j];
  }

  /** Primary key Id and the unique index on Email. */
  predicate UsersValid(users: seq<User>) {
    forall i, j :: 0 <= i < j < |users| ==> users[i].id != users[j].id && users[i].email != users[j].email
  }

  /** Primary key Id, the unique index on (Name, UserId), and the owner exists. */
  predicate AlbumsValid(albums: seq<PhotoAlbum>, users: seq<User>) {
    && (forall i, j :: 0 <= i < j < |albums| ==>
          albums[i].id != albums[j].id && (albums[i].name, albums[i].userId) != (albums[j].name, albums[j].userId))
    && (forall i :: 0 <= i < |albums| ==> HasUser(users, albums[i].userId))
  }

  /** Primary key Id, the unique index on (Name, PhotoAlbumId), and the album exists. */
  predicate PhotosValid(photos: seq<Photo>, albums: seq<PhotoAlbum>) {
    && (forall i, j :: 0 <= i < j < |photos| ==>
          photos[i].id != photos[j].id && (photos[i].name, photos[i].photoAlbumId) != (photos[j].name, photos[j].photoAlbumId))
    && (forall i :: 0 <= i < |photos| ==> HasAlbum(albums, photos[i].photoAlbumId))
  }

  /** Primary key Id, the unique index on (Name, UserId), and the owner exists. */
  predicate MemorylandsValid(memorylands: seq<Memoryland>, users: seq<User>) {
    && (forall i, j :: 0 <= i < j < |memorylands| ==>
          memorylands[i].id != memorylands[j].id
          && (memorylands[i].name, memorylands[i].userId) != (memorylands[j].name, memorylands[j].userId))
    && (forall i :: 0 <= i < |memorylands| ==> HasUser(users, memorylands[i].userId))
  }

  /** Primary key Id, the unique index on (Position, MemorylandId), and both ends exist. */
  predicate ConfigurationsValid(configurations: seq<MemorylandConfiguration>, memorylands: seq<Memoryland>, photos: seq<Photo>) {
    && (forall i, j :: 0 <= i < j < |configurations| ==>
          configurations[i].id != configurations[j].id
          && (configurations[i].position, configurations[i].memorylandId) != (configurations[j].position, configurations[j].memorylandId))
    && (forall i :: 0 <= i < |configurations| ==>
          HasMemoryland(memorylands, configurations[i].memorylandId) && HasPhoto(photos, configurations[i].photoId))
  }

  /** Primary key Id, the unique indexes on Token and on MemorylandId, and the memoryland exists. */
  predicate TokensValid(tokens: seq<MemorylandToken>, memorylands: seq<Memoryland>) {
    && (forall i, j :: 0 <= i < j < |tokens| ==>
          tokens[i].id != tokens[j].id && tokens[i].token != tokens[j].token && tokens[i].memorylandId != tokens[j].memorylandId)
    && (forall i :: 0 <= i < |tokens| ==> HasMemoryland(memorylands, tokens[i].memorylandId))
  }

  /** Primary key Id, the unique index on UserId, and both ends exist. */
  predicate TransactionsValid(transactions: seq<Transaction>, albums: seq<PhotoAlbum>, users: seq<User>) {
    && (forall i, j :: 0 <= i < j < |transactions| ==>
          transactions[i].id != transactions[j].id && transactions[i].userId != transactions[j].userId)
    && (forall i :: 0 <= i < |transactions| ==>
          HasAlbum(albums, transactions[i].photoAlbumId) && HasUser(users, transactions[i].userId))
  }

  /** The application's DbContext: one table per DbSet. */
  class Database {
    var users: seq<User>
    var photoAlbums: seq<PhotoAlbum>
    var photos: seq<Photo>
    var memorylands: seq<Memoryland>
    var memorylandTokens: seq<MemorylandToken>
    var memorylandConfigurations: seq<MemorylandConfiguration>
    var transactions: seq<Transaction>

    /** The constraints the database enforces on every saved state. */
    ghost predicate Valid()
      reads this
    {
      && UsersValid(users)
      && AlbumsValid(photoAlbums, users)
      && PhotosValid(photos, photoAlbums)
      && MemorylandsValid(memorylands, users)
      && ConfigurationsValid(memorylandConfigurations, memorylands, photos)
      && TokensValid(memorylandTokens, memorylands)
      && TransactionsValid(transactions, photoAlbums, users)
    }

    constructor ()
      ensures Valid()
      ensures users == [] && photoAlbums == [] && photos == []
      ensures memorylands == [] && memorylandTokens == [] && memorylandConfigurations == [] && transactions == []
    {
      users, photoAlbums, photos := [], [], [];
      memorylands, memorylandTokens, memorylandConfigurations, transactions := [], [], [], [];
    }
  }
}
