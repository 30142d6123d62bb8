/** The in-memory music library: five collections held in one record, which the
    services receive explicitly instead of sharing a module-level `db`. */
module Db {
  import opened Outcomes
  import opened Keyed

  datatype User = User(
    id: Id,
    login: string,
    password: string,
    version: int,      // bumped on every password change
    createdAt: int,    // milliseconds since the epoch
    updatedAt: int)

  datatype Artist = Artist(id: Id, name: string, grammy: bool)

  /** `artistId` is a weak reference: deleting the artist sets it to null. */
  datatype Album = Album(id: Id, name: string, year: int, artistId: Option<Id>)

  /** `artistId` and `albumId` are weak references, nulled on delete. */
  datatype Track = Track(
    id: Id,
    name: string,
    artistId: Option<Id>,
    albumId: Option<Id>,
    duration: int)

  /** The single favorites record: bare ids, one list per kind. */
  datatype Favorites = Favorites(artists: seq<Id>, albums: seq<Id>, tracks: seq<Id>)

  datatype Store = Store(
    users: seq<User>,
    artists: seq<Artist>,
    albums: seq<Album>,
    tracks: seq<Track>,
    favorites: Favorites)

  /** A JSON value as it arrives in a request body, for the one service that
      checks the runtime type of its input itself. Arrays and objects are
      lumped together: no check distinguishes them. */
  datatype Json = JNull | JBool(b: bool) | JNumber(n: int) | JString(s: string) | JComposite

  const EmptyStore := Store([], [], [], [], Favorites([], [], []))

  function UserKey(u: User): Id {
    u.id
  }

  function ArtistKey(a: Artist): Id {
    a.id
  }

  function AlbumKey(a: Album): Id {
    a.id
  }

  function TrackKey(t: Track): Id {
    t.id
  }
}
