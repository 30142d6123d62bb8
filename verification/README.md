# Music library store — a Dafny model

This project models the core of a small music-library REST service: the
in-memory store (users, artists, albums, tracks and one favorites record) and
the five services that read and change it. Each service method becomes a pure
function from a `Store` value to either an error (`BadRequest`, `NotFound`,
`UnprocessableEntity`, `Forbidden`) or a result together with the new store.
A failed call returns no store, so an error never changes anything.

The part worth proving is referential housekeeping:

- deleting an artist removes it from the favorite artists and nulls `artistId`
  on albums and tracks;
- deleting an album removes it from the favorite albums and nulls `albumId` on
  tracks;
- deleting a track removes it from the favorite tracks;
- adding a favorite checks that the entity exists and never adds an id twice.

Together these keep the store *consistent*: ids are unique, favorite lists hold
no duplicates, and every favorite names a stored entity. `Consistency` proves
that every operation keeps that, and that the favorites `findAll` then drops
nothing.

Files, one module each:

- `outcomes.dfy` (`Outcomes`): `Option`, the error kinds and `Result`.
- `keyed.dfy` (`Keyed`): the array idioms the services use on id-keyed lists,
  defined once for any record type: `find`, `filter` by id, and the favorites
  hydration `ids.map(find).filter(Boolean)`.
- `store.dfy` (`Db`): the entities and the `Store`.
- `favorites.dfy`, `artist.dfy`, `album.dfy`, `track.dfy`, `user.dfy`: one
  module per service.
- `consistency.dfy` (`Consistency`): store-wide invariants and their
  preservation.

Abstractions:

- The UUID check (`validate` from the `uuid` package) is a parameter
  `isUuid: string -> bool` of every operation that checks an id.
- `generateId()` is a `freshId` parameter. It is required not to be the id of
  an existing entity of that kind.
- Each `Date.now()` is a timestamp parameter.
- The store is an explicit value. The services refer to an ambient `db`
  imported from `src/common/database.ts`, but that file only exports an ORM
  client, so the store's shape comes from the services' use of it.
- Requests arrive through a validation pipe with `whitelist` and
  `forbidNonWhitelisted` (`src/main.ts:21-27`). So an update body cannot carry
  an `id`, and an update never changes an entity's id.
- The three favorites add methods (`createTrack`, `createAlbum`,
  `createArtist`) are one function, `FavoritesService.Add`, with a `Kind`
  parameter. The three remove methods are `FavoritesService.Remove`. The
  copies differ only in the list and the collection they use.

## Model

| member | source | states |
|---|---|---|
| `Keyed.IndexOf` | src/artist/artist.service.ts:21 | The position `find` locates holds the id, and no earlier position does; there is no position exactly when no record has the id. |
| `Keyed.Find` | src/track/track.service.ts:21 | `find` gives a record exactly when one has the id, and what it gives is a stored record with that id. |
| `Keyed.Lookup` | src/album/album.service.ts:16-28 | The shared shape of every `findOne`: a malformed id gives BadRequest whatever the store holds; a well-formed id naming no record gives NotFound; otherwise the result is a stored record with that id. |
| `Keyed.RemoveKey` | src/artist/artist.service.ts:107 | After filtering by id, no record has the id, and a record survives exactly when it was there and has another id. |
| `Keyed.RemoveKeyAppend` | src/album/album.service.ts:89 | Filtering distributes over concatenation, so the survivors keep their relative order. |
| `Keyed.RemoveKeyAt` | src/user/user.service.ts:117 | With unique ids, filtering out a present id removes exactly the record at its position; the rest keep their order. |
| `Keyed.RemoveKeyKeepsUnique` | src/track/track.service.ts:81 | Filtering keeps ids unique. |
| `Keyed.Without` | src/favs/favorites.service.ts:59-61 | After `ids.filter(x => x !== id)` the id is absent, and every other id is kept. |
| `Keyed.WithoutAt` | src/favs/favorites.service.ts:96-98 | In a list without duplicates, removing an id deletes exactly its one position; the other ids keep their order. |
| `Keyed.WithoutKeepsNoDuplicates` | src/favs/favorites.service.ts:133-135 | Removing an id keeps a list free of duplicates. |
| `Keyed.Resolved` | src/favs/favorites.service.ts:16-17 | One id adds exactly one record to the hydrated list, the one `find` locates, when a record has the id; otherwise it adds nothing. |
| `Keyed.Hydrate` | src/favs/favorites.service.ts:15-17 | Hydration returns at most one record per id. Every record it returns is stored and has an id from the list. |
| `Keyed.HydrateComplete` | src/favs/favorites.service.ts:15-17 | Hydration drops only ids that name nothing. Every listed id that names a record contributes the record `find` locates. |
| `Keyed.HydrateAppend` | src/favs/favorites.service.ts:21-23 | Hydrating two id lists one after the other equals hydrating their concatenation, so results come in id order. |
| `Keyed.HydrateSplit` | src/favs/favorites.service.ts:15-17 | Hydration keeps id order even when some ids dangle. The result is the records of the ids before position i, then what the i-th id names, then the records of the later ids. |
| `Keyed.HydrateResolved` | src/favs/favorites.service.ts:13-25 | When every id names a record, nothing is dropped: the i-th result is the record `find` returns for the i-th id. |
| `FavoritesService.NameOf` | src/favs/favorites.service.ts:32-46 | A name exists exactly when an entity of that kind with that id is stored, and it is the name of the entity `find` locates. |
| `FavoritesService.FindAll` | src/favs/favorites.service.ts:13-25 | Each returned list is no longer than its id list. Every returned entity is stored and its id is a favorite of that kind. |
| `FavoritesService.FindAllReturnsFavorites` | src/favs/favorites.service.ts:13-25 | The converse: only favorites that name nothing are dropped. Every favorite id that names a stored entity yields the entity `find` locates. |
| `FavoritesService.FindAllArtistsInOrder` | src/favs/favorites.service.ts:15-17 | The returned artists follow favorites order. Around the i-th id come first the artists of earlier ids, then the artist the i-th id names (nothing if it names none), then those of later ids. |
| `FavoritesService.FindAllAlbumsInOrder` | src/favs/favorites.service.ts:18-20 | The same order for the returned albums. |
| `FavoritesService.FindAllTracksInOrder` | src/favs/favorites.service.ts:21-23 | The same order for the returned tracks. |
| `FavoritesService.Add` | src/favs/favorites.service.ts:27-48 | Error precedence: a malformed id gives BadRequest before any lookup, then a missing entity gives UnprocessableEntity. An id already present gives "already in favorites" and no change. Otherwise the id is appended at the end of its own list. The entities and the other two lists never change, and no-duplicates is kept. The album (64-85) and artist (101-122) copies are the same function with another `Kind`. |
| `FavoritesService.Remove` | src/favs/favorites.service.ts:50-62 | A malformed id gives BadRequest first, then an id not in the list gives NotFound. On success the id is absent, every other id stays, and the entities and the other two lists are unchanged. The album (87-99) and artist (124-136) copies are the same function. |
| `FavoritesService.AddIdempotent` | src/favs/favorites.service.ts:40-42 | A second add of the same id answers "already in favorites" and leaves the store as the first add left it. |
| `FavoritesService.AddThenRemove` | src/favs/favorites.service.ts:44-61 | Adding a new favorite and then removing it restores the original store exactly. |
| `FavoritesService.RemoveKeepsOrder` | src/favs/favorites.service.ts:55-61 | In a list without duplicates, removing takes out exactly the one position holding the id and keeps the others in order. |
| `FavoritesService.RemoveKeepsNoDuplicates` | src/favs/favorites.service.ts:59-61 | Removing keeps a favorites list free of duplicates. |
| `ArtistService.FindOne` | src/artist/artist.service.ts:16-28 | BadRequest for a malformed id, NotFound for an absent one, otherwise a stored artist with that id. |
| `ArtistService.Create` | src/artist/artist.service.ts:30-44 | BadRequest exactly when the name is missing or empty or `grammy` is undefined. Otherwise one artist with the fresh id, the given name and the given grammy is appended, the count grows by one, and nothing else changes. |
| `ArtistService.Update` | src/artist/artist.service.ts:46-78 | Checks run in order: malformed id, then non-string name, then non-boolean grammy (each BadRequest), and only then an absent id (NotFound). On success only the supplied fields of the first artist with the id change, its id is kept, and no other artist or collection changes. |
| `ArtistService.ClearAlbumArtist` | src/artist/artist.service.ts:95-99 | No album keeps the artist id. An album by the artist loses only its `artistId`; every other album is unchanged. |
| `ArtistService.ClearTrackArtist` | src/artist/artist.service.ts:101-105 | No track keeps the artist id. A track by the artist loses only its `artistId`, keeping its `albumId`; every other track is unchanged. |
| `ArtistService.Delete` | src/artist/artist.service.ts:80-108 | BadRequest or NotFound come before any change. On success the artist is gone from the artists and the favorite artists. Every album and track that pointed at it now has a null `artistId` and no other change, and every other album and track is unchanged. Users, the other favorite lists and the other artists are kept. |
| `ArtistService.CreateThenFindOne` | src/artist/artist.service.ts:36-43 | An artist just created is found by its id with exactly the stored fields. |
| `ArtistService.DeleteThenFindOne` | src/artist/artist.service.ts:107 | After a delete the artist's id gives NotFound. |
| `ArtistService.DeleteKeepsOrder` | src/artist/artist.service.ts:107 | With unique ids, delete removes exactly one artist and keeps the others in order. |
| `ArtistService.UpdateEmptyPatch` | src/artist/artist.service.ts:71-77 | An update with no fields returns the stored artist and leaves the store unchanged. |
| `ArtistService.UpdateIdempotent` | src/artist/artist.service.ts:71 | Applying the same update twice gives the same store and result as applying it once. |
| `AlbumService.FindOne` | src/album/album.service.ts:16-28 | BadRequest for a malformed id, NotFound for an absent one, otherwise a stored album with that id. |
| `AlbumService.Create` | src/album/album.service.ts:30-45 | BadRequest exactly when the name is missing or empty or the year is not a number. Otherwise one album is appended with the fresh id and the given name, year and artist id, and nothing else changes. |
| `AlbumService.Update` | src/album/album.service.ts:47-66 | A malformed id gives BadRequest before an absent one gives NotFound. On success only the supplied fields change, the id is kept, and no other album or collection changes. |
| `AlbumService.ClearTrackAlbum` | src/album/album.service.ts:83-87 | No track keeps the album id. A track on the album loses only its `albumId`, keeping its `artistId`; every other track is unchanged. |
| `AlbumService.Delete` | src/album/album.service.ts:68-90 | BadRequest or NotFound come before any change. On success the album is gone from the albums and the favorite albums. Tracks on it now have a null `albumId` and no other change, and every other track is unchanged. Artists, users, the favorite artists and the favorite tracks are untouched. |
| `AlbumService.CreateThenFindOne` | src/album/album.service.ts:35-44 | An album just created is found by its id with exactly the stored fields. |
| `AlbumService.DeleteThenFindOne` | src/album/album.service.ts:89 | After a delete the album's id gives NotFound. |
| `AlbumService.DeleteKeepsOrder` | src/album/album.service.ts:89 | With unique ids, delete removes exactly one album and keeps the others in order. |
| `AlbumService.UpdateEmptyPatch` | src/album/album.service.ts:58-65 | An update with no fields returns the stored album and leaves the store unchanged. |
| `AlbumService.UpdateIdempotent` | src/album/album.service.ts:58 | Applying the same update twice gives the same store and result as applying it once. |
| `TrackService.FindOne` | src/track/track.service.ts:16-28 | BadRequest for a malformed id, NotFound for an absent one, otherwise a stored track with that id. |
| `TrackService.Create` | src/track/track.service.ts:30-42 | Given what the request validation admits (duration at least 1, UUID references), one track with the fresh id and exactly the request's fields is appended, and nothing else changes. The service itself never fails. |
| `TrackService.Update` | src/track/track.service.ts:44-64 | A malformed id gives BadRequest before an absent one gives NotFound. On success the required name and duration are set, the optional references change only when supplied, and no other track or collection changes. |
| `TrackService.Delete` | src/track/track.service.ts:66-82 | BadRequest or NotFound come before any change. On success the track is gone from the tracks and the favorite tracks. Artists, albums, users and the other favorite lists are unchanged. |
| `TrackService.CreateThenFindOne` | src/track/track.service.ts:30-42 | A track just created is found by its id with exactly the stored fields. |
| `TrackService.DeleteThenFindOne` | src/track/track.service.ts:81 | After a delete the track's id gives NotFound. |
| `TrackService.DeleteKeepsOrder` | src/track/track.service.ts:81 | With unique ids, delete removes exactly one track and keeps the others in order. |
| `TrackService.UpdateIdempotent` | src/track/track.service.ts:55 | Applying the same update twice gives the same store and result as applying it once. |
| `UserService.Utf16Length` | src/user/user.service.ts:52 | JavaScript's string length lies between the number of characters and twice that number. |
| `UserService.Utf16LengthChar` | src/user/user.service.ts:52 | A character outside the Basic Multilingual Plane counts as two units of JavaScript's `length`; any other character counts as one. |
| `UserService.Utf16LengthAppend` | src/user/user.service.ts:52 | The length of a concatenation is the sum of the lengths. Together with the one-character case, this fixes the length of every string. |
| `UserService.FindAll` | src/user/user.service.ts:17-25 | One password-free view per stored user, in store order. |
| `UserService.FindOne` | src/user/user.service.ts:27-45 | BadRequest for a malformed id, NotFound for an absent one, otherwise the password-free view of a stored user with that id. |
| `UserService.FindOneInFindAll` | src/user/user.service.ts:17-45 | What `findOne` returns is one of the views `findAll` lists. |
| `UserService.Create` | src/user/user.service.ts:47-76 | BadRequest exactly when the login is missing or empty, the password is missing, or the password is shorter than 3 UTF-16 units. Otherwise a user with version 1 and the two clock readings is appended, its view is returned, and nothing else changes. |
| `UserService.ShortPasswordRejected` | src/user/user.service.ts:52-54 | The two-character password "ab" is rejected with BadRequest. |
| `UserService.AstralPasswordAccepted` | src/user/user.service.ts:52-54 | A password of two characters outside the Basic Multilingual Plane has length 4 and is accepted. |
| `UserService.CreateThenFindOne` | src/user/user.service.ts:56-75 | A user just created is found by its id, and the view equals the one `create` returned. |
| `UserService.Update` | src/user/user.service.ts:78-104 | Checks run in order: malformed id (BadRequest), absent id (NotFound), then a wrong old password (Forbidden), which happens exactly when it differs from the stored one. The update succeeds exactly when the id is well-formed, names a user and the old password matches. On success the password becomes the new one, the version grows by exactly 1, `updatedAt` becomes the clock reading, id, login and createdAt are kept, and every other user is unchanged. |
| `UserService.UpdateRetiresOldPassword` | src/user/user.service.ts:89-95 | After a successful change to a different password, repeating the same request gives Forbidden. |
| `UserService.Delete` | src/user/user.service.ts:106-118 | BadRequest or NotFound come before any change. On success no user has the id, every other user is kept, and nothing else changes. |
| `UserService.DeleteThenFindOne` | src/user/user.service.ts:117 | After a delete the user's id gives NotFound. |
| `UserService.DeleteKeepsOrder` | src/user/user.service.ts:117 | With unique ids, delete removes exactly one user and keeps the others in order. |
| `Consistency.FindAllComplete` | src/favs/favorites.service.ts:13-25 | In a consistent store the hydration filter drops nothing. Each returned list has one entity per favorite id, in favorites order. |
| `Consistency.AddKeepsConsistent` | src/favs/favorites.service.ts:27-48 | Adding a favorite keeps the store consistent. |
| `Consistency.RemoveKeepsConsistent` | src/favs/favorites.service.ts:50-62 | Removing a favorite keeps the store consistent. |
| `Consistency.ArtistCreateKeepsConsistent` | src/artist/artist.service.ts:30-44 | Creating an artist with a fresh id keeps the store consistent. |
| `Consistency.ArtistUpdateKeepsConsistent` | src/artist/artist.service.ts:46-78 | Updating an artist keeps the store consistent. |
| `Consistency.ArtistDeleteKeepsConsistent` | src/artist/artist.service.ts:80-108 | The artist cascade keeps the store consistent: no favorite is left naming the deleted artist. |
| `Consistency.ArtistDeleteKeepsReferences` | src/artist/artist.service.ts:95-107 | If every album and track reference resolved before an artist delete, they all still resolve after it. |
| `Consistency.AlbumCreateKeepsConsistent` | src/album/album.service.ts:30-45 | Creating an album with a fresh id keeps the store consistent. |
| `Consistency.AlbumUpdateKeepsConsistent` | src/album/album.service.ts:47-66 | Updating an album keeps the store consistent. |
| `Consistency.AlbumDeleteKeepsConsistent` | src/album/album.service.ts:68-90 | The album cascade keeps the store consistent. |
| `Consistency.AlbumDeleteKeepsReferences` | src/album/album.service.ts:83-89 | If every reference resolved before an album delete, they all still resolve after it. |
| `Consistency.TrackCreateKeepsConsistent` | src/track/track.service.ts:30-42 | Creating a track with a fresh id keeps the store consistent. |
| `Consistency.TrackUpdateKeepsConsistent` | src/track/track.service.ts:44-64 | Updating a track keeps the store consistent. |
| `Consistency.TrackDeleteKeepsConsistent` | src/track/track.service.ts:66-82 | The track cascade keeps the store consistent. |
| `Consistency.UserCreateKeepsConsistent` | src/user/user.service.ts:47-76 | Creating a user with a fresh id keeps the store consistent. |
| `Consistency.UserUpdateKeepsConsistent` | src/user/user.service.ts:78-104 | A password change keeps the store consistent. |
| `Consistency.UserDeleteKeepsConsistent` | src/user/user.service.ts:106-118 | Deleting a user keeps the store consistent. |

## Left out

- The UUID grammar: `isUuid` is an abstract parameter, so no property depends
  on which strings the `uuid` package accepts.
- `generateId` randomness and the clock: they are parameters. Uniqueness of a
  generated id is assumed through the `freshId` precondition.
- `findAll` of the artist, album and track services only returns the stored
  collection. It needs no contract and has no member.
- Messages: exception messages and the "added" or "already in favorites" text
  are reduced to the error kind and the `Ack` variant with the entity's name.
- JavaScript's dynamic typing on create bodies: every field has its declared
  type, and "missing, falsy or not a number" becomes `None`. So a truthy
  non-string `name`, or a `grammy` of `null`, is not modelled. Only the artist
  update, whose service checks `typeof` itself, takes raw JSON values.
- `AlbumService.Update`: an explicit `null` for `name` or `year` passes the
  optional-field validation of the update body, and `Object.assign` would
  store it. Stored albums always have a string name and a numeric year here,
  so the patch has no way to say `null` for these two fields. Only `artistId`
  models an explicit null.
- `TrackService.Update`: the model assumes the request validation for track
  updates (`name` and a duration of at least 1 are required). Its contract says
  nothing about a body without them.
- An album created without `artistId`, or a track created without `artistId`
  or `albumId`, stores `undefined`, not `null`, because the body's field is
  copied as given. The model uses `None` for both.
- Numbers are unbounded integers: non-integer durations or years, and the 2^53
  limit of JavaScript numbers (for `version`), are not modelled.
- Login uniqueness is not checked by the user service, and the model does not
  check it either.
- `ReferencesResolve` (every `artistId` and `albumId` names a stored entity) is
  not an invariant of the service. Creating or updating an album or track never
  checks the referenced entity exists. The model proves only that deletes keep
  it.
- Authentication (signup, login, token refresh, the request guard), logging,
  the controllers, bootstrap and the ORM-backed persistence are not part of
  this model. They wrap foreign libraries (bcrypt, JWT, the ORM) or do I/O.
- Concurrency: each operation is one atomic step on a store value. Interleaved
  requests are not modelled.
