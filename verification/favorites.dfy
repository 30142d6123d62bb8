/** The favorites aggregate: three lists of bare ids, hydrated on read. The
    service has one add and one remove per kind (`createTrack`,
    `createAlbum`, `createArtist`, `deleteTrack`, ...); the three copies
    differ only in which list and which collection they use, so they are
    modelled once, with the kind as a parameter. */
module FavoritesService {
  import opened Outcomes
  import opened Keyed
  import opened Db

  datatype Kind = ArtistKind | AlbumKind | TrackKind

  /** The answer to a successful add; the service reports the entity's name. */
  datatype Ack = Added(name: string) | AlreadyFavorite(name: string)

  /** The hydrated favorites that `findAll` returns. */
  datatype FavoritesView = FavoritesView(artists: seq<Artist>, albums: seq<Album>, tracks: seq<Track>)

  /** The favorite ids of one kind. */
  function Ids(f: Favorites, k: Kind): seq<Id> {
    match k
    case ArtistKind => f.artists
    case AlbumKind => f.albums
    case TrackKind => f.tracks
  }

  /** Replaces the favorite ids of one kind, leaving the other two lists. */
  function WithIds(f: Favorites, k: Kind, ids: seq<Id>): (r: Favorites)
    ensures Ids(r, k) == ids
    ensures forall k' :: k' != k ==> Ids(r, k') == Ids(f, k')
  {
    match k
    case ArtistKind => f.(artists := ids)
    case AlbumKind => f.(albums := ids)
    case TrackKind => f.(tracks := ids)
  }

  /** An entity of kind `k` with this id is stored. */
  predicate Stored(s: Store, k: Kind, id: Id) {
    match k
    case ArtistKind => HasKey(s.artists, ArtistKey, id)
    case AlbumKind => HasKey(s.albums, AlbumKey, id)
    case TrackKind => HasKey(s.tracks, TrackKey, id)
  }

  /** The name of the entity `find` locates, if any. */
  function NameOf(s: Store, k: Kind, id: Id): (r: Option<string>)
    ensures r.Some? <==> Stored(s, k, id)
    ensures k == ArtistKind && r.Some? ==> r.value == Find(s.artists, ArtistKey, id).value.name
    ensures k == AlbumKind && r.Some? ==> r.value == Find(s.albums, AlbumKey, id).value.name
    ensures k == TrackKind && r.Some? ==> r.value == Find(s.tracks, TrackKey, id).value.name
  {
    match k
    case ArtistKind => (var a :- Find(s.artists, ArtistKey, id); Some(a.name))
    case AlbumKind => (var a :- Find(s.albums, AlbumKey, id); Some(a.name))
    case TrackKind => (var t :- Find(s.tracks, TrackKey, id); Some(t.name))
  }

  /** The four entity collections are the same in both stores. */
  predicate SameEntities(s: Store, t: Store) {
    s.users == t.users && s.artists == t.artists && s.albums == t.albums && s.tracks == t.tracks
  }

  /** Every returned entity is stored and favorited; ids that name no entity
      are dropped, so each list is at most as long as its id list.
      `FindAllReturnsFavorites` states the converse and the three
      `FindAll...InOrder` lemmas the order. */
  function FindAll(s: Store): (r: FavoritesView)
    ensures |r.artists| <= |s.favorites.artists|
    ensures |r.albums| <= |s.favorites.albums|
    ensures |r.tracks| <= |s.favorites.tracks|
    ensures forall j :: 0 <= j < |r.artists| ==> r.artists[j] in s.artists && r.artists[j].id in s.favorites.artists
    ensures forall j :: 0 <= j < |r.albums| ==> r.albums[j] in s.albums && r.albums[j].id in s.favorites.albums
    ensures forall j :: 0 <= j < |r.tracks| ==> r.tracks[j] in s.tracks && r.tracks[j].id in s.favorites.tracks
  {
    FavoritesView(
      Hydrate(s.favorites.artists, s.artists, ArtistKey),
      Hydrate(s.favorites.albums, s.albums, AlbumKey),
      Hydrate(s.favorites.tracks, s.tracks, TrackKey))
  }

  /** `createTrack` / `createAlbum` / `createArtist`. The id format is
      checked first (BadRequest), then the entity's existence
      (UnprocessableEntity). An id already in the list is acknowledged
      without any change; otherwise it is appended. */
  function Add(isUuid: IdCheck, s: Store, k: Kind, id: Id): (r: Result<(Ack, Store)>)
    ensures !isUuid(id) ==> r == Err(BadRequest)
    ensures isUuid(id) && !Stored(s, k, id) ==> r == Err(UnprocessableEntity)
    ensures r.Ok? <==> isUuid(id) && Stored(s, k, id)
    ensures r.Ok? ==>
      var (ack, t) := r.value;
      && SameEntities(s, t)
      && (forall k' :: k' != k ==> Ids(t.favorites, k') == Ids(s.favorites, k'))
      && Some(ack.name) == NameOf(s, k, id)
      && (ack.AlreadyFavorite? <==> id in Ids(s.favorites, k))
      && (ack.AlreadyFavorite? ==> t == s)
      && (ack.Added? ==> Ids(t.favorites, k) == Ids(s.favorites, k) + [id])
      && (forall x :: x in Ids(t.favorites, k) <==> x in Ids(s.favorites, k) || x == id)
      && (NoDuplicates(Ids(s.favorites, k)) ==> NoDuplicates(Ids(t.favorites, k)))
  {
    if !isUuid(id) then Err(BadRequest)
    else
      match NameOf(s, k, id)
      case None => Err(UnprocessableEntity)
      case Some(name) =>
        var ids := Ids(s.favorites, k);
        if id in ids then Ok((AlreadyFavorite(name), s))
        else
          var t := s.(favorites := WithIds(s.favorites, k, ids + [id]));
          assert forall a :: 0 <= a < |ids| ==> (ids + [id])[a] == ids[a];
          Ok((Added(name), t))
  }

  /** `deleteTrack` / `deleteAlbum` / `deleteArtist`. The id format is
      checked first (BadRequest), then membership (NotFound); the id is then
      filtered out of its list. */
  function Remove(isUuid: IdCheck, s: Store, k: Kind, id: Id): (r: Result<Store>)
    ensures !isUuid(id) ==> r == Err(BadRequest)
    ensures isUuid(id) && id !in Ids(s.favorites, k) ==> r == Err(NotFound)
    ensures r.Ok? <==> isUuid(id) && id in Ids(s.favorites, k)
    ensures r.Ok? ==>
      var t := r.value;
      && SameEntities(s, t)
      && (forall k' :: k' != k ==> Ids(t.favorites, k') == Ids(s.favorites, k'))
      && id !in Ids(t.favorites, k)
      && (forall x :: x in Ids(t.favorites, k) <==> x in Ids(s.favorites, k) && x != id)
  {
    if !isUuid(id) then Err(BadRequest)
    else if id !in Ids(s.favorites, k) then Err(NotFound)
    else
      var ids := Ids(s.favorites, k);
      Ok(s.(favorites := WithIds(s.favorites, k, Without(ids, id))))
  }

  /** Adding is idempotent: a second add of the same id is acknowledged as
      already present and leaves the store as the first add left it. */
  lemma AddIdempotent(isUuid: IdCheck, s: Store, k: Kind, id: Id)
    requires Add(isUuid, s, k, id).Ok?
    ensures var (ack, t) := Add(isUuid, s, k, id).value;
      Add(isUuid, t, k, id) == Ok((AlreadyFavorite(ack.name), t))
  {
  }

  /** Adding a new favorite and removing it again restores the store. */
  lemma AddThenRemove(isUuid: IdCheck, s: Store, k: Kind, id: Id)
    requires Add(isUuid, s, k, id).Ok?
    requires id !in Ids(s.favorites, k)
    ensures Remove(isUuid, Add(isUuid, s, k, id).value.1, k, id) == Ok(s)
  {
    var ids := Ids(s.favorites, k);
    assert Without(ids + [id], id) == ids by {
      RemoveKeyAppend(ids, [id], Identity, id);
      WithoutAbsent(ids, id);
      assert Without([id], id) == [];
    }
    assert WithIds(s.favorites, k, ids) == s.favorites;
  }

  /** In a list without duplicates, removing takes out exactly the one
      position holding the id and keeps the other favorites in order. */
  lemma RemoveKeepsOrder(isUuid: IdCheck, s: Store, k: Kind, id: Id)
    requires NoDuplicates(Ids(s.favorites, k))
    requires Remove(isUuid, s, k, id).Ok?
    ensures var ids, t := Ids(s.favorites, k), Remove(isUuid, s, k, id).value;
      exists i :: 0 <= i < |ids| && ids[i] == id && Ids(t.favorites, k) == ids[..i] + ids[i + 1..]
  {
    var ids := Ids(s.favorites, k);
    var i :| 0 <= i < |ids| && ids[i] == id;
    WithoutAt(ids, i);
  }

  /** Removing keeps a favorites list free of duplicates. */
  lemma RemoveKeepsNoDuplicates(isUuid: IdCheck, s: Store, k: Kind, id: Id)
    requires NoDuplicates(Ids(s.favorites, k))
    requires Remove(isUuid, s, k, id).Ok?
    ensures NoDuplicates(Ids(Remove(isUuid, s, k, id).value.favorites, k))
  {
    WithoutKeepsNoDuplicates(Ids(s.favorites, k), id);
  }

  /** `findAll` answers in favorites order: around the i-th favorite artist
      id, the artists of the earlier ids come first, then the artist the i-th
      id names (nothing if it names none), then those of the later ids. */
  lemma {:induction false} FindAllArtistsInOrder(s: Store, i: nat)
    requires i < |s.favorites.artists|
    ensures FindAll(s).artists == Hydrate(s.favorites.artists[..i], s.artists, ArtistKey) +
      Resolved(s.artists, ArtistKey, s.favorites.artists[i]) + Hydrate(s.favorites.artists[i + 1..], s.artists, ArtistKey)
  {
    HydrateSplit(s.favorites.artists, s.artists, ArtistKey, i);
  }

  /** The same order for the favorite albums. */
  lemma {:induction false} FindAllAlbumsInOrder(s: Store, i: nat)
    requires i < |s.favorites.albums|
    ensures FindAll(s).albums == Hydrate(s.favorites.albums[..i], s.albums, AlbumKey) +
      Resolved(s.albums, AlbumKey, s.favorites.albums[i]) + Hydrate(s.favorites.albums[i + 1..], s.albums, AlbumKey)
  {
    HydrateSplit(s.favorites.albums, s.albums, AlbumKey, i);
  }

  /** The same order for the favorite tracks. */
  lemma {:induction false} FindAllTracksInOrder(s: Store, i: nat)
    requires i < |s.favorites.tracks|
    ensures FindAll(s).tracks == Hydrate(s.favorites.tracks[..i], s.tracks, TrackKey) +
      Resolved(s.tracks, TrackKey, s.favorites.tracks[i]) + Hydrate(s.favorites.tracks[i + 1..], s.tracks, TrackKey)
  {
    HydrateSplit(s.favorites.tracks, s.tracks, TrackKey, i);
  }

  /** `findAll` drops only favorites that name nothing: every favorite id
      that names a stored entity yields the entity `find` locates. */
  lemma FindAllReturnsFavorites(s: Store)
    ensures forall x :: x in s.favorites.artists && HasKey(s.artists, ArtistKey, x) ==>
      Find(s.artists, ArtistKey, x).value in FindAll(s).artists
    ensures forall x :: x in s.favorites.albums && HasKey(s.albums, AlbumKey, x) ==>
      Find(s.albums, AlbumKey, x).value in FindAll(s).albums
    ensures forall x :: x in s.favorites.tracks && HasKey(s.tracks, TrackKey, x) ==>
      Find(s.tracks, TrackKey, x).value in FindAll(s).tracks
  {
    forall x | x in s.favorites.artists && HasKey(s.artists, ArtistKey, x)
      ensures Find(s.artists, ArtistKey, x).value in FindAll(s).artists
    {
      HydrateComplete(s.favorites.artists, s.artists, ArtistKey, x);
    }
    forall x | x in s.favorites.albums && HasKey(s.albums, AlbumKey, x)
      ensures Find(s.albums, AlbumKey, x).value in FindAll(s).albums
    {
      HydrateComplete(s.favorites.albums, s.albums, AlbumKey, x);
    }
    forall x | x in s.favorites.tracks && HasKey(s.tracks, TrackKey, x)
      ensures Find(s.tracks, TrackKey, x).value in FindAll(s).tracks
    {
      HydrateComplete(s.favorites.tracks, s.tracks, TrackKey, x);
    }
  }
}
