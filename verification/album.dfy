/** The album service: lookup, creation, partial update, and the delete that
    cascades to favorites and to the tracks on the album. */
module AlbumService {
  import opened Outcomes
  import opened Keyed
  import opened Db

  /** The creation body. `year` is `None` when it is missing or not a number. */
  datatype CreateAlbumDto = CreateAlbumDto(name: Option<string>, year: Option<int>, artistId: Option<Id>)

  /** The update body: every field optional. `artistId` is `Some(None)` when the
      client sends an explicit null. */
  datatype AlbumPatch = AlbumPatch(name: Option<string>, year: Option<int>, artistId: Option<Option<Id>>)

  /** What the request validation admits: an artist id, if given, is a UUID. */
  predicate ValidPatch(isUuid: IdCheck, p: AlbumPatch) {
    p.artistId.Some? && p.artistId.value.Some? ==> isUuid(p.artistId.value.value)
  }

  /** `Object.assign(album, patch)`. */
  function Merge(a: Album, p: AlbumPatch): Album {
    a.(name := if p.name.Some? then p.name.value else a.name,
       year := if p.year.Some? then p.year.value else a.year,
       artistId := if p.artistId.Some? then p.artistId.value else a.artistId)
  }

  function FindOne(isUuid: IdCheck, s: Store, id: Id): (r: Result<Album>)
    ensures !isUuid(id) ==> r == Err(BadRequest)
    ensures isUuid(id) && !HasKey(s.albums, AlbumKey, id) ==> r == Err(NotFound)
    ensures r.Ok? <==> isUuid(id) && HasKey(s.albums, AlbumKey, id)
    ensures r.Ok? ==> r.value in s.albums && r.value.id == id
  {
    Lookup(isUuid, s.albums, AlbumKey, id)
  }

  /** `freshId` is what `generateId()` returned: an id no album has yet. The
      artist id is stored as given; nothing checks that the artist exists. */
  function Create(s: Store, dto: CreateAlbumDto, freshId: Id): (r: Result<(Album, Store)>)
    requires !HasKey(s.albums, AlbumKey, freshId)
    ensures r.Err? <==> dto.name.None? || dto.name.value == "" || dto.year.None?
    ensures r.Err? ==> r.error == BadRequest
    ensures r.Ok? ==>
      && r.value.0 == Album(freshId, dto.name.value, dto.year.value, dto.artistId)
      && r.value.1.albums == s.albums + [r.value.0]
      && |r.value.1.albums| == |s.albums| + 1
      && r.value.1 == s.(albums := r.value.1.albums)
  {
    if dto.name.None? || dto.name.value == "" || dto.year.None? then Err(BadRequest)
    else
      var a := Album(freshId, dto.name.value, dto.year.value, dto.artistId);
      Ok((a, s.(albums := s.albums + [a])))
  }

  /** A malformed id is rejected before the lookup; only supplied fields change. */
  function Update(isUuid: IdCheck, s: Store, id: Id, p: AlbumPatch): (r: Result<(Album, Store)>)
    requires ValidPatch(isUuid, p)
    ensures !isUuid(id) ==> r == Err(BadRequest)
    ensures isUuid(id) && !HasKey(s.albums, AlbumKey, id) ==> r == Err(NotFound)
    ensures r.Ok? <==> isUuid(id) && HasKey(s.albums, AlbumKey, id)
    ensures r.Ok? ==>
      IndexOf(s.albums, AlbumKey, id).Some? &&
      var i, (a, t) := IndexOf(s.albums, AlbumKey, id).value, r.value;
      && t == s.(albums := s.albums[i := a])
      && a.id == id
      && a.name == (if p.name.Some? then p.name.value else s.albums[i].name)
      && a.year == (if p.year.Some? then p.year.value else s.albums[i].year)
      && a.artistId == (if p.artistId.Some? then p.artistId.value else s.albums[i].artistId)
  {
    if !isUuid(id) then Err(BadRequest)
    else
      match IndexOf(s.albums, AlbumKey, id)
      case None => Err(NotFound)
      case Some(i) =>
        var a := Merge(s.albums[i], p);
        Ok((a, s.(albums := s.albums[i := a])))
  }

  /** The cascade's track step: every track on the album loses its album. */
  function ClearTrackAlbum(tracks: seq<Track>, id: Id): (r: seq<Track>)
    ensures |r| == |tracks|
    ensures forall i :: 0 <= i < |r| ==> r[i].albumId != Some(id)
    ensures forall i :: 0 <= i < |r| ==>
      r[i] == tracks[i].(albumId := if tracks[i].albumId == Some(id) then None else tracks[i].albumId)
  {
    seq(|tracks|, i requires 0 <= i < |tracks| =>
      if tracks[i].albumId == Some(id) then tracks[i].(albumId := None) else tracks[i])
  }

  /** Both checks come before any change. On success the album is gone from the
      albums and from the favorite albums, and the only change to a track is
      that an `albumId` equal to the deleted id becomes null. */
  function Delete(isUuid: IdCheck, s: Store, id: Id): (r: Result<Store>)
    ensures !isUuid(id) ==> r == Err(BadRequest)
    ensures isUuid(id) && !HasKey(s.albums, AlbumKey, id) ==> r == Err(NotFound)
    ensures r.Ok? <==> isUuid(id) && HasKey(s.albums, AlbumKey, id)
    ensures r.Ok? ==>
      var t := r.value;
      && !HasKey(t.albums, AlbumKey, id)
      && (forall a :: a in t.albums <==> a in s.albums && a.id != id)
      && id !in t.favorites.albums
      && (forall x :: x in t.favorites.albums <==> x in s.favorites.albums && x != id)
      && t.favorites.artists == s.favorites.artists
      && t.favorites.tracks == s.favorites.tracks
      && t.users == s.users
      && t.artists == s.artists
      && |t.tracks| == |s.tracks|
      && (forall i :: 0 <= i < |t.tracks| ==> t.tracks[i].albumId != Some(id))
      && (forall i :: 0 <= i < |t.tracks| ==>
            t.tracks[i] == (if s.tracks[i].albumId == Some(id) then s.tracks[i].(albumId := None) else s.tracks[i]))
  {
    if !isUuid(id) then Err(BadRequest)
    else if !HasKey(s.albums, AlbumKey, id) then Err(NotFound)
    else
      Ok(s.(albums := RemoveKey(s.albums, AlbumKey, id),
            tracks := ClearTrackAlbum(s.tracks, id),
            favorites := s.favorites.(albums := Without(s.favorites.albums, id))))
  }

  /** A created album can be fetched back by its id, field for field. */
  lemma CreateThenFindOne(isUuid: IdCheck, s: Store, dto: CreateAlbumDto, freshId: Id)
    requires !HasKey(s.albums, AlbumKey, freshId)
    requires isUuid(freshId)
    requires Create(s, dto, freshId).Ok?
    ensures FindOne(isUuid, Create(s, dto, freshId).value.1, freshId)
            == Ok(Create(s, dto, freshId).value.0)
  {
    var (a, t) := Create(s, dto, freshId).value;
    forall j | 0 <= j < |s.albums|
      ensures AlbumKey(t.albums[j]) != freshId
    {
      assert t.albums[j] == s.albums[j];
    }
    IndexOfFirst(t.albums, AlbumKey, freshId, |s.albums|);
  }

  /** Once deleted, an album is not found any more. */
  lemma DeleteThenFindOne(isUuid: IdCheck, s: Store, id: Id)
    requires Delete(isUuid, s, id).Ok?
    ensures FindOne(isUuid, Delete(isUuid, s, id).value, id) == Err(NotFound)
  {
  }

  /** When ids are unique, delete removes exactly the one album and the others
      keep their order. */
  lemma DeleteKeepsOrder(isUuid: IdCheck, s: Store, id: Id)
    requires UniqueKeys(s.albums, AlbumKey)
    requires Delete(isUuid, s, id).Ok?
    ensures IndexOf(s.albums, AlbumKey, id).Some?
    ensures var i := IndexOf(s.albums, AlbumKey, id).value;
      Delete(isUuid, s, id).value.albums == s.albums[..i] + s.albums[i + 1..]
  {
    var i := IndexOf(s.albums, AlbumKey, id).value;
    RemoveKeyAt(s.albums, AlbumKey, id, i);
  }

  /** An update with no fields returns the stored album and changes nothing. */
  lemma UpdateEmptyPatch(isUuid: IdCheck, s: Store, id: Id)
    requires isUuid(id) && HasKey(s.albums, AlbumKey, id)
    ensures Update(isUuid, s, id, AlbumPatch(None, None, None)) == Ok((FindOne(isUuid, s, id).value, s))
  {
    var i := IndexOf(s.albums, AlbumKey, id).value;
    assert s.albums[i := s.albums[i]] == s.albums;
  }

  /** Applying the same patch twice leaves the store as applying it once. */
  lemma UpdateIdempotent(isUuid: IdCheck, s: Store, id: Id, p: AlbumPatch)
    requires ValidPatch(isUuid, p)
    requires Update(isUuid, s, id, p).Ok?
    ensures var t := Update(isUuid, s, id, p).value.1;
      Update(isUuid, t, id, p) == Ok(Update(isUuid, s, id, p).value)
  {
    var i := IndexOf(s.albums, AlbumKey, id).value;
    var (a, t) := Update(isUuid, s, id, p).value;
    IndexOfAfterUpdate(s.albums, AlbumKey, id, i, a);
    assert t.albums[i] == a && Merge(a, p) == a;
    assert t.albums[i := a] == t.albums;
  }
}
