/** The artist service: lookup, creation, type-checked partial update, and the
    delete that cascades to favorites, albums and tracks. */
module ArtistService {
  import opened Outcomes
  import opened Keyed
  import opened Db

  /** The creation body; a field the client left out is `None`. */
  datatype CreateArtistDto = CreateArtistDto(name: Option<string>, grammy: Option<bool>)

  /** A partial artist as sent to `update`: each field is absent or some JSON
      value, whose type the service checks itself. */
  datatype ArtistPatch = ArtistPatch(name: Option<Json>, grammy: Option<Json>)

  /** The patch passes the service's `typeof` checks. */
  predicate WellTyped(p: ArtistPatch) {
    && (p.name.Some? ==> p.name.value.JString?)
    && (p.grammy.Some? ==> p.grammy.value.JBool?)
  }

  /** `Object.assign(artist, patch)` for a well-typed patch. */
  function Merge(a: Artist, p: ArtistPatch): Artist
    requires WellTyped(p)
  {
    a.(name := if p.name.Some? then p.name.value.s else a.name,
       grammy := if p.grammy.Some? then p.grammy.value.b else a.grammy)
  }

  function FindOne(isUuid: IdCheck, s: Store, id: Id): (r: Result<Artist>)
    ensures !isUuid(id) ==> r == Err(BadRequest)
    ensures isUuid(id) && !HasKey(s.artists, ArtistKey, id) ==> r == Err(NotFound)
    ensures r.Ok? <==> isUuid(id) && HasKey(s.artists, ArtistKey, id)
    ensures r.Ok? ==> r.value in s.artists && r.value.id == id
  {
    Lookup(isUuid, s.artists, ArtistKey, id)
  }

  /** `freshId` is what `generateId()` returned: an id no artist has yet. */
  function Create(s: Store, dto: CreateArtistDto, freshId: Id): (r: Result<(Artist, Store)>)
    requires !HasKey(s.artists, ArtistKey, freshId)
    ensures r.Err? <==> dto.name.None? || dto.name.value == "" || dto.grammy.None?
    ensures r.Err? ==> r.error == BadRequest
    ensures r.Ok? ==>
      && r.value.0 == Artist(freshId, dto.name.value, dto.grammy.value)
      && r.value.1.artists == s.artists + [r.value.0]
      && |r.value.1.artists| == |s.artists| + 1
      && r.value.1 == s.(artists := r.value.1.artists)
  {
    if dto.name.None? || dto.name.value == "" || dto.grammy.None? then Err(BadRequest)
    else
      var a := Artist(freshId, dto.name.value, dto.grammy.value);
      Ok((a, s.(artists := s.artists + [a])))
  }

  /** The checks run in source order: id format, then the type of `name`,
      then the type of `grammy`, and only then the lookup. */
  function Update(isUuid: IdCheck, s: Store, id: Id, p: ArtistPatch): (r: Result<(Artist, Store)>)
    ensures !isUuid(id) ==> r == Err(BadRequest)
    ensures isUuid(id) && !WellTyped(p) ==> r == Err(BadRequest)
    ensures isUuid(id) && WellTyped(p) && !HasKey(s.artists, ArtistKey, id) ==> r == Err(NotFound)
    ensures r.Ok? <==> isUuid(id) && WellTyped(p) && HasKey(s.artists, ArtistKey, id)
    ensures r.Ok? ==>
      IndexOf(s.artists, ArtistKey, id).Some? &&
      var i, (a, t) := IndexOf(s.artists, ArtistKey, id).value, r.value;
      && t == s.(artists := s.artists[i := a])
      && a.id == id
      && a.name == (if p.name.Some? then p.name.value.s else s.artists[i].name)
      && a.grammy == (if p.grammy.Some? then p.grammy.value.b else s.artists[i].grammy)
  {
    if !isUuid(id) then Err(BadRequest)
    else if p.name.Some? && !p.name.value.JString? then Err(BadRequest)
    else if p.grammy.Some? && !p.grammy.value.JBool? then Err(BadRequest)
    else
      match IndexOf(s.artists, ArtistKey, id)
      case None => Err(NotFound)
      case Some(i) =>
        var a := Merge(s.artists[i], p);
        Ok((a, s.(artists := s.artists[i := a])))
  }

  /** The cascade's album step: every album by the artist loses its artist. */
  function ClearAlbumArtist(albums: seq<Album>, id: Id): (r: seq<Album>)
    ensures |r| == |albums|
    ensures forall i :: 0 <= i < |r| ==> r[i].artistId != Some(id)
    ensures forall i :: 0 <= i < |r| ==>
      r[i] == albums[i].(artistId := if albums[i].artistId == Some(id) then None else albums[i].artistId)
  {
    seq(|albums|, i requires 0 <= i < |albums| =>
      if albums[i].artistId == Some(id) then albums[i].(artistId := None) else albums[i])
  }

  /** The cascade's track step: every track by the artist loses its artist. */
  function ClearTrackArtist(tracks: seq<Track>, id: Id): (r: seq<Track>)
    ensures |r| == |tracks|
    ensures forall i :: 0 <= i < |r| ==> r[i].artistId != Some(id)
    ensures forall i :: 0 <= i < |r| ==>
      r[i] == tracks[i].(artistId := if tracks[i].artistId == Some(id) then None else tracks[i].artistId)
  {
    seq(|tracks|, i requires 0 <= i < |tracks| =>
      if tracks[i].artistId == Some(id) then tracks[i].(artistId := None) else tracks[i])
  }

  /** Both checks come before any change. On success no reference to the
      artist survives, and the only change to an album or track is that an
      `artistId` equal to the deleted id becomes null. */
  function Delete(isUuid: IdCheck, s: Store, id: Id): (r: Result<Store>)
    ensures !isUuid(id) ==> r == Err(BadRequest)
    ensures isUuid(id) && !HasKey(s.artists, ArtistKey, id) ==> r == Err(NotFound)
    ensures r.Ok? <==> isUuid(id) && HasKey(s.artists, ArtistKey, id)
    ensures r.Ok? ==>
      var t := r.value;
      && !HasKey(t.artists, ArtistKey, id)
      && (forall a :: a in t.artists <==> a in s.artists && a.id != id)
      && id !in t.favorites.artists
      && (forall x :: x in t.favorites.artists <==> x in s.favorites.artists && x != id)
      && t.favorites.albums == s.favorites.albums
      && t.favorites.tracks == s.favorites.tracks
      && t.users == s.users
      && |t.albums| == |s.albums|
      && (forall i :: 0 <= i < |t.albums| ==> t.albums[i].artistId != Some(id))
      && (forall i :: 0 <= i < |t.albums| ==>
            t.albums[i] == (if s.albums[i].artistId == Some(id) then s.albums[i].(artistId := None) else s.albums[i]))
      && |t.tracks| == |s.tracks|
      && (forall i :: 0 <= i < |t.tracks| ==> t.tracks[i].artistId != Some(id))
      && (forall i :: 0 <= i < |t.tracks| ==>
            t.tracks[i] == (if s.tracks[i].artistId == Some(id) then s.tracks[i].(artistId := None) else s.tracks[i]))
  {
    if !isUuid(id) then Err(BadRequest)
    else if !HasKey(s.artists, ArtistKey, id) then Err(NotFound)
    else
      Ok(Store(
        users := s.users,
        artists := RemoveKey(s.artists, ArtistKey, id),
        albums := ClearAlbumArtist(s.albums, id),
        tracks := ClearTrackArtist(s.tracks, id),
        favorites := s.favorites.(artists := Without(s.favorites.artists, id))))
  }

  /** A created artist can be fetched back by its id, field for field. */
  lemma CreateThenFindOne(isUuid: IdCheck, s: Store, dto: CreateArtistDto, freshId: Id)
    requires !HasKey(s.artists, ArtistKey, freshId)
    requires isUuid(freshId)
    requires Create(s, dto, freshId).Ok?
    ensures FindOne(isUuid, Create(s, dto, freshId).value.1, freshId)
            == Ok(Create(s, dto, freshId).value.0)
  {
    var (a, t) := Create(s, dto, freshId).value;
    assert t.artists[|s.artists|] == a;
    assert IndexOf(t.artists, ArtistKey, freshId) == Some(|s.artists|) by {
      forall j | 0 <= j < |s.artists|
        ensures ArtistKey(t.artists[j]) != freshId
      {
        assert t.artists[j] == s.artists[j];
      }
    }
  }

  /** Once deleted, an artist is not found any more. */
  lemma DeleteThenFindOne(isUuid: IdCheck, s: Store, id: Id)
    requires Delete(isUuid, s, id).Ok?
    ensures FindOne(isUuid, Delete(isUuid, s, id).value, id) == Err(NotFound)
  {
  }

  /** When ids are unique, delete removes exactly the one artist and the
      others keep their order. */
  lemma DeleteKeepsOrder(isUuid: IdCheck, s: Store, id: Id)
    requires UniqueKeys(s.artists, ArtistKey)
    requires Delete(isUuid, s, id).Ok?
    ensures IndexOf(s.artists, ArtistKey, id).Some?
    ensures var i := IndexOf(s.artists, ArtistKey, id).value;
      Delete(isUuid, s, id).value.artists == s.artists[..i] + s.artists[i + 1..]
  {
    var i := IndexOf(s.artists, ArtistKey, id).value;
    RemoveKeyAt(s.artists, ArtistKey, id, i);
  }

  /** An update with no fields returns the stored artist and changes nothing. */
  lemma UpdateEmptyPatch(isUuid: IdCheck, s: Store, id: Id)
    requires isUuid(id) && HasKey(s.artists, ArtistKey, id)
    ensures Update(isUuid, s, id, ArtistPatch(None, None)) == Ok((FindOne(isUuid, s, id).value, s))
  {
    var i := IndexOf(s.artists, ArtistKey, id).value;
    assert s.artists[i := s.artists[i]] == s.artists;
  }

  /** Updating is idempotent: applying the same patch twice leaves the store
      as applying it once. */
  lemma UpdateIdempotent(isUuid: IdCheck, s: Store, id: Id, p: ArtistPatch)
    requires Update(isUuid, s, id, p).Ok?
    ensures var t := Update(isUuid, s, id, p).value.1;
      Update(isUuid, t, id, p) == Ok(Update(isUuid, s, id, p).value)
  {
    var i := IndexOf(s.artists, ArtistKey, id).value;
    var (a, t) := Update(isUuid, s, id, p).value;
    IndexOfAfterUpdate(s.artists, ArtistKey, id, i, a);
    assert t.artists[i] == a && Merge(a, p) == a;
    assert t.artists[i := a] == t.artists;
  }
}
