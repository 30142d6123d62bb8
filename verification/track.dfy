/** The track service: lookup, creation, partial update, and the delete that
    cascades to the favorite tracks. */
module TrackService {
  import opened Outcomes
  import opened Keyed
  import opened Db

  /** The creation body, already validated by the request layer. */
  datatype CreateTrackDto = CreateTrackDto(name: string, artistId: Option<Id>, albumId: Option<Id>, duration: int)

  /** What the request validation admits for a new track: a duration of at
      least 1, and UUIDs for the optional artist and album references. */
  predicate ValidCreate(isUuid: IdCheck, dto: CreateTrackDto) {
    && dto.duration >= 1
    && (dto.artistId.Some? ==> isUuid(dto.artistId.value))
    && (dto.albumId.Some? ==> isUuid(dto.albumId.value))
  }

  /** The update body as the service sees it (a partial track). A reference
      is `Some(None)` when the client sends an explicit null. */
  datatype TrackPatch = TrackPatch(
    name: Option<string>,
    artistId: Option<Option<Id>>,
    albumId: Option<Option<Id>>,
    duration: Option<int>)

  /** What the request validation admits for an update: `name` and `duration`
      are required, and the duration is at least 1. */
  predicate ValidPatch(p: TrackPatch) {
    p.name.Some? && p.duration.Some? && p.duration.value >= 1
  }

  /** `Object.assign(track, patch)`. */
  function Merge(t: Track, p: TrackPatch): Track {
    t.(name := if p.name.Some? then p.name.value else t.name,
       artistId := if p.artistId.Some? then p.artistId.value else t.artistId,
       albumId := if p.albumId.Some? then p.albumId.value else t.albumId,
       duration := if p.duration.Some? then p.duration.value else t.duration)
  }

  function FindOne(isUuid: IdCheck, s: Store, id: Id): (r: Result<Track>)
    ensures !isUuid(id) ==> r == Err(BadRequest)
    ensures isUuid(id) && !HasKey(s.tracks, TrackKey, id) ==> r == Err(NotFound)
    ensures r.Ok? <==> isUuid(id) && HasKey(s.tracks, TrackKey, id)
    ensures r.Ok? ==> r.value in s.tracks && r.value.id == id
  {
    Lookup(isUuid, s.tracks, TrackKey, id)
  }

  /** The service itself validates nothing and cannot fail: it stores the
      body under `freshId`, an id no track has yet. */
  function Create(isUuid: IdCheck, s: Store, dto: CreateTrackDto, freshId: Id): (r: (Track, Store))
    requires ValidCreate(isUuid, dto)
    requires !HasKey(s.tracks, TrackKey, freshId)
    ensures r.0 == Track(freshId, dto.name, dto.artistId, dto.albumId, dto.duration)
    ensures r.1.tracks == s.tracks + [r.0]
    ensures |r.1.tracks| == |s.tracks| + 1
    ensures r.1 == s.(tracks := r.1.tracks)
  {
    var t := Track(freshId, dto.name, dto.artistId, dto.albumId, dto.duration);
    (t, s.(tracks := s.tracks + [t]))
  }

  /** A malformed id is rejected before the lookup; only supplied fields change. */
  function Update(isUuid: IdCheck, s: Store, id: Id, p: TrackPatch): (r: Result<(Track, Store)>)
    requires ValidPatch(p)
    ensures !isUuid(id) ==> r == Err(BadRequest)
    ensures isUuid(id) && !HasKey(s.tracks, TrackKey, id) ==> r == Err(NotFound)
    ensures r.Ok? <==> isUuid(id) && HasKey(s.tracks, TrackKey, id)
    ensures r.Ok? ==>
      IndexOf(s.tracks, TrackKey, id).Some? &&
      var i, (a, t) := IndexOf(s.tracks, TrackKey, id).value, r.value;
      && t == s.(tracks := s.tracks[i := a])
      && a.id == id
      && a.name == p.name.value
      && a.duration == p.duration.value
      && a.artistId == (if p.artistId.Some? then p.artistId.value else s.tracks[i].artistId)
      && a.albumId == (if p.albumId.Some? then p.albumId.value else s.tracks[i].albumId)
  {
    if !isUuid(id) then Err(BadRequest)
    else
      match IndexOf(s.tracks, TrackKey, id)
      case None => Err(NotFound)
      case Some(i) =>
        var a := Merge(s.tracks[i], p);
        Ok((a, s.(tracks := s.tracks[i := a])))
  }

  /** Both checks come before any change. On success the track is gone from the
      tracks and from the favorite tracks; nothing else changes. */
  function Delete(isUuid: IdCheck, s: Store, id: Id): (r: Result<Store>)
    ensures !isUuid(id) ==> r == Err(BadRequest)
    ensures isUuid(id) && !HasKey(s.tracks, TrackKey, id) ==> r == Err(NotFound)
    ensures r.Ok? <==> isUuid(id) && HasKey(s.tracks, TrackKey, id)
    ensures r.Ok? ==>
      var t := r.value;
      && !HasKey(t.tracks, TrackKey, id)
      && (forall a :: a in t.tracks <==> a in s.tracks && a.id != id)
      && id !in t.favorites.tracks
      && (forall x :: x in t.favorites.tracks <==> x in s.favorites.tracks && x != id)
      && t.favorites.artists == s.favorites.artists
      && t.favorites.albums == s.favorites.albums
      && t.users == s.users
      && t.artists == s.artists
      && t.albums == s.albums
  {
    if !isUuid(id) then Err(BadRequest)
    else if !HasKey(s.tracks, TrackKey, id) then Err(NotFound)
    else
      Ok(s.(tracks := RemoveKey(s.tracks, TrackKey, id),
            favorites := s.favorites.(tracks := Without(s.favorites.tracks, id))))
  }

  /** A created track can be fetched back by its id, field for field. */
  lemma CreateThenFindOne(isUuid: IdCheck, s: Store, dto: CreateTrackDto, freshId: Id)
    requires ValidCreate(isUuid, dto)
    requires !HasKey(s.tracks, TrackKey, freshId)
    requires isUuid(freshId)
    ensures FindOne(isUuid, Create(isUuid, s, dto, freshId).1, freshId)
            == Ok(Create(isUuid, s, dto, freshId).0)
  {
    var (a, t) := Create(isUuid, s, dto, freshId);
    forall j | 0 <= j < |s.tracks|
      ensures TrackKey(t.tracks[j]) != freshId
    {
      assert t.tracks[j] == s.tracks[j];
    }
    IndexOfFirst(t.tracks, TrackKey, freshId, |s.tracks|);
  }

  /** Once deleted, a track is not found any more. */
  lemma DeleteThenFindOne(isUuid: IdCheck, s: Store, id: Id)
    requires Delete(isUuid, s, id).Ok?
    ensures FindOne(isUuid, Delete(isUuid, s, id).value, id) == Err(NotFound)
  {
  }

  /** When ids are unique, delete removes exactly the one track and the others
      keep their order. */
  lemma DeleteKeepsOrder(isUuid: IdCheck, s: Store, id: Id)
    requires UniqueKeys(s.tracks, TrackKey)
    requires Delete(isUuid, s, id).Ok?
    ensures IndexOf(s.tracks, TrackKey, id).Some?
    ensures var i := IndexOf(s.tracks, TrackKey, id).value;
      Delete(isUuid, s, id).value.tracks == s.tracks[..i] + s.tracks[i + 1..]
  {
    var i := IndexOf(s.tracks, TrackKey, id).value;
    RemoveKeyAt(s.tracks, TrackKey, id, i);
  }

  /** Applying the same patch twice leaves the store as applying it once. */
  lemma UpdateIdempotent(isUuid: IdCheck, s: Store, id: Id, p: TrackPatch)
    requires ValidPatch(p)
    requires Update(isUuid, s, id, p).Ok?
    ensures var t := Update(isUuid, s, id, p).value.1;
      Update(isUuid, t, id, p) == Ok(Update(isUuid, s, id, p).value)
  {
    var i := IndexOf(s.tracks, TrackKey, id).value;
    var (a, t) := Update(isUuid, s, id, p).value;
    IndexOfAfterUpdate(s.tracks, TrackKey, id, i, a);
    assert t.tracks[i] == a && Merge(a, p) == a;
    assert t.tracks[i := a] == t.tracks;
  }
}
