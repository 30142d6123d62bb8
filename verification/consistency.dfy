/** Store-wide consistency. The store itself enforces nothing; these are the
    properties the services keep between them: ids are unique, favorite lists
    hold no duplicates, and every favorite names a stored entity (the last
    one is what the delete cascade exists for). */
module Consistency {
  import opened Outcomes
  import opened Keyed
  import opened Db
  import Favs = FavoritesService
  import ArtistService
  import AlbumService
  import TrackService
  import UserService

  /** Every favorite id names a stored entity of its kind. */
  predicate FavoritesResolve(s: Store) {
    && (forall i :: 0 <= i < |s.favorites.artists| ==> HasKey(s.artists, ArtistKey, s.favorites.artists[i]))
    && (forall i :: 0 <= i < |s.favorites.albums| ==> HasKey(s.albums, AlbumKey, s.favorites.albums[i]))
    && (forall i :: 0 <= i < |s.favorites.tracks| ==> HasKey(s.tracks, TrackKey, s.favorites.tracks[i]))
  }

  predicate Consistent(s: Store) {
    && UniqueKeys(s.users, UserKey)
    && UniqueKeys(s.artists, ArtistKey)
    && UniqueKeys(s.albums, AlbumKey)
    && UniqueKeys(s.tracks, TrackKey)
    && NoDuplicates(s.favorites.artists)
    && NoDuplicates(s.favorites.albums)
    && NoDuplicates(s.favorites.tracks)
    && FavoritesResolve(s)
  }

  /** Every weak reference names a stored entity. The services do not keep
      this (creating or updating an album or track never checks that the
      referenced artist or album exists), but no delete ever breaks it. */
  predicate ReferencesResolve(s: Store) {
    && (forall i :: 0 <= i < |s.albums| && s.albums[i].artistId.Some? ==>
          HasKey(s.artists, ArtistKey, s.albums[i].artistId.value))
    && (forall i :: 0 <= i < |s.tracks| && s.tracks[i].artistId.Some? ==>
          HasKey(s.artists, ArtistKey, s.tracks[i].artistId.value))
    && (forall i :: 0 <= i < |s.tracks| && s.tracks[i].albumId.Some? ==>
          HasKey(s.albums, AlbumKey, s.tracks[i].albumId.value))
  }

  /** In a consistent store the defensive filter of the favorites `findAll`
      drops nothing: each list has one entity per favorite id, in the order
      of the ids. */
  lemma FindAllComplete(s: Store)
    requires Consistent(s)
    ensures var r := Favs.FindAll(s);
      && |r.artists| == |s.favorites.artists|
      && |r.albums| == |s.favorites.albums|
      && |r.tracks| == |s.favorites.tracks|
      && (forall j :: 0 <= j < |r.artists| ==> r.artists[j].id == s.favorites.artists[j])
      && (forall j :: 0 <= j < |r.albums| ==> r.albums[j].id == s.favorites.albums[j])
      && (forall j :: 0 <= j < |r.tracks| ==> r.tracks[j].id == s.favorites.tracks[j])
  {
    HydrateResolved(s.favorites.artists, s.artists, ArtistKey);
    HydrateResolved(s.favorites.albums, s.albums, AlbumKey);
    HydrateResolved(s.favorites.tracks, s.tracks, TrackKey);
  }

  lemma EmptyStoreConsistent()
    ensures Consistent(EmptyStore) && ReferencesResolve(EmptyStore)
  {
  }

  /** Adding a favorite keeps the store consistent: the id was checked to
      name a stored entity and is appended only if absent. */
  lemma AddKeepsConsistent(isUuid: IdCheck, s: Store, k: Favs.Kind, id: Id)
    requires Consistent(s)
    requires isUuid(id) && Favs.Stored(s, k, id)
    ensures Favs.Add(isUuid, s, k, id).Ok?
    ensures Consistent(Favs.Add(isUuid, s, k, id).value.1)
  {
  }

  /** Removing a favorite keeps the store consistent. */
  lemma RemoveKeepsConsistent(isUuid: IdCheck, s: Store, k: Favs.Kind, id: Id)
    requires Consistent(s)
    requires Favs.Remove(isUuid, s, k, id).Ok?
    ensures Consistent(Favs.Remove(isUuid, s, k, id).value)
  {
    var t := Favs.Remove(isUuid, s, k, id).value;
    Favs.RemoveKeepsNoDuplicates(isUuid, s, k, id);
    forall k': Favs.Kind
      ensures NoDuplicates(Favs.Ids(t.favorites, k'))
      ensures forall x :: x in Favs.Ids(t.favorites, k') ==> Favs.Stored(t, k', x)
    {
      assert forall x :: x in Favs.Ids(s.favorites, k') ==> Favs.Stored(s, k', x) by {
        match k'
        case ArtistKind => assert forall x :: x in s.favorites.artists ==> HasKey(s.artists, ArtistKey, x);
        case AlbumKind => assert forall x :: x in s.favorites.albums ==> HasKey(s.albums, AlbumKey, x);
        case TrackKind => assert forall x :: x in s.favorites.tracks ==> HasKey(s.tracks, TrackKey, x);
      }
    }
    assert t.favorites.artists == Favs.Ids(t.favorites, Favs.ArtistKind);
    assert t.favorites.albums == Favs.Ids(t.favorites, Favs.AlbumKind);
    assert t.favorites.tracks == Favs.Ids(t.favorites, Favs.TrackKind);
  }

  lemma ArtistCreateKeepsConsistent(s: Store, dto: ArtistService.CreateArtistDto, freshId: Id)
    requires Consistent(s)
    requires !HasKey(s.artists, ArtistKey, freshId)
    requires ArtistService.Create(s, dto, freshId).Ok?
    ensures Consistent(ArtistService.Create(s, dto, freshId).value.1)
  {
    var (a, t) := ArtistService.Create(s, dto, freshId).value;
    AppendKeepsKeys(s.artists, ArtistKey, a);
  }

  lemma ArtistUpdateKeepsConsistent(isUuid: IdCheck, s: Store, id: Id, p: ArtistService.ArtistPatch)
    requires Consistent(s)
    requires ArtistService.Update(isUuid, s, id, p).Ok?
    ensures Consistent(ArtistService.Update(isUuid, s, id, p).value.1)
  {
    var i := IndexOf(s.artists, ArtistKey, id).value;
    UpdateKeepsKeys(s.artists, ArtistKey, i, ArtistService.Update(isUuid, s, id, p).value.0);
  }

  /** The artist cascade keeps the store consistent: the artist leaves the
      favorite artists together with the artists. */
  lemma ArtistDeleteKeepsConsistent(isUuid: IdCheck, s: Store, id: Id)
    requires Consistent(s)
    requires ArtistService.Delete(isUuid, s, id).Ok?
    ensures Consistent(ArtistService.Delete(isUuid, s, id).value)
  {
    var t := ArtistService.Delete(isUuid, s, id).value;
    RemoveKeyKeepsUnique(s.artists, ArtistKey, id);
    WithoutKeepsNoDuplicates(s.favorites.artists, id);
    forall i | 0 <= i < |t.favorites.artists|
      ensures HasKey(t.artists, ArtistKey, t.favorites.artists[i])
    {
      var x := t.favorites.artists[i];
      assert x in s.favorites.artists;
      RemoveKeyKeepsOthers(s.artists, ArtistKey, id, x);
    }
  }

  /** The artist cascade leaves no album or track pointing at a missing
      artist, provided none did before. */
  lemma ArtistDeleteKeepsReferences(isUuid: IdCheck, s: Store, id: Id)
    requires ReferencesResolve(s)
    requires ArtistService.Delete(isUuid, s, id).Ok?
    ensures ReferencesResolve(ArtistService.Delete(isUuid, s, id).value)
  {
  }

  lemma AlbumCreateKeepsConsistent(s: Store, dto: AlbumService.CreateAlbumDto, freshId: Id)
    requires Consistent(s)
    requires !HasKey(s.albums, AlbumKey, freshId)
    requires AlbumService.Create(s, dto, freshId).Ok?
    ensures Consistent(AlbumService.Create(s, dto, freshId).value.1)
  {
    var (a, t) := AlbumService.Create(s, dto, freshId).value;
    AppendKeepsKeys(s.albums, AlbumKey, a);
  }

  lemma AlbumUpdateKeepsConsistent(isUuid: IdCheck, s: Store, id: Id, p: AlbumService.AlbumPatch)
    requires Consistent(s)
    requires AlbumService.ValidPatch(isUuid, p)
    requires AlbumService.Update(isUuid, s, id, p).Ok?
    ensures Consistent(AlbumService.Update(isUuid, s, id, p).value.1)
  {
    var i := IndexOf(s.albums, AlbumKey, id).value;
    UpdateKeepsKeys(s.albums, AlbumKey, i, AlbumService.Update(isUuid, s, id, p).value.0);
  }

  /** The album cascade keeps the store consistent. */
  lemma AlbumDeleteKeepsConsistent(isUuid: IdCheck, s: Store, id: Id)
    requires Consistent(s)
    requires AlbumService.Delete(isUuid, s, id).Ok?
    ensures Consistent(AlbumService.Delete(isUuid, s, id).value)
  {
    var t := AlbumService.Delete(isUuid, s, id).value;
    RemoveKeyKeepsUnique(s.albums, AlbumKey, id);
    WithoutKeepsNoDuplicates(s.favorites.albums, id);
    forall i | 0 <= i < |t.favorites.albums|
      ensures HasKey(t.albums, AlbumKey, t.favorites.albums[i])
    {
      var x := t.favorites.albums[i];
      assert x in s.favorites.albums;
      RemoveKeyKeepsOthers(s.albums, AlbumKey, id, x);
    }
    assert forall i :: 0 <= i < |t.tracks| ==> t.tracks[i].id == s.tracks[i].id;
    assert UniqueKeys(t.tracks, TrackKey) by {
      forall a, b | 0 <= a < |t.tracks| && 0 <= b < |t.tracks| && TrackKey(t.tracks[a]) == TrackKey(t.tracks[b])
        ensures a == b
      {
        assert TrackKey(s.tracks[a]) == TrackKey(s.tracks[b]);
      }
    }
    forall i | 0 <= i < |t.favorites.tracks|
      ensures HasKey(t.tracks, TrackKey, t.favorites.tracks[i])
    {
      var j :| 0 <= j < |s.tracks| && TrackKey(s.tracks[j]) == t.favorites.tracks[i];
      assert TrackKey(t.tracks[j]) == t.favorites.tracks[i];
    }
  }

  /** The album cascade leaves no track pointing at a missing album or
      artist, provided none did before. */
  lemma AlbumDeleteKeepsReferences(isUuid: IdCheck, s: Store, id: Id)
    requires ReferencesResolve(s)
    requires AlbumService.Delete(isUuid, s, id).Ok?
    ensures ReferencesResolve(AlbumService.Delete(isUuid, s, id).value)
  {
  }

  lemma TrackCreateKeepsConsistent(isUuid: IdCheck, s: Store, dto: TrackService.CreateTrackDto, freshId: Id)
    requires Consistent(s)
    requires TrackService.ValidCreate(isUuid, dto)
    requires !HasKey(s.tracks, TrackKey, freshId)
    ensures Consistent(TrackService.Create(isUuid, s, dto, freshId).1)
  {
    var (a, t) := TrackService.Create(isUuid, s, dto, freshId);
    AppendKeepsKeys(s.tracks, TrackKey, a);
  }

  lemma TrackUpdateKeepsConsistent(isUuid: IdCheck, s: Store, id: Id, p: TrackService.TrackPatch)
    requires Consistent(s)
    requires TrackService.ValidPatch(p)
    requires TrackService.Update(isUuid, s, id, p).Ok?
    ensures Consistent(TrackService.Update(isUuid, s, id, p).value.1)
  {
    var i := IndexOf(s.tracks, TrackKey, id).value;
    UpdateKeepsKeys(s.tracks, TrackKey, i, TrackService.Update(isUuid, s, id, p).value.0);
  }

  /** The track cascade keeps the store consistent. */
  lemma TrackDeleteKeepsConsistent(isUuid: IdCheck, s: Store, id: Id)
    requires Consistent(s)
    requires TrackService.Delete(isUuid, s, id).Ok?
    ensures Consistent(TrackService.Delete(isUuid, s, id).value)
  {
    var t := TrackService.Delete(isUuid, s, id).value;
    RemoveKeyKeepsUnique(s.tracks, TrackKey, id);
    WithoutKeepsNoDuplicates(s.favorites.tracks, id);
    forall i | 0 <= i < |t.favorites.tracks|
      ensures HasKey(t.tracks, TrackKey, t.favorites.tracks[i])
    {
      var x := t.favorites.tracks[i];
      assert x in s.favorites.tracks;
      RemoveKeyKeepsOthers(s.tracks, TrackKey, id, x);
    }
  }

  lemma UserCreateKeepsConsistent(s: Store, dto: UserService.CreateUserDto, freshId: Id, createdAt: int, updatedAt: int)
    requires Consistent(s)
    requires !HasKey(s.users, UserKey, freshId)
    requires UserService.Create(s, dto, freshId, createdAt, updatedAt).Ok?
    ensures Consistent(UserService.Create(s, dto, freshId, createdAt, updatedAt).value.1)
  {
  }

  lemma UserUpdateKeepsConsistent(isUuid: IdCheck, s: Store, id: Id, dto: UserService.UpdatePasswordDto, now: int)
    requires Consistent(s)
    requires UserService.Update(isUuid, s, id, dto, now).Ok?
    ensures Consistent(UserService.Update(isUuid, s, id, dto, now).value.1)
  {
  }

  lemma UserDeleteKeepsConsistent(isUuid: IdCheck, s: Store, id: Id)
    requires Consistent(s)
    requires UserService.Delete(isUuid, s, id).Ok?
    ensures Consistent(UserService.Delete(isUuid, s, id).value)
  {
    RemoveKeyKeepsUnique(s.users, UserKey, id);
  }
}
