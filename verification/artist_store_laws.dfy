/**
  Properties relating several artist-store operations: what `add` appends,
  that `remove` undoes it, that the album edits undo each other, that the
  cached `image` and `songs` stay put, and what `getMostPlayed` selects.
*/
module ArtistStoreLaws {
  import opened Lodash
  import opened Records
  import opened OrderBy
  import opened ArtistStore

  // ------------------------------------------------------------ add / remove

  /**
    On a duplicate-free collection, `add` keeps the collection as a prefix and
    appends each new artist once, in argument order.
  */
  lemma AddAppendsNewArtists(s: Store, xs: OneOrMany<ArtistRef>, unknownCover: string)
    requires Valid(s) && forall x :: x in ToList(xs) ==> x in s.heap.artists
    requires NoDup(s.all)
    requires Add(s, xs, unknownCover).Returned?
    ensures Add(s, xs, unknownCover).state.all == s.all + Distinct(Difference(ToList(xs), s.all))
  {
    UnionExtends(s.all, ToList(xs));
  }

  /**
    `add` resets artists that were already in the collection: their play count
    drops to 0 although `union` does not add them a second time.
  */
  lemma AddResetsPresentArtists(s: Store, xs: OneOrMany<ArtistRef>, unknownCover: string, x: ArtistRef)
    requires Valid(s) && forall y :: y in ToList(xs) ==> y in s.heap.artists
    requires x in s.all && x in ToList(xs)
    requires Add(s, xs, unknownCover).Returned?
    ensures x in Add(s, xs, unknownCover).state.all
    ensures Add(s, xs, unknownCover).state.heap.artists[x].playCount == 0
    ensures Add(s, xs, unknownCover).state.heap.artists[x].info == None
  {
  }

  /** Adding artists that were not in a duplicate-free collection and removing them again restores it. */
  lemma AddThenRemove(s: Store, xs: OneOrMany<ArtistRef>, unknownCover: string)
    requires Valid(s) && forall x :: x in ToList(xs) ==> x in s.heap.artists
    requires NoDup(s.all)
    requires forall x :: x in s.all ==> x !in ToList(xs)
    requires Add(s, xs, unknownCover).Returned?
    ensures Remove(Add(s, xs, unknownCover).state, xs).all == s.all
  {
    UnionThenDifference(s.all, ToList(xs));
  }

  // ------------------------------------------------------------- album edits

  /**
    On a duplicate-free album list, `addAlbumsIntoArtist` appends each new
    album once, and the play count becomes the old albums' total plus the new
    albums' total.
  */
  lemma AddAlbumsAppends(h: Heap, r: ArtistRef, bs: OneOrMany<AlbumRef>)
    requires WellFormed(h) && r in h.artists && AlbumsLive(h.albums, ToList(bs))
    requires NoDup(AlbumList(h.artists[r]))
    ensures var before := AlbumList(h.artists[r]);
            var added := Distinct(Difference(ToList(bs), before));
            var a' := AddAlbumsIntoArtist(h, r, bs).artists[r];
            && AlbumsLive(h.albums, added)
            && a'.albums == Some(before + added)
            && a'.playCount == PlayTotal(h.albums, before) + PlayTotal(h.albums, added)
  {
    var before := AlbumList(h.artists[r]);
    var list := ToList(bs);
    var added := Distinct(Difference(list, before));
    var h' := AddAlbumsIntoArtist(h, r, bs);
    UnionExtends(before, list);
    assert AlbumsLive(h.albums, added);
    PlayTotalAppend(h.albums, before, added);
    PlayTotalFrame(h.albums, h'.albums, before + added);
  }

  /**
    Removing the albums just added restores the artist record exactly, when
    its list was duplicate-free, disjoint from them, and its play count was
    consistent; the removed albums keep pointing back at the artist.
  */
  lemma RemoveAlbumsUndoesAdd(h: Heap, r: ArtistRef, bs: OneOrMany<AlbumRef>)
    requires WellFormed(h) && r in h.artists && AlbumsLive(h.albums, ToList(bs))
    requires h.artists[r].albums.Some?
    requires NoDup(AlbumList(h.artists[r]))
    requires forall b :: b in AlbumList(h.artists[r]) ==> b !in ToList(bs)
    requires PlayCountConsistent(h, r)
    ensures RemoveAlbumsFromArtist(AddAlbumsIntoArtist(h, r, bs), r, bs).artists[r] == h.artists[r]
    ensures forall b :: b in ToList(bs) ==>
      RemoveAlbumsFromArtist(AddAlbumsIntoArtist(h, r, bs), r, bs).albums[b].artistId == Some(h.artists[r].id)
  {
    var before := AlbumList(h.artists[r]);
    var h1 := AddAlbumsIntoArtist(h, r, bs);
    var h2 := RemoveAlbumsFromArtist(h1, r, bs);
    UnionThenDifference(before, ToList(bs));
    assert AlbumList(h2.artists[r]) == before;
    PlayTotalFrame(h.albums, h2.albums, before);
  }

  /** After removing every album it lists, an artist is empty. */
  lemma EmptyAfterRemovingAllAlbums(h: Heap, r: ArtistRef)
    requires WellFormed(h) && r in h.artists
    ensures IsArtistEmpty(RemoveAlbumsFromArtist(h, r, Many(AlbumList(h.artists[r]))), r).Returned?
    ensures IsArtistEmpty(RemoveAlbumsFromArtist(h, r, Many(AlbumList(h.artists[r]))), r).value
  {
    DifferenceCovered(AlbumList(h.artists[r]), AlbumList(h.artists[r]));
  }

  /** After adding at least one album, an artist is not empty. */
  lemma NotEmptyAfterAddingAlbums(h: Heap, r: ArtistRef, bs: OneOrMany<AlbumRef>)
    requires WellFormed(h) && r in h.artists && AlbumsLive(h.albums, ToList(bs))
    requires |ToList(bs)| > 0
    ensures IsArtistEmpty(AddAlbumsIntoArtist(h, r, bs), r) == Returned(AddAlbumsIntoArtist(h, r, bs), false)
  {
    var h' := AddAlbumsIntoArtist(h, r, bs);
    assert ToList(bs)[0] in AlbumList(h'.artists[r]);
  }

  // ---------------------------------------------------------------- getImage

  /** A second `getImage` returns the first call's value and changes nothing. */
  lemma GetImageIdempotent(h: Heap, r: ArtistRef, unknownCover: string)
    requires WellFormed(h) && r in h.artists
    requires GetImage(h, r, unknownCover).Returned?
    ensures GetImage(GetImage(h, r, unknownCover).state, r, unknownCover) == GetImage(h, r, unknownCover)
  {
    var first := GetImage(h, r, unknownCover);
    var h1 := first.state;
    if !Truthy(first.value) {
      var a := h.artists[r];
      assert !Truthy(a.image);
      assert AlbumList(h1.artists[r]) == AlbumList(a);
      assert h1.artists[r].(image := first.value) == h1.artists[r];
      assert h1.artists[r := h1.artists[r]] == h1.artists;
    }
  }

  /**
    A `getImage` that threw on a missing album list has already stored the
    placeholder, so the next call returns it without touching the albums.
  */
  lemma GetImageAfterThrow(h: Heap, r: ArtistRef, unknownCover: string)
    requires WellFormed(h) && r in h.artists
    requires GetImage(h, r, unknownCover).Threw?
    requires unknownCover != ""
    ensures GetImage(GetImage(h, r, unknownCover).state, r, unknownCover)
      == Returned(GetImage(h, r, unknownCover).state, Some(unknownCover))
  {
  }

  /**
    Only the first album decides: when it carries the placeholder image, a
    real cover on a later album is ignored and the placeholder is stored.
  */
  lemma GetImageIgnoresLaterAlbums(h: Heap, r: ArtistRef, unknownCover: string)
    requires WellFormed(h) && r in h.artists
    requires !Truthy(h.artists[r].image) && h.artists[r].albums.Some?
    requires |AlbumList(h.artists[r])| >= 2
    requires h.albums[AlbumList(h.artists[r])[0]].image == Some(unknownCover)
    ensures GetImage(h, r, unknownCover) == Returned(GetImage(h, r, unknownCover).state, Some(unknownCover))
  {
  }

  // -------------------------------------------------------- getSongsByArtist

  /** The cached song list survives later album edits: the next call returns it unchanged. */
  lemma SongsCachedAcrossAlbumEdits(h: Heap, r: ArtistRef, bs: OneOrMany<AlbumRef>)
    requires WellFormed(h) && r in h.artists && AlbumsLive(h.albums, ToList(bs))
    ensures var first := GetSongsByArtist(h, r);
            && GetSongsByArtist(AddAlbumsIntoArtist(first.state, r, bs), r).value == first.value
            && GetSongsByArtist(RemoveAlbumsFromArtist(first.state, r, bs), r).value == first.value
  {
  }

  /**
    The songs of a freshly set-up artist that had no cached list number
    exactly its `songCount`, and are those of its albums.
  */
  lemma SongsMatchSongCount(h: Heap, r: ArtistRef, unknownCover: string)
    requires WellFormed(h) && r in h.artists
    requires h.artists[r].songs.None?
    requires SetupArtist(h, r, unknownCover).Returned?
    ensures var h1 := SetupArtist(h, r, unknownCover).state;
            |GetSongsByArtist(h1, r).value| == h1.artists[r].songCount
    ensures forall song :: song in GetSongsByArtist(SetupArtist(h, r, unknownCover).state, r).value <==>
      exists b :: b in AlbumList(h.artists[r]) && song in h.albums[b].songs
  {
    SongsOfMembers(h.albums, AlbumList(h.artists[r]));
  }

  // ------------------------------------------------------------ getMostPlayed

  /**
    Every applicable artist left out of the top `n` has a play count no
    greater than any artist that made it.
  */
  lemma MostPlayedAreTop(s: Store, n: nat, x: ArtistRef)
    requires Valid(s)
    requires x in s.all && IsApplicable(s.heap.artists[x]) && x !in GetMostPlayed(s, n)
    ensures forall i :: 0 <= i < |GetMostPlayed(s, n)| ==>
      s.heap.artists[GetMostPlayed(s, n)[i]].playCount >= s.heap.artists[x].playCount
  {
    var key := PlayKey(s.heap);
    var applicable := Applicable(s.all, s.heap.artists);
    var sorted := SortDesc(applicable, key);
    ApplicableMembers(s.all, s.heap.artists);
    assert x in multiset(applicable);
    assert x in sorted;
    TakeIsTop(sorted, n, key, x);
    assert GetMostPlayed(s, n) == Take(sorted, n);
  }

  /**
    The result is the top of the whole ranking: a prefix of the applicable
    artists stably sorted by play count, repeated entries included.
  */
  lemma MostPlayedIsSortedPrefix(s: Store, n: nat)
    requires Valid(s)
    ensures IsPrefix(GetMostPlayed(s, n), SortDesc(Applicable(s.all, s.heap.artists), PlayKey(s.heap)))
  {
    var sorted := SortDesc(Applicable(s.all, s.heap.artists), PlayKey(s.heap));
    assert GetMostPlayed(s, n) == Take(sorted, n);
  }

  /**
    Ties keep collection order: the listed artists with any one play count are
    a prefix of the applicable artists with that play count, in collection order.
  */
  lemma MostPlayedTiesKeepOrder(s: Store, n: nat, k: int)
    requires Valid(s)
    ensures IsPrefix(WithKey(GetMostPlayed(s, n), PlayKey(s.heap), k),
                     WithKey(Applicable(s.all, s.heap.artists), PlayKey(s.heap), k))
  {
    var key := PlayKey(s.heap);
    var applicable := Applicable(s.all, s.heap.artists);
    var sorted := SortDesc(applicable, key);
    assert GetMostPlayed(s, n) == Take(sorted, n);
    WithKeyOfTake(sorted, n, key, k);
    assert WithKey(sorted, key, k) == WithKey(applicable, key, k);
  }

  lemma ApplicableCons(x: ArtistRef, t: seq<ArtistRef>, m: map<ArtistRef, Artist>)
    requires x in m && forall a :: a in t ==> a in m
    ensures Applicable([x] + t, m) == (if IsApplicable(m[x]) then [x] else []) + Applicable(t, m)
  {
    assert ([x] + t)[1..] == t;
  }

  lemma ExampleApplicable(m: map<ArtistRef, Artist>, a1: ArtistRef, a2: ArtistRef, a3: ArtistRef, a4: ArtistRef, a5: ArtistRef)
    requires a1 in m && a2 in m && a3 in m && a4 in m && a5 in m
    requires m[a1].id == UnknownArtistId && m[a2].playCount == 0
    requires IsApplicable(m[a3]) && IsApplicable(m[a4]) && IsApplicable(m[a5])
    ensures Applicable([a1, a2, a3, a4, a5], m) == [a3, a4, a5]
  {
    var t5 := [a5];
    var t4 := [a4] + t5;
    var t3 := [a3] + t4;
    var t2 := [a2] + t3;
    ApplicableCons(a5, [], m);
    assert t5 == [a5] + [];
    ApplicableCons(a4, t5, m);
    ApplicableCons(a3, t4, m);
    ApplicableCons(a2, t3, m);
    ApplicableCons(a1, t2, m);
    assert [a1, a2, a3, a4, a5] == [a1] + t2;
  }

  lemma ExampleSortTail(key: ArtistRef -> int, a4: ArtistRef, a5: ArtistRef)
    requires key(a4) == 20 && key(a5) == 1
    ensures SortDesc([a4, a5], key) == [a4, a5]
  {
    assert SortDesc([a5], key) == [a5] by {
      SortCons(a5, [], key);
      assert [a5] + [] == [a5];
    }
    SortCons(a4, [a5], key);
    InsertCons(a4, a5, [], key);
    assert [a4] + [a5] == [a4, a5];
  }

  lemma ExampleInsert(key: ArtistRef -> int, a3: ArtistRef, a4: ArtistRef, a5: ArtistRef)
    requires key(a3) == 5 && key(a4) == 20 && key(a5) == 1
    ensures Insert(a3, [a4, a5], key) == [a4, a3, a5]
  {
    InsertCons(a3, a4, [a5], key);
    InsertCons(a3, a5, [], key);
    assert [a4] + [a5] == [a4, a5];
  }

  lemma ExampleSort(key: ArtistRef -> int, a3: ArtistRef, a4: ArtistRef, a5: ArtistRef)
    requires key(a3) == 5 && key(a4) == 20 && key(a5) == 1
    ensures SortDesc([a3, a4, a5], key) == [a4, a3, a5]
  {
    ExampleSortTail(key, a4, a5);
    ExampleInsert(key, a3, a4, a5);
    SortCons(a3, [a4, a5], key);
    assert [a3] + [a4, a5] == [a3, a4, a5];
  }

  /**
    Five artists with ids 1 to 5 and play counts 10, 0, 5, 20 and 1: the
    Unknown Artist (id 1) and the unplayed artist drop out, the other three
    come by play count, 20, 5, 1.
  */
  lemma MostPlayedExample(s: Store, a1: ArtistRef, a2: ArtistRef, a3: ArtistRef, a4: ArtistRef, a5: ArtistRef)
    requires Valid(s) && s.all == [a1, a2, a3, a4, a5]
    requires s.heap.artists[a1].id == 1 && s.heap.artists[a1].playCount == 10
    requires s.heap.artists[a2].id == 2 && s.heap.artists[a2].playCount == 0
    requires s.heap.artists[a3].id == 3 && s.heap.artists[a3].playCount == 5
    requires s.heap.artists[a4].id == 4 && s.heap.artists[a4].playCount == 20
    requires s.heap.artists[a5].id == 5 && s.heap.artists[a5].playCount == 1
    ensures GetMostPlayed(s, 3) == [a4, a3, a5]
  {
    ExampleApplicable(s.heap.artists, a1, a2, a3, a4, a5);
    ExampleSort(PlayKey(s.heap), a3, a4, a5);
  }
}
