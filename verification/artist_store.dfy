/**
  The artist store: an ordered collection of artist handles over a heap of
  artist and album records. Every operation is a pure function from the old
  store (or heap) to the new one; operations that would throw a `TypeError`
  in the browser return `Threw` with the state as it stood at the throw.

  `unknownCover` is the configured placeholder cover URL.
*/
module ArtistStore {
  import opened Lodash
  import opened Records
  import opened OrderBy

  /** `getMostPlayed`'s default `n`. */
  const DefaultMostPlayed: nat := 6

  /** The id of the distinguished "Unknown Artist", never listed as most played. */
  const UnknownArtistId: int := 1

  /** `state.artists`, the collection, over the heap of live records. */
  datatype Store = Store(all: seq<ArtistRef>, heap: Heap)

  /** Every handle in the collection is a live artist. */
  predicate Valid(s: Store)
  {
    WellFormed(s.heap) && forall a :: a in s.all ==> a in s.heap.artists
  }

  function SetArtist(h: Heap, r: ArtistRef, a: Artist): Heap
  {
    h.(artists := h.artists[r := a])
  }

  /** `h'` differs from `h` at most in the record of artist `r`. */
  predicate OnlyArtistChanged(h: Heap, h': Heap, r: ArtistRef)
  {
    && h'.albums == h.albums
    && h'.artists.Keys == h.artists.Keys
    && forall o :: o in h.artists && o != r ==> h'.artists[o] == h.artists[o]
  }

  // ---------------------------------------------------------------- getImage

  /**
    The callback `getImage` hands to `albums.every`. It returns the image the
    artist holds afterwards and the callback's return value, where `None`
    stands for `undefined`: the callback returns `false` after taking an
    album's cover and falls off its end otherwise.
  */
  function ImageCallback(album: Album, unknownCover: string, image: Option<string>): (Option<string>, Option<bool>)
  {
    if album.image != Some(unknownCover) then (album.cover, Some(false)) else (image, None)
  }

  /** `albums.every(callback)`: visits albums in order while the callback returns a truthy value. */
  function EveryAlbum(m: map<AlbumRef, Album>, refs: seq<AlbumRef>, unknownCover: string, image: Option<string>): Option<string>
    requires AlbumsLive(m, refs)
    decreases |refs|
  {
    if |refs| == 0 then image
    else
      var (image', returned) := ImageCallback(m[refs[0]], unknownCover, image);
      if returned == Some(true) then EveryAlbum(m, refs[1..], unknownCover, image') else image'
  }

  /**
    The image `getImage` computes for an artist without one: only the FIRST
    album is examined; its `cover` is taken when its `image` is not the
    placeholder, and the placeholder is used in every other case.
  */
  function FirstAlbumImage(m: map<AlbumRef, Album>, refs: seq<AlbumRef>, unknownCover: string): Option<string>
    requires AlbumsLive(m, refs)
  {
    if |refs| > 0 && m[refs[0]].image != Some(unknownCover) then m[refs[0]].cover else Some(unknownCover)
  }

  /** The image an artist has after a successful `getImage`. */
  function CachedImage(m: map<AlbumRef, Album>, a: Artist, unknownCover: string): Option<string>
    requires AlbumsLive(m, AlbumList(a))
  {
    if Truthy(a.image) then a.image else FirstAlbumImage(m, AlbumList(a), unknownCover)
  }

  /** `getImage(artist)`. */
  function GetImage(h: Heap, r: ArtistRef, unknownCover: string): (out: Outcome<Heap, Option<string>>)
    requires WellFormed(h) && r in h.artists
    ensures WellFormed(out.state) && OnlyArtistChanged(h, out.state, r)
    ensures out.state.artists[r] == h.artists[r].(image := out.state.artists[r].image)
    ensures Truthy(h.artists[r].image) ==> out == Returned(h, h.artists[r].image)
    ensures out.Threw? <==> !Truthy(h.artists[r].image) && h.artists[r].albums.None?
    ensures out.Threw? ==> out.state.artists[r].image == Some(unknownCover)
    ensures out.Returned? ==> out.value == out.state.artists[r].image
    ensures out.Returned? ==> out.value == CachedImage(h.albums, h.artists[r], unknownCover)
  {
    var a := h.artists[r];
    if Truthy(a.image) then Returned(h, a.image)
    else
      var placeholder := SetArtist(h, r, a.(image := Some(unknownCover)));
      match a.albums
      case None => Threw(placeholder)
      case Some(refs) =>
        var image := EveryAlbum(h.albums, refs, unknownCover, Some(unknownCover));
        Returned(SetArtist(h, r, a.(image := image)), image)
  }

  // ------------------------------------------------------------- setupArtist

  /** `setupArtist` can only throw through `getImage`. */
  predicate CanSetup(a: Artist)
  {
    Truthy(a.image) || a.albums.Some?
  }

  /** The record `setupArtist` leaves behind. */
  function SetUpRecord(m: map<AlbumRef, Album>, a: Artist, unknownCover: string): Artist
    requires AlbumsLive(m, AlbumList(a))
  {
    a.(image := CachedImage(m, a, unknownCover),
       playCount := 0,
       songCount := SongTotal(m, AlbumList(a)),
       info := None)
  }

  /** `setupArtist(artist)`. */
  function SetupArtist(h: Heap, r: ArtistRef, unknownCover: string): (out: Outcome<Heap, ArtistRef>)
    requires WellFormed(h) && r in h.artists
    ensures WellFormed(out.state) && OnlyArtistChanged(h, out.state, r)
    ensures out.Returned? <==> CanSetup(h.artists[r])
    ensures out.Returned? ==> out.value == r
    ensures out.Returned? ==> out.state.artists[r] == SetUpRecord(h.albums, h.artists[r], unknownCover)
    ensures out.Threw? ==> out.state.artists[r] == h.artists[r].(image := Some(unknownCover))
  {
    match GetImage(h, r, unknownCover)
    case Threw(h') => Threw(h')
    case Returned(h', _) =>
      var a := h'.artists[r];
      Returned(SetArtist(h', r, a.(playCount := 0, songCount := SongTotal(h'.albums, AlbumList(a)), info := None)), r)
  }

  /** `each(xs, a => this.setupArtist(a))`: stops at the first throw. */
  function SetupAll(h: Heap, xs: seq<ArtistRef>, unknownCover: string): (out: Outcome<Heap, ()>)
    requires WellFormed(h) && forall x :: x in xs ==> x in h.artists
    ensures WellFormed(out.state)
    ensures out.state.albums == h.albums && out.state.artists.Keys == h.artists.Keys
    ensures forall o :: o in h.artists && o !in xs ==> out.state.artists[o] == h.artists[o]
    ensures out.Returned? <==> forall x :: x in xs ==> CanSetup(h.artists[x])
    ensures out.Returned? ==> forall x :: x in xs ==>
      out.state.artists[x] == SetUpRecord(h.albums, h.artists[x], unknownCover)
    decreases |xs|
  {
    if |xs| == 0 then Returned(h, ())
    else
      match SetupArtist(h, xs[0], unknownCover)
      case Threw(h') => Threw(h')
      case Returned(h', _) =>
        var rest := SetupAll(h', xs[1..], unknownCover);
        SetupAllStep(h, h', rest.state, rest.Returned?, xs, unknownCover);
        rest
  }

  /** One step of `SetupAll`: set up the first artist, then the rest from the new heap. */
  lemma SetupAllStep(h: Heap, h': Heap, h'': Heap, ok: bool, xs: seq<ArtistRef>, unknownCover: string)
    requires |xs| > 0 && WellFormed(h) && forall x :: x in xs ==> x in h.artists
    requires WellFormed(h') && OnlyArtistChanged(h, h', xs[0]) && CanSetup(h.artists[xs[0]])
    requires h'.artists[xs[0]] == SetUpRecord(h.albums, h.artists[xs[0]], unknownCover)
    requires h''.albums == h'.albums && h''.artists.Keys == h'.artists.Keys
    requires forall o :: o in h'.artists && o !in xs[1..] ==> h''.artists[o] == h'.artists[o]
    requires ok <==> forall x :: x in xs[1..] ==> CanSetup(h'.artists[x])
    requires ok ==> forall x :: x in xs[1..] ==> h''.artists[x] == SetUpRecord(h'.albums, h'.artists[x], unknownCover)
    ensures forall o :: o in h.artists && o !in xs ==> h''.artists[o] == h.artists[o]
    ensures ok <==> forall x :: x in xs ==> CanSetup(h.artists[x])
    ensures ok ==> forall x :: x in xs ==> h''.artists[x] == SetUpRecord(h.albums, h.artists[x], unknownCover)
  {
    assert forall x :: x in xs <==> x == xs[0] || x in xs[1..];
    SetUpRecordIdempotent(h.albums, h.artists[xs[0]], unknownCover);
  }

  /** Setting up an artist twice is the same as once. */
  lemma SetUpRecordIdempotent(m: map<AlbumRef, Album>, a: Artist, unknownCover: string)
    requires AlbumsLive(m, AlbumList(a))
    ensures CanSetup(a) ==> CanSetup(SetUpRecord(m, a, unknownCover))
    ensures SetUpRecord(m, SetUpRecord(m, a, unknownCover), unknownCover) == SetUpRecord(m, a, unknownCover)
  {
  }

  // -------------------------------------------------------------------- init

  /** `init(artists)`, without the album store's own initialisation. */
  function Init(h: Heap, artists: seq<ArtistRef>, unknownCover: string): (out: Outcome<Store, ()>)
    requires WellFormed(h) && forall x :: x in artists ==> x in h.artists
    ensures Valid(out.state)
    ensures out.state.all == artists
    ensures out.state.heap.albums == h.albums
    ensures out.Returned? <==> forall x :: x in artists ==> CanSetup(h.artists[x])
    ensures out.Returned? ==> forall x :: x in artists ==>
      out.state.heap.artists[x] == SetUpRecord(h.albums, h.artists[x], unknownCover)
  {
    match SetupAll(h, artists, unknownCover)
    case Threw(h') => Threw(Store(artists, h'))
    case Returned(h', _) => Returned(Store(artists, h'), ())
  }

  // -------------------------------------------------------------------- byId

  /** Position of the first artist of `all` whose id is `id`. */
  function FindIndex(all: seq<ArtistRef>, m: map<ArtistRef, Artist>, id: int): (r: Option<nat>)
    requires forall a :: a in all ==> a in m
    ensures r.None? <==> forall i :: 0 <= i < |all| ==> m[all[i]].id != id
    ensures r.Some? ==> r.value < |all| && m[all[r.value]].id == id
    ensures r.Some? ==> forall j :: 0 <= j < r.value ==> m[all[j]].id != id
    decreases |all|
  {
    if |all| == 0 then None
    else if m[all[0]].id == id then Some(0)
    else
      match FindIndex(all[1..], m, id)
      case None =>
        assert forall i :: 0 < i < |all| ==> all[i] == all[1..][i - 1];
        None
      case Some(i) =>
        assert forall j :: 0 < j <= i ==> all[j] == all[1..][j - 1];
        Some(i + 1)
  }

  /** `byId(id)`: the first artist of the collection with that id, or nothing. */
  function ById(s: Store, id: int): (r: Option<ArtistRef>)
    requires Valid(s)
    ensures r.None? <==> forall a :: a in s.all ==> s.heap.artists[a].id != id
    ensures r.Some? ==> r.value in s.all && s.heap.artists[r.value].id == id
    ensures r.Some? ==>
      exists i :: 0 <= i < |s.all| && s.all[i] == r.value && forall j :: 0 <= j < i ==> s.heap.artists[s.all[j]].id != id
  {
    match FindIndex(s.all, s.heap.artists, id)
    case None => None
    case Some(i) => Some(s.all[i])
  }

  // ------------------------------------------------------------ add / remove

  /** `add(artists)`: set every argument up, then `union` them into the collection. */
  function Add(s: Store, xs: OneOrMany<ArtistRef>, unknownCover: string): (out: Outcome<Store, ()>)
    requires Valid(s) && forall x :: x in ToList(xs) ==> x in s.heap.artists
    ensures Valid(out.state)
    ensures out.state.heap.albums == s.heap.albums && out.state.heap.artists.Keys == s.heap.artists.Keys
    ensures forall o :: o in s.heap.artists && o !in ToList(xs) ==> out.state.heap.artists[o] == s.heap.artists[o]
    ensures out.Returned? <==> forall x :: x in ToList(xs) ==> CanSetup(s.heap.artists[x])
    ensures out.Threw? ==> out.state.all == s.all
    ensures out.Returned? ==> NoDup(out.state.all)
    ensures out.Returned? ==> forall x :: x in out.state.all <==> x in s.all || x in ToList(xs)
    ensures out.Returned? ==> forall x :: x in ToList(xs) ==>
      out.state.heap.artists[x] == SetUpRecord(s.heap.albums, s.heap.artists[x], unknownCover)
  {
    var list := ToList(xs);
    match SetupAll(s.heap, list, unknownCover)
    case Threw(h) => Threw(Store(s.all, h))
    case Returned(h, _) => Returned(Store(Union(s.all, list), h), ())
  }

  /** `remove(artists)`: `difference` of the collection and the arguments. */
  function Remove(s: Store, xs: OneOrMany<ArtistRef>): (r: Store)
    requires Valid(s)
    ensures Valid(r)
    ensures r.heap == s.heap
    ensures forall x :: x in r.all <==> x in s.all && x !in ToList(xs)
    ensures IsSubsequence(r.all, s.all)
    ensures forall x :: multiset(r.all)[x] == if x in ToList(xs) then 0 else multiset(s.all)[x]
    ensures NoDup(s.all) ==> NoDup(r.all)
    ensures (forall x :: x in s.all ==> x !in ToList(xs)) ==> r.all == s.all
  {
    var list := ToList(xs);
    DifferenceFilters(s.all, list);
    assert (forall x :: x in s.all ==> x !in list) ==> Difference(s.all, list) == s.all by {
      if forall x :: x in s.all ==> x !in list {
        DifferenceDisjoint(s.all, list);
      }
    }
    Store(Difference(s.all, list), s.heap)
  }

  // ------------------------------------------------------------- album edits

  /** `playCount` is the sum of the play counts of the artist's albums. */
  predicate PlayCountConsistent(h: Heap, r: ArtistRef)
    requires WellFormed(h) && r in h.artists
  {
    h.artists[r].playCount == PlayTotal(h.albums, AlbumList(h.artists[r]))
  }

  /** Every album in `refs` points back to artist id `id`; the other albums are untouched. */
  function SetArtistIds(m: map<AlbumRef, Album>, refs: seq<AlbumRef>, id: int): (m': map<AlbumRef, Album>)
    ensures m'.Keys == m.Keys
    ensures forall b :: b in m && b in refs ==> m'[b] == m[b].(artistId := Some(id))
    ensures forall b :: b in m && b !in refs ==> m'[b] == m[b]
  {
    map b | b in m :: if b in refs then m[b].(artistId := Some(id)) else m[b]
  }

  /** `addAlbumsIntoArtist(artist, albums)`. */
  function AddAlbumsIntoArtist(h: Heap, r: ArtistRef, bs: OneOrMany<AlbumRef>): (h': Heap)
    requires WellFormed(h) && r in h.artists && AlbumsLive(h.albums, ToList(bs))
    ensures WellFormed(h') && r in h'.artists
    ensures h'.artists.Keys == h.artists.Keys && h'.albums.Keys == h.albums.Keys
    ensures forall o :: o in h.artists && o != r ==> h'.artists[o] == h.artists[o]
    ensures h'.artists[r] == h.artists[r].(albums := h'.artists[r].albums, playCount := h'.artists[r].playCount)
    ensures h'.artists[r].albums.Some?
    ensures NoDup(AlbumList(h'.artists[r]))
    ensures forall b :: b in AlbumList(h'.artists[r]) <==> b in AlbumList(h.artists[r]) || b in ToList(bs)
    ensures PlayCountConsistent(h', r)
    ensures forall b :: b in ToList(bs) ==> h'.albums[b] == h.albums[b].(artistId := Some(h.artists[r].id))
    ensures forall b :: b in h.albums && b !in ToList(bs) ==> h'.albums[b] == h.albums[b]
  {
    var list := ToList(bs);
    var a := h.artists[r];
    var albums := Union(AlbumList(a), list);
    var m := SetArtistIds(h.albums, list, a.id);
    Heap(h.artists[r := a.(albums := Some(albums), playCount := PlayTotal(m, albums))], m)
  }

  /** `removeAlbumsFromArtist(artist, albums)`. */
  function RemoveAlbumsFromArtist(h: Heap, r: ArtistRef, bs: OneOrMany<AlbumRef>): (h': Heap)
    requires WellFormed(h) && r in h.artists
    ensures WellFormed(h') && OnlyArtistChanged(h, h', r)
    ensures h'.artists[r] == h.artists[r].(albums := h'.artists[r].albums, playCount := h'.artists[r].playCount)
    ensures h'.artists[r].albums.Some?
    ensures forall b :: b in AlbumList(h'.artists[r]) <==> b in AlbumList(h.artists[r]) && b !in ToList(bs)
    ensures IsSubsequence(AlbumList(h'.artists[r]), AlbumList(h.artists[r]))
    ensures forall b ::
      multiset(AlbumList(h'.artists[r]))[b] == if b in ToList(bs) then 0 else multiset(AlbumList(h.artists[r]))[b]
    ensures NoDup(AlbumList(h.artists[r])) ==> NoDup(AlbumList(h'.artists[r]))
    ensures PlayCountConsistent(h', r)
  {
    var a := h.artists[r];
    var albums := Difference(AlbumList(a), ToList(bs));
    DifferenceFilters(AlbumList(a), ToList(bs));
    SetArtist(h, r, a.(albums := Some(albums), playCount := PlayTotal(h.albums, albums)))
  }

  /** `isArtistEmpty(artist)`: reading `.length` of a missing album list throws. */
  function IsArtistEmpty(h: Heap, r: ArtistRef): (out: Outcome<Heap, bool>)
    requires r in h.artists
    ensures out.state == h
    ensures out.Returned? <==> h.artists[r].albums.Some?
    ensures out.Returned? ==> (out.value <==> AlbumList(h.artists[r]) == [])
  {
    match h.artists[r].albums
    case None => Threw(h)
    case Some(refs) => Returned(h, |refs| == 0)
  }

  // --------------------------------------------------------- getSongsByArtist

  /** `getSongsByArtist(artist)`: flattens the albums' songs once and caches the list. */
  function GetSongsByArtist(h: Heap, r: ArtistRef): (out: Outcome<Heap, seq<SongRef>>)
    requires WellFormed(h) && r in h.artists
    ensures out.Returned?
    ensures WellFormed(out.state) && OnlyArtistChanged(h, out.state, r)
    ensures out.state.artists[r] == h.artists[r].(songs := Some(out.value))
    ensures h.artists[r].songs.Some? ==> out == Returned(h, h.artists[r].songs.value)
    ensures h.artists[r].songs.None? ==> out.value == SongsOf(h.albums, AlbumList(h.artists[r]))
    ensures h.artists[r].songs.None? ==> |out.value| == SongTotal(h.albums, AlbumList(h.artists[r]))
  {
    var a := h.artists[r];
    match a.songs
    case Some(cached) => Returned(h, cached)
    case None =>
      var songs := SongsOf(h.albums, AlbumList(a));
      SongsOfLength(h.albums, AlbumList(a));
      Returned(SetArtist(h, r, a.(songs := Some(songs))), songs)
  }

  // ------------------------------------------------------------ getMostPlayed

  /** Only artists with a (truthy) play count, other than the Unknown Artist, can be listed. */
  predicate IsApplicable(a: Artist)
  {
    a.playCount != 0 && a.id != UnknownArtistId
  }

  /** `filter(all, isApplicable)`. */
  function Applicable(all: seq<ArtistRef>, m: map<ArtistRef, Artist>): seq<ArtistRef>
    requires forall a :: a in all ==> a in m
    decreases |all|
  {
    if |all| == 0 then []
    else (if IsApplicable(m[all[0]]) then [all[0]] else []) + Applicable(all[1..], m)
  }

  /** The filter keeps exactly the applicable artists of the collection. */
  lemma {:induction false} ApplicableMembers(all: seq<ArtistRef>, m: map<ArtistRef, Artist>)
    requires forall a :: a in all ==> a in m
    ensures forall a :: a in Applicable(all, m) <==> a in all && IsApplicable(m[a])
    decreases |all|
  {
    if |all| > 0 {
      assert forall a :: a in all <==> a == all[0] || a in all[1..];
      ApplicableMembers(all[1..], m);
    }
  }

  /** The sort key of `orderBy(…, 'playCount', 'desc')`. */
  function PlayKey(h: Heap): ArtistRef -> int
  {
    a => if a in h.artists then h.artists[a].playCount else 0
  }

  /** `getMostPlayed(n)`. */
  function GetMostPlayed(s: Store, n: nat): (r: seq<ArtistRef>)
    requires Valid(s)
    ensures |r| <= n
    ensures |r| == if n < |Applicable(s.all, s.heap.artists)| then n else |Applicable(s.all, s.heap.artists)|
    ensures forall a :: a in r ==> a in s.all && IsApplicable(s.heap.artists[a])
    ensures SortedDesc(r, PlayKey(s.heap))
    ensures multiset(r) <= multiset(Applicable(s.all, s.heap.artists))
  {
    var applicable := Applicable(s.all, s.heap.artists);
    var sorted := SortDesc(applicable, PlayKey(s.heap));
    var r := Take(sorted, n);
    TakeOfSorted(sorted, n, PlayKey(s.heap));
    ApplicableMembers(s.all, s.heap.artists);
    assert forall a :: a in r ==> a in applicable by {
      forall a | a in r ensures a in applicable {
        assert a in multiset(r);
      }
    }
    r
  }

  /** `getMostPlayed()` with its default argument. */
  function GetMostPlayedDefault(s: Store): (r: seq<ArtistRef>)
    requires Valid(s)
    ensures |r| <= DefaultMostPlayed
    ensures |r| == if DefaultMostPlayed < |Applicable(s.all, s.heap.artists)| then DefaultMostPlayed
                   else |Applicable(s.all, s.heap.artists)|
    ensures forall a :: a in r ==> a in s.all && IsApplicable(s.heap.artists[a])
    ensures SortedDesc(r, PlayKey(s.heap))
    ensures multiset(r) <= multiset(Applicable(s.all, s.heap.artists))
  {
    GetMostPlayed(s, DefaultMostPlayed)
  }
}
