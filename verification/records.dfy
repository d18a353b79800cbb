/**
  The records the artist store works on. JavaScript objects become immutable
  records addressed by reference handles: a handle is the object's identity
  (what lodash compares), separate from the server-assigned `id`. The
  `Heap` maps every live handle to its current record, so an operation that
  mutates objects in place becomes a function from heap to heap.
*/
module Records {

  datatype Option<T> = None | Some(value: T)

  datatype ArtistRef = ArtistRef(addr: nat)
  datatype AlbumRef = AlbumRef(addr: nat)
  datatype SongRef = SongRef(addr: nat)
  /** The artist `info` payload fetched from the server; the store only ever clears it. */
  datatype InfoRef = InfoRef(addr: nat)

  /**
    An album. `image` is what the server calls the album's own image and
    `cover` its cover URL; either may be missing (`None`). `artistId` is the
    `artist_id` back-reference, missing until the album is attached.
  */
  datatype Album = Album(
    id: int,
    image: Option<string>,
    cover: Option<string>,
    playCount: int,
    songs: seq<SongRef>,
    artistId: Option<int>)

  /**
    An artist. `albums` is `None` when the server sent no album list. The
    derived fields are `playCount`, `songCount`, `image` (a cached URL) and
    `songs` (a cached flattening of the albums' songs).
  */
  datatype Artist = Artist(
    id: int,
    name: string,
    albums: Option<seq<AlbumRef>>,
    playCount: int,
    songCount: int,
    image: Option<string>,
    info: Option<InfoRef>,
    songs: Option<seq<SongRef>>)

  datatype Heap = Heap(artists: map<ArtistRef, Artist>, albums: map<AlbumRef, Album>)

  /** The argument shape `[].concat(x)` normalises: one value or an array of values. */
  datatype OneOrMany<T> = One(item: T) | Many(items: seq<T>)

  /** `[].concat(x)`: a single value is wrapped, an array is copied. */
  function ToList<T>(x: OneOrMany<T>): seq<T>
  {
    match x
    case One(v) => [v]
    case Many(vs) => vs
  }

  /**
    The result of a store operation: it either returns a value, or throws a
    `TypeError` part-way, in which case the assignments made before the throw
    persist in `state`.
  */
  datatype Outcome<S, T> = Returned(state: S, value: T) | Threw(state: S)

  /** JavaScript truthiness of an optional string: missing, `null` and `""` are falsy. */
  predicate Truthy(s: Option<string>)
  {
    s.Some? && s.value != ""
  }

  /** lodash's `reduce` and `difference` treat a missing album list as an empty one. */
  function AlbumList(a: Artist): seq<AlbumRef>
  {
    match a.albums
    case None => []
    case Some(refs) => refs
  }

  predicate AlbumsLive(m: map<AlbumRef, Album>, refs: seq<AlbumRef>)
  {
    forall b :: b in refs ==> b in m
  }

  /** Every album an artist lists is a live object. */
  predicate WellFormed(h: Heap)
  {
    forall a :: a in h.artists ==> AlbumsLive(h.albums, AlbumList(h.artists[a]))
  }

  /** The sum of the listed albums' play counts, added left to right. */
  function PlayTotal(m: map<AlbumRef, Album>, refs: seq<AlbumRef>): int
    requires AlbumsLive(m, refs)
    decreases |refs|
  {
    if |refs| == 0 then 0
    else PlayTotal(m, refs[..|refs| - 1]) + m[refs[|refs| - 1]].playCount
  }

  /** The total number of songs on the listed albums, added left to right. */
  function SongTotal(m: map<AlbumRef, Album>, refs: seq<AlbumRef>): nat
    requires AlbumsLive(m, refs)
    decreases |refs|
  {
    if |refs| == 0 then 0
    else SongTotal(m, refs[..|refs| - 1]) + |m[refs[|refs| - 1]].songs|
  }

  /** The listed albums' songs, joined in album order. */
  function SongsOf(m: map<AlbumRef, Album>, refs: seq<AlbumRef>): seq<SongRef>
    requires AlbumsLive(m, refs)
    decreases |refs|
  {
    if |refs| == 0 then []
    else SongsOf(m, refs[..|refs| - 1]) + m[refs[|refs| - 1]].songs
  }

  lemma {:induction false} PlayTotalAppend(m: map<AlbumRef, Album>, a: seq<AlbumRef>, b: seq<AlbumRef>)
    requires AlbumsLive(m, a) && AlbumsLive(m, b)
    ensures AlbumsLive(m, a + b)
    ensures PlayTotal(m, a + b) == PlayTotal(m, a) + PlayTotal(m, b)
    decreases |b|
  {
    if |b| == 0 {
      assert a + b == a;
    } else {
      var init := b[..|b| - 1];
      assert (a + b)[..|a + b| - 1] == a + init;
      assert (a + b)[|a + b| - 1] == b[|b| - 1];
      PlayTotalAppend(m, a, init);
    }
  }

  /** The sum reads only `playCount`: changing any other album field leaves it alone. */
  lemma {:induction false} PlayTotalFrame(m: map<AlbumRef, Album>, m': map<AlbumRef, Album>, refs: seq<AlbumRef>)
    requires AlbumsLive(m, refs) && AlbumsLive(m', refs)
    requires forall b :: b in refs ==> m'[b].playCount == m[b].playCount
    ensures PlayTotal(m', refs) == PlayTotal(m, refs)
    decreases |refs|
  {
    if |refs| > 0 {
      assert refs[|refs| - 1] in refs;
      PlayTotalFrame(m, m', refs[..|refs| - 1]);
    }
  }

  /** The flattened song list of a set of albums is as long as their song count. */
  lemma {:induction false} SongsOfLength(m: map<AlbumRef, Album>, refs: seq<AlbumRef>)
    requires AlbumsLive(m, refs)
    ensures |SongsOf(m, refs)| == SongTotal(m, refs)
    decreases |refs|
  {
    if |refs| > 0 {
      SongsOfLength(m, refs[..|refs| - 1]);
    }
  }

  /** Every song of the flattened list belongs to one of the albums, and every album song is in it. */
  lemma {:induction false} SongsOfMembers(m: map<AlbumRef, Album>, refs: seq<AlbumRef>)
    requires AlbumsLive(m, refs)
    ensures forall s :: s in SongsOf(m, refs) <==> exists b :: b in refs && s in m[b].songs
    decreases |refs|
  {
    if |refs| > 0 {
      var init, last := refs[..|refs| - 1], refs[|refs| - 1];
      assert refs == init + [last];
      SongsOfMembers(m, init);
    }
  }
}
