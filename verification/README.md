# Artist store model

A Dafny model of koel's client-side artist store
(`resources/assets/js/stores/artist.js`). The store keeps the ordered
collection of artists the web player shows. It derives each artist's play
count, song count, cover image and flattened song list from the artist's
albums. It attaches albums to artists and detaches them, and it ranks the
most-played artists.

The JavaScript objects are mutable and shared, so the model splits them into
two parts:

- **Handles.** `ArtistRef` and `AlbumRef` stand for object identity, which
  is what lodash's `union` and `difference` compare. A handle is separate
  from the server-assigned `id`.
- **A heap.** `Records.Heap` maps every live handle to its current record.
  An operation that mutates objects in place becomes a function from the old
  heap or store to the new one.

A `TypeError` thrown part-way is a `Threw` outcome. It carries the state as
it stood at the throw: `getImage` has already stored the placeholder before
`artist.albums.every` fails on a missing album list, and `init` has already
replaced the collection.

Modules:

- `Records`: artist and album records, the heap, JavaScript truthiness,
  `[].concat`, and the three `reduce` folds over an album list (play count,
  song count, songs).
- `Lodash`: `union`, `difference` and `take`, with the laws that connect
  them.
- `OrderBy`: `orderBy(…, 'desc')` as a stable insertion sort, and what
  `take` keeps of a sorted list.
- `ArtistStore`: the store operations.
- `ArtistStoreLaws`: properties that relate several operations.

`config.unknownCover`, the placeholder cover URL, is a `string` parameter.

`getImage` is meant to find an image "from one of the albums" (line 163).
However, the callback it gives to `every` returns `false` or `undefined`,
and both are falsy, so `every` stops after the FIRST album whatever that
album holds. The model follows the code. `GetImageIgnoresLaterAlbums` shows
the consequence: a first album with the placeholder image hides a real cover
on the second album. Two more quirks are kept as written:

- The test is on `album.image`, but the value stored is `album.cover`.
- An empty string counts as "no image", so the image is recomputed.

## Model

| member | source | states |
|---|---|---|
| `ArtistStore.GetImage` | resources/assets/js/stores/artist.js:161-178 | Only the artist's `image` can change. A truthy image is returned untouched. Otherwise the call throws exactly when the album list is missing, leaving the placeholder stored. On return, the stored and returned value is `CachedImage`: the first album's `cover` when that album's `image` is not the placeholder, else the placeholder. |
| `ArtistStore.SetupArtist` | resources/assets/js/stores/artist.js:40-47 | It succeeds exactly when `getImage` does. The artist then has the cached image, `playCount` 0, `songCount` equal to the total number of album songs, and `info` cleared. On a throw only the placeholder image is stored. No other object changes. |
| `ArtistStore.SetUpRecordIdempotent` | resources/assets/js/stores/artist.js:40-47 | Setting up an already set-up artist gives the same record, and a set-up artist can be set up again. |
| `ArtistStore.SetupAll` | resources/assets/js/stores/artist.js:33-35 | It succeeds exactly when every listed artist can be set up. Each listed artist then holds its set-up record, even when it is listed twice. Unlisted artists and all albums are unchanged. |
| `ArtistStore.Init` | resources/assets/js/stores/artist.js:29-38 | The collection becomes the given list, even when a set-up throws. It succeeds exactly when every artist can be set up, and then each holds its set-up record. The albums are unchanged. |
| `ArtistStore.ById` | resources/assets/js/stores/artist.js:72-74 | There is no result exactly when no artist in the collection has the id. Otherwise the result is in the collection, has the id, and no earlier artist has it. |
| `ArtistStore.Add` | resources/assets/js/stores/artist.js:81-86 | It succeeds exactly when every argument can be set up. On a throw the collection is unchanged. On success the collection is duplicate-free and holds exactly the old artists and the arguments, and every argument holds its set-up record. Albums and other artists are unchanged. |
| `ArtistStore.Remove` | resources/assets/js/stores/artist.js:93-95 | The heap is unchanged. The collection keeps exactly the artists not among the arguments, in their old order (a subsequence) and with their old number of occurrences. It stays duplicate-free if it was, and is unchanged when none of the arguments is in it. |
| `ArtistStore.SetArtistIds` | resources/assets/js/stores/artist.js:109-112 | Every given album gets `artist_id` set to the artist's id, and every other album is unchanged. |
| `ArtistStore.AddAlbumsIntoArtist` | resources/assets/js/stores/artist.js:104-115 | The album list becomes a duplicate-free list of exactly the old and the new albums, present even when it was missing. `playCount` is the sum over that list. The new albums point back at the artist. Nothing else on the artist changes. |
| `ArtistStore.RemoveAlbumsFromArtist` | resources/assets/js/stores/artist.js:123-126 | The album list keeps exactly the albums not removed, in their old order (a subsequence) and with their old number of occurrences, and stays duplicate-free if it was. A missing list becomes an empty one. `playCount` is the sum over it. No album object changes, so removed albums keep their `artist_id`. |
| `ArtistStore.IsArtistEmpty` | resources/assets/js/stores/artist.js:135-137 | It throws exactly when the album list is missing. Otherwise it returns true exactly when the list is empty. Nothing changes. |
| `ArtistStore.GetSongsByArtist` | resources/assets/js/stores/artist.js:146-152 | It never throws. A cached list, even an empty one, is returned with nothing changed. Otherwise the albums' songs are flattened in album order, cached and returned, and their number is the artist's song total. |
| `ArtistStore.ApplicableMembers` | resources/assets/js/stores/artist.js:189-191 | The filter keeps exactly the collection's artists with a non-zero play count and an id other than 1. |
| `ArtistStore.GetMostPlayed` | resources/assets/js/stores/artist.js:187-194 | The result has `min(n, number applicable)` entries. Every entry is an applicable artist of the collection, the list is in non-increasing play-count order, and it is a sub-multiset of the applicable artists. |
| `OrderBy.TakeOfSorted` | resources/assets/js/stores/artist.js:193 | A prefix of a sorted list is sorted and a sub-multiset of it. |
| `ArtistStore.GetMostPlayedDefault` | resources/assets/js/stores/artist.js:187 | With the default `n` of 6, the result has `min(6, number applicable)` entries. They are applicable artists of the collection, in non-increasing play-count order, forming a sub-multiset of the applicable artists. |
| `Lodash.Union` | resources/assets/js/stores/artist.js:85 | The result is duplicate-free and holds exactly the elements of either argument. |
| `Lodash.Difference` | resources/assets/js/stores/artist.js:94 | The result holds exactly the elements of the first argument not in the second, and is duplicate-free when the first argument is. |
| `Lodash.DifferenceFilters` | resources/assets/js/stores/artist.js:94 | `difference` is the order-keeping filter. Its result is a subsequence of the first argument in which every element of the second occurs 0 times and every other element as often as in the first. |
| `Lodash.DifferenceAppend` | resources/assets/js/stores/artist.js:94 | `difference` works element by element in place: on a concatenation it is the concatenation of the two differences. |
| `Lodash.UnionExtends` | resources/assets/js/stores/artist.js:85 | On a duplicate-free first argument, `union` keeps it as a prefix and appends the new elements of the second, each once, in order. |
| `Lodash.DifferenceOfUnion` | resources/assets/js/stores/artist.js:94 | For a duplicate-free first argument, removing a list after a union with it leaves what removing it from the original leaves. |
| `Lodash.UnionThenDifference` | resources/assets/js/stores/artist.js:85-94 | For a duplicate-free first argument disjoint from the list, a union followed by a difference with that list gives the first argument back. |
| `OrderBy.SortDesc` | resources/assets/js/stores/artist.js:193 | The result is a permutation of the input, in non-increasing key order, and stable: the elements with any one key keep their relative order. |
| `Records.PlayTotalAppend` | resources/assets/js/stores/artist.js:114 | The play-count sum over a concatenation is the sum of the two sums. |
| `Records.PlayTotalFrame` | resources/assets/js/stores/artist.js:114 | The play-count sum reads only the albums' `playCount`. |
| `Records.SongsOfLength` | resources/assets/js/stores/artist.js:43 | The flattened song list is as long as the song count `setupArtist` stores. |
| `Records.SongsOfMembers` | resources/assets/js/stores/artist.js:148 | A song is in the flattened list exactly when it belongs to one of the listed albums. |
| `ArtistStoreLaws.AddAppendsNewArtists` | resources/assets/js/stores/artist.js:81-86 | On a duplicate-free collection, `add` appends each new artist once, in argument order, after the existing ones. |
| `ArtistStoreLaws.AddResetsPresentArtists` | resources/assets/js/stores/artist.js:83-85 | An argument already in the collection stays listed once but is set up again: its play count drops to 0 and its info is cleared. |
| `ArtistStoreLaws.AddThenRemove` | resources/assets/js/stores/artist.js:81-95 | Removing freshly added new artists restores a duplicate-free collection. |
| `ArtistStoreLaws.AddAlbumsAppends` | resources/assets/js/stores/artist.js:104-115 | On a duplicate-free album list, the new albums are appended once each, in order, and `playCount` is the old albums' total plus the new albums' total. |
| `ArtistStoreLaws.RemoveAlbumsUndoesAdd` | resources/assets/js/stores/artist.js:104-126 | Removing the albums just added restores the artist record, given a present, duplicate-free album list disjoint from them and a consistent play count. The removed albums keep pointing back at the artist. |
| `ArtistStoreLaws.EmptyAfterRemovingAllAlbums` | resources/assets/js/stores/artist.js:123-137 | After its own albums are removed, an artist is empty. This holds even when its album list was missing. |
| `ArtistStoreLaws.NotEmptyAfterAddingAlbums` | resources/assets/js/stores/artist.js:104-137 | After at least one album is added, an artist is not empty. |
| `ArtistStoreLaws.GetImageIdempotent` | resources/assets/js/stores/artist.js:161-178 | After a successful `getImage`, a second call returns the same value and changes nothing, even when the stored image is falsy. |
| `ArtistStoreLaws.GetImageAfterThrow` | resources/assets/js/stores/artist.js:161-178 | With a non-empty placeholder, after `getImage` threw the next call returns the stored placeholder and changes nothing. |
| `ArtistStoreLaws.GetImageIgnoresLaterAlbums` | resources/assets/js/stores/artist.js:166-174 | When the first album carries the placeholder image, the placeholder is stored and returned, whatever the later albums hold. |
| `ArtistStoreLaws.SongsCachedAcrossAlbumEdits` | resources/assets/js/stores/artist.js:104-152 | Once songs are cached, adding or removing albums does not change what `getSongsByArtist` returns. |
| `ArtistStoreLaws.SongsMatchSongCount` | resources/assets/js/stores/artist.js:40-152 | For a freshly set-up artist with no cached songs, `getSongsByArtist` returns `songCount` songs, exactly those of its albums. |
| `ArtistStoreLaws.MostPlayedAreTop` | resources/assets/js/stores/artist.js:187-194 | Every applicable artist left out of the top `n` has a play count no greater than that of each listed artist. |
| `OrderBy.TakeIsTop` | resources/assets/js/stores/artist.js:193 | An element a prefix of a sorted list leaves out ranks no higher than any element it keeps. |
| `OrderBy.WithKeyOfTake` | resources/assets/js/stores/artist.js:193 | Taking a prefix takes a prefix of each key's sub-list. |
| `ArtistStoreLaws.MostPlayedIsSortedPrefix` | resources/assets/js/stores/artist.js:187-194 | The result is a prefix of the applicable artists stably sorted by play count, so an artist listed twice in the collection can appear twice. |
| `ArtistStoreLaws.MostPlayedTiesKeepOrder` | resources/assets/js/stores/artist.js:187-194 | Artists with equal play counts are listed in collection order, as a prefix of the applicable artists with that count. |
| `ArtistStoreLaws.MostPlayedExample` | resources/assets/js/stores/artist.js:187-194 | Five artists with ids 1 to 5 and play counts 10, 0, 5, 20 and 1 give `[4, 3, 5]` for `n` = 3. |

## Left out

- `albumStore.init(this.all)` (line 37): the album store is not part of this model.
- `Vue.set` (lines 42-44): modelled as plain field assignment. Vue's reactivity has no observable effect on the store's data.
- `stub` (line 18): an imported placeholder artist that no operation here uses.
- `album.artist = artist` (line 111): the object back-link is not modelled; the `artist_id` back-reference is.
- The `all` getter and setter (lines 54-65) are the `all` field of `Store`.
- `config`: `config.unknownCover` is the `unknownCover` parameter of every operation that reads it.
- Arguments of the wrong JavaScript type are not modelled: an artist that is not an object, or a song list that is not an array. Neither are album lists holding handles that are not live objects.
- Play counts and song counts are unbounded integers. JavaScript's double-precision numbers would lose precision above 2^53.
- `n` in `getMostPlayed` is a natural number. lodash's handling of negative or fractional `n` is not modelled.
- Ids are integers. lodash's `find` with `{ id }` compares by strict equality, which here is integer equality, so a string id that looks like a number is not modelled.
