# mlib library files, playback and lists: a verified model

mlib keeps a media library in one memory-mapped file. The file is a 1024-byte
header followed by playlists packed end to end. A playlist is a 128-byte header
and a *bucket*: NUL-terminated paths growing forward, free space, and an array
of big-endian 32-bit offsets of those paths, kept in `strcmp` order and growing
backward. Adding a path may open 128-byte gaps in the middle of the file, which
moves every later playlist; deleting a playlist closes the hole. The user sees
none of this, only a list of named, duplicate-free, sorted sets of paths.

This project models the byte-level code, the playback protocol and the intrusive
lists with the command registry, and proves what they are for.

## How the model is organised

The file, in three layers:

- `LibraryFile.Library` is the imperative code over a byte array: `memmove` in
  both directions, growth and truncation, the in-place sort and binary search of
  big-endian offsets, the restart loop of `mlib_bucket_add`, and the public
  operations. A pointer into the mapping is an offset from its start, so it stays
  meaningful when growth replaces the mapping.
- `Block`, `Growth` and `Operations` say what each operation does to the sequence
  of playlists of a file (a playlist is the byte sequence it occupies). Every
  method of `Library` that changes the file is proved to produce exactly
  `Rebuild(old file, those playlists)`, header bytes included.
- `Catalog` is what the user sees. `Decode` reads it from the bytes of a file, and
  each operation is proved to commute with it. `PlaylistStarted`, `PlaylistDeleted` and
  `PathAdded` say what each call promises about the entries before and after, and every
  public operation ensures them of the decoded file and its result code.

`Runs`, `Space`, `RoundTrip` and `Slides` reason about whole runs and about several
operations together; `LibraryFile.Library.PerformAll` carries a run out on the file.
`History` tells what the file holds after a run from the calls and their result codes
alone, and `Examples` has the short runs that show where a property fails. `Bytes`,
`Strings`, `Packing` and `Image` hold words, C strings, packed strings and the tiling of
a file. `ListRing` and `Commands` are pointer code over heap nodes; `Engine` is a step
system with arbitrary interleaving.

Conventions:

- `CString` is what a C string argument denotes: bytes without a zero byte.
- A return value of 0 or -1 is `ret`; a possibly null pointer is an `Option`.
- 32-bit sums are taken modulo 2^32 where the code takes them so. The one growth
  failure is the 4 GB limit of the length field.
- `qsort`, `bsearch` and `strcmp` are the functions of sections 7.22.5.2, 7.22.5.1
  and 7.24.4.2 of ISO/IEC 9899:2011; `qsort` and `bsearch` are given one possible
  body each, and the result of the sort is proved independent of that choice.
- A `Path`, the string of an addition, is shorter than 2^32 - 1 bytes: `mlib_bucket_add`
  keeps its length plus one in a `uint32_t` and copies a longer string past the end of
  the file. Every addition, alone or in a run, is of a `Path`.
- `lib`, `bs` and `k` parameters marked `ghost` only say which playlist an offset
  belongs to.

## What turned out different from what one might expect

- The comment at `src/playlist.c:222-226` presents failure as failure. A failed
  `mlib_add_path` may already have added the path to `.global`:
  `Catalog.FailedAddLeaves` says exactly when, and in
  `Examples.FailedAddReachesGlobal` it happens to a fresh library.
- Names stay distinct only while they fit the name field. The search compares the
  whole name, the store cuts it to 115 bytes: `Runs.StartDistinct` gives the exact
  condition and `Runs.LongNamesCollide` two equal names made from a fresh library.
  For the same reason a playlist with a longer name cannot be deleted again
  (`RoundTrip.StartFillDelete`).
- Every path is in `.global` only as long as `.global` is neither deleted nor too
  large to take a path that another playlist still can. `Runs.AddKeepsGlobal`,
  `Runs.DeleteKeepsGlobal` and, for whole runs, `Runs.RunKeepsGlobal` say exactly when;
  `Examples.GlobalMissesPath` is a run of three operations on a fresh library that ends
  with a path `.global` lacks.
- Once `.global` is gone it stays gone until it is started again, and until then no path
  can be added anywhere (`Runs.RunWithoutGlobal`).
- When `pthread_create` fails, the record stays marked in use: no request is ever
  let in again (`Engine.StuckForever`), and one failure is enough
  (`Engine.OneFailureIsStuck`). That is the only way playback is lost: in every other
  state a waiting or new request can be let in and play (`Engine.WaitingUnlessStuck`,
  `Engine.NewUnlessStuck`).
- The comment above `list_cut_position` allows a list whose data may be lost; on an
  empty ring the function leaves that list as it was, initialised or not.

## Model

| member | source | states |
|---|---|---|
| Bytes.Word32 | include/mlib/library.h:31 | four bytes whose big-endian reading gives the value back |
| Bytes.WordOfValue | include/mlib/library.h:30-31 | reading a word and writing it back changes no byte |
| Bytes.PutKeeps | include/mlib/library.h:31 | writing one field leaves every range that avoids it alone |
| Strings.StringAtBytes | src/bucket.c:102-106 | the string at an offset is all the bytes up to the first zero byte |
| Strings.StrCmpFirstDifference | src/bucket.c:161 | strcmp is decided by the first differing bytes, taken as unsigned |
| Strings.StrCmpPrefix | src/bucket.c:161 | a proper prefix comes first |
| Strings.StrCmpZero | src/bucket.c:175 | strcmp is zero exactly for equal strings |
| Strings.StrCmpTransitive | src/bucket.c:161 | with StrCmpFlip, strcmp is a total order |
| Strings.StrCmpFlip | src/bucket.c:161 | exchanging the arguments negates the result |
| Strings.StrNCmpZero | src/playlist.c:125-126 | comparing 116 bytes with a stored name is comparing whole names, however long the argument |
| Strings.InsertAscending | src/bucket.c:183-192 | inserting a new key in order keeps an array strictly ascending |
| Strings.SortIsUnique | src/bucket.c:188-189 | any correct qsort gives the one strictly ascending arrangement |
| Strings.Bisect | src/bucket.c:212-214 | one comparison rules out the whole side of a sorted array it should |
| Packing.PackedInsert | src/bucket.c:248-261 | storing a new string last and its offset in order keeps the bucket packed: the bytes split into strings and the offsets are an ascending permutation of their starts |
| Packing.AppendStarts | src/bucket.c:249-254 | a string stored at the end adds its start to the walk over the strings and changes no other |
| Packing.AppendKeepsString | src/bucket.c:249-250 | every earlier offset still denotes the same string |
| Packing.StartsExactly | src/bucket.c:20-22 | the walk over the packed bytes meets offset 0 and the offsets after a terminator, no others |
| Packing.IndexedArePacked | src/bucket.c:93-97 | the strings reached through the index array are the strings packed in the bytes |
| Packing.BytesOfWords | src/bucket.c:82-86 | the index array as bytes and as words determine each other, with WordsOfBytes |
| Packing.WordsOfBytes | src/bucket.c:82-86 | words read back as stored |
| Block.SearchIsScan | src/bucket.c:200-218 | membership in the sorted index array is membership in a linear scan of the packed strings; the number of indexes is the number of strings |
| Block.PathsAscend | include/mlib/library.h:147-150 | the index array lists the paths in strictly ascending order, so each once |
| Block.ExpandKeeps | src/bucket.c:111-141 | opening a gap before the index array and patching three fields changes no name, count, string or index |
| Block.ExpandedKeeps | src/bucket.c:235-246 | the same for any number of rounds, each of which adds 128 to the index offset |
| Block.AppendedContents | src/bucket.c:248-259 | after the stores the strings are the old ones and the new one, and the new offset stands before the old ones |
| Block.ReindexedContents | src/bucket.c:183-192 | rewriting the index array changes nothing else a reader sees |
| Block.SortedIsNew | src/bucket.c:261 | the sort after the prepend yields the old array with the new offset inserted in its place |
| Block.AddStringContents | src/bucket.c:248-261 | fields, strings and indexes after a string is stored and sorted in |
| Block.AddStringPaths | src/bucket.c:223-263 | the paths gain the string in its sorted place, and the bucket stays sound |
| Growth.Room | src/library.c:78-79 | the largest number of rounds that keeps the file below 4 GB |
| Growth.NeedIsLeast | src/bucket.c:240-246 | after k rounds the string fits exactly when k is at least the need; so the need is the least such k |
| Growth.NeedMeetsRoom | src/bucket.c:235-246 | the need is within the room exactly when some number of rounds stays below 4 GB and makes the string fit |
| Growth.BucketAddEffect | src/bucket.c:223-263 | a string is added if and only if it is new and the file may grow far enough; a refusal, even after some rounds, leaves name, count and paths as they were |
| Growth.SetMediaCountKeeps | src/playlist.c:218 | writing mcount changes nothing else |
| Growth.AddPathEffect | src/playlist.c:208-220 | mcount keeps up with the paths and does not wrap; well-formedness survives, with the exact success condition |
| Growth.AddPathLength | src/bucket.c:235-246 | an addition grows the playlist by its need, a refusal for size by all the room there is, a duplicate not at all |
| Image.PlaylistsOfFlat | src/playlist.c:54-93 | hopping by length fields over playlists laid end to end recovers exactly those playlists |
| Image.SplicePlaylist | src/library.c:118-123 | an edit inside one playlist of the file is that edit of that playlist and of no other |
| Image.RebuildHolds | src/library.c:96 | a file rebuilt around other playlists has the right length field and those playlists |
| Image.IsRebuilt | src/library.c:118-123 | a file with those playlists and the old header is the rebuilt file, byte for byte |
| Image.RebuildKeepsHeader | include/mlib/library.h:47-80 | the header survives, but for the length field |
| Image.InsertRebuilds | src/library.c:105-124 | opening a gap in the file is opening it in one playlist; the later ones only move |
| Image.RemoveRebuilds | src/library.c:354-368 | cutting a playlist out of the file leaves the others in order |
| Image.GapThenCut | src/library.c:105-124 | opening a gap anywhere behind the header and cutting it out again is the identity on the file, length field included |
| Operations.Find | src/playlist.c:119-130 | the first playlist of that name, none exactly if there is none |
| Operations.Stored | src/playlist.c:148-160 | a name that fits the field is stored whole, a longer one keeps its first 115 bytes |
| Operations.FreshPlaylistContents | src/playlist.c:159-166 | the 272 bytes of a new playlist are well formed, bear the stored name, hold no paths and have bucket length 128 |
| Operations.WrittenIsFresh | src/playlist.c:159-166 | the stores in the order of the code produce exactly those bytes |
| Operations.AddAt | src/playlist.c:208-220 | after an addition every playlist is well formed and the file is below 4 GB |
| Operations.Add | src/playlist.c:232-254 | the same after mlib_add_path, whether it fails or not |
| Operations.StartSound | src/playlist.c:138-169 | the same after mlib_start_playlist |
| Operations.DeleteSound | src/playlist.c:177-198 | the same after mlib_delete_playlist |
| Catalog.Lookup | src/playlist.c:119-130 | the first entry of that name among what the user sees |
| Catalog.FindRefines | src/playlist.c:119-130 | searching names in the bytes is searching them in the catalog |
| Catalog.StartRefines | src/playlist.c:138-169 | decoding commutes: a new entry without paths at the end, or a refusal, with the result code |
| Catalog.DeleteRefines | src/playlist.c:177-198 | decoding commutes: exactly the named entry goes, in any position, and deleting an existing name succeeds |
| Catalog.AddAtRefines | src/playlist.c:208-220 | decoding commutes: one path set grows by the path, or nothing seen changes |
| Catalog.AddRefines | src/playlist.c:232-254 | decoding commutes for mlib_add_path in every case: missing names, duplicates, each of both refusals for size |
| Catalog.AddReachesBoth | src/playlist.c:223-226 | with both playlists present and room, the path ends in the named entry and in .global, all else is unchanged, and only a duplicate fails |
| Catalog.StartMeans | src/playlist.c:138-169 | a start succeeds if and only if the name is new and the file has room; it adds one entry without paths at the end, named as far as the field reaches; a refusal changes nothing |
| Catalog.StartedIsFound | src/playlist.c:143-160 | a started name under 116 bytes is found at the new place, a longer one not at all |
| Catalog.DeleteMeans | src/playlist.c:177-198 | a deletion succeeds if and only if the name is there; the first entry of the name goes, and all entries of other names, the ones behind it too, stay in their order |
| Catalog.DeletedIsGone | src/playlist.c:189-191 | an entry of another name is there after a deletion if and only if it was before; with distinct names the deleted name is found no more |
| Catalog.AddMeans | src/playlist.c:232-254 | for all arguments, mlib_add_path returns 0 if and only if the named entry, with .global there, did not have the path and now has it; which entries gain the path, and that nothing else changes |
| Catalog.FailedAddLeaves | src/playlist.c:238-253 | exactly when mlib_add_path fails and has changed the library all the same, and that the change is the path in .global and nothing else |
| Catalog.CountsAgree | src/playlist.c:218 | mcount, the number of indexes and the size of the path set are the same number |
| Catalog.StartDecodes | src/playlist.c:138-169 | StartRefines and StartMeans for the bytes of two files |
| Catalog.DeleteDecodes | src/playlist.c:177-198 | DeleteRefines and DeleteMeans for the bytes of two files |
| Catalog.AddDecodes | src/playlist.c:232-254 | AddRefines and AddMeans for the bytes of two files |
| Slides.AddSlides | src/bucket.c:111-141 | an addition leaves every playlist but two byte for byte as it was; offsets grow by multiples of 128; all names stay |
| Slides.AddAtSlides | src/bucket.c:111-141 | the same for an addition to one playlist |
| Runs.RunFileIsValid | src/library.c:73-98 | after any run from a valid file, refusals included, playlists tile the file and its 32-bit length field is its true length, so it never wrapped |
| Runs.RunFileSteps | src/library.c:96 | a run on the file is its operations one after another on the file |
| Runs.StepRefines | src/playlist.c:138-254 | each operation, decoded, is the operation on what the user sees, with the same result code |
| Runs.StepMeans | src/playlist.c:138-254 | each operation keeps the promise of its call about the entries before and after and its result code |
| Runs.RunMeans | src/playlist.c:138-254 | every call of every run does |
| Runs.RunConcat | src/mlib_shell.c:31-55 | a run of two parts is the second part after the first |
| Runs.ReturnsConcat | src/mlib_shell.c:31-55 | and so are its result codes |
| Runs.StepDecodes | src/playlist.c:138-254 | StepMeans for the bytes of two files |
| Runs.RunRefines | src/playlist.c:138-254 | any run on the bytes, decoded, is the same run on what the user sees, with the same result codes, given what the file had room for |
| Runs.RunFileDecodes | src/playlist.c:138-254 | the same for the bytes of a whole file |
| Runs.AddKeepsGlobal | src/playlist.c:238-253 | containment in .global survives an addition unless the path is new to .global, too large for it, and fits another playlist that exists: if and only if |
| Runs.DeleteKeepsGlobal | src/playlist.c:177-198 | with distinct names, a deletion keeps containment if and only if it spares .global |
| Runs.RunKeepsGlobal | src/playlist.c:232-254 | a run that spares .global keeps containment throughout if and only if none of its additions meets that condition; none does if .global is never refused for size |
| Runs.CreatedRunKeepsGlobal | src/library.c:192-196 | the same for every run on the file of a fresh library, which then decodes to entries with .global first and every path in it |
| Runs.RunWithoutGlobal | src/playlist.c:238-244 | over any run that does not start .global again, a library without it stays without it, and every entry is an old one with its old paths or a new one with none |
| Runs.FileWithoutGlobal | src/playlist.c:238-244 | the same for the bytes of a file |
| Runs.StartDistinct | src/playlist.c:143-160 | starting a playlist keeps names distinct unless the name is new, is cut to 115 bytes, and the cut name is taken: if and only if; always for names under 116 bytes |
| Runs.RunDistinct | src/playlist.c:138-198 | runs whose new names fit keep names distinct |
| Runs.CreatedRunLookup | src/playlist.c:119-130 | after such a run on the file of a fresh library, a lookup returns a playlist if and only if it is the one of that name |
| Runs.LongNamesCollide | src/playlist.c:148-160 | two starts with one 116-byte name both succeed and leave equal names |
| History.StartThenDelete | regress/basic.c:58-66 | a new name that fits, started and deleted: both calls return 0 and every playlist is as before |
| History.StartThenDeleteFile | regress/basic.c:58-66 | the same for the file, byte for byte |
| History.LastStart | src/playlist.c:138-169 | a run ending in a start of a short name: 0 if and only if the name is new and 272 more bytes stay below 4 GB, and then the name is found, without paths |
| History.LastAdd | regress/basic.c:74-88 | a run ending in an addition that returns 0: the named playlist is found and has the path |
| History.LastDelete | regress/basic.c:64-67 | a run ending in a deletion: 0 if and only if the name was there, and the name is found no more, the others all the same |
| History.RunRemembers | src/playlist.c:138-254 | for every run with short new names and every playlist but .global: a path is in it at the end if and only if it was there, or an addition of it returned 0, after the last deletion of the playlist |
| History.FileRemembers | src/playlist.c:138-254 | the same for the bytes of the file |
| History.GlobalRemembers | src/playlist.c:223-226 | while nothing is refused for size and .global is spared, it has a path if and only if it had it or some call was to add it, to whatever playlist and with whatever result |
| History.SmallRunGlobal | src/library.c:192-196 | after a run on a fresh library that cannot fill 4 GB, .global has in the file exactly the paths of the calls to add one |
| Examples.FailedAddReachesGlobal | src/playlist.c:238-250 | on a fresh library, adding to a playlist that does not exist fails, and .global holds the path |
| Examples.GlobalMissesPath | src/playlist.c:238-253 | start "a", add a path of nearly 4 GB to .global, add "x" to "a": now "a" holds a path that .global lacks |
| Space.PathsCost | src/bucket.c:248-259 | string bytes and index words are exactly what the paths need |
| Space.AddPathTight | src/bucket.c:240-259 | a free gap between 1 and 128 bytes stays so through an addition that is not refused for size |
| Space.FileLength | src/playlist.c:153-166 | a file exceeds header and path needs by at least 161 bytes per playlist, and by at most 288 when gaps are tight |
| Space.CreatedRunLength | src/library.c:105-124 | both bounds for the file after every run on a fresh library in which nothing is refused for size |
| Space.AddAtMost | src/bucket.c:235-246 | an addition grows the file by at most the path and 133 bytes, and is not refused if that fits |
| Space.SmallRunsFit | src/library.c:73-98 | nothing is refused for size in a run whose starts and additions together could not fill 4 GB |
| RoundTrip.AddAllTouches | src/playlist.c:208-220 | any series of additions to one playlist leaves the others and all names alone |
| RoundTrip.AddAllReaches | src/playlist.c:208-220 | while they fit below 4 GB, the playlist ends up with its old paths and all the new ones |
| RoundTrip.StartFillDelete | src/playlist.c:138-220 | start, any additions, delete: the deletion succeeds if and only if the name fits, and then the old playlists are back |
| RoundTrip.StartFillDeleteFile | src/library.c:354-368 | the same for the file, byte for byte, length field included |
| LibraryFile.Library.Load32 | include/mlib/library.h:30 | the four array cells read are the word of the file |
| LibraryFile.Library.Store32 | include/mlib/library.h:31 | one word of the file changes |
| LibraryFile.Library.Memmove | src/library.c:120 | the destination gets the old source bytes although the ranges overlap, in either direction |
| LibraryFile.Library.Memset | src/library.c:121 | a range becomes zero and nothing else changes |
| LibraryFile.Library.Expand | src/library.c:73-98 | for any size_t: refused exactly if the length does not grow; otherwise the old bytes, zeros, and the low 32 bits of the length in its field |
| LibraryFile.Library.InsertSpace | src/library.c:105-124 | refused exactly for an empty gap or past 4 GB, the wrapped sum being too small; otherwise the file with the gap |
| LibraryFile.Library.Trunc | src/library.c:133-145 | refused below 1024 and above the length; otherwise the prefix with its length |
| LibraryFile.Library.Excise | src/library.c:354-368 | always succeeds on a range behind the header and gives the file without the range |
| LibraryFile.Library.BucketNrIndexes | src/bucket.c:73-77 | the number of indexes of the playlist at that offset |
| LibraryFile.Library.BucketContains | src/bucket.c:200-218 | finds a slot if and only if the magic is there and the string is among the paths, and the slot names it |
| LibraryFile.Library.CompareIndexes | src/bucket.c:150-162 | strcmp of the two strings, read through the file |
| LibraryFile.Library.SortIndexes | src/bucket.c:183-192 | a sorted rearrangement of the index array, all other bytes untouched |
| LibraryFile.Library.BucketSort | src/bucket.c:183-192 | the playlist with its index array sorted, in place, in the file |
| LibraryFile.Library.BucketExpand | src/bucket.c:111-141 | refused exactly past 4 GB; otherwise this playlist is expanded and the others are the same |
| LibraryFile.Library.EnsureSpace | src/bucket.c:235-246 | terminates; grows by exactly the need, or by all the room there is and then fails |
| LibraryFile.Library.AppendString | src/bucket.c:248-259 | the stores leave exactly the appended playlist in the file |
| LibraryFile.Library.BucketAdd | src/bucket.c:223-263 | the file ends up with exactly the specified playlist, whatever the growth, and the result code says which case it was |
| LibraryFile.Library.NextPlaylist | src/playlist.c:54-93 | on any file, corrupt or not, in which the words it reads lie: nothing at or past the end that the length field claims or without the magic, otherwise the hop target |
| LibraryFile.Library.HopLands | src/playlist.c:54-93 | on a valid file each hop lands on the next playlist, the last at the end, and corruption is never reported |
| LibraryFile.Library.FindPlaylist | src/playlist.c:119-130 | terminates and returns the offset of the first playlist of that name, none exactly if there is none |
| LibraryFile.Library.ForEachPlaylist | include/mlib/library.h:136-139 | visits every playlist once, in file order |
| LibraryFile.Library.InitBucket | src/bucket.c:48-60 | refused under 16 bytes and then writes nothing |
| LibraryFile.Library.StartPlaylist | src/playlist.c:138-169 | the whole new file, its validity, its decoding and the result code, and the promise of StartMeans about them |
| LibraryFile.Library.DeletePlaylist | src/playlist.c:177-198 | the whole new file, its validity, its decoding and the result code, and the promise of DeleteMeans about them |
| LibraryFile.Library.AddPathToPlist | src/playlist.c:208-220 | the whole new file and the result code; without the playlist magic nothing changes |
| LibraryFile.Library.AddPath | src/playlist.c:232-254 | the whole new file, its validity, its decoding and the result code, also when it fails, and the promise of AddMeans about them |
| LibraryFile.Library.Perform | regress/basic.c:58-74 | each operation leaves the file rebuilt around the playlists the operation specifies, with its result code, and keeps the promise of its call about the decoded file |
| LibraryFile.Library.PerformAll | src/mlib_shell.c:31-55 | operations one after another, refused ones included, leave exactly the file of the run and return its result codes |
| LibraryFile.Library.FindPath | src/playlist.c:273-280 | finds a slot if and only if the magic is there and the path is in the playlist, and the slot is the path's index |
| LibraryFile.Library.GetPathAt | src/playlist.c:103-109 | the path at that place of the sorted order, none past the end |
| LibraryFile.Library.ForEachPath | include/mlib/library.h:147-150 | yields every path once, mcount in all, strictly ascending |
| LibraryFile.Library.CreateLibrary | src/library.c:154-207 | refused exactly for names that do not fit; otherwise a valid file with an empty .global and both header strings |
| ListRing.Link | include/mlib/list.h:67-75 | linking a node between two neighbours inserts it there in the ring |
| ListRing.Add | include/mlib/list.h:90-93 | the node follows the given one |
| ListRing.AddTail | include/mlib/list.h:104-107 | the node precedes the given one; before the head it is last |
| ListRing.Unlink | include/mlib/list.h:116-120 | the ring without the entry, whose own links are stale |
| ListRing.Del | include/mlib/list.h:129-134 | the ring without the entry, whose links are null |
| ListRing.Move | include/mlib/list.h:177-181 | the entry leaves its ring and becomes first of the same or another ring |
| ListRing.MoveTail | include/mlib/list.h:188-193 | the entry leaves its ring and becomes last of the same or another ring |
| ListRing.RotateLeft | include/mlib/list.h:238-246 | the first entry becomes the last; an empty ring stays |
| ListRing.RotateAround | include/mlib/list.h:238-246 | as many rotations as entries are the identity |
| ListRing.CutPosition | include/mlib/list.h:283-295 | prefix and suffix become two well-formed rings, for every entry and the head itself; an empty ring and the other list stay as they are |
| ListRing.Splice | include/mlib/list.h:316-321 | the entries of the other ring come first |
| ListRing.SpliceTail | include/mlib/list.h:328-333 | the entries of the other ring come last |
| ListRing.SpliceInit | include/mlib/list.h:342-349 | as Splice, and the other ring is empty afterwards |
| ListRing.SpliceTailInit | include/mlib/list.h:359-366 | as SpliceTail, and the other ring is empty afterwards |
| ListRing.CutThenSplice | include/mlib/list.h:283-321 | cutting at any entry and splicing the front part back restores the ring |
| Commands.Registry.Register | src/command.c:32-65 | a new name is linked in at its sorted place, a known one is refused and changes nothing; the ring stays strictly sorted |
| Commands.Registry.RegisterAll | src/command.c:175-182 | registering commands one after another leaves the list that RegisteredContents and OrderDoesNotMatter describe |
| Commands.Registry.Find | src/command.c:73-84 | the command of that name, null exactly if there is none |
| Commands.RegisteredContents | src/command.c:32-65 | after any series of registrations the list is strictly sorted and holds exactly the registered names |
| Commands.OrderDoesNotMatter | src/command.c:38-42 | the final list is the same for every order, and repetition, of the same names |
| Engine.ApplyKeepsInv | src/engine.c:166-265 | every step keeps the invariant: one holder, own reads, copies freed once |
| Engine.OnePlayer | src/engine.c:63-72 | in every interleaving at most one session is creating or running a player |
| Engine.PlayersReadOwn | src/engine.c:169-189 | what a player has read, unlocked, is what its own request wrote, and its copy is not freed |
| Engine.CopiesAreSafe | src/engine.c:173-176 | no copy is used after its release or released twice, none loses its only pointer while live, and all but the current one are released |
| Engine.PlayedInOrder | src/engine.c:204-265 | sessions finish in the order they were let in, all but the current one |
| Engine.StuckForever | src/engine.c:225-228 | after a failed thread creation nothing is ever let in again |
| Engine.FreeUnlessStuck | src/engine.c:225-262 | the record can become free again, with nobody who waits refused, if and only if no thread creation has failed |
| Engine.EnterDecides | src/engine.c:209-223 | a request is let in if and only if nobody holds the record, and refused otherwise |
| Engine.RefusedOnlyWhenHeld | src/engine.c:210-214 | no request is refused in any step but while another holds the record |
| Engine.WaitingUnlessStuck | src/engine.c:204-265 | in every reachable state, a waiting request can still be let in, and its player can still get all it asked for, if and only if no thread creation has failed |
| Engine.NewUnlessStuck | src/engine.c:204-265 | in every reachable state any new request can be made, and can play under the same condition |
| Engine.OneFailureIsStuck | src/engine.c:259-262 | one list request whose thread is not created: the record can never be free again |

## Left out

- File descriptors, mapping and synchronising failures, and addresses: growth and truncation replace the byte array and can fail only at 4 GB; `mlib_create_library` has no failing `open` or `mmap`.
- LibraryFile.Library.AddPathToPlist: strings as for AddPath; pointers are offsets, so the model does not show that the original goes on using raw pointers after growth may have moved the mapping (`src/playlist.c:151-166`, `src/playlist.c:215-218`).
- `mlib_open_library`, `mlib_close_library`, `mlib_find_library`, remote URLs: plumbing, and the lookup of libraries is by prefix.
- `media_count` in the header and `MLIB_LIB_SET_MAGIC`: the first is never updated, the second never used.
- LibraryFile.Library.FindPlaylist: stated for valid files, because on a corrupt file a length field of 0 makes the original walk loop for ever; single hops are stated for any file.
- LibraryFile.Library.AddPath: strings of 2^32 - 1 bytes and more are excluded by the type `Path`, as above.
- LibraryFile.Library.BucketAdd: the same.
- Runs.RunFileIsValid: additions of such strings are no operations of a run, for the same reason.
- LibraryFile.Library.NextPlaylist: reads past the end of a corrupt file are not modelled.
- LibraryFile.Library.SortIndexes: insertion sort stands for `qsort`, whose algorithm is not fixed; the mutex around it is not modelled.
- The printed messages and the shell command wrappers, whose results differ from those of the functions they call.
- Engine.OnePlayer: weak memory, the unlocked reads in pause and stop, a failing `strdup`, and `use_plist` and `status`, which nothing reads; the choice of engine and what it plays are one optional use of the copy.
- The hlist half of `include/mlib/list.h`, `list_replace`, `list_del_init` and the emptiness test for concurrent readers.
- `src/util.c`, `src/mlib_io.c`, `src/mlib_shell.c`, `src/module.c`, the lexer, the directory walker and the modules: no part of the core.
- Nothing was executed; all statements are about the model.
