# Music app route handlers over a relational store

This project models the server core of a small music web application: the
Express route handlers that read and write a PostgreSQL database of users,
songs, playlists and their entries (`playlist_songs`), friendships, song and
playlist recommendations, and listening history. The model also covers the
two pure helpers of the playlist page script: `formatDuration` and the row
number of a song's line.

The store is one `Database` object (module `Schema`). It has one sequence
field per table and a single serial counter `nextId`. Every route handler
is a method over that object. Its contract gives the reply (success, 201,
400, 403, 404 or 500) and the complete new state of every table, as a
function of the old state. The invariant `Valid()` holds before and after
every handler. It says that ids are unique, that every generated id is
below the serial counter, and that every playlist entry points at an
existing playlist (the foreign key the delete handler works around).

Modelling choices:

- A handler that runs inside `BEGIN … COMMIT` restores the saved tables on
  its error paths (ROLLBACK). The serial counter is not rolled back, as
  PostgreSQL sequences are not.
- SQL `SELECT`s are functions over the tables:
  - a join is a lookup by id;
  - `WHERE` is a filter;
  - `ORDER BY` is a stable insertion sort;
  - `LIMIT` is a prefix;
  - `DISTINCT` keeps one copy of each row.
- The queries' properties are proved as lemmas:
  - exact membership, both directions;
  - order, limits, and what a `LIMIT` leaves out;
  - how the position column behaves under add, remove-and-renumber and copy;
  - symmetry of the friends list;
  - round trips of the duration text.

Where several apps in the repository carry the same handler, one member
models it and the table cites one copy:

- the song routes of `song-viz-app-2` and `music_app_v2`;
- the playlist routes of `routes/` and `song-viz-app-4/routes/`;
- `formatDuration` in `public/js/playlists.js` and `song-viz-app-4/public/js/playlists.js`.

Handlers that differ between the apps have their own members. The v2 friends
list, request and accept, and the v2 playlist create and add, are in
`FriendRoutesV2` and `PlaylistRoutesV2`.

Two properties of the playlist recommendation handlers are worth stating
plainly:

- The accept check does not look at the status, so accepting twice copies
  the playlist twice (song-viz-app-4/routes/recommendations.js:74-93,
  `AcceptCheckIgnoresStatus`).
- Reject checks neither the caller nor the status
  (song-viz-app-4/routes/recommendations.js:152-158, `RejectRecommendation`).

Files: `basics.dfy` (Option, replies, JavaScript truthiness, filter and
first-match), `ordering.dfy` (ORDER BY and LIMIT), `schema.dfy` (tables,
keys, the `Database` class), `text.dfy` (`String.prototype.trim`),
`positions.dfy` (the `position_in_playlist` column), `playlist_routes.dfy`,
`playlist_routes_v2.dfy`, `song_routes.dfy`, `recommendation_routes.dfy`,
`friend_routes.dfy`, `friend_routes_v2.dfy`, `playlist_page.dfy`.

## Model

| member | source | states |
|---|---|---|
| Basics.Filter | song-viz-app-2/routes/songs.js:302 | a WHERE: a row is kept exactly when it is in the table and satisfies the condition; no more rows, and no row more often, than in the table |
| Basics.FilterCount | song-viz-app-2/routes/songs.js:302 | a kept row occurs exactly as often as in the table, a dropped row not at all |
| Basics.FilterAppend | song-viz-app-2/routes/songs.js:302 | the WHERE of a concatenation is the concatenation of the WHEREs: kept rows stay in table order |
| Basics.FilterIdempotent | routes/friends.js:121-124 | a second DELETE … WHERE with the same condition removes nothing more |
| Basics.First | routes/friends.js:155-162 | `rows[0]` of a SELECT: a matching row, or none exactly when no row matches |
| Basics.Take | song-viz-app-2/routes/songs.js:188 | LIMIT n keeps the first n rows, or all when there are fewer |
| Basics.Distinct | song-viz-app-4/routes/recommendations.js:10 | SELECT DISTINCT keeps exactly the rows that occur, each once |
| Basics.PermutationNoDuplicates | song-viz-app-4/routes/recommendations.js:10-20 | sorting distinct rows keeps them distinct |
| Ordering.SortBy | song-viz-app-4/routes/playlists.js:167-170 | ORDER BY: a permutation of the rows, sorted by the comparator |
| Ordering.InsertBy | song-viz-app-4/routes/playlists.js:170 | inserting a row into sorted rows keeps them sorted and adds exactly that row |
| Ordering.SortDesc | song-viz-app-4/routes/playlists.js:152-154 | ORDER BY key DESC: a permutation whose key never grows along the result |
| Ordering.SortAsc | song-viz-app-4/routes/playlists.js:76 | ORDER BY key ASC: a permutation whose key never shrinks |
| Ordering.TakeLeftOut | song-viz-app-2/routes/songs.js:187-188 | a row cut off by LIMIT has no larger key than any row kept |
| Ordering.Latest | song-viz-app-2/routes/songs.js:187-188 | ORDER BY key DESC LIMIT n: at most n rows and exactly n when there are enough; all when there are few; drawn from the rows, descending, and nothing left out beats a row kept |
| Schema.UserById | song-viz-app-2/routes/songs.js:185 | JOIN users ON id: the user with that id, or none exactly when there is no such user |
| Schema.SongById | song-viz-app-2/routes/songs.js:184 | JOIN songs ON id: the song with that id, or none exactly when there is none |
| Schema.PlaylistById | song-viz-app-4/routes/playlists.js:14-17 | SELECT … FROM playlists WHERE playlist_id: the playlist, or none exactly when there is none |
| Schema.RecById | song-viz-app-4/routes/recommendations.js:79 | JOIN recommendations ON id: the recommendation, or none exactly when there is none |
| Schema.Database.constructor | song-viz-app-4/routes/playlists.js:3 | the store starts from any tables that keep the keys |
| Schema.Database.NextId | song-viz-app-2/routes/songs.js:102 | RETURNING the serial id: the counter's value, and the counter moves on by one |
| Schema.Database.Restore | song-viz-app-2/routes/songs.js:160 | ROLLBACK: every table is back to its state at BEGIN, the counter is untouched |
| Schema.KeyedMonotone | song-viz-app-2/routes/songs.js:160 | a counter that moved on (ids drawn by rolled-back inserts) keeps the keys |
| Schema.KeyedAddPlaylist | song-viz-app-4/routes/playlists.js:191-201 | a playlist inserted under the next serial id keeps unique ids and the entries' foreign key |
| Schema.KeyedAddSong | song-viz-app-2/routes/songs.js:95-108 | a song inserted under the next serial id keeps the keys |
| Schema.KeyedAddEntry | song-viz-app-2/routes/songs.js:147-154 | an entry of an existing playlist keeps the foreign key |
| Schema.KeyedAddEntries | song-viz-app-4/routes/recommendations.js:117-130 | entries that all point at existing playlists keep the foreign key |
| Schema.KeyedAddRec | song-viz-app-2/routes/songs.js:235-245 | a recommendation under the next serial id keeps the keys |
| Schema.KeyedAddSongRec | song-viz-app-2/routes/songs.js:248-255 | a detail row naming a drawn recommendation id keeps the keys |
| Schema.KeyedAddPlaylistRec | song-viz-app-4/routes/recommendations.js:48-53 | a playlist detail row naming a drawn recommendation id keeps the keys |
| Text.TrimStart | song-viz-app-4/routes/playlists.js:187 | leading white space removed: a suffix not starting with a space, all cut characters spaces |
| Text.TrimEnd | song-viz-app-4/routes/playlists.js:187 | trailing white space removed: a prefix not ending with a space, all cut characters spaces |
| Text.Trim | song-viz-app-4/routes/playlists.js:187 | trim: no longer than the input, neither starts nor ends with white space |
| Text.TrimSlice | song-viz-app-4/routes/playlists.js:200 | the input is its leading spaces, the trimmed text and its trailing spaces, in order |
| Text.TrimEmpty | song-viz-app-4/routes/playlists.js:187 | `name.trim().length === 0` exactly when the name is all white space |
| Text.TrimIdempotent | song-viz-app-4/routes/playlists.js:200 | a stored (trimmed) name trims to itself |
| Text.Blank | song-viz-app-4/routes/playlists.js:187 | the blank-name test (`!name`, or an empty trimmed name) holds exactly when the name is missing or all white space |
| Text.TrimOption | song-viz-app-4/routes/playlists.js:200 | `description?.trim()`: absent stays absent, present is trimmed |
| Positions.Rows | song-viz-app-4/routes/playlists.js:119-121 | WHERE playlist_id = pid: exactly the rows of that playlist |
| Positions.RowsAppend | song-viz-app-2/routes/songs.js:147-154 | the rows of a playlist in an appended table are its old rows then its new ones |
| Positions.MaxPositionOf | song-viz-app-4/routes/playlists.js:118-122 | COALESCE(MAX(position), 0): 0 for no rows, else the largest position, attained by a row |
| Positions.Ranked | song-viz-app-4/routes/playlists.js:75-79 | ROW_NUMBER() OVER (ORDER BY position): a permutation of the rows in position order |
| Positions.FirstIndex | song-viz-app-4/routes/playlists.js:82-83 | the model resolves the join on song_id to the first numbered row holding the song (PostgreSQL may use any matching row), or none |
| Positions.WithoutSong | song-viz-app-4/routes/playlists.js:68-71 | DELETE … WHERE playlist_id AND song_id: exactly the other rows stay |
| Positions.WithoutPlaylist | song-viz-app-4/routes/playlists.js:28-31 | DELETE … WHERE playlist_id: exactly the rows of other playlists stay |
| Positions.MaxPosition | song-viz-app-4/routes/playlists.js:118-124 | COALESCE(MAX(position), 0) over one playlist: 0 with no rows, no row of the playlist above it, attained by one of its rows otherwise |
| Positions.NextEntry | song-viz-app-4/routes/playlists.js:118-134 | the inserted row: the playlist and song asked for, dated today, at exactly MAX(position) + 1, so past every position of the playlist and 1 in an empty one |
| Positions.Fix | song-viz-app-4/routes/playlists.js:80-83 | one row under the UPDATE: only its position may change; a row of another playlist is untouched; a row of the playlist whose song is numbered gets a rank 1..n at which the numbered rows hold its song |
| Positions.Renumber | song-viz-app-4/routes/playlists.js:74-84 | the UPDATE over the whole table: as many rows, each differing at most in its position, rows of other playlists unchanged |
| Positions.Renumbered | song-viz-app-4/routes/playlists.js:74-84 | the table after the renumbering: as many rows, every row of the playlist at a position between 1 and its row count |
| Positions.CopyRows | song-viz-app-4/routes/recommendations.js:117-130 | INSERT … SELECT of the copy: one row per source row, all in the new playlist and dated today, song and position kept row by row |
| Positions.RenumberedFrame | song-viz-app-4/routes/playlists.js:80-83 | the UPDATE keeps the table's length and changes only positions of the playlist's rows |
| Positions.RowsOfRenumber | song-viz-app-4/routes/playlists.js:80-83 | renumbering commutes with selecting one playlist's rows |
| Positions.RenumberedLength | song-viz-app-4/routes/playlists.js:74-84 | the renumbering keeps every playlist's number of rows |
| Positions.RenumberedOthers | song-viz-app-4/routes/playlists.js:83 | the renumbering of one playlist leaves every other playlist's rows |
| Positions.RowsOfWithoutSong | song-viz-app-4/routes/playlists.js:68-71 | deleting a song commutes with selecting a playlist's rows |
| Positions.RowsOfWithoutPlaylist | song-viz-app-4/routes/playlists.js:28-31 | after deleting a playlist's entries it has none; other playlists keep theirs |
| Positions.WithoutAbsentSong | song-viz-app-4/routes/playlists.js:68-71 | deleting a song the playlist does not hold changes nothing |
| Positions.WithoutSongDistinct | song-viz-app-4/routes/playlists.js:68-71 | deleting keeps a playlist free of repeated songs |
| Positions.WithoutSongCount | song-viz-app-4/routes/playlists.js:68-71 | deleting a song held once leaves one row fewer |
| Positions.RankFound | song-viz-app-4/routes/playlists.js:82-83 | every row's song is found among the numbered rows |
| Positions.RankFindsRow | song-viz-app-4/routes/playlists.js:82-83 | without repeated songs the join finds the row itself |
| Positions.RankedIota | song-viz-app-4/routes/playlists.js:76 | numbering a dense playlist by position puts position k + 1 at rank k |
| Positions.DenseMax | song-viz-app-4/routes/playlists.js:118-124 | in a dense playlist of n rows MAX(position) is n |
| Positions.DenseRowsSnoc | song-viz-app-4/routes/playlists.js:124 | a row at n + 1 after positions 1..n keeps them dense |
| Positions.AppendKeepsDense | song-viz-app-4/routes/playlists.js:117-134 | adding at MAX + 1 to a dense playlist gives position n + 1, keeps it dense, keeps songs distinct when the song is new, leaves other playlists |
| Positions.AppendNextEntry | song-viz-app-2/routes/songs.js:137-154 | the append of the add handlers keeps density and distinct songs and other playlists, for any prior state |
| Positions.RenumberRowsDense | song-viz-app-4/routes/playlists.js:74-84 | numbering rows without repeated songs makes positions 1..n |
| Positions.RenumberedDense | song-viz-app-4/routes/playlists.js:74-84 | after the renumbering a playlist without repeats is dense with as many rows |
| Positions.RenumberRowsOrder | song-viz-app-4/routes/playlists.js:76-81 | renumbering keeps the strict order of positions |
| Positions.RenumberedKeepsOrder | song-viz-app-4/routes/playlists.js:74-84 | the playlist keeps its order: rows stay where they are, a smaller position stays smaller |
| Positions.RenumberedFixesDense | song-viz-app-4/routes/playlists.js:74-84 | a dense playlist without repeats is left exactly as it was |
| Positions.RemoveSongKeepsDense | song-viz-app-4/routes/playlists.js:67-84 | remove-song: dense afterwards, one row fewer if the song was there, as many if not, other playlists untouched |
| Positions.RemoveSongCount | song-viz-app-4/routes/playlists.js:67-84 | one row fewer when the song was there, as many when not |
| Positions.RemovePresentCount | song-viz-app-4/routes/playlists.js:68-71 | deleting a present song from distinct rows removes exactly one |
| Positions.RemoveSongOthers | song-viz-app-4/routes/playlists.js:78-83 | removing a song from one playlist leaves all others |
| Positions.RepeatedSongCollides | song-viz-app-4/routes/playlists.js:82-83 | with a song held twice the renumbering can number both rows 1 (the model's first-match outcome, one of those PostgreSQL allows): two rows share a position |
| Positions.CopyRowsKeep | song-viz-app-4/routes/recommendations.js:124-127 | a copy keeps positions, hence density and distinct songs |
| Positions.CopyFaithful | song-viz-app-4/routes/recommendations.js:117-130 | the new playlist holds exactly the copied rows, same songs at the same positions, dense and distinct if the source was, other playlists unchanged |
| Positions.CopyIntoEmpty | song-viz-app-4/routes/recommendations.js:117-130 | copied rows are the only rows of an empty playlist |
| Positions.CopyLeavesOthers | song-viz-app-4/routes/recommendations.js:117-130 | the copy adds no row to another playlist |
| Positions.NoRowsElsewhere | song-viz-app-4/routes/recommendations.js:114 | rows none of which is of playlist q give q no rows |
| PlaylistRoutes.WithoutPlaylistRow | song-viz-app-4/routes/playlists.js:34-37 | DELETE FROM playlists: exactly the other playlists stay |
| PlaylistRoutes.PlaylistStillFound | song-viz-app-4/routes/playlists.js:27-37 | a playlist lookup survives when its rows are kept |
| PlaylistRoutes.ReferencesKept | song-viz-app-4/routes/playlists.js:27 | entries whose playlists all had entries before keep the foreign key |
| PlaylistRoutes.DeletePlaylist | song-viz-app-4/routes/playlists.js:7-48 | 404 unknown, 403 not owner, both unchanged; else entries then playlist deleted, the playlist gone with no rows, others untouched |
| PlaylistRoutes.RemoveSong | song-viz-app-4/routes/playlists.js:51-95 | 500 and unchanged unless the caller owns the playlist; else delete and renumber, dense afterwards, one row fewer if present, others untouched |
| PlaylistRoutes.RenumberPlaylist | song-viz-app-4/routes/playlists.js:74-84 | the UPDATE, row by row: the table becomes the renumbered table |
| PlaylistRoutes.AddSong | song-viz-app-4/routes/playlists.js:98-145 | a 'new' song is inserted with 180 s; an unknown playlist rolls back with 500; else the entry goes at MAX + 1, dense stays dense |
| PlaylistRoutes.InsertSong | song-viz-app-4/routes/playlists.js:109-114 | INSERT INTO songs RETURNING song_id: one row under the next serial id |
| PlaylistRoutes.InsertEntry | song-viz-app-4/routes/playlists.js:117-134 | the entry at MAX + 1: dense stays dense, distinct stays distinct for a new song, others untouched |
| PlaylistRoutes.ListPlaylists | song-viz-app-4/routes/playlists.js:149-162 | exactly the caller's playlists, as a multiset, newest first |
| PlaylistRoutes.CreatePlaylist | song-viz-app-4/routes/playlists.js:183-208 | 400 exactly when the name is missing or blank, unchanged; else 201 with the row stored under the next id, name and description trimmed, is_public as sent (NULL when missing) |
| PlaylistRoutes.InsertPlaylist | song-viz-app-4/routes/playlists.js:191-201 | INSERT INTO playlists RETURNING *: the row under the next serial id, appended |
| PlaylistRoutes.ByNameTotal | song-viz-app-4/routes/playlists.js:170 | ORDER BY username on users is a total preorder when the collation is |
| PlaylistRoutes.SortedOthers | song-viz-app-4/routes/playlists.js:166-171 | exactly the users other than the caller, as many, in collation order |
| PlaylistRoutes.Names | song-viz-app-4/routes/playlists.js:167 | SELECT user_id, username: the two columns of each row, in order |
| PlaylistRoutes.NamesMembers | song-viz-app-4/routes/playlists.js:167 | each user has its row and each row comes from a user |
| PlaylistRoutes.OtherUsers | song-viz-app-4/routes/playlists.js:164-178 | one row per other user; every other user listed, never the caller |
| PlaylistRoutes.OtherUsersSorted | song-viz-app-4/routes/playlists.js:170 | the list is in username collation order |
| PlaylistRoutes.JoinSongs | song-viz-app-4/routes/playlists.js:291-295 | songs JOIN playlist_songs: no more rows than entries |
| PlaylistRoutes.JoinSongsFrom | song-viz-app-4/routes/playlists.js:291-294 | each joined song is a song row at the position of an entry holding it |
| PlaylistRoutes.JoinSongsComplete | song-viz-app-4/routes/playlists.js:293 | when every song exists the join keeps every entry, position by position |
| PlaylistRoutes.JoinSongsSorted | song-viz-app-4/routes/playlists.js:295 | the join keeps position order |
| PlaylistRoutes.Visible | song-viz-app-4/routes/playlists.js:281 | `creator_id = me OR is_public = true`: the creator always sees the playlist, everyone sees a public one, and a NULL or false is_public hides it from all but the creator |
| PlaylistRoutes.PlaylistDetail | song-viz-app-4/routes/playlists.js:276-309 | 404 exactly when no such playlist is the caller's or public; else it with its songs in position order, each from an entry of it |
| PlaylistRoutes.JoinSongsHas | song-viz-app-4/routes/playlists.js:290-295 | an entry whose song exists is in the join, with its song at its position |
| PlaylistRoutes.DetailComplete | song-viz-app-4/routes/playlists.js:290-295 | the detail lists every entry of the playlist whose song exists, with that song at the entry's position |
| PlaylistRoutes.DetailOfDense | song-viz-app-4/routes/playlists.js:291-301 | on a dense playlist the k-th listed song has position k + 1 and none is missing |
| PlaylistRoutesV2.CreatePlaylistV2 | music_app_v2/routes/playlists.js:19-30 | no validation: the row stored as given under the next id, is_public NULL when missing, and returned |
| PlaylistRoutesV2.CreatedIsListed | music_app_v2/routes/playlists.js:6-16 | a created playlist appears in its creator's list |
| PlaylistRoutesV2.AddSongV2 | music_app_v2/routes/playlists.js:33-52 | an unknown playlist fails with 500 unchanged; else the entry at MAX + 1, dense stays dense, no owner or duplicate check |
| PlaylistRoutesV2.AddTwiceRepeats | music_app_v2/routes/playlists.js:33-47 | adding a song twice holds it twice at increasing positions |
| SongRoutes.FindSong | song-viz-app-2/routes/songs.js:85-88 | a song with that title and artist, none exactly when there is none |
| SongRoutes.Resolve | song-viz-app-2/routes/songs.js:84-111 | the existing song if any (table unchanged), else one new row under the next id; the result names a song with that title and artist |
| SongRoutes.ResolveTwice | song-viz-app-2/routes/songs.js:206-232 | resolving the same track again inserts nothing and finds the same song |
| SongRoutes.ResolveSong | song-viz-app-2/routes/songs.js:84-111 | the store moves to `Resolve`'s table, the counter by the rows added |
| SongRoutes.AddToPlaylist | song-viz-app-2/routes/songs.js:69-169 | missing ids are 500 unchanged; after resolving, an unknown, foreign or already-holding playlist rolls back with 500; else the entry at MAX + 1, dense and distinct kept |
| SongRoutes.Contains | song-viz-app-2/routes/songs.js:128-135 | SELECT 1 … WHERE song_id: true exactly when a row holds the song |
| SongRoutes.Recommend | song-viz-app-2/routes/songs.js:199-266 | missing song data is 500 unchanged; else the song resolved, one pending recommendation to `recipient_id || me` and its detail with `reason || ''` |
| SongRoutes.InsertSongRec | song-viz-app-2/routes/songs.js:235-255 | the recommendation under the next id, then its detail row |
| SongRoutes.SongRecRows | song-viz-app-2/routes/songs.js:182-185 | every joined row comes from a detail row with its recommendation, song and recommender |
| SongRoutes.SongRecRowsComplete | song-viz-app-2/routes/songs.js:182-185 | every detail row whose parts exist is joined |
| SongRoutes.InboundOf | song-viz-app-2/routes/songs.js:186 | exactly the joined rows addressed to the caller |
| SongRoutes.InboundRecommendations | song-viz-app-2/routes/songs.js:172-196 | at most ten, ten when there are enough, all when few; the caller's; newest first; none left out is newer |
| SongRoutes.Counted | song-viz-app-2/routes/songs.js:275-279 | GROUP BY song: each listed song with its true count, at least one |
| SongRoutes.CountedComplete | song-viz-app-2/routes/songs.js:277-279 | every recommended song is counted |
| SongRoutes.TopRecommended | song-viz-app-2/routes/songs.js:269-289 | at most five, five when enough, all when few; largest count first; none left out has a larger count |
| SongRoutes.TopRecommendedSound | song-viz-app-2/routes/songs.js:269-289 | a listed song is real with its true count; a recommended song left out counts no more than a listed one |
| SongRoutes.RecommendCounts | song-viz-app-2/routes/songs.js:235-255 | a recommendation adds one to its song's count and leaves every other count |
| SongRoutes.ListenRows | song-viz-app-2/routes/songs.js:300-301 | every joined listen is a listen of an existing song |
| SongRoutes.ListenRowsComplete | song-viz-app-2/routes/songs.js:301 | every listen of an existing song is joined |
| SongRoutes.ListensOf | song-viz-app-2/routes/songs.js:302 | exactly the caller's joined listens |
| SongRoutes.History | song-viz-app-2/routes/songs.js:292-312 | at most twenty, twenty when enough, all when few; newest first; none left out is newer |
| SongRoutes.RecordListen | song-viz-app-2/routes/songs.js:315-332 | one listen of the caller dated now with the duration as sent |
| SongRoutes.HistoryHeadNewest | song-viz-app-2/routes/songs.js:303 | the first history row is no older than any listen of the caller |
| SongRoutes.NewestListenFirst | song-viz-app-2/routes/songs.js:315-332 | a listen newer than all earlier ones heads the history afterwards |
| SongRoutes.SearchDuration | song-viz-app-2/routes/songs.js:43-54 | a truthy millisecond duration becomes floor(ms / 1000) seconds; otherwise 180 |
| RecommendationRoutes.SetRecStatus | song-viz-app-4/routes/recommendations.js:133-138 | UPDATE … SET status: rows with that id get the status, all else is unchanged |
| RecommendationRoutes.KeyedSetRecStatus | song-viz-app-4/routes/recommendations.js:133-138 | the status update keeps the keys |
| RecommendationRoutes.RecByIdAfterStatus | song-viz-app-4/routes/recommendations.js:155-158 | after the update the lookup finds the new status for that id and the old rows for others |
| RecommendationRoutes.JoinPlaylistRecs | song-viz-app-4/routes/recommendations.js:15-18 | every joined row comes from a detail row with its playlist, recommendation and recommender |
| RecommendationRoutes.JoinPlaylistRecsComplete | song-viz-app-4/routes/recommendations.js:15-18 | every detail row whose parts exist is joined |
| RecommendationRoutes.PendingRows | song-viz-app-4/routes/recommendations.js:9-21 | the joined rows addressed to the caller and pending: each shows an existing playlist |
| RecommendationRoutes.PendingRowsMembers | song-viz-app-4/routes/recommendations.js:19 | exactly the joined rows addressed to the caller and pending |
| RecommendationRoutes.PendingPlaylistRecommendations | song-viz-app-4/routes/recommendations.js:9-21 | exactly those rows, each once (DISTINCT), newest first |
| RecommendationRoutes.NoLongerPending | song-viz-app-4/routes/recommendations.js:133-138 | an accepted or rejected recommendation leaves every pending list |
| RecommendationRoutes.RecommendPlaylist | song-viz-app-4/routes/recommendations.js:31-64 | one pending playlist recommendation under the next id and its detail row; nothing checked |
| RecommendationRoutes.AcceptCheck | song-viz-app-4/routes/recommendations.js:74-86 | none exactly when no detail row joins an existing recommendation; else a detail's playlist and the recipient |
| RecommendationRoutes.AcceptCheckIgnoresStatus | song-viz-app-4/routes/recommendations.js:74-82 | the check ignores the status, so an accepted recommendation can be accepted again |
| RecommendationRoutes.CopyOf | song-viz-app-4/routes/recommendations.js:96-112 | the copy: new id, the caller, today, name + " (Recommended)", description and is_public kept |
| RecommendationRoutes.NoRowsAtNext | song-viz-app-4/routes/recommendations.js:114 | no entry points at the id the counter gives next |
| RecommendationRoutes.AcceptRecommendation | song-viz-app-4/routes/recommendations.js:67-149 | 404 and 403 unchanged; a vanished source playlist rolls back with 500; else the copy, its entries at the same positions (dense and distinct if the source was), status accepted, other playlists untouched |
| RecommendationRoutes.CopyEntries | song-viz-app-4/routes/recommendations.js:117-130 | INSERT … SELECT: the source's rows re-pointed at the copy appended, keys kept |
| RecommendationRoutes.AppendRows | song-viz-app-4/routes/recommendations.js:117-130 | the rows appended in order |
| RecommendationRoutes.SetStatus | song-viz-app-4/routes/recommendations.js:133-138 | the recommendations table after the status update, keys kept |
| RecommendationRoutes.RejectRecommendation | song-viz-app-4/routes/recommendations.js:152-165 | status rejected for that id whoever asks; always success |
| FriendRoutes.JoinUsers | routes/friends.js:10-12 | every joined user is a user paired by some row |
| FriendRoutes.JoinUsersComplete | routes/friends.js:10-12 | every user a row pairs with is joined |
| FriendRoutes.FriendsCond | routes/friends.js:11-15 | the join condition holds exactly when the row is accepted, joins the caller to the user in either direction, and the user is not the caller |
| FriendRoutes.Friends | routes/friends.js:8-16 | the caller is never listed |
| FriendRoutes.FriendsMembers | routes/friends.js:26-34 | listed exactly when an accepted row joins the caller and the user, either direction |
| FriendRoutes.FriendsSymmetric | routes/friends.js:12-13 | a lists b exactly when b lists a |
| FriendRoutes.ReceivedCond | routes/friends.js:73-74 | the received join condition holds exactly when the row is a pending request from the user to the caller |
| FriendRoutes.SentCond | routes/friends.js:81-82 | the sent join condition holds exactly when the row is a pending request from the caller to the user: the same row seen from the other end |
| FriendRoutes.PendingRequests | routes/friends.js:67-89 | both lists hold users only |
| FriendRoutes.PendingMembers | routes/friends.js:70-83 | received: exactly senders of pending rows to the caller; sent: exactly addressees of the caller's pending rows |
| FriendRoutes.SearchUser | routes/friends.js:152-167 | a user with that username, none exactly when there is none |
| FriendRoutes.Requested | routes/friends.js:48-53 | a row of any status from a to b exists exactly when the duplicate check's SELECT returns a row |
| FriendRoutes.PendingFrom | routes/friends.js:96-103 | a pending row from a to b exists exactly when the accept check's SELECT returns a row; it is then a request |
| FriendRoutes.AcceptRows | routes/friends.js:106-109 | the UPDATE: rows (a, b) accepted, every other row unchanged, same length |
| FriendRoutes.AcceptMakesFriends | routes/friends.js:92-115 | after accepting, each lists the other |
| FriendRoutes.AcceptNothing | routes/friends.js:106-109 | an update matching no row changes nothing |
| FriendRoutes.Declined | routes/friends.js:121-124 | exactly the rows other than pending (a, b) stay; none pending from a to b |
| FriendRoutes.DeclineIdempotent | routes/friends.js:118-130 | declining twice is declining once |
| FriendRoutes.DeclineKeepsFriends | routes/friends.js:121-124 | declining changes nobody's friends list |
| FriendRoutes.Unfriended | routes/friends.js:139-143 | exactly the rows not between the two users, either direction, stay |
| FriendRoutes.UnfriendSeparates | routes/friends.js:133-149 | afterwards neither lists the other and no request remains either way |
| FriendRoutes.SetFriendships | routes/friends.js:56-59 | the friendships table replaced, keys kept |
| FriendRoutes.SendRequest | routes/friends.js:44-64 | 400 exactly when a row (me, friend) exists, unchanged; else one pending row; a row (me, friend) exists afterwards |
| FriendRoutes.AcceptRequest | routes/friends.js:92-115 | 400 exactly when no pending row from friend to me, unchanged; else rows (friend, me) accepted |
| FriendRoutes.DeclineRequest | routes/friends.js:118-130 | pending rows (friend, me) removed; always success |
| FriendRoutes.Unfriend | routes/friends.js:133-149 | every row between the two removed; always success |
| FriendRoutesV2.OneWayCond | music_app_v2/routes/friends.js:11-12 | the v2 join condition holds exactly when the row is accepted and was sent by the caller to the user: the first app's condition restricted to one direction |
| FriendRoutesV2.FriendsOneWay | music_app_v2/routes/friends.js:6-18 | every listed user is a user |
| FriendRoutesV2.OneWayMembers | music_app_v2/routes/friends.js:8-13 | listed exactly when an accepted row goes from the caller to the user |
| FriendRoutesV2.OneWayAsymmetric | music_app_v2/routes/friends.js:11-12 | after 2 accepts 1, 1 lists 2 but 2 does not list 1, unlike the first app's list |
| FriendRoutesV2.SendRequestV2 | music_app_v2/routes/friends.js:21-32 | one pending row appended, even a duplicate; always success |
| FriendRoutesV2.RequestTwiceDuplicates | music_app_v2/routes/friends.js:24-27 | a second identical request adds a second identical row |
| FriendRoutesV2.AcceptRequestV2 | music_app_v2/routes/friends.js:35-46 | rows (friend, me) accepted whatever their status; always success |
| PlaylistPage.NatToString | public/js/playlists.js:135 | decimal digits only, one digit exactly below 10 |
| PlaylistPage.ParseNatToString | public/js/playlists.js:135 | reading the printed number back gives the number |
| PlaylistPage.IntToString | public/js/playlists.js:135 | a negative number prints as a minus sign and its magnitude's digits |
| PlaylistPage.PadStart | public/js/playlists.js:135 | padStart: width reached, the text kept at the end, padding characters before it |
| PlaylistPage.JsRem | public/js/playlists.js:134 | JavaScript %: dividend = divisor × quotient truncated toward zero + remainder; the remainder is the usual one for non-negative dividends and lies in (-divisor, 0] for negative ones |
| PlaylistPage.FormatDuration | public/js/playlists.js:131-136 | a falsy value shows "0:00" |
| PlaylistPage.SecondsField | public/js/playlists.js:135 | a seconds count below 60 pads to two digits that read back as the count |
| PlaylistPage.FormatPositive | public/js/playlists.js:133-135 | a positive length prints floor(s / 60), a colon and s % 60 padded, without signs |
| PlaylistPage.FormatDurationRoundTrip | public/js/playlists.js:131-136 | for s > 0: minutes, colon, two-digit seconds below 60, and minutes * 60 + seconds reads back as s |
| PlaylistPage.RowLabel | public/js/playlists.js:186 | the row label is digits reading back as index + 1 |
| PlaylistPage.RowLabelIsPosition | public/js/playlists.js:183-186 | on a dense playlist the row label of the k-th song is its stored position |

## Left out

- The Last.fm search and trending calls (network), sessions and login, the rendered pages and the DOM, the users routes, and the connection pool are outside the model. The search handler is represented only by its duration rule (`SongRoutes.SearchDuration`), with the provider's answer as a parameter.
- Concurrency and isolation: each handler runs alone, from start to finish, on the store.
- Time: `CURRENT_DATE` and `CURRENT_TIMESTAMP` are integer parameters from the caller's clock.
- The schema file is not part of this model. The only constraints modelled are unique serial ids and the entries' foreign key to playlists. So NOT NULL, UNIQUE and CHECK failures, and foreign keys from recommendation or history rows, are not modelled.
- Several handlers return early from an open transaction: the 404 and 403 paths of delete-playlist and accept. The model leaves their tables unchanged. What the pool later does with the open transaction is not modelled.
- A request number field is `Option<int>`. `None` stands for undefined, null, NaN or anything `parseInt` rejects. Fractional numbers and numeric strings are not modelled.
- PlaylistPage.FormatDuration: negative and fractional durations are printed by the model the way JavaScript prints integers. Only positive whole durations carry the round-trip property.
- A missing `name` or `friendId` in the v2 create-playlist and both apps' friend routes is not modelled. The parameter is required in the model, since the source passes it straight to SQL.
- A song inserted without a play count keeps an unknown default (`None`); the schema's default value is not modelled.
- The database collation used by `ORDER BY username` is a parameter: any total preorder.
- Rows with equal sort keys keep their table order; SQL leaves their order unspecified.
- `SELECT DISTINCT` keeps one copy of each row, without saying which.
- One serial counter serves every table. This is stronger than PostgreSQL's separate sequences, and it changes no property stated here.
- The first app's friends list repeats a user when rows exist in both directions (there is no DISTINCT). The membership lemmas say who is listed, not how often.
- RecommendationRoutes.AcceptRecommendation: takes the first detail row of the check query. With several detail rows for one recommendation, PostgreSQL may return any of them.
- SongRoutes.NewestListenFirst: states that the new listen heads the history. The rest of the history's order is stated by `SongRoutes.History` itself.
- PlaylistRoutes.RemoveSong: density and the row count are proved for playlists that hold no song twice. With a repeated song, each of its rows joins every numbered row holding that song, and PostgreSQL may number each row from any one of them. The model takes the first ranked one (`Positions.FirstIndex`). `Positions.RepeatedSongCollides` shows one of the possible collisions, two rows at one position; the other numberings PostgreSQL allows are not modelled, and nothing is claimed about density then.
