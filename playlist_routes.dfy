/** The playlist routes: delete a playlist, remove a song (and renumber),
    add a song, list the caller's playlists, create a playlist, and, in
    the fourth app, the user picker and the playlist detail page. The
    caller is the session's user id `me`; dates are the caller's clock. */
module PlaylistRoutes {
  import opened Basics
  import opened Ordering
  import opened Schema
  import opened Positions
  import opened Text

  /** DELETE FROM playlists WHERE playlist_id = pid. */
  function WithoutPlaylistRow(ps: seq<Playlist>, pid: Id): (r: seq<Playlist>)
    ensures forall p :: p in r <==> p in ps && p.id != pid
  {
    Filter(ps, (p: Playlist) => p.id != pid)
  }

  /** A lookup by id that succeeds before still succeeds when the table
      keeps every row with that id. */
  lemma PlaylistStillFound(ps: seq<Playlist>, ps': seq<Playlist>, id: Id)
    requires PlaylistById(ps, id).Some?
    requires forall p :: p in ps && p.id == id ==> p in ps'
    ensures PlaylistById(ps', id).Some?
  {
    var p := PlaylistById(ps, id).value;
    assert p in ps';
  }

  /** Entries whose playlists all occur among the playlists of `es` keep
      the foreign key. */
  lemma ReferencesKept(es: seq<Entry>, es': seq<Entry>, ps: seq<Playlist>)
    requires EntriesReferToPlaylists(es, ps)
    requires forall e :: e in es' ==> exists x :: x in es && x.playlist == e.playlist
    ensures EntriesReferToPlaylists(es', ps)
  {
    forall e | e in es' ensures PlaylistById(ps, e.playlist).Some? {
      var x :| x in es && x.playlist == e.playlist;
    }
  }

  /** DELETE /:playlistId. 404 for an unknown playlist, 403 for someone
      else's; otherwise its entries go first (the foreign key), then the
      playlist row. */
  method DeletePlaylist(db: Database, me: Id, pid: Id) returns (reply: Reply)
    requires db.Valid()
    modifies db
    ensures db.Valid() && db.nextId == old(db.nextId)
    ensures PlaylistById(old(db.playlists), pid).None? ==>
      reply == NotFound && db.Snapshot() == old(db.Snapshot())
    ensures PlaylistById(old(db.playlists), pid).Some? && !Owns(old(db.playlists), pid, me) ==>
      reply == Forbidden && db.Snapshot() == old(db.Snapshot())
    ensures Owns(old(db.playlists), pid, me) ==>
      && reply == Ok
      && db.Snapshot() == old(db.Snapshot()).(entries := WithoutPlaylist(old(db.entries), pid),
                                              playlists := WithoutPlaylistRow(old(db.playlists), pid))
      && PlaylistById(db.playlists, pid).None?
      && Rows(db.entries, pid) == []
      && (forall q :: q != pid ==> Rows(db.entries, q) == Rows(old(db.entries), q))
  {
    var found := PlaylistById(db.playlists, pid);
    if found.None? {
      return NotFound;
    }
    if found.value.creator != me {
      return Forbidden;
    }
    var es0, ps0 := db.entries, db.playlists;
    db.entries := WithoutPlaylist(db.entries, pid);
    db.playlists := WithoutPlaylistRow(db.playlists, pid);
    reply := Ok;
    forall e | e in db.entries ensures PlaylistById(db.playlists, e.playlist).Some? {
      PlaylistStillFound(ps0, db.playlists, e.playlist);
    }
    forall q ensures Rows(db.entries, q) == if q == pid then [] else Rows(es0, q) {
      RowsOfWithoutPlaylist(es0, pid, q);
    }
  }

  /** DELETE /:playlistId/songs/:songId. An unknown playlist (reading the
      creator of a missing row throws) and someone else's playlist both
      end in the catch branch: 500, nothing changed. The owner's request
      deletes every entry of that song and renumbers the rest by
      ROW_NUMBER() OVER (ORDER BY position). A playlist that held no song
      twice comes out dense, its order kept, one row shorter when it held
      the song; no other playlist changes. */
  method RemoveSong(db: Database, me: Id, pid: Id, sid: Id) returns (reply: Reply)
    requires db.Valid()
    modifies db
    ensures db.Valid() && db.nextId == old(db.nextId)
    ensures !Owns(old(db.playlists), pid, me) ==>
      reply == ServerError && db.Snapshot() == old(db.Snapshot())
    ensures Owns(old(db.playlists), pid, me) ==>
      && reply == Ok
      && db.Snapshot() == old(db.Snapshot()).(entries := Renumbered(WithoutSong(old(db.entries), pid, sid), pid))
    ensures Owns(old(db.playlists), pid, me) && DistinctSongs(Rows(old(db.entries), pid)) ==>
      && Dense(db.entries, pid)
      && ((exists e :: e in old(db.entries) && e.playlist == pid && e.song == sid) ==>
            |Rows(db.entries, pid)| == |Rows(old(db.entries), pid)| - 1)
      && (forall q :: q != pid ==> Rows(db.entries, q) == Rows(old(db.entries), q))
  {
    var found := PlaylistById(db.playlists, pid);
    if found.None? || found.value.creator != me {
      return ServerError;
    }
    var es0 := db.entries;
    var remaining := WithoutSong(es0, pid, sid);
    db.entries := remaining;
    RenumberPlaylist(db, pid);
    reply := Ok;
    forall e | e in db.entries ensures exists x :: x in es0 && x.playlist == e.playlist {
      RenumberedFrame(remaining, pid);
      var i :| 0 <= i < |db.entries| && db.entries[i] == e;
      assert remaining[i] in remaining;
    }
    ReferencesKept(es0, db.entries, db.playlists);
    if DistinctSongs(Rows(es0, pid)) {
      RemoveSongKeepsDense(es0, pid, sid);
    }
  }

  /** The ROW_NUMBER() UPDATE: each row of the table in turn gets its new
      position, rows of other playlists are rewritten unchanged. */
  method RenumberPlaylist(db: Database, pid: Id)
    modifies db`entries
    ensures db.Snapshot() == old(db.Snapshot()).(entries := Renumbered(old(db.entries), pid))
    ensures db.nextId == old(db.nextId)
  {
    var es := db.entries;
    var ns := Ranked(Rows(es, pid));
    var i := 0;
    while i < |db.entries|
      invariant 0 <= i <= |db.entries| == |es|
      invariant forall k :: 0 <= k < i ==> db.entries[k] == Fix(es[k], pid, ns)
      invariant forall k :: i <= k < |db.entries| ==> db.entries[k] == es[k]
    {
      db.entries := db.entries[i := Fix(db.entries[i], pid, ns)];
      i := i + 1;
    }
    assert db.entries == Renumbered(es, pid);
  }

  /** The song of an add request: `songId === 'new'` with a name and an
      artist, or the id of an existing song. */
  datatype SongRef = NewSong(title: string, artist: string) | ExistingSong(id: Id)

  /** The duration a song added by name gets: three minutes. */
  const DefaultDuration := 180

  /** POST /:playlistId/songs. A new song is inserted first with the default
      duration. The entry goes one past the playlist's largest position.
      There is no ownership or duplicate check. An unknown playlist breaks
      the entries' foreign key: ROLLBACK and 500 (the id the song insert
      drew from the serial counter stays used). A dense playlist stays
      dense. */
  method AddSong(db: Database, pid: Id, song: SongRef, today: Date) returns (reply: Reply)
    requires db.Valid()
    modifies db
    ensures db.Valid()
    ensures db.nextId == old(db.nextId) + (if song.NewSong? then 1 else 0)
    ensures PlaylistById(old(db.playlists), pid).None? ==>
      reply == ServerError && db.Snapshot() == old(db.Snapshot())
    ensures PlaylistById(old(db.playlists), pid).Some? ==>
      var sid := if song.NewSong? then old(db.nextId) else song.id;
      && reply == Ok
      && db.Snapshot() == old(db.Snapshot()).(
           songs := old(db.songs) + (if song.NewSong?
                                     then [Song(sid, song.title, song.artist, DefaultDuration, None)]
                                     else []),
           entries := old(db.entries) + [NextEntry(old(db.entries), pid, sid, today)])
      && (Dense(old(db.entries), pid) ==> Dense(db.entries, pid))
  {
    var saved := db.Snapshot();
    ghost var next0 := db.nextId;
    var sid: Id;
    match song {
      case NewSong(title, artist) =>
        sid := InsertSong(db, title, artist, DefaultDuration, None);
      case ExistingSong(id) =>
        sid := id;
    }
    if PlaylistById(db.playlists, pid).None? {
      db.Restore(saved);
      KeyedMonotone(saved, next0, db.nextId);
      return ServerError;
    }
    InsertEntry(db, pid, sid, today);
    reply := Ok;
  }

  /** INSERT INTO songs ... RETURNING song_id: a new row under the next
      serial id. */
  method InsertSong(db: Database, title: string, artist: string, duration: int, plays: Option<int>)
    returns (sid: Id)
    requires db.Valid()
    modifies db
    ensures db.Valid()
    ensures sid == old(db.nextId) && db.nextId == sid + 1
    ensures db.Snapshot() == old(db.Snapshot()).(songs := old(db.songs) + [Song(sid, title, artist, duration, plays)])
  {
    ghost var saved := db.Snapshot();
    sid := db.NextId();
    var row := Song(sid, title, artist, duration, plays);
    KeyedAddSong(saved, sid, row);
    db.songs := db.songs + [row];
    assert db.Snapshot() == saved.(songs := saved.songs + [row]);
  }

  /** SELECT COALESCE(MAX(position), 0) + 1, then the INSERT into
      playlist_songs: the song goes one past the playlist's largest
      position. A dense playlist stays dense, and one without repeated
      songs stays so when the song is not in it yet. */
  method InsertEntry(db: Database, pid: Id, sid: Id, today: Date)
    requires db.Valid() && PlaylistById(db.playlists, pid).Some?
    modifies db
    ensures db.Valid()
    ensures db.Snapshot() == old(db.Snapshot()).(entries := old(db.entries) + [NextEntry(old(db.entries), pid, sid, today)])
    ensures db.nextId == old(db.nextId)
    ensures Dense(old(db.entries), pid) ==> Dense(db.entries, pid)
    ensures DistinctSongs(Rows(old(db.entries), pid)) && (forall e :: e in Rows(old(db.entries), pid) ==> e.song != sid) ==>
      DistinctSongs(Rows(db.entries, pid))
    ensures forall q :: q != pid ==> Rows(db.entries, q) == Rows(old(db.entries), q)
  {
    var entry := NextEntry(db.entries, pid, sid, today);
    var before := db.Snapshot();
    KeyedAddEntry(before, db.nextId, entry);
    db.entries := db.entries + [entry];
    assert db.Snapshot() == before.(entries := before.entries + [entry]);
    AppendNextEntry(before.entries, pid, sid, today);
  }

  function CreatedOf(p: Playlist): int {
    p.created
  }

  function OwnedBy(me: Id): Playlist -> bool {
    (p: Playlist) => p.creator == me
  }

  /** GET /: the caller's playlists, newest first. */
  function ListPlaylists(ps: seq<Playlist>, me: Id): (r: seq<Playlist>)
    ensures multiset(r) == multiset(Filter(ps, OwnedBy(me)))
    ensures forall p :: p in r <==> p in ps && p.creator == me
    ensures forall i, j :: 0 <= i < j < |r| ==> r[i].created >= r[j].created
  {
    var mine := Filter(ps, OwnedBy(me));
    var r := SortDesc(mine, CreatedOf);
    assert forall p :: p in r <==> p in mine by {
      forall p ensures p in r <==> p in mine {
        assert p in r <==> p in multiset(r);
        assert p in mine <==> p in multiset(mine);
      }
    }
    r
  }

  /** POST /: a name that is missing or only white space is refused with
      400. Otherwise the playlist is stored with its name and description
      trimmed, dated today, and returned with 201; is_public is stored as
      sent, NULL when missing. */
  method CreatePlaylist(db: Database, me: Id, name: Option<string>, description: Option<string>,
                        isPublic: Option<bool>, today: Date) returns (reply: Reply, row: Option<Playlist>)
    requires db.Valid()
    modifies db
    ensures db.Valid()
    ensures reply == BadRequest <==> Blank(name)
    ensures Blank(name) ==>
      row == None && db.Snapshot() == old(db.Snapshot()) && db.nextId == old(db.nextId)
    ensures !Blank(name) ==>
      && reply == Created
      && row == Some(Playlist(old(db.nextId), me, Trim(name.value), TrimOption(description), today,
                              isPublic))
      && db.Snapshot() == old(db.Snapshot()).(playlists := old(db.playlists) + [row.value])
      && db.nextId == old(db.nextId) + 1
  {
    if name.None? || |Trim(name.value)| == 0 {
      return BadRequest, None;
    }
    var p := InsertPlaylist(db, me, Trim(name.value), TrimOption(description), today, isPublic);
    reply, row := Created, Some(p);
  }

  /** INSERT INTO playlists ... RETURNING *: a new row under the next
      serial id. */
  method InsertPlaylist(db: Database, me: Id, name: string, description: Option<string>, today: Date,
                        isPublic: Option<bool>) returns (p: Playlist)
    requires db.Valid()
    modifies db
    ensures db.Valid()
    ensures p == Playlist(old(db.nextId), me, name, description, today, isPublic)
    ensures db.Snapshot() == old(db.Snapshot()).(playlists := old(db.playlists) + [p])
    ensures db.nextId == old(db.nextId) + 1
  {
    var saved := db.Snapshot();
    var id := db.NextId();
    p := Playlist(id, me, name, description, today, isPublic);
    KeyedAddPlaylist(saved, id, p);
    db.playlists := db.playlists + [p];
    assert db.Snapshot() == saved.(playlists := saved.playlists + [p]);
  }

  /** The collation ORDER BY username uses, on the user rows. */
  function ByName(collate: (string, string) -> bool): (User, User) -> bool {
    (a: User, b: User) => collate(a.username, b.username)
  }

  lemma ByNameTotal(collate: (string, string) -> bool)
    requires TotalPreorder(collate)
    ensures TotalPreorder(ByName(collate))
  {
    var le := ByName(collate);
    forall a: User, b: User ensures le(a, b) || le(b, a) {
      assert collate(a.username, b.username) || collate(b.username, a.username);
    }
    forall a: User, b: User, c: User | le(a, b) && le(b, c) ensures le(a, c) {
      assert collate(a.username, b.username) && collate(b.username, c.username);
    }
  }

  datatype UserName = UserName(id: Id, username: string)

  function NotMe(me: Id): User -> bool {
    (u: User) => u.id != me
  }

  /** The users other than the caller, by username in collation `collate`. */
  function SortedOthers(users: seq<User>, me: Id, collate: (string, string) -> bool): (s: seq<User>)
    requires TotalPreorder(collate)
    ensures |s| == |Filter(users, NotMe(me))|
    ensures forall u :: u in s <==> u in users && u.id != me
    ensures forall i, j :: 0 <= i < j < |s| ==> collate(s[i].username, s[j].username)
  {
    ByNameTotal(collate);
    var mine := Filter(users, NotMe(me));
    var s := SortBy(mine, ByName(collate));
    SameMembers(s, mine);
    forall i, j | 0 <= i < j < |s| ensures collate(s[i].username, s[j].username) {
      assert ByName(collate)(s[i], s[j]);
    }
    s
  }

  /** SELECT user_id, username: the two columns of each row. */
  function Names(s: seq<User>): (r: seq<UserName>)
    ensures |r| == |s|
    ensures forall k :: 0 <= k < |s| ==> r[k] == UserName(s[k].id, s[k].username)
  {
    seq(|s|, k requires 0 <= k < |s| => UserName(s[k].id, s[k].username))
  }

  lemma NamesMembers(s: seq<User>)
    ensures forall u :: u in s ==> UserName(u.id, u.username) in Names(s)
    ensures forall x :: x in Names(s) ==> exists u :: u in s && u.id == x.id && u.username == x.username
  {
    var r := Names(s);
    forall u | u in s ensures UserName(u.id, u.username) in r {
      var k :| 0 <= k < |s| && s[k] == u;
      assert r[k] == UserName(u.id, u.username);
    }
    forall x | x in r ensures exists u :: u in s && u.id == x.id && u.username == x.username {
      var k :| 0 <= k < |r| && r[k] == x;
      assert s[k] in s;
    }
  }

  /** GET /friends-list of the fourth app's playlist routes: the id and
      username of every user but the caller, by username in the database's
      collation `collate`. */
  function OtherUsers(users: seq<User>, me: Id, collate: (string, string) -> bool): (r: seq<UserName>)
    requires TotalPreorder(collate)
    ensures |r| == |Filter(users, NotMe(me))|
    ensures forall u :: u in users && u.id != me ==> UserName(u.id, u.username) in r
    ensures forall x :: x in r ==> x.id != me && exists u :: u in users && u.id == x.id && u.username == x.username
  {
    var sorted := SortedOthers(users, me, collate);
    NamesMembers(sorted);
    Names(sorted)
  }

  /** The picker lists usernames in collation order. */
  lemma OtherUsersSorted(users: seq<User>, me: Id, collate: (string, string) -> bool)
    requires TotalPreorder(collate)
    ensures var r := OtherUsers(users, me, collate);
      forall i, j :: 0 <= i < j < |r| ==> collate(r[i].username, r[j].username)
  {
    var sorted := SortedOthers(users, me, collate);
    var r := OtherUsers(users, me, collate);
    assert r == Names(sorted);
    forall i, j | 0 <= i < j < |r| ensures collate(r[i].username, r[j].username) {
      assert r[i].username == sorted[i].username && r[j].username == sorted[j].username;
    }
  }

  /** One song of the detail page: the song row and its position. */
  datatype PlaylistSong = PlaylistSong(song: Song, position: int)

  datatype Detail = Detail(playlist: Playlist, songs: seq<PlaylistSong>)

  /** `creator_id = me OR is_public = true`: a NULL is_public, like false,
      hides the playlist from everyone but its creator. */
  predicate Visible(p: Playlist, me: Id): (r: bool)
    ensures p.creator == me ==> r
    ensures p.isPublic == Some(true) ==> r
    ensures p.isPublic != Some(true) ==> (r <==> p.creator == me)
  {
    p.creator == me || p.isPublic == Some(true)
  }

  /** JOIN songs ON song_id over ranked entries: every entry whose song
      exists, in the entries' order. */
  function JoinSongs(rs: seq<Entry>, songs: seq<Song>): (r: seq<PlaylistSong>)
    ensures |r| <= |rs|
  {
    if rs == [] then []
    else
      var rest := JoinSongs(rs[1..], songs);
      match SongById(songs, rs[0].song)
      case None => rest
      case Some(s) => [PlaylistSong(s, rs[0].position)] + rest
  }

  /** Every joined song is a song row, listed at the position of an entry
      that holds it. */
  lemma {:induction false} JoinSongsFrom(rs: seq<Entry>, songs: seq<Song>)
    ensures forall x :: x in JoinSongs(rs, songs) ==>
      (x.song in songs && exists e :: e in rs && e.song == x.song.id && e.position == x.position)
  {
    if rs != [] {
      JoinSongsFrom(rs[1..], songs);
      var rest := JoinSongs(rs[1..], songs);
      forall x | x in JoinSongs(rs, songs)
        ensures x.song in songs && exists e :: e in rs && e.song == x.song.id && e.position == x.position
      {
        if x in rest {
          var e :| e in rs[1..] && e.song == x.song.id && e.position == x.position;
          assert e in rs;
        } else {
          assert x.song == SongById(songs, rs[0].song).value;
          assert rs[0] in rs;
        }
      }
    }
  }

  /** An entry whose song exists is listed, with that song at its
      position. */
  lemma {:induction false} JoinSongsHas(rs: seq<Entry>, songs: seq<Song>, e: Entry)
    requires e in rs && SongById(songs, e.song).Some?
    ensures PlaylistSong(SongById(songs, e.song).value, e.position) in JoinSongs(rs, songs)
  {
    if rs[0] != e {
      JoinSongsHas(rs[1..], songs, e);
    }
  }

  /** When every entry's song exists, the join drops nothing. */
  lemma {:induction false} JoinSongsComplete(rs: seq<Entry>, songs: seq<Song>)
    requires forall e :: e in rs ==> SongById(songs, e.song).Some?
    ensures var r := JoinSongs(rs, songs);
      |r| == |rs| && forall k :: 0 <= k < |r| ==> r[k].position == rs[k].position && r[k].song.id == rs[k].song
  {
    if rs != [] {
      assert rs[0] in rs;
      forall e | e in rs[1..] ensures SongById(songs, e.song).Some? {
        assert e in rs;
      }
      JoinSongsComplete(rs[1..], songs);
      var r := JoinSongs(rs, songs);
      var rest := JoinSongs(rs[1..], songs);
      assert r == [PlaylistSong(SongById(songs, rs[0].song).value, rs[0].position)] + rest;
      forall k | 0 < k < |r| ensures r[k].position == rs[k].position && r[k].song.id == rs[k].song {
        assert r[k] == rest[k - 1] && rs[k] == rs[1..][k - 1];
      }
    }
  }

  predicate InPositionOrder(r: seq<PlaylistSong>) {
    forall i, j :: 0 <= i < j < |r| ==> r[i].position <= r[j].position
  }

  /** A lower bound on the entries' positions bounds the joined positions. */
  lemma {:induction false} JoinSongsAbove(rs: seq<Entry>, songs: seq<Song>, lo: int)
    requires forall k :: 0 <= k < |rs| ==> lo <= rs[k].position
    ensures forall x :: x in JoinSongs(rs, songs) ==> lo <= x.position
  {
    if rs != [] {
      JoinSongsAbove(rs[1..], songs, lo);
    }
  }

  /** The join keeps the order of entries sorted by position. */
  lemma {:induction false} JoinSongsSorted(rs: seq<Entry>, songs: seq<Song>)
    requires forall i, j :: 0 <= i < j < |rs| ==> rs[i].position <= rs[j].position
    ensures InPositionOrder(JoinSongs(rs, songs))
  {
    if rs != [] {
      JoinSongsSorted(rs[1..], songs);
      JoinSongsAbove(rs[1..], songs, rs[0].position);
      var rest := JoinSongs(rs[1..], songs);
      if SongById(songs, rs[0].song).None? {
        assert JoinSongs(rs, songs) == rest;
      } else {
        var r := JoinSongs(rs, songs);
        assert r == [PlaylistSong(SongById(songs, rs[0].song).value, rs[0].position)] + rest;
        forall i, j | 0 <= i < j < |r| ensures r[i].position <= r[j].position {
          assert r[j] == rest[j - 1];
          if i > 0 {
            assert r[i] == rest[i - 1];
          }
        }
      }
    }
  }

  /** GET /:playlistId of the fourth app: 404 unless the playlist exists
      and is the caller's or public; otherwise the playlist with its songs
      in position order. */
  function PlaylistDetail(t: Tables, me: Id, pid: Id): (r: Option<Detail>)
    ensures r.None? <==> forall p :: p in t.playlists && p.id == pid ==> !Visible(p, me)
    ensures r.Some? ==> r.value.playlist in t.playlists && r.value.playlist.id == pid && Visible(r.value.playlist, me)
    ensures r.Some? ==> |r.value.songs| <= |Rows(t.entries, pid)|
    ensures r.Some? ==> InPositionOrder(r.value.songs)
    ensures r.Some? ==> forall x :: x in r.value.songs ==>
      (x.song in t.songs && exists e :: e in t.entries && e.playlist == pid && e.song == x.song.id && e.position == x.position)
  {
    match First(t.playlists, (p: Playlist) => p.id == pid && Visible(p, me))
    case None => None
    case Some(p) =>
      var ranked := Ranked(Rows(t.entries, pid));
      var songs := JoinSongs(ranked, t.songs);
      JoinSongsSorted(ranked, t.songs);
      JoinSongsFrom(ranked, t.songs);
      assert forall e :: e in ranked ==> e in t.entries && e.playlist == pid by {
        forall e | e in ranked ensures e in t.entries && e.playlist == pid {
          assert e in multiset(ranked);
        }
      }
      Some(Detail(p, songs))
  }

  /** The detail page leaves out no entry of the playlist whose song
      exists: the song is listed at the entry's position. */
  lemma DetailComplete(t: Tables, me: Id, pid: Id, e: Entry)
    requires PlaylistDetail(t, me, pid).Some?
    requires e in t.entries && e.playlist == pid && SongById(t.songs, e.song).Some?
    ensures PlaylistSong(SongById(t.songs, e.song).value, e.position) in PlaylistDetail(t, me, pid).value.songs
  {
    var ranked := Ranked(Rows(t.entries, pid));
    assert e in multiset(ranked);
    JoinSongsHas(ranked, t.songs, e);
  }

  /** On a dense playlist whose songs all exist, the detail page lists the
      k-th song (from 0) at position k + 1: the row number the page shows
      is the stored position. */
  lemma DetailOfDense(t: Tables, me: Id, pid: Id)
    requires Dense(t.entries, pid)
    requires forall e :: e in t.entries && e.playlist == pid ==> SongById(t.songs, e.song).Some?
    requires PlaylistDetail(t, me, pid).Some?
    ensures var songs := PlaylistDetail(t, me, pid).value.songs;
      |songs| == |Rows(t.entries, pid)| && forall k :: 0 <= k < |songs| ==> songs[k].position == k + 1
  {
    var rs := Rows(t.entries, pid);
    var ranked := Ranked(rs);
    RankedIota(rs);
    forall e | e in ranked ensures SongById(t.songs, e.song).Some? {
      assert e in multiset(ranked);
      assert e in rs;
    }
    JoinSongsComplete(ranked, t.songs);
  }
}
