/** The playlist routes of the v2 app: create without validation and an
    add-song with no ownership or duplicate check. The list handler is the
    same query as the first app's (`PlaylistRoutes.ListPlaylists`). */
module PlaylistRoutesV2 {
  import opened Basics
  import opened Schema
  import opened Positions
  import opened PlaylistRoutes

  /** POST /: the name and description are stored as given (no trim, no
      blank check), creator = caller, dated today; the row is returned. */
  method CreatePlaylistV2(db: Database, me: Id, name: string, description: Option<string>,
                          isPublic: Option<bool>, today: Date) returns (reply: Reply, row: Playlist)
    requires db.Valid()
    modifies db
    ensures db.Valid() && db.nextId == old(db.nextId) + 1
    ensures reply == Ok
    ensures row == Playlist(old(db.nextId), me, name, description, today, isPublic)
    ensures db.Snapshot() == old(db.Snapshot()).(playlists := old(db.playlists) + [row])
  {
    row := InsertPlaylist(db, me, name, description, today, isPublic);
    reply := Ok;
  }

  /** A created playlist shows up in its creator's list. */
  lemma CreatedIsListed(ps: seq<Playlist>, p: Playlist)
    ensures p in ListPlaylists(ps + [p], p.creator)
  {
    assert p in ps + [p];
  }

  /** POST /:playlistId/songs: the entry goes one past the playlist's
      largest position, whoever asks and whether or not the song is
      already there. Outside a transaction; an unknown playlist breaks the
      entries' foreign key, so the insert fails with 500 and nothing
      changes. */
  method AddSongV2(db: Database, pid: Id, sid: Id, today: Date) returns (reply: Reply)
    requires db.Valid()
    modifies db
    ensures db.Valid() && db.nextId == old(db.nextId)
    ensures PlaylistById(old(db.playlists), pid).None? ==>
      reply == ServerError && db.Snapshot() == old(db.Snapshot())
    ensures PlaylistById(old(db.playlists), pid).Some? ==>
      && reply == Ok
      && db.Snapshot() == old(db.Snapshot()).(entries := old(db.entries) + [NextEntry(old(db.entries), pid, sid, today)])
      && (Dense(old(db.entries), pid) ==> Dense(db.entries, pid))
  {
    if PlaylistById(db.playlists, pid).None? {
      return ServerError;
    }
    InsertEntry(db, pid, sid, today);
    reply := Ok;
  }

  /** Adding the same song twice puts it in the playlist twice, at two
      different positions. */
  lemma AddTwiceRepeats(es: seq<Entry>, pid: Id, sid: Id, d: Date)
    ensures var e1 := NextEntry(es, pid, sid, d);
      var e2 := NextEntry(es + [e1], pid, sid, d);
      && e1.song == e2.song && e1.position < e2.position
      && !DistinctSongs(Rows(es + [e1] + [e2], pid))
  {
    var e1 := NextEntry(es, pid, sid, d);
    var e2 := NextEntry(es + [e1], pid, sid, d);
    assert e1 in es + [e1];
    RowsAppendTwo(es, e1, e2, pid);
    var rs := Rows(es + [e1] + [e2], pid);
    assert rs[|rs| - 2] == e1 && rs[|rs| - 1] == e2;
  }

  /** Two rows of `pid` appended end its rows, in order. */
  lemma RowsAppendTwo(es: seq<Entry>, e1: Entry, e2: Entry, pid: Id)
    requires e1.playlist == pid && e2.playlist == pid
    ensures Rows(es + [e1] + [e2], pid) == Rows(es, pid) + [e1, e2]
  {
    RowsAppendOne(es, e1, pid);
    RowsAppendOne(es + [e1], e2, pid);
  }
}
