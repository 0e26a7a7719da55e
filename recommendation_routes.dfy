/** The playlist recommendation routes of the fourth app: the caller's
    pending inbound recommendations, recommending a playlist, accepting a
    recommendation (which copies the playlist and its songs into the
    caller's playlists) and rejecting one. */
module RecommendationRoutes {
  import opened Basics
  import opened Ordering
  import opened Schema
  import opened Positions
  import opened PlaylistRoutes

  /** UPDATE recommendations SET status = st WHERE recommendation_id = id. */
  function SetRecStatus(recs: seq<Recommendation>, id: Id, st: Status): (r: seq<Recommendation>)
    ensures |r| == |recs|
    ensures forall k :: 0 <= k < |r| ==>
      r[k] == if recs[k].id == id then recs[k].(status := st) else recs[k]
  {
    seq(|recs|, k requires 0 <= k < |recs| => if recs[k].id == id then recs[k].(status := st) else recs[k])
  }

  /** A status update changes no id, so it keeps the keys. */
  lemma KeyedSetRecStatus(t: Tables, next: int, id: Id, st: Status)
    requires Keyed(t, next)
    ensures Keyed(t.(recommendations := SetRecStatus(t.recommendations, id, st)), next)
  {
    RecKeysSetStatus(t.recommendations, next, id, st);
  }

  lemma RecKeysSetStatus(recs: seq<Recommendation>, next: int, id: Id, st: Status)
    requires RecKeys(recs, next)
    ensures RecKeys(SetRecStatus(recs, id, st), next)
  {
    var r := SetRecStatus(recs, id, st);
    forall x | x in r ensures x.id < next {
      var k :| 0 <= k < |r| && r[k] == x;
      assert recs[k] in recs;
    }
    forall x, y | x in r && y in r && x.id == y.id ensures x == y {
      var k :| 0 <= k < |r| && r[k] == x;
      var m :| 0 <= m < |r| && r[m] == y;
      assert recs[k] in recs && recs[m] in recs;
      assert recs[k] == recs[m];
    }
  }

  /** After the update, the lookup finds the recommendation with its new
      status, and every other recommendation as it was. */
  lemma {:induction false} RecByIdAfterStatus(recs: seq<Recommendation>, id: Id, st: Status, q: Id)
    ensures RecById(SetRecStatus(recs, id, st), q) ==
      if RecById(recs, q).Some? && q == id then Some(RecById(recs, q).value.(status := st)) else RecById(recs, q)
  {
    if recs != [] {
      var r := SetRecStatus(recs, id, st);
      RecByIdAfterStatus(recs[1..], id, st, q);
      assert r[1..] == SetRecStatus(recs[1..], id, st);
    }
  }

  // ---------------------------------------------------------------------
  // GET /playlists

  /** A row of the pending list: the playlist, the recommender's name, the
      reason, the recommendation's date and id. */
  datatype PendingPlaylist = PendingPlaylist(playlist: Playlist, recommender: string, reason: Option<string>,
                                             date: Date, recId: Id)

  /** A row of the join together with the recommendation it came from. */
  datatype Joined = Joined(row: PendingPlaylist, rec: Recommendation)

  /** playlists JOIN playlist_recommendations JOIN recommendations JOIN
      users: one row per detail row whose playlist, recommendation and
      recommender exist. */
  function JoinPlaylistRecs(t: Tables, ds: seq<PlaylistRecDetail>): (r: seq<Joined>)
    ensures forall x :: x in r ==>
      && x.rec in t.recommendations && x.row.playlist in t.playlists
      && x.row.recId == x.rec.id && x.row.date == x.rec.date
      && PlaylistRecDetail(x.rec.id, x.row.playlist.id, x.row.reason) in ds
      && exists u :: u in t.users && u.id == x.rec.recommender && u.username == x.row.recommender
  {
    if ds == [] then []
    else
      var d := ds[0];
      assert ds == [d] + ds[1..];
      var rest := JoinPlaylistRecs(t, ds[1..]);
      var p, rec := PlaylistById(t.playlists, d.playlist), RecById(t.recommendations, d.rec);
      if p.Some? && rec.Some? && UserById(t.users, rec.value.recommender).Some? then
        var u := UserById(t.users, rec.value.recommender).value;
        [Joined(PendingPlaylist(p.value, u.username, d.reason, rec.value.date, rec.value.id), rec.value)] + rest
      else rest
  }

  /** Every detail row whose playlist, recommendation and recommender
      exist is joined. */
  lemma {:induction false} JoinPlaylistRecsComplete(t: Tables, ds: seq<PlaylistRecDetail>, d: PlaylistRecDetail)
    requires d in ds
    requires PlaylistById(t.playlists, d.playlist).Some? && RecById(t.recommendations, d.rec).Some?
    requires UserById(t.users, RecById(t.recommendations, d.rec).value.recommender).Some?
    ensures var rec := RecById(t.recommendations, d.rec).value;
      Joined(PendingPlaylist(PlaylistById(t.playlists, d.playlist).value,
                             UserById(t.users, rec.recommender).value.username, d.reason, rec.date, rec.id),
             rec) in JoinPlaylistRecs(t, ds)
  {
    if d != ds[0] {
      assert d in ds[1..];
      JoinPlaylistRecsComplete(t, ds[1..], d);
    }
  }

  function PendingFor(me: Id): Joined -> bool {
    (x: Joined) => x.rec.recipient == me && x.rec.status == Pending
  }

  function RowDate(x: PendingPlaylist): int {
    x.date
  }

  /** The joined rows addressed to the caller and still pending; each
      shows an existing playlist. Exact membership is `PendingRowsMembers`. */
  function PendingRows(t: Tables, me: Id): (r: seq<PendingPlaylist>)
    ensures forall y :: y in r ==> y.playlist in t.playlists
  {
    var js := Filter(JoinPlaylistRecs(t, t.playlistRecs), PendingFor(me));
    var r := seq(|js|, k requires 0 <= k < |js| => js[k].row);
    assert forall k :: 0 <= k < |r| ==> js[k] in js;
    r
  }

  /** A row is pending for the caller exactly when some joined record
      addressed to the caller and still pending carries it. */
  lemma PendingRowsMembers(t: Tables, me: Id)
    ensures forall y :: y in PendingRows(t, me) <==>
      exists x :: x in JoinPlaylistRecs(t, t.playlistRecs) && PendingFor(me)(x) && x.row == y
  {
    var js := Filter(JoinPlaylistRecs(t, t.playlistRecs), PendingFor(me));
    var r := PendingRows(t, me);
    forall y | y in r ensures exists x :: x in JoinPlaylistRecs(t, t.playlistRecs) && PendingFor(me)(x) && x.row == y {
      var k :| 0 <= k < |r| && r[k] == y;
      assert js[k] in js;
    }
    forall x | x in JoinPlaylistRecs(t, t.playlistRecs) && PendingFor(me)(x) ensures x.row in r {
      var k :| 0 <= k < |js| && js[k] == x;
      assert r[k] == x.row;
    }
  }

  /** GET /playlists: the caller's pending playlist recommendations, each
      distinct row once, newest first. */
  function PendingPlaylistRecommendations(t: Tables, me: Id): (r: seq<PendingPlaylist>)
    ensures forall y :: y in r <==> y in PendingRows(t, me)
    ensures NoDuplicates(r)
    ensures forall i, j :: 0 <= i < j < |r| ==> r[i].date >= r[j].date
  {
    var rows := Distinct(PendingRows(t, me));
    var r := SortDesc(rows, RowDate);
    PermutationNoDuplicates(rows, r);
    forall y ensures y in r <==> y in rows {
      assert y in r <==> y in multiset(r);
    }
    forall i, j | 0 <= i < j < |r| ensures r[i].date >= r[j].date {
      assert RowDate(r[i]) >= RowDate(r[j]);
    }
    r
  }

  /** Rejecting (or accepting) a recommendation takes it off every
      recipient's pending list. */
  lemma NoLongerPending(t: Tables, me: Id, id: Id, st: Status)
    requires st != Pending
    ensures var t' := t.(recommendations := SetRecStatus(t.recommendations, id, st));
      forall y :: y in PendingPlaylistRecommendations(t', me) ==> y.recId != id
  {
    var t' := t.(recommendations := SetRecStatus(t.recommendations, id, st));
    PendingRowsMembers(t', me);
    forall y | y in PendingRows(t', me) ensures y.recId != id {
      var x :| x in JoinPlaylistRecs(t', t'.playlistRecs) && PendingFor(me)(x) && x.row == y;
      var recs := t'.recommendations;
      var k :| 0 <= k < |recs| && recs[k] == x.rec;
    }
  }

  // ---------------------------------------------------------------------
  // POST /playlists

  /** POST /playlists: one pending playlist recommendation from the caller
      and its detail row, with the reason as sent; nothing is checked. */
  method RecommendPlaylist(db: Database, me: Id, playlistId: Id, recipient: Id, reason: Option<string>, now: Date)
    returns (reply: Reply)
    requires db.Valid()
    modifies db
    ensures db.Valid() && db.nextId == old(db.nextId) + 1
    ensures reply == Ok
    ensures db.Snapshot() == old(db.Snapshot()).(
      recommendations := old(db.recommendations)
        + [Recommendation(old(db.nextId), me, recipient, PlaylistKind, now, Pending)],
      playlistRecs := old(db.playlistRecs) + [PlaylistRecDetail(old(db.nextId), playlistId, reason)])
  {
    var before := db.Snapshot();
    var id := db.NextId();
    var rec := Recommendation(id, me, recipient, PlaylistKind, now, Pending);
    KeyedAddRec(before, id, rec);
    db.recommendations := db.recommendations + [rec];
    var between := db.Snapshot();
    assert between == before.(recommendations := before.recommendations + [rec]);
    var detail := PlaylistRecDetail(id, playlistId, reason);
    KeyedAddPlaylistRec(between, db.nextId, detail);
    db.playlistRecs := db.playlistRecs + [detail];
    assert db.Snapshot() == between.(playlistRecs := between.playlistRecs + [detail]);
    reply := Ok;
  }

  // ---------------------------------------------------------------------
  // POST /playlists/:recommendationId/accept and /reject

  /** The first row of the accept handler's check query: the playlist of a
      detail row of the recommendation, and the recipient; `None` when the
      join is empty. */
  function AcceptCheck(t: Tables, recId: Id): (r: Option<(Id, Id)>)
    ensures r.None? <==>
      RecById(t.recommendations, recId).None? || forall d :: d in t.playlistRecs ==> d.rec != recId
    ensures r.Some? ==>
      && r.value.1 == RecById(t.recommendations, recId).value.recipient
      && exists d :: d in t.playlistRecs && d.rec == recId && d.playlist == r.value.0
  {
    match RecById(t.recommendations, recId)
    case None => None
    case Some(rec) =>
      match First(t.playlistRecs, (d: PlaylistRecDetail) => d.rec == recId)
      case None => None
      case Some(d) => Some((d.playlist, rec.recipient))
  }

  /** A status update does not change what the check finds: an accepted or
      rejected recommendation can be accepted (again). */
  lemma AcceptCheckIgnoresStatus(t: Tables, id: Id, st: Status, recId: Id)
    ensures AcceptCheck(t.(recommendations := SetRecStatus(t.recommendations, id, st)), recId) == AcceptCheck(t, recId)
  {
    RecByIdAfterStatus(t.recommendations, id, st, recId);
  }

  /** The suffix the copy's name gets. */
  const RecommendedSuffix := " (Recommended)"

  /** The copy of playlist `src` made for `me` under id `id`. */
  function CopyOf(src: Playlist, me: Id, id: Id, today: Date): (p: Playlist)
    ensures p.id == id && p.creator == me && p.created == today
    ensures |p.name| == |src.name| + |RecommendedSuffix|
    ensures p.name[..|src.name|] == src.name && p.name[|src.name|..] == RecommendedSuffix
    ensures p.description == src.description && p.isPublic == src.isPublic
  {
    Playlist(id, me, src.name + RecommendedSuffix, src.description, today, src.isPublic)
  }

  /** No entry can point at the id the serial counter gives next. */
  lemma NoRowsAtNext(t: Tables, next: int)
    requires Keyed(t, next)
    ensures Rows(t.entries, next) == []
  {
    forall k | 0 <= k < |t.entries| ensures t.entries[k].playlist != next {
      assert t.entries[k] in t.entries;
      assert PlaylistById(t.playlists, t.entries[k].playlist).value.id < next;
    }
    NoRowsElsewhere(t.entries, next);
  }

  /** POST /playlists/:recommendationId/accept. 404 when no detail row of
      the recommendation joins an existing recommendation, 403 when the
      caller is not its recipient; both leave everything as it was. Then
      the source playlist is copied for the caller (its name with
      " (Recommended)" appended, dated today), its entries are copied one
      by one with their positions, and the recommendation is marked
      accepted. A source playlist that no longer exists inserts nothing,
      so reading the new id throws: ROLLBACK and 500. */
  method AcceptRecommendation(db: Database, me: Id, recId: Id, today: Date)
    returns (reply: Reply, newId: Option<Id>)
    requires db.Valid()
    modifies db
    ensures db.Valid()
    ensures AcceptCheck(old(db.Snapshot()), recId).None? ==>
      reply == NotFound && newId == None && db.Snapshot() == old(db.Snapshot()) && db.nextId == old(db.nextId)
    ensures AcceptCheck(old(db.Snapshot()), recId).Some? && AcceptCheck(old(db.Snapshot()), recId).value.1 != me ==>
      reply == Forbidden && newId == None && db.Snapshot() == old(db.Snapshot()) && db.nextId == old(db.nextId)
    ensures AcceptCheck(old(db.Snapshot()), recId).Some? && AcceptCheck(old(db.Snapshot()), recId).value.1 == me ==>
      var src := AcceptCheck(old(db.Snapshot()), recId).value.0;
      if PlaylistById(old(db.playlists), src).None? then
        reply == ServerError && newId == None && db.Snapshot() == old(db.Snapshot()) && db.nextId == old(db.nextId)
      else
        var id := old(db.nextId);
        var copy := CopyRows(Rows(old(db.entries), src), id, today);
        && reply == Ok && newId == Some(id) && db.nextId == id + 1
        && db.Snapshot() == old(db.Snapshot()).(
             playlists := old(db.playlists) + [CopyOf(PlaylistById(old(db.playlists), src).value, me, id, today)],
             entries := old(db.entries) + copy,
             recommendations := SetRecStatus(old(db.recommendations), recId, Accepted))
        && Rows(db.entries, id) == copy
        && (Dense(old(db.entries), src) ==> Dense(db.entries, id))
        && (DistinctSongs(Rows(old(db.entries), src)) ==> DistinctSongs(Rows(db.entries, id)))
        && (forall q :: q != id ==> Rows(db.entries, q) == Rows(old(db.entries), q))
  {
    var check := AcceptCheck(db.Snapshot(), recId);
    if check.None? {
      return NotFound, None;
    }
    if check.value.1 != me {
      return Forbidden, None;
    }
    var srcId := check.value.0;
    var found := PlaylistById(db.playlists, srcId);
    if found.None? {
      return ServerError, None;
    }
    ghost var t0 := db.Snapshot();
    NoRowsAtNext(t0, db.nextId);
    var p := InsertPlaylist(db, me, found.value.name + RecommendedSuffix, found.value.description, today,
                            found.value.isPublic);
    var id := p.id;
    CopyFaithful(t0.entries, srcId, id, today);
    CopyEntries(db, srcId, id, today);
    SetStatus(db, recId, Accepted);
    reply, newId := Ok, Some(id);
  }

  /** INSERT INTO playlist_songs ... SELECT ... WHERE playlist_id = src:
      the rows of `src`, one at a time, re-pointed at `dst` and dated
      today, positions kept. */
  method CopyEntries(db: Database, src: Id, dst: Id, today: Date)
    requires db.Valid() && PlaylistById(db.playlists, dst).Some?
    modifies db`entries
    ensures db.Valid()
    ensures db.entries == old(db.entries) + CopyRows(Rows(old(db.entries), src), dst, today)
  {
    var copy := CopyRows(Rows(db.entries, src), dst, today);
    KeyedAddEntries(db.Snapshot(), db.nextId, copy);
    AppendRows(db, copy);
  }

  /** The rows inserted one at a time, in order, at the end of playlist_songs. */
  method AppendRows(db: Database, rows: seq<Entry>)
    modifies db`entries
    ensures db.entries == old(db.entries) + rows
  {
    var i := 0;
    while i < |rows|
      invariant 0 <= i <= |rows|
      invariant db.entries == old(db.entries) + rows[..i]
    {
      db.entries := db.entries + [rows[i]];
      assert rows[..i + 1] == rows[..i] + [rows[i]];
      i := i + 1;
    }
    assert rows[..|rows|] == rows;
  }

  /** The status UPDATE on the recommendations table. */
  method SetStatus(db: Database, id: Id, st: Status)
    requires db.Valid()
    modifies db
    ensures db.Valid() && db.nextId == old(db.nextId)
    ensures db.Snapshot() == old(db.Snapshot()).(recommendations := SetRecStatus(old(db.recommendations), id, st))
  {
    KeyedSetRecStatus(db.Snapshot(), db.nextId, id, st);
    db.recommendations := SetRecStatus(db.recommendations, id, st);
  }

  /** POST /playlists/:recommendationId/reject: marks the recommendation
      rejected, whoever asks and whatever its status; always success. */
  method RejectRecommendation(db: Database, recId: Id) returns (reply: Reply)
    requires db.Valid()
    modifies db
    ensures db.Valid() && db.nextId == old(db.nextId)
    ensures reply == Ok
    ensures db.Snapshot() == old(db.Snapshot()).(recommendations := SetRecStatus(old(db.recommendations), recId, Rejected))
  {
    SetStatus(db, recId, Rejected);
    reply := Ok;
  }
}
