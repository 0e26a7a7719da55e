/** The song routes: add a searched song to a playlist, recommend a song,
    the inbound-recommendation, top-recommended and history reads, the
    history append, and the duration rule of the search results. The
    caller is the session's user id `me`; dates are the caller's clock. */
module SongRoutes {
  import opened Basics
  import opened Ordering
  import opened Schema
  import opened Positions
  import opened PlaylistRoutes

  /** The `songData` / `song_data` object of a request. A number field is
      `None` when it is missing or not a number; `listeners` is the value
      parseInt gives for the provider's listener count. */
  datatype SongData = SongData(name: string, artist: string, durationSeconds: Option<int>,
                               duration: Option<int>, listeners: Option<int>)

  function SameTrack(title: string, artist: string): Song -> bool {
    (s: Song) => s.title == title && s.artist == artist
  }

  /** SELECT song_id FROM songs WHERE title = $1 AND artist = $2: the first
      song with exactly this title and artist. */
  function FindSong(songs: seq<Song>, title: string, artist: string): (r: Option<Song>)
    ensures r.Some? ==> r.value in songs && r.value.title == title && r.value.artist == artist
    ensures r.None? <==> forall s :: s in songs ==> !(s.title == title && s.artist == artist)
  {
    First(songs, SameTrack(title, artist))
  }

  /** The song a request resolves to, and the songs table after resolving:
      the existing song with this title and artist, or else one new row
      under the serial id `next`, with the given duration and play count. */
  function Resolve(songs: seq<Song>, title: string, artist: string, duration: int, plays: int, next: Id)
    : (r: (Id, seq<Song>))
    ensures exists s :: s in r.1 && s.id == r.0 && s.title == title && s.artist == artist
    ensures r.1 == songs || r.1 == songs + [Song(next, title, artist, duration, Some(plays))]
    ensures r.1 == songs <==> exists s :: s in songs && s.title == title && s.artist == artist
    ensures r.1 != songs ==> r.0 == next
  {
    match FindSong(songs, title, artist)
    case Some(s) => (s.id, songs)
    case None => (next, songs + [Song(next, title, artist, duration, Some(plays))])
  }

  /** Resolving the same title and artist again finds the song resolved the
      first time and inserts nothing: songs are deduplicated. */
  lemma ResolveTwice(songs: seq<Song>, title: string, artist: string, duration: int, plays: int, next: Id,
                     duration': int, plays': int, next': Id)
    ensures var r := Resolve(songs, title, artist, duration, plays, next);
      Resolve(r.1, title, artist, duration', plays', next') == r
  {
    if FindSong(songs, title, artist).None? {
      FirstAppend(songs, Song(next, title, artist, duration, Some(plays)), SameTrack(title, artist));
    }
  }

  /** Inserts the resolved song, if new, under the next serial id. */
  method ResolveSong(db: Database, title: string, artist: string, duration: int, plays: int) returns (sid: Id)
    requires db.Valid()
    modifies db
    ensures db.Valid()
    ensures (sid, db.songs) == Resolve(old(db.songs), title, artist, duration, plays, old(db.nextId))
    ensures db.nextId == old(db.nextId) + |db.songs| - |old(db.songs)|
    ensures db.Snapshot() == old(db.Snapshot()).(songs := db.songs)
  {
    var found := FindSong(db.songs, title, artist);
    if found.Some? {
      sid := found.value.id;
    } else {
      sid := InsertSong(db, title, artist, duration, Some(plays));
    }
  }

  /** The duration a song inserted by add-to-playlist gets. */
  const AddDefaultDuration := 180

  /** POST /add-to-playlist. A missing playlist id or song data throws;
      otherwise the song is resolved (found by title and artist, or
      inserted with `duration_seconds || 180` and `parseInt(listeners) || 0`),
      then the playlist must exist and be the caller's, and must not hold
      the song yet; the song goes one past the largest position. Every
      failure is a ROLLBACK and 500: the song inserted on the way is gone,
      only its serial id stays used. */
  method AddToPlaylist(db: Database, me: Id, playlistId: Option<Id>, songData: Option<SongData>, today: Date)
    returns (reply: Reply, songId: Option<Id>)
    requires db.Valid()
    modifies db
    ensures db.Valid()
    ensures !Truthy(playlistId) || songData.None? ==>
      reply == ServerError && songId == None && db.Snapshot() == old(db.Snapshot()) && db.nextId == old(db.nextId)
    ensures Truthy(playlistId) && songData.Some? ==>
      var pid, d := playlistId.value, songData.value;
      var r := Resolve(old(db.songs), d.name, d.artist, OrDefault(d.durationSeconds, AddDefaultDuration),
                       OrDefault(d.listeners, 0), old(db.nextId));
      && db.nextId == old(db.nextId) + |r.1| - |old(db.songs)|
      && (if Owns(old(db.playlists), pid, me) && forall e :: e in Rows(old(db.entries), pid) ==> e.song != r.0
          then
            && reply == Ok && songId == Some(r.0)
            && db.Snapshot() == old(db.Snapshot()).(songs := r.1,
                                                    entries := old(db.entries) + [NextEntry(old(db.entries), pid, r.0, today)])
            && (Dense(old(db.entries), pid) ==> Dense(db.entries, pid))
            && (DistinctSongs(Rows(old(db.entries), pid)) ==> DistinctSongs(Rows(db.entries, pid)))
          else
            reply == ServerError && songId == None && db.Snapshot() == old(db.Snapshot()))
  {
    if !Truthy(playlistId) || songData.None? {
      return ServerError, None;
    }
    var saved := db.Snapshot();
    ghost var next0 := db.nextId;
    var pid, d := playlistId.value, songData.value;
    var sid := ResolveSong(db, d.name, d.artist, OrDefault(d.durationSeconds, AddDefaultDuration),
                           OrDefault(d.listeners, 0));
    var found := PlaylistById(db.playlists, pid);
    if found.None? || found.value.creator != me || Contains(Rows(db.entries, pid), sid) {
      db.Restore(saved);
      KeyedMonotone(saved, next0, db.nextId);
      return ServerError, None;
    }
    InsertEntry(db, pid, sid, today);
    reply, songId := Ok, Some(sid);
  }

  /** SELECT 1 FROM playlist_songs WHERE playlist_id = $1 AND song_id = $2,
      over the playlist's rows. */
  function Contains(rs: seq<Entry>, sid: Id): (r: bool)
    ensures r <==> exists e :: e in rs && e.song == sid
  {
    First(rs, (e: Entry) => e.song == sid).Some?
  }

  /** POST /recommend (also in the v2 app). The song is resolved (inserted
      with `duration || 0` and `parseInt(listeners) || 0` if new), then one
      pending song recommendation from the caller to `recipient_id || me`
      and its detail row with `reason || ''`. A missing song_data throws
      before any write: 500, nothing changed. */
  method Recommend(db: Database, me: Id, songData: Option<SongData>, recipient: Option<Id>,
                   reason: Option<string>, now: Date) returns (reply: Reply, recId: Option<Id>)
    requires db.Valid()
    modifies db
    ensures db.Valid()
    ensures songData.None? ==>
      reply == ServerError && recId == None && db.Snapshot() == old(db.Snapshot()) && db.nextId == old(db.nextId)
    ensures songData.Some? ==>
      var d := songData.value;
      var r := Resolve(old(db.songs), d.name, d.artist, OrDefault(d.duration, 0), OrDefault(d.listeners, 0),
                       old(db.nextId));
      var id := old(db.nextId) + |r.1| - |old(db.songs)|;
      && reply == Ok && recId == Some(id)
      && db.nextId == id + 1
      && db.Snapshot() == old(db.Snapshot()).(
           songs := r.1,
           recommendations := old(db.recommendations)
             + [Recommendation(id, me, OrDefault(recipient, me), SongKind, now, Pending)],
           songRecs := old(db.songRecs) + [SongRecDetail(id, r.0, reason.GetOr(""))])
  {
    if songData.None? {
      return ServerError, None;
    }
    var d := songData.value;
    var sid := ResolveSong(db, d.name, d.artist, OrDefault(d.duration, 0), OrDefault(d.listeners, 0));
    var id := InsertSongRec(db, me, OrDefault(recipient, me), sid, reason.GetOr(""), now);
    reply, recId := Ok, Some(id);
  }

  /** The two INSERTs of a song recommendation: the pending recommendation
      under the next serial id, then its detail row naming the song. */
  method InsertSongRec(db: Database, me: Id, recipient: Id, sid: Id, reason: string, now: Date)
    returns (id: Id)
    requires db.Valid()
    modifies db
    ensures db.Valid() && id == old(db.nextId) && db.nextId == id + 1
    ensures db.Snapshot() == old(db.Snapshot()).(
      recommendations := old(db.recommendations) + [Recommendation(id, me, recipient, SongKind, now, Pending)],
      songRecs := old(db.songRecs) + [SongRecDetail(id, sid, reason)])
  {
    var before := db.Snapshot();
    id := db.NextId();
    var rec := Recommendation(id, me, recipient, SongKind, now, Pending);
    KeyedAddRec(before, id, rec);
    db.recommendations := db.recommendations + [rec];
    var between := db.Snapshot();
    assert between == before.(recommendations := before.recommendations + [rec]);
    var detail := SongRecDetail(id, sid, reason);
    KeyedAddSongRec(between, db.nextId, detail);
    db.songRecs := db.songRecs + [detail];
    assert db.Snapshot() == between.(songRecs := between.songRecs + [detail]);
  }

  // ---------------------------------------------------------------------
  // Reads

  /** A row of GET /recommendations: the recommendation joined with its
      song, its recommender and the detail's reason. */
  datatype InboundSong = InboundSong(rec: Recommendation, song: Song, recommender: User, reason: string)

  /** recommendations JOIN song_recommendations JOIN songs JOIN users, one
      row per detail row whose recommendation, song and recommender exist. */
  function SongRecRows(t: Tables, details: seq<SongRecDetail>): (r: seq<InboundSong>)
    ensures forall x :: x in r ==>
      && SongRecDetail(x.rec.id, x.song.id, x.reason) in details
      && x.rec in t.recommendations && x.song in t.songs && x.recommender in t.users
      && x.recommender.id == x.rec.recommender
  {
    if details == [] then []
    else
      var d := details[0];
      assert details == [d] + details[1..];
      var rest := SongRecRows(t, details[1..]);
      var rec, song := RecById(t.recommendations, d.rec), SongById(t.songs, d.song);
      if rec.Some? && song.Some? && UserById(t.users, rec.value.recommender).Some?
      then [InboundSong(rec.value, song.value, UserById(t.users, rec.value.recommender).value, d.reason)] + rest
      else rest
  }

  /** Every detail row whose recommendation, song and recommender exist
      appears in the join. */
  lemma {:induction false} SongRecRowsComplete(t: Tables, details: seq<SongRecDetail>, d: SongRecDetail)
    requires d in details
    requires RecById(t.recommendations, d.rec).Some? && SongById(t.songs, d.song).Some?
    requires UserById(t.users, RecById(t.recommendations, d.rec).value.recommender).Some?
    ensures var rec := RecById(t.recommendations, d.rec).value;
      InboundSong(rec, SongById(t.songs, d.song).value, UserById(t.users, rec.recommender).value, d.reason)
        in SongRecRows(t, details)
  {
    if d != details[0] {
      assert d in details[1..];
      SongRecRowsComplete(t, details[1..], d);
    }
  }

  function InboundDate(x: InboundSong): int {
    x.rec.date
  }

  function SentTo(me: Id): InboundSong -> bool {
    (x: InboundSong) => x.rec.recipient == me
  }

  /** The limit of the inbound-recommendations query. */
  const InboundLimit := 10

  /** The joined rows addressed to the caller. */
  function InboundOf(t: Tables, me: Id): (r: seq<InboundSong>)
    ensures forall x :: x in r <==> x in SongRecRows(t, t.songRecs) && x.rec.recipient == me
  {
    Filter(SongRecRows(t, t.songRecs), SentTo(me))
  }

  /** GET /recommendations (also in the v2 app): the caller's inbound song
      recommendations, newest first, at most ten; any status. */
  function InboundRecommendations(t: Tables, me: Id): (r: seq<InboundSong>)
    ensures |r| <= InboundLimit
    ensures |InboundOf(t, me)| >= InboundLimit ==> |r| == InboundLimit
    ensures forall x :: x in r ==> x in InboundOf(t, me)
    ensures forall i, j :: 0 <= i < j < |r| ==> r[i].rec.date >= r[j].rec.date
    ensures forall x, y :: x in InboundOf(t, me) && x !in r && y in r ==> x.rec.date <= y.rec.date
    ensures |InboundOf(t, me)| <= InboundLimit ==> multiset(r) == multiset(InboundOf(t, me))
  {
    var rows := InboundOf(t, me);
    var r := Latest(rows, InboundDate, InboundLimit);
    forall i, j | 0 <= i < j < |r| ensures r[i].rec.date >= r[j].rec.date {
      assert InboundDate(r[i]) >= InboundDate(r[j]);
    }
    forall x, y | x in rows && x !in r && y in r ensures x.rec.date <= y.rec.date {
      assert InboundDate(x) <= InboundDate(y);
    }
    r
  }

  /** A song with the number of its recommendations. */
  datatype SongCount = SongCount(song: Song, count: nat)

  function CountsFor(recs: seq<Recommendation>, sid: Id): SongRecDetail -> bool {
    (d: SongRecDetail) => d.song == sid && RecById(recs, d.rec).Some?
  }

  /** COUNT(sr.recommendation_id) for one song: its detail rows whose
      recommendation exists. */
  function RecCount(t: Tables, sid: Id): nat {
    |Filter(t.songRecs, CountsFor(t.recommendations, sid))|
  }

  /** GROUP BY song over the join: every song with at least one
      recommendation, with its count. */
  function Counted(t: Tables, songs: seq<Song>): (r: seq<SongCount>)
    ensures forall x :: x in r ==> x.song in songs && x.count == RecCount(t, x.song.id) && x.count >= 1
  {
    if songs == [] then []
    else
      assert songs == [songs[0]] + songs[1..];
      var rest := Counted(t, songs[1..]);
      var n := RecCount(t, songs[0].id);
      if n >= 1 then [SongCount(songs[0], n)] + rest else rest
  }

  /** Every song recommended at least once is counted. */
  lemma {:induction false} CountedComplete(t: Tables, songs: seq<Song>, s: Song)
    requires s in songs && RecCount(t, s.id) >= 1
    ensures SongCount(s, RecCount(t, s.id)) in Counted(t, songs)
  {
    if s != songs[0] {
      assert s in songs[1..];
      CountedComplete(t, songs[1..], s);
    }
  }

  function CountOf(x: SongCount): int {
    x.count
  }

  /** The limit of the top-recommendations query. */
  const TopLimit := 5

  /** GET /top-recommendations (also in the v2 app): at most five songs by
      recommendation count, largest first; each was recommended at least
      once, and a song left out has no larger count than one listed. */
  function TopRecommended(t: Tables): (r: seq<SongCount>)
    ensures |r| <= TopLimit
    ensures |Counted(t, t.songs)| >= TopLimit ==> |r| == TopLimit
    ensures |Counted(t, t.songs)| <= TopLimit ==> multiset(r) == multiset(Counted(t, t.songs))
    ensures forall x :: x in r ==> x in Counted(t, t.songs)
    ensures forall i, j :: 0 <= i < j < |r| ==> r[i].count >= r[j].count
    ensures forall x, y :: x in Counted(t, t.songs) && x !in r && y in r ==> x.count <= y.count
  {
    var rows := Counted(t, t.songs);
    var r := Latest(rows, CountOf, TopLimit);
    forall i, j | 0 <= i < j < |r| ensures r[i].count >= r[j].count {
      assert CountOf(r[i]) >= CountOf(r[j]);
    }
    forall x, y | x in rows && x !in r && y in r ensures x.count <= y.count {
      assert CountOf(x) <= CountOf(y);
    }
    r
  }

  /** Every listed song is a real song with its true count, at least one;
      a recommended song missing from the list has no larger count than
      any listed one. */
  lemma TopRecommendedSound(t: Tables, s: Song, y: SongCount)
    requires s in t.songs && RecCount(t, s.id) >= 1 && y in TopRecommended(t)
    requires SongCount(s, RecCount(t, s.id)) !in TopRecommended(t)
    ensures y.song in t.songs && y.count == RecCount(t, y.song.id) && y.count >= 1
    ensures RecCount(t, s.id) <= y.count
  {
    CountedComplete(t, t.songs, s);
  }

  /** Recommending a song adds one to its count and leaves every other
      song's count alone: the new recommendation's id is fresh, so no older
      detail row starts or stops counting. */
  lemma RecommendCounts(t: Tables, next: int, rec: Recommendation, d: SongRecDetail, sid: Id)
    requires Keyed(t, next) && rec.id == next && d.rec == next
    ensures RecCount(t.(recommendations := t.recommendations + [rec], songRecs := t.songRecs + [d]), sid)
      == RecCount(t, sid) + (if d.song == sid then 1 else 0)
  {
    var recs := t.recommendations + [rec];
    var p, q := CountsFor(t.recommendations, sid), CountsFor(recs, sid);
    forall x | x in t.songRecs ensures p(x) == q(x) {
      FirstAppend(t.recommendations, rec, (y: Recommendation) => y.id == x.rec);
    }
    FilterCongruent(t.songRecs, p, q);
    FilterAppend(t.songRecs, [d], q);
    FirstAppend(t.recommendations, rec, (y: Recommendation) => y.id == d.rec);
    assert Filter([d], q) == (if q(d) then [d] else []) + Filter([d][1..], q);
  }

  /** A row of GET /history: the listen joined with its song. */
  datatype ListenRow = ListenRow(song: Song, listen: Listen)

  /** user_listening_history JOIN songs. */
  function ListenRows(songs: seq<Song>, ls: seq<Listen>): (r: seq<ListenRow>)
    ensures forall x :: x in r ==> x.listen in ls && x.song in songs && x.song.id == x.listen.song
  {
    if ls == [] then []
    else
      assert ls == [ls[0]] + ls[1..];
      var rest := ListenRows(songs, ls[1..]);
      match SongById(songs, ls[0].song)
      case None => rest
      case Some(s) => [ListenRow(s, ls[0])] + rest
  }

  /** Every listen of an existing song appears in the join. */
  lemma {:induction false} ListenRowsComplete(songs: seq<Song>, ls: seq<Listen>, l: Listen)
    requires l in ls && SongById(songs, l.song).Some?
    ensures ListenRow(SongById(songs, l.song).value, l) in ListenRows(songs, ls)
  {
    if l != ls[0] {
      assert l in ls[1..];
      ListenRowsComplete(songs, ls[1..], l);
    }
  }

  function ListenedBy(me: Id): ListenRow -> bool {
    (x: ListenRow) => x.listen.user == me
  }

  function ListenDate(x: ListenRow): int {
    x.listen.date
  }

  /** The limit of the history query. */
  const HistoryLimit := 20

  /** The joined listens of the caller. */
  function ListensOf(t: Tables, me: Id): (r: seq<ListenRow>)
    ensures forall x :: x in r <==> x in ListenRows(t.songs, t.history) && x.listen.user == me
  {
    Filter(ListenRows(t.songs, t.history), ListenedBy(me))
  }

  /** GET /history (also in the v2 app): the caller's listens, newest
      first, at most twenty. */
  function History(t: Tables, me: Id): (r: seq<ListenRow>)
    ensures |r| <= HistoryLimit
    ensures |ListensOf(t, me)| >= HistoryLimit ==> |r| == HistoryLimit
    ensures |ListensOf(t, me)| <= HistoryLimit ==> multiset(r) == multiset(ListensOf(t, me))
    ensures forall x :: x in r ==> x in ListensOf(t, me)
    ensures forall i, j :: 0 <= i < j < |r| ==> r[i].listen.date >= r[j].listen.date
    ensures forall x, y :: x in ListensOf(t, me) && x !in r && y in r ==> x.listen.date <= y.listen.date
  {
    var rows := ListensOf(t, me);
    var r := Latest(rows, ListenDate, HistoryLimit);
    forall i, j | 0 <= i < j < |r| ensures r[i].listen.date >= r[j].listen.date {
      assert ListenDate(r[i]) >= ListenDate(r[j]);
    }
    forall x, y | x in rows && x !in r && y in r ensures x.listen.date <= y.listen.date {
      assert ListenDate(x) <= ListenDate(y);
    }
    r
  }

  /** POST /history (also in the v2 app): one listen of the caller, dated
      now, with the duration as sent. */
  method RecordListen(db: Database, me: Id, songId: Id, duration: Option<int>, now: Date) returns (reply: Reply)
    requires db.Valid()
    modifies db
    ensures db.Valid() && db.nextId == old(db.nextId)
    ensures reply == Ok
    ensures db.Snapshot() == old(db.Snapshot()).(history := old(db.history) + [Listen(me, songId, now, duration)])
  {
    db.history := db.history + [Listen(me, songId, now, duration)];
    reply := Ok;
  }

  /** The head of the history is no older than any listen of the caller. */
  lemma HistoryHeadNewest(t: Tables, me: Id, x: ListenRow)
    requires x in ListensOf(t, me)
    ensures |History(t, me)| > 0 && History(t, me)[0].listen.date >= x.listen.date
  {
    var h := History(t, me);
    assert |ListensOf(t, me)| > 0;
    if x in h {
      var k :| 0 <= k < |h| && h[k] == x;
      assert h[0].listen.date >= h[k].listen.date;
    } else {
      assert h[0] in h;
    }
  }

  /** A listen of an existing song, later than every earlier listen of the
      caller, heads the caller's history afterwards. */
  lemma NewestListenFirst(t: Tables, me: Id, songId: Id, duration: Option<int>, now: Date)
    requires SongById(t.songs, songId).Some?
    requires forall l :: l in t.history && l.user == me ==> l.date < now
    ensures var h := History(t.(history := t.history + [Listen(me, songId, now, duration)]), me);
      |h| > 0 && h[0].listen == Listen(me, songId, now, duration)
  {
    var l := Listen(me, songId, now, duration);
    var t' := t.(history := t.history + [l]);
    ListenRowsComplete(t'.songs, t'.history, l);
    HistoryHeadNewest(t', me, ListenRow(SongById(t.songs, songId).value, l));
    var y := History(t', me)[0];
    assert y in ListensOf(t', me);
    assert y.listen in t'.history && y.listen.user == me && y.listen.date >= now;
    assert t'.history == t.history + [l];
  }

  // ---------------------------------------------------------------------
  // Search results

  /** The duration the search handler reports for a track. `info` is the
      result of the track.getInfo call: `None` when it failed (the catch
      branch), else the provider's duration in milliseconds, `None` when
      missing. A truthy duration becomes whole seconds, rounded down;
      anything else is the 180-second default. */
  function SearchDuration(info: Option<Option<int>>): (r: int)
    ensures info.Some? && Truthy(info.value) ==> r * 1000 <= info.value.value < r * 1000 + 1000
    ensures !(info.Some? && Truthy(info.value)) ==> r == AddDefaultDuration
  {
    if info.Some? && Truthy(info.value) then info.value.value / 1000 else AddDefaultDuration
  }
}
