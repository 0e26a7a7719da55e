/** The relational store behind every route: one row type per table, the
    tables as a value (`Tables`), and the `Database` object whose fields
    the handlers update. Identifiers come from one serial counter; dates
    and timestamps are whatever clock value the caller passes in. */
module Schema {
  import opened Basics

  type Id = int
  type Date = int

  datatype User = User(id: Id, username: string, fullName: string)

  /** `plays` is the global play count; `None` is a row inserted without
      that column, which then holds the schema's default. */
  datatype Song = Song(id: Id, title: string, artist: string, durationSeconds: int, plays: Option<int>)

  /** `description` and `isPublic` are `None` when the request had none:
      the handlers pass them to the INSERT as they are, so SQL NULL is stored. */
  datatype Playlist = Playlist(id: Id, creator: Id, name: string, description: Option<string>,
                               created: Date, isPublic: Option<bool>)

  /** A row of playlist_songs. */
  datatype Entry = Entry(playlist: Id, song: Id, added: Date, position: int)

  /** The status column shared by friendships and recommendations. */
  datatype Status = Pending | Accepted | Rejected

  /** A directed friendship row: `user` asked `friend`. */
  datatype Friendship = Friendship(user: Id, friend: Id, since: Date, status: Status)

  datatype Kind = SongKind | PlaylistKind

  datatype Recommendation = Recommendation(id: Id, recommender: Id, recipient: Id, kind: Kind,
                                           date: Date, status: Status)

  datatype SongRecDetail = SongRecDetail(rec: Id, song: Id, reason: string)

  datatype PlaylistRecDetail = PlaylistRecDetail(rec: Id, playlist: Id, reason: Option<string>)

  /** A row of user_listening_history. */
  datatype Listen = Listen(user: Id, song: Id, date: Date, seconds: Option<int>)

  datatype Tables = Tables(
    users: seq<User>,
    songs: seq<Song>,
    playlists: seq<Playlist>,
    entries: seq<Entry>,
    friendships: seq<Friendship>,
    recommendations: seq<Recommendation>,
    songRecs: seq<SongRecDetail>,
    playlistRecs: seq<PlaylistRecDetail>,
    history: seq<Listen>)

  function UserById(users: seq<User>, id: Id): (r: Option<User>)
    ensures r.Some? ==> r.value in users && r.value.id == id
    ensures r.None? ==> forall u :: u in users ==> u.id != id
  {
    First(users, (u: User) => u.id == id)
  }

  function SongById(songs: seq<Song>, id: Id): (r: Option<Song>)
    ensures r.Some? ==> r.value in songs && r.value.id == id
    ensures r.None? ==> forall s :: s in songs ==> s.id != id
  {
    First(songs, (s: Song) => s.id == id)
  }

  function PlaylistById(playlists: seq<Playlist>, id: Id): (r: Option<Playlist>)
    ensures r.Some? ==> r.value in playlists && r.value.id == id
    ensures r.None? ==> forall p :: p in playlists ==> p.id != id
  {
    First(playlists, (p: Playlist) => p.id == id)
  }

  /** The playlist exists and the user created it. */
  predicate Owns(ps: seq<Playlist>, pid: Id, me: Id) {
    PlaylistById(ps, pid).Some? && PlaylistById(ps, pid).value.creator == me
  }

  function RecById(recs: seq<Recommendation>, id: Id): (r: Option<Recommendation>)
    ensures r.Some? ==> r.value in recs && r.value.id == id
    ensures r.None? ==> forall x :: x in recs ==> x.id != id
  {
    First(recs, (x: Recommendation) => x.id == id)
  }

  /** Ids below the serial counter, and no two different songs share one. */
  ghost predicate SongKeys(s: seq<Song>, next: int) {
    && (forall x :: x in s ==> x.id < next)
    && (forall x, y :: x in s && y in s && x.id == y.id ==> x == y)
  }

  ghost predicate PlaylistKeys(s: seq<Playlist>, next: int) {
    && (forall x :: x in s ==> x.id < next)
    && (forall x, y :: x in s && y in s && x.id == y.id ==> x == y)
  }

  ghost predicate RecKeys(s: seq<Recommendation>, next: int) {
    && (forall x :: x in s ==> x.id < next)
    && (forall x, y :: x in s && y in s && x.id == y.id ==> x == y)
  }

  /** Every playlist entry points at an existing playlist: the foreign key
      that makes the delete handler remove entries before their playlist. */
  ghost predicate EntriesReferToPlaylists(es: seq<Entry>, ps: seq<Playlist>) {
    forall e :: e in es ==> PlaylistById(ps, e.playlist).Some?
  }

  /** The keys the schema keeps: unique ids, every generated id below the
      serial counter (recommendation details point at such ids), and the
      entry-to-playlist foreign key. */
  ghost predicate Keyed(t: Tables, next: int) {
    && (forall x, y :: x in t.users && y in t.users && x.id == y.id ==> x == y)
    && SongKeys(t.songs, next)
    && PlaylistKeys(t.playlists, next)
    && RecKeys(t.recommendations, next)
    && EntriesReferToPlaylists(t.entries, t.playlists)
    && (forall d :: d in t.songRecs ==> d.rec < next)
    && (forall d :: d in t.playlistRecs ==> d.rec < next)
  }

  class Database {
    var users: seq<User>
    var songs: seq<Song>
    var playlists: seq<Playlist>
    var entries: seq<Entry>
    var friendships: seq<Friendship>
    var recommendations: seq<Recommendation>
    var songRecs: seq<SongRecDetail>
    var playlistRecs: seq<PlaylistRecDetail>
    var history: seq<Listen>
    /** The next value of the serial id sequence. */
    var nextId: int

    function Snapshot(): Tables
      reads this
    {
      Tables(users, songs, playlists, entries, friendships, recommendations, songRecs, playlistRecs, history)
    }

    ghost predicate Valid()
      reads this
    {
      Keyed(Snapshot(), nextId)
    }

    constructor (t: Tables, next: int)
      requires Keyed(t, next)
      ensures Valid() && Snapshot() == t && nextId == next
    {
      users, songs, playlists, entries := t.users, t.songs, t.playlists, t.entries;
      friendships, recommendations := t.friendships, t.recommendations;
      songRecs, playlistRecs, history := t.songRecs, t.playlistRecs, t.history;
      nextId := next;
    }

    /** nextval() of the serial sequence. It is not transactional: a
        rolled-back insert still uses up its id. */
    method NextId() returns (id: Id)
      modifies this`nextId
      ensures id == old(nextId) && nextId == id + 1
    {
      id := nextId;
      nextId := nextId + 1;
    }

    /** ROLLBACK: every table goes back to the state saved at BEGIN. */
    method Restore(t: Tables)
      modifies this
      ensures Snapshot() == t && nextId == old(nextId)
    {
      users, songs, playlists, entries := t.users, t.songs, t.playlists, t.entries;
      friendships, recommendations := t.friendships, t.recommendations;
      songRecs, playlistRecs, history := t.songRecs, t.playlistRecs, t.history;
    }
  }

  /** A larger counter keeps every key below it. */
  lemma KeyedMonotone(t: Tables, next: int, next': int)
    requires Keyed(t, next) && next <= next'
    ensures Keyed(t, next')
  {
  }

  /** Inserting a playlist under the next serial id keeps the keys. */
  lemma KeyedAddPlaylist(t: Tables, next: int, p: Playlist)
    requires Keyed(t, next) && p.id == next
    ensures Keyed(t.(playlists := t.playlists + [p]), next + 1)
  {
    var ps := t.playlists + [p];
    forall e | e in t.entries ensures PlaylistById(ps, e.playlist).Some? {
      var q := PlaylistById(t.playlists, e.playlist).value;
      assert q in ps;
    }
  }

  /** Inserting a song under the next serial id keeps the keys. */
  lemma KeyedAddSong(t: Tables, next: int, s: Song)
    requires Keyed(t, next) && s.id == next
    ensures Keyed(t.(songs := t.songs + [s]), next + 1)
  {
  }

  /** Inserting an entry of an existing playlist keeps the keys. */
  lemma KeyedAddEntry(t: Tables, next: int, e: Entry)
    requires Keyed(t, next) && PlaylistById(t.playlists, e.playlist).Some?
    ensures Keyed(t.(entries := t.entries + [e]), next)
  {
  }

  /** Appending rows that all point at existing playlists keeps the keys. */
  lemma KeyedAddEntries(t: Tables, next: int, es: seq<Entry>)
    requires Keyed(t, next)
    requires forall e :: e in es ==> PlaylistById(t.playlists, e.playlist).Some?
    ensures Keyed(t.(entries := t.entries + es), next)
  {
  }

  /** Inserting a recommendation under the next serial id keeps the keys. */
  lemma KeyedAddRec(t: Tables, next: int, r: Recommendation)
    requires Keyed(t, next) && r.id == next
    ensures Keyed(t.(recommendations := t.recommendations + [r]), next + 1)
  {
  }

  /** Detail rows may name any recommendation already drawn from the counter. */
  lemma KeyedAddSongRec(t: Tables, next: int, d: SongRecDetail)
    requires Keyed(t, next) && d.rec < next
    ensures Keyed(t.(songRecs := t.songRecs + [d]), next)
  {
  }

  lemma KeyedAddPlaylistRec(t: Tables, next: int, d: PlaylistRecDetail)
    requires Keyed(t, next) && d.rec < next
    ensures Keyed(t.(playlistRecs := t.playlistRecs + [d]), next)
  {
  }
}
