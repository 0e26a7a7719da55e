/** The position column of playlist_songs. A playlist's rows are "dense"
    when their positions are exactly 1..n. This module holds the row sets
    the playlist handlers compute: the next position on add
    (COALESCE(MAX(position), 0) + 1), the DELETE of one song, the
    ROW_NUMBER renumbering that follows it, and the copy of a playlist's
    rows made when a playlist recommendation is accepted. */
module Positions {
  import opened Basics
  import opened Ordering
  import opened Schema

  /** WHERE playlist_id = pid: the rows of one playlist, in table order. */
  function Rows(es: seq<Entry>, pid: Id): (r: seq<Entry>)
    ensures |r| <= |es|
    ensures forall e :: e in r <==> e in es && e.playlist == pid
  {
    if es == [] then []
    else
      assert es == [es[0]] + es[1..];
      (if es[0].playlist == pid then [es[0]] else []) + Rows(es[1..], pid)
  }

  lemma {:induction false} RowsAppend(a: seq<Entry>, b: seq<Entry>, pid: Id)
    ensures Rows(a + b, pid) == Rows(a, pid) + Rows(b, pid)
  {
    if a == [] {
      assert a + b == b;
    } else {
      assert (a + b)[1..] == a[1..] + b;
      RowsAppend(a[1..], b, pid);
    }
  }

  /** Rows that all belong to `pid` are their own rows of `pid`. */
  lemma {:induction false} RowsOfOwnRows(rs: seq<Entry>, pid: Id)
    requires forall k :: 0 <= k < |rs| ==> rs[k].playlist == pid
    ensures Rows(rs, pid) == rs
  {
    if rs != [] {
      RowsOfOwnRows(rs[1..], pid);
      assert rs == [rs[0]] + rs[1..];
    }
  }

  /** COALESCE(MAX(position), 0) over some rows. */
  function MaxPositionOf(rs: seq<Entry>): (m: int)
    ensures rs == [] ==> m == 0
    ensures forall e :: e in rs ==> e.position <= m
    ensures rs != [] ==> exists e :: e in rs && e.position == m
  {
    if rs == [] then 0
    else if |rs| == 1 then rs[0].position
    else
      assert rs == [rs[0]] + rs[1..];
      var m := MaxPositionOf(rs[1..]);
      if rs[0].position >= m then rs[0].position else m
  }

  /** SELECT COALESCE(MAX(position), 0) ... WHERE playlist_id = pid. */
  function MaxPosition(es: seq<Entry>, pid: Id): (m: int)
    ensures Rows(es, pid) == [] ==> m == 0
    ensures forall e :: e in es && e.playlist == pid ==> e.position <= m
    ensures Rows(es, pid) != [] ==> exists e :: e in es && e.playlist == pid && e.position == m
  {
    MaxPositionOf(Rows(es, pid))
  }

  /** The positions of the rows of one playlist are 1..n, each used once. */
  ghost predicate DenseRows(rs: seq<Entry>) {
    && (forall k :: 0 <= k < |rs| ==> 1 <= rs[k].position <= |rs|)
    && (forall k, l :: 0 <= k < l < |rs| ==> rs[k].position != rs[l].position)
  }

  ghost predicate Dense(es: seq<Entry>, pid: Id) {
    DenseRows(Rows(es, pid))
  }

  /** No song is held twice by the same playlist. */
  predicate DistinctSongs(rs: seq<Entry>) {
    forall k, l :: 0 <= k < l < |rs| ==> rs[k].song != rs[l].song
  }

  function PositionOf(e: Entry): int {
    e.position
  }

  /** numbered_songs: the rows ranked by position, ties in table order. */
  function Ranked(rs: seq<Entry>): (ns: seq<Entry>)
    ensures multiset(ns) == multiset(rs) && |ns| == |rs|
    ensures forall k, l :: 0 <= k < l < |ns| ==> ns[k].position <= ns[l].position
  {
    var ns := SortAsc(rs, PositionOf);
    assert forall k, l :: 0 <= k < l < |ns| ==> PositionOf(ns[k]) <= PositionOf(ns[l]);
    ns
  }

  /** The rank the UPDATE ... FROM join gives song `sid`. When several
      ranked rows hold the song, PostgreSQL may use any of them; the model
      resolves the join to the first ranked row holding it (0-based), and
      gives |ns| when there is none. */
  function FirstIndex(ns: seq<Entry>, sid: Id): (k: nat)
    ensures k <= |ns|
    ensures k < |ns| ==> ns[k].song == sid
    ensures forall j :: 0 <= j < k ==> ns[j].song != sid
  {
    if ns == [] then 0
    else if ns[0].song == sid then 0
    else 1 + FirstIndex(ns[1..], sid)
  }

  /** One row after the UPDATE: a row of `pid` whose song is ranked gets
      rank + 1 as its position; every other row is left alone. */
  function Fix(e: Entry, pid: Id, ns: seq<Entry>): (r: Entry)
    ensures r == e.(position := r.position)
    ensures e.playlist != pid ==> r == e
    ensures e.playlist == pid && (exists n :: n in ns && n.song == e.song) ==>
      1 <= r.position <= |ns| && ns[r.position - 1].song == e.song
  {
    if e.playlist == pid && FirstIndex(ns, e.song) < |ns|
    then e.(position := FirstIndex(ns, e.song) + 1)
    else e
  }

  /** The UPDATE ... FROM numbered_songs over the whole table, ranked rows
      `ns`: one row per row, only positions of `pid`'s rows changed. */
  function Renumber(es: seq<Entry>, pid: Id, ns: seq<Entry>): (r: seq<Entry>)
    ensures |r| == |es|
    ensures forall i :: 0 <= i < |es| ==> r[i] == es[i].(position := r[i].position)
    ensures forall i :: 0 <= i < |es| && es[i].playlist != pid ==> r[i] == es[i]
  {
    seq(|es|, i requires 0 <= i < |es| => Fix(es[i], pid, ns))
  }

  /** The table after the renumbering statement for playlist `pid`:
      every row of `pid` now holds a rank between 1 and its row count. */
  function Renumbered(es: seq<Entry>, pid: Id): (r: seq<Entry>)
    ensures |r| == |es|
    ensures forall i :: 0 <= i < |r| && es[i].playlist == pid ==> 1 <= r[i].position <= |Rows(es, pid)|
  {
    var ns := Ranked(Rows(es, pid));
    var r := Renumber(es, pid, ns);
    assert forall i :: 0 <= i < |r| && es[i].playlist == pid ==> 1 <= r[i].position <= |ns| by {
      forall i | 0 <= i < |r| && es[i].playlist == pid ensures 1 <= r[i].position <= |ns| {
        assert es[i] in Rows(es, pid);
        assert es[i] in multiset(ns);
        assert es[i] in ns && es[i].song == es[i].song;
        assert r[i] == Fix(es[i], pid, ns);
      }
    }
    r
  }

  /** DELETE FROM playlist_songs WHERE playlist_id = pid AND song_id = sid. */
  function WithoutSong(es: seq<Entry>, pid: Id, sid: Id): (r: seq<Entry>)
    ensures |r| <= |es|
    ensures forall e :: e in r <==> e in es && !(e.playlist == pid && e.song == sid)
  {
    if es == [] then []
    else
      assert es == [es[0]] + es[1..];
      (if es[0].playlist == pid && es[0].song == sid then [] else [es[0]])
        + WithoutSong(es[1..], pid, sid)
  }

  /** DELETE FROM playlist_songs WHERE playlist_id = pid. */
  function WithoutPlaylist(es: seq<Entry>, pid: Id): (r: seq<Entry>)
    ensures |r| <= |es|
    ensures forall e :: e in r <==> e in es && e.playlist != pid
  {
    if es == [] then []
    else
      assert es == [es[0]] + es[1..];
      (if es[0].playlist == pid then [] else [es[0]]) + WithoutPlaylist(es[1..], pid)
  }

  /** The row the add handlers insert: song `sid` one past the playlist's
      current largest position, so 1 in an empty playlist. */
  function NextEntry(es: seq<Entry>, pid: Id, sid: Id, d: Date): (e: Entry)
    ensures e.playlist == pid && e.song == sid && e.added == d
    ensures forall x :: x in es && x.playlist == pid ==> x.position < e.position
    ensures Rows(es, pid) == [] ==> e.position == 1
    ensures e.position == MaxPosition(es, pid) + 1
  {
    Entry(pid, sid, d, MaxPosition(es, pid) + 1)
  }

  /** INSERT ... SELECT of the accept handler: every row of the source
      playlist, re-pointed at `dst`, dated `d`, its position kept. */
  function CopyRows(rs: seq<Entry>, dst: Id, d: Date): (r: seq<Entry>)
    ensures |r| == |rs|
    ensures forall e :: e in r ==> e.playlist == dst && e.added == d
    ensures forall k :: 0 <= k < |r| ==> r[k].song == rs[k].song && r[k].position == rs[k].position
  {
    seq(|rs|, k requires 0 <= k < |rs| => Entry(dst, rs[k].song, d, rs[k].position))
  }

  // ---------------------------------------------------------------------
  // Rows of one playlist under the table operations

  /** The renumbering touches only the position of rows of `pid`. */
  lemma RenumberedFrame(es: seq<Entry>, pid: Id)
    ensures |Renumbered(es, pid)| == |es|
    ensures forall i :: 0 <= i < |es| ==>
      Renumbered(es, pid)[i] == es[i].(position := Renumbered(es, pid)[i].position)
    ensures forall i :: 0 <= i < |es| && es[i].playlist != pid ==> Renumbered(es, pid)[i] == es[i]
  {
  }

  lemma RenumberCons(es: seq<Entry>, pid: Id, ns: seq<Entry>)
    requires es != []
    ensures Renumber(es, pid, ns) == [Fix(es[0], pid, ns)] + Renumber(es[1..], pid, ns)
    ensures Fix(es[0], pid, ns).playlist == es[0].playlist
  {
  }

  lemma RowsCons(es: seq<Entry>, q: Id)
    requires es != []
    ensures Rows(es, q) == (if es[0].playlist == q then [es[0]] else []) + Rows(es[1..], q)
  {
  }

  /** Renumbering commutes with selecting the rows of a playlist. */
  lemma {:induction false} RowsOfRenumber(es: seq<Entry>, pid: Id, ns: seq<Entry>, q: Id)
    ensures Rows(Renumber(es, pid, ns), q) == Renumber(Rows(es, q), pid, ns)
  {
    if es != [] {
      var x, tl := es[0], es[1..];
      RowsOfRenumber(tl, pid, ns, q);
      RenumberCons(es, pid, ns);
      var r := Renumber(es, pid, ns);
      RowsCons(r, q);
      assert r[1..] == Renumber(tl, pid, ns);
      RowsCons(es, q);
      if x.playlist == q {
        RenumberCons(Rows(es, q), pid, ns);
        assert Rows(es, q)[1..] == Rows(tl, q);
      }
    }
  }

  /** The renumbering keeps the number of rows of every playlist. */
  lemma RenumberedLength(es: seq<Entry>, pid: Id, q: Id)
    ensures |Rows(Renumbered(es, pid), q)| == |Rows(es, q)|
  {
    RowsOfRenumber(es, pid, Ranked(Rows(es, pid)), q);
  }

  /** The renumbering of `pid` leaves every other playlist's rows alone. */
  lemma RenumberedOthers(es: seq<Entry>, pid: Id, q: Id)
    requires q != pid
    ensures Rows(Renumbered(es, pid), q) == Rows(es, q)
  {
    var ns := Ranked(Rows(es, pid));
    RowsOfRenumber(es, pid, ns, q);
    var rs := Rows(es, q);
    assert Renumber(rs, pid, ns) == rs;
  }

  /** Deleting a song commutes with selecting the rows of a playlist. */
  lemma {:induction false} RowsOfWithoutSong(es: seq<Entry>, pid: Id, sid: Id, q: Id)
    ensures Rows(WithoutSong(es, pid, sid), q) == WithoutSong(Rows(es, q), pid, sid)
  {
    if es != [] {
      RowsOfWithoutSong(es[1..], pid, sid, q);
      var w := WithoutSong(es[1..], pid, sid);
      if es[0].playlist == pid && es[0].song == sid {
        assert WithoutSong(es, pid, sid) == w;
        if es[0].playlist == q {
          assert Rows(es, q) == [es[0]] + Rows(es[1..], q);
          assert WithoutSong(Rows(es, q), pid, sid) == WithoutSong(Rows(es[1..], q), pid, sid);
        } else {
          assert Rows(es, q) == Rows(es[1..], q);
        }
      } else {
        assert WithoutSong(es, pid, sid) == [es[0]] + w;
        assert Rows([es[0]] + w, q) == Rows([es[0]], q) + Rows(w, q) by {
          RowsAppend([es[0]], w, q);
        }
        if es[0].playlist == q {
          assert Rows(es, q) == [es[0]] + Rows(es[1..], q);
          assert WithoutSong(Rows(es, q), pid, sid) == [es[0]] + WithoutSong(Rows(es[1..], q), pid, sid);
        } else {
          assert Rows(es, q) == Rows(es[1..], q);
        }
      }
    }
  }

  /** Deleting a playlist's rows empties it and leaves every other
      playlist's rows as they were. */
  lemma {:induction false} RowsOfWithoutPlaylist(es: seq<Entry>, pid: Id, q: Id)
    ensures Rows(WithoutPlaylist(es, pid), q) == if q == pid then [] else Rows(es, q)
  {
    if es != [] {
      RowsOfWithoutPlaylist(es[1..], pid, q);
      var w := WithoutPlaylist(es[1..], pid);
      if es[0].playlist == pid {
        assert WithoutPlaylist(es, pid) == w;
        if q == pid {
          assert Rows(w, q) == [];
        } else {
          assert Rows(es, q) == Rows(es[1..], q);
        }
      } else {
        assert WithoutPlaylist(es, pid) == [es[0]] + w;
        RowsAppend([es[0]], w, q);
        assert Rows([es[0]], q) == (if es[0].playlist == q then [es[0]] else []) + Rows([es[0]][1..], q);
        if es[0].playlist == q {
          assert Rows(es, q) == [es[0]] + Rows(es[1..], q);
        } else {
          assert Rows(es, q) == Rows(es[1..], q);
        }
      }
    }
  }

  /** Deleting a song the playlist does not hold changes nothing. */
  lemma {:induction false} WithoutAbsentSong(es: seq<Entry>, pid: Id, sid: Id)
    requires forall e :: e in es ==> !(e.playlist == pid && e.song == sid)
    ensures WithoutSong(es, pid, sid) == es
  {
    if es != [] {
      assert es == [es[0]] + es[1..];
      WithoutAbsentSong(es[1..], pid, sid);
    }
  }

  lemma ConsDistinct(x: Entry, s: seq<Entry>)
    requires DistinctSongs(s)
    requires forall e :: e in s ==> e.song != x.song
    ensures DistinctSongs([x] + s)
  {
    var r := [x] + s;
    forall k, l | 0 <= k < l < |r| ensures r[k].song != r[l].song {
      assert r[l] == s[l - 1];
      if k > 0 {
        assert r[k] == s[k - 1];
      } else {
        assert r[l] in s;
      }
    }
  }

  /** Rows left after deleting a song still hold no song twice. */
  lemma {:induction false} WithoutSongDistinct(rs: seq<Entry>, pid: Id, sid: Id)
    requires DistinctSongs(rs)
    ensures DistinctSongs(WithoutSong(rs, pid, sid))
  {
    if rs != [] {
      var tail := rs[1..];
      assert DistinctSongs(tail) by {
        forall k, l | 0 <= k < l < |tail| ensures tail[k].song != tail[l].song {
          assert tail[k] == rs[k + 1] && tail[l] == rs[l + 1];
        }
      }
      WithoutSongDistinct(tail, pid, sid);
      var w := WithoutSong(tail, pid, sid);
      if !(rs[0].playlist == pid && rs[0].song == sid) {
        forall e | e in w ensures e.song != rs[0].song {
          assert e in tail;
          var k :| 0 <= k < |tail| && tail[k] == e;
          assert rs[k + 1] == e;
        }
        ConsDistinct(rs[0], w);
        assert WithoutSong(rs, pid, sid) == [rs[0]] + w;
      } else {
        assert WithoutSong(rs, pid, sid) == w;
      }
    }
  }

  /** In a playlist holding song `sid` once, deleting it leaves one row fewer. */
  lemma {:induction false} WithoutSongCount(rs: seq<Entry>, pid: Id, sid: Id)
    requires DistinctSongs(rs)
    requires forall k :: 0 <= k < |rs| ==> rs[k].playlist == pid
    requires exists k :: 0 <= k < |rs| && rs[k].song == sid
    ensures |WithoutSong(rs, pid, sid)| == |rs| - 1
  {
    assert rs == [rs[0]] + rs[1..];
    if rs[0].song == sid {
      forall e | e in rs[1..] ensures !(e.playlist == pid && e.song == sid) {
        var k :| 0 <= k < |rs[1..]| && rs[1..][k] == e;
        assert rs[k + 1] == e;
      }
      WithoutAbsentSong(rs[1..], pid, sid);
    } else {
      var k :| 0 <= k < |rs| && rs[k].song == sid;
      assert rs[1..][k - 1].song == sid;
      WithoutSongCount(rs[1..], pid, sid);
    }
  }

  // ---------------------------------------------------------------------
  // Ranks

  lemma RankedMember(rs: seq<Entry>, k: int)
    requires 0 <= k < |rs|
    ensures exists m :: 0 <= m < |rs| && rs[m] == Ranked(rs)[k]
  {
    var ns := Ranked(rs);
    assert ns[k] in multiset(ns);
    assert ns[k] in multiset(rs);
  }

  lemma RankFound(rs: seq<Entry>, m: int)
    requires 0 <= m < |rs|
    ensures FirstIndex(Ranked(rs), rs[m].song) < |rs|
  {
    var ns := Ranked(rs);
    assert rs[m] in multiset(rs);
    assert rs[m] in multiset(ns);
    var k :| 0 <= k < |ns| && ns[k] == rs[m];
  }

  /** With no song twice, the first ranked row with a row's song is that row. */
  lemma RankFindsRow(rs: seq<Entry>, m: int)
    requires 0 <= m < |rs| && DistinctSongs(rs)
    ensures FirstIndex(Ranked(rs), rs[m].song) < |rs|
    ensures Ranked(rs)[FirstIndex(Ranked(rs), rs[m].song)] == rs[m]
  {
    RankFound(rs, m);
    var f := FirstIndex(Ranked(rs), rs[m].song);
    RankedMember(rs, f);
    var m' :| 0 <= m' < |rs| && rs[m'] == Ranked(rs)[f];
    assert rs[m'].song == rs[m].song;
  }

  lemma {:induction false} IotaBelow(ns: seq<Entry>, k: int)
    requires forall i, j :: 0 <= i < j < |ns| ==> ns[i].position < ns[j].position
    requires forall i :: 0 <= i < |ns| ==> 1 <= ns[i].position
    requires 0 <= k < |ns|
    ensures k + 1 <= ns[k].position
    decreases k
  {
    if k > 0 {
      IotaBelow(ns, k - 1);
    }
  }

  lemma {:induction false} IotaAbove(ns: seq<Entry>, k: int)
    requires forall i, j :: 0 <= i < j < |ns| ==> ns[i].position < ns[j].position
    requires forall i :: 0 <= i < |ns| ==> ns[i].position <= |ns|
    requires 0 <= k < |ns|
    ensures ns[k].position <= k + 1
    decreases |ns| - k
  {
    if k < |ns| - 1 {
      IotaAbove(ns, k + 1);
    }
  }

  /** Ranking a dense playlist by position puts position k + 1 at rank k. */
  lemma RankedIota(rs: seq<Entry>)
    requires DenseRows(rs)
    ensures forall k :: 0 <= k < |rs| ==> Ranked(rs)[k].position == k + 1
  {
    var ns := Ranked(rs);
    assert NoDuplicates(rs);
    PermutationNoDuplicates(rs, ns);
    forall k | 0 <= k < |ns| ensures 1 <= ns[k].position <= |ns| {
      RankedMember(rs, k);
    }
    forall k, l | 0 <= k < l < |ns| ensures ns[k].position < ns[l].position {
      RankedMember(rs, k);
      RankedMember(rs, l);
      var a :| 0 <= a < |rs| && rs[a] == ns[k];
      var b :| 0 <= b < |rs| && rs[b] == ns[l];
      assert a != b;
    }
    forall k | 0 <= k < |ns| ensures ns[k].position == k + 1 {
      IotaBelow(ns, k);
      IotaAbove(ns, k);
    }
  }

  /** In a dense playlist of n rows the largest position is n. */
  lemma DenseMax(es: seq<Entry>, pid: Id)
    requires Dense(es, pid)
    ensures MaxPosition(es, pid) == |Rows(es, pid)|
  {
    var rs := Rows(es, pid);
    if rs != [] {
      RankedIota(rs);
      var top := Ranked(rs)[|rs| - 1];
      RankedMember(rs, |rs| - 1);
      assert top in rs;
      var e :| e in rs && e.position == MaxPosition(es, pid);
    }
  }

  // ---------------------------------------------------------------------
  // Adding a song

  lemma RowsAppendOne(es: seq<Entry>, e: Entry, q: Id)
    ensures Rows(es + [e], q) == Rows(es, q) + (if e.playlist == q then [e] else [])
  {
    RowsAppend(es, [e], q);
    assert Rows([e], q) == (if e.playlist == q then [e] else []) + Rows([e][1..], q);
  }

  /** One row appended after rows whose positions are 1..n, at n + 1. */
  lemma DenseRowsSnoc(rs: seq<Entry>, e: Entry)
    requires DenseRows(rs) && e.position == |rs| + 1
    ensures DenseRows(rs + [e])
  {
    var rs' := rs + [e];
    forall k, l | 0 <= k < l < |rs'| ensures rs'[k].position != rs'[l].position {
      assert rs'[k] == rs[k];
      if l < |rs| {
        assert rs'[l] == rs[l];
      }
    }
  }

  lemma DistinctSongsSnoc(rs: seq<Entry>, e: Entry)
    requires DistinctSongs(rs) && forall x :: x in rs ==> x.song != e.song
    ensures DistinctSongs(rs + [e])
  {
    var rs' := rs + [e];
    forall k, l | 0 <= k < l < |rs'| ensures rs'[k].song != rs'[l].song {
      assert rs'[k] == rs[k] && rs[k] in rs;
      if l < |rs| {
        assert rs'[l] == rs[l];
      }
    }
  }

  /** Adding at MAX + 1 keeps a dense playlist dense with one more row at
      the end, keeps its songs distinct when the song is new to it, and
      leaves every other playlist's rows alone. */
  lemma AppendKeepsDense(es: seq<Entry>, pid: Id, sid: Id, d: Date)
    requires Dense(es, pid)
    ensures var e := NextEntry(es, pid, sid, d);
      && e.position == |Rows(es, pid)| + 1
      && Rows(es + [e], pid) == Rows(es, pid) + [e]
      && Dense(es + [e], pid)
      && (DistinctSongs(Rows(es, pid)) && (forall x :: x in Rows(es, pid) ==> x.song != sid)
          ==> DistinctSongs(Rows(es + [e], pid)))
      && (forall q :: q != pid ==> Rows(es + [e], q) == Rows(es, q))
  {
    var e := NextEntry(es, pid, sid, d);
    var rs := Rows(es, pid);
    DenseMax(es, pid);
    RowsAppendOne(es, e, pid);
    DenseRowsSnoc(rs, e);
    if DistinctSongs(rs) && (forall x :: x in rs ==> x.song != sid) {
      DistinctSongsSnoc(rs, e);
    }
    forall q | q != pid ensures Rows(es + [e], q) == Rows(es, q) {
      RowsAppendOne(es, e, q);
    }
  }

  /** The append of the add handlers, whatever the playlist's state: a
      dense playlist stays dense, distinct songs stay distinct when the
      song is new to the playlist, and other playlists are untouched. */
  lemma AppendNextEntry(es: seq<Entry>, pid: Id, sid: Id, d: Date)
    ensures var e := NextEntry(es, pid, sid, d);
      && (Dense(es, pid) ==> Dense(es + [e], pid))
      && (DistinctSongs(Rows(es, pid)) && (forall x :: x in Rows(es, pid) ==> x.song != sid)
          ==> DistinctSongs(Rows(es + [e], pid)))
      && (forall q :: q != pid ==> Rows(es + [e], q) == Rows(es, q))
  {
    var e := NextEntry(es, pid, sid, d);
    RowsAppendOne(es, e, pid);
    if Dense(es, pid) {
      AppendKeepsDense(es, pid, sid, d);
    }
    if DistinctSongs(Rows(es, pid)) && (forall x :: x in Rows(es, pid) ==> x.song != sid) {
      DistinctSongsSnoc(Rows(es, pid), e);
    }
    forall q | q != pid ensures Rows(es + [e], q) == Rows(es, q) {
      RowsAppendOne(es, e, q);
    }
  }

  // ---------------------------------------------------------------------
  // Renumbering

  /** Rows numbered by the renumbering: the result is dense. */
  lemma RenumberRowsDense(rs: seq<Entry>, pid: Id)
    requires forall k :: 0 <= k < |rs| ==> rs[k].playlist == pid
    requires DistinctSongs(rs)
    ensures DenseRows(Renumber(rs, pid, Ranked(rs)))
  {
    var ns := Ranked(rs);
    var r := Renumber(rs, pid, ns);
    forall k | 0 <= k < |rs| ensures 1 <= r[k].position <= |r| {
      RankFound(rs, k);
    }
    forall k, l | 0 <= k < l < |rs| ensures r[k].position != r[l].position {
      RankFound(rs, k);
      RankFound(rs, l);
    }
  }

  /** After the renumbering a playlist without repeated songs is dense, with
      the same number of rows. */
  lemma RenumberedDense(es: seq<Entry>, pid: Id)
    requires DistinctSongs(Rows(es, pid))
    ensures |Rows(Renumbered(es, pid), pid)| == |Rows(es, pid)|
    ensures Dense(Renumbered(es, pid), pid)
  {
    var rs := Rows(es, pid);
    RowsOfRenumber(es, pid, Ranked(rs), pid);
    RenumberRowsDense(rs, pid);
  }

  /** Renumbering rows keeps their order: a row with a smaller position
      than another still has a smaller one afterwards. */
  lemma RenumberRowsOrder(rs: seq<Entry>, pid: Id)
    requires forall k :: 0 <= k < |rs| ==> rs[k].playlist == pid
    requires DistinctSongs(rs)
    ensures var r := Renumber(rs, pid, Ranked(rs));
      forall k, l :: 0 <= k < |rs| && 0 <= l < |rs| && rs[k].position < rs[l].position ==>
        r[k].position < r[l].position
  {
    var ns := Ranked(rs);
    var r := Renumber(rs, pid, ns);
    forall k, l | 0 <= k < |rs| && 0 <= l < |rs| && rs[k].position < rs[l].position
      ensures r[k].position < r[l].position
    {
      RankFindsRow(rs, k);
      RankFindsRow(rs, l);
      var f1, f2 := FirstIndex(ns, rs[k].song), FirstIndex(ns, rs[l].song);
      assert ns[f1].position < ns[f2].position;
    }
  }

  /** The renumbering keeps the playlist's order: a row that was before
      another is still before it. Only positions change. */
  lemma RenumberedKeepsOrder(es: seq<Entry>, pid: Id)
    requires DistinctSongs(Rows(es, pid))
    ensures var rs, rs' := Rows(es, pid), Rows(Renumbered(es, pid), pid);
      && |rs'| == |rs|
      && (forall k :: 0 <= k < |rs| ==> rs'[k] == rs[k].(position := rs'[k].position))
      && (forall k, l :: 0 <= k < |rs| && 0 <= l < |rs| && rs[k].position < rs[l].position ==>
            rs'[k].position < rs'[l].position)
  {
    var rs := Rows(es, pid);
    RowsOfRenumber(es, pid, Ranked(rs), pid);
    RenumberRowsOrder(rs, pid);
  }

  /** A playlist that is already dense, with no song twice, is left exactly
      as it was by the renumbering. */
  lemma RenumberedFixesDense(es: seq<Entry>, pid: Id)
    requires Dense(es, pid) && DistinctSongs(Rows(es, pid))
    ensures Renumbered(es, pid) == es
  {
    var rs := Rows(es, pid);
    var ns := Ranked(rs);
    RankedIota(rs);
    forall i | 0 <= i < |es| ensures Fix(es[i], pid, ns) == es[i] {
      if es[i].playlist == pid {
        assert es[i] in rs;
        var m :| 0 <= m < |rs| && rs[m] == es[i];
        RankFindsRow(rs, m);
      }
    }
  }

  /** Remove-song as a whole: after deleting song `sid` from a playlist
      without repeated songs and renumbering, the playlist is dense, has
      one row fewer if it held the song, keeps its other rows' order, and
      every other playlist is untouched. */
  lemma RemoveSongKeepsDense(es: seq<Entry>, pid: Id, sid: Id)
    requires DistinctSongs(Rows(es, pid))
    ensures Dense(Renumbered(WithoutSong(es, pid, sid), pid), pid)
    ensures (exists e :: e in es && e.playlist == pid && e.song == sid) ==>
      |Rows(Renumbered(WithoutSong(es, pid, sid), pid), pid)| == |Rows(es, pid)| - 1
    ensures (forall e :: e in es ==> !(e.playlist == pid && e.song == sid)) ==>
      |Rows(Renumbered(WithoutSong(es, pid, sid), pid), pid)| == |Rows(es, pid)|
    ensures forall q :: q != pid ==> Rows(Renumbered(WithoutSong(es, pid, sid), pid), q) == Rows(es, q)
  {
    var w := WithoutSong(es, pid, sid);
    RowsOfWithoutSong(es, pid, sid, pid);
    WithoutSongDistinct(Rows(es, pid), pid, sid);
    RenumberedDense(w, pid);
    RemoveSongCount(es, pid, sid);
    forall q | q != pid ensures Rows(Renumbered(w, pid), q) == Rows(es, q) {
      RemoveSongOthers(es, pid, sid, q);
    }
  }

  /** The renumbered playlist has one row fewer when it held the song, as
      many as before when it did not. */
  lemma RemoveSongCount(es: seq<Entry>, pid: Id, sid: Id)
    requires DistinctSongs(Rows(es, pid))
    ensures (exists e :: e in es && e.playlist == pid && e.song == sid) ==>
      |Rows(Renumbered(WithoutSong(es, pid, sid), pid), pid)| == |Rows(es, pid)| - 1
    ensures (forall e :: e in es ==> !(e.playlist == pid && e.song == sid)) ==>
      |Rows(Renumbered(WithoutSong(es, pid, sid), pid), pid)| == |Rows(es, pid)|
  {
    var rs := Rows(es, pid);
    RowsOfWithoutSong(es, pid, sid, pid);
    RenumberedLength(WithoutSong(es, pid, sid), pid, pid);
    if exists e :: e in es && e.playlist == pid && e.song == sid {
      RemovePresentCount(es, pid, sid);
    } else {
      WithoutAbsentSong(rs, pid, sid);
    }
  }

  lemma RemovePresentCount(es: seq<Entry>, pid: Id, sid: Id)
    requires DistinctSongs(Rows(es, pid))
    requires exists e :: e in es && e.playlist == pid && e.song == sid
    ensures |WithoutSong(Rows(es, pid), pid, sid)| == |Rows(es, pid)| - 1
  {
    var rs := Rows(es, pid);
    var e :| e in es && e.playlist == pid && e.song == sid;
    assert e in rs;
    var k :| 0 <= k < |rs| && rs[k] == e;
    forall m | 0 <= m < |rs| ensures rs[m].playlist == pid {
      assert rs[m] in rs;
    }
    WithoutSongCount(rs, pid, sid);
  }

  /** Removing a song from one playlist leaves every other playlist's rows. */
  lemma RemoveSongOthers(es: seq<Entry>, pid: Id, sid: Id, q: Id)
    requires q != pid
    ensures Rows(Renumbered(WithoutSong(es, pid, sid), pid), q) == Rows(es, q)
  {
    var w := WithoutSong(es, pid, sid);
    RenumberedOthers(w, pid, q);
    RowsOfWithoutSong(es, pid, sid, q);
    WithoutAbsentSong(Rows(es, q), pid, sid);
  }

  /** When a song repeats, the renumbering can give two rows one position:
      both rows of song 7 take the rank of the first of them. */
  lemma RepeatedSongCollides()
    ensures var es := [Entry(1, 7, 0, 1), Entry(1, 7, 0, 2)];
      Renumbered(es, 1) == [Entry(1, 7, 0, 1), Entry(1, 7, 0, 1)] && !Dense(Renumbered(es, 1), 1)
  {
    var es := [Entry(1, 7, 0, 1), Entry(1, 7, 0, 2)];
    RowsOfOwnRows(es, 1);
    var ns := Ranked(es);
    assert ns[0].song == 7 by {
      RankedMember(es, 0);
    }
    RenumberBothFirst(es, ns);
    var r := Renumbered(es, 1);
    RowsOfOwnRows(r, 1);
    assert r[0].position == r[1].position;
  }

  /** Both rows of a song ranked first take rank 1. */
  lemma RenumberBothFirst(es: seq<Entry>, ns: seq<Entry>)
    requires es == [Entry(1, 7, 0, 1), Entry(1, 7, 0, 2)]
    requires ns != [] && ns[0].song == 7
    ensures Renumber(es, 1, ns) == [Entry(1, 7, 0, 1), Entry(1, 7, 0, 1)]
  {
    assert FirstIndex(ns, 7) == 0;
    var r := Renumber(es, 1, ns);
    assert r[0] == Fix(es[0], 1, ns);
    assert r[1] == Fix(es[1], 1, ns);
  }

  // ---------------------------------------------------------------------
  // Copying a playlist

  /** A copy keeps positions, so it keeps density and distinct songs. */
  lemma CopyRowsKeep(rs: seq<Entry>, dst: Id, d: Date)
    ensures DenseRows(rs) ==> DenseRows(CopyRows(rs, dst, d))
    ensures DistinctSongs(rs) ==> DistinctSongs(CopyRows(rs, dst, d))
  {
  }

  /** Copying the rows of `src` into a playlist `dst` that has none gives
      `dst` exactly the copied rows: the same songs at the same positions,
      so a dense playlist without repeats is copied dense and without
      repeats, and no other playlist changes. */
  lemma CopyFaithful(es: seq<Entry>, src: Id, dst: Id, d: Date)
    requires Rows(es, dst) == []
    ensures var rs, c := Rows(es, src), CopyRows(Rows(es, src), dst, d);
      && Rows(es + c, dst) == c
      && |c| == |rs|
      && (forall k :: 0 <= k < |c| ==> c[k].song == rs[k].song && c[k].position == rs[k].position)
      && (Dense(es, src) ==> Dense(es + c, dst))
      && (DistinctSongs(rs) ==> DistinctSongs(Rows(es + c, dst)))
      && (forall q :: q != dst ==> Rows(es + c, q) == Rows(es, q))
  {
    var rs := Rows(es, src);
    CopyIntoEmpty(es, rs, dst, d);
    CopyRowsKeep(rs, dst, d);
    forall q | q != dst ensures Rows(es + CopyRows(rs, dst, d), q) == Rows(es, q) {
      CopyLeavesOthers(es, rs, dst, d, q);
    }
  }

  /** The copied rows are the only rows of a playlist that had none. */
  lemma CopyIntoEmpty(es: seq<Entry>, rs: seq<Entry>, dst: Id, d: Date)
    requires Rows(es, dst) == []
    ensures Rows(es + CopyRows(rs, dst, d), dst) == CopyRows(rs, dst, d)
  {
    var c := CopyRows(rs, dst, d);
    RowsAppend(es, c, dst);
    RowsOfOwnRows(c, dst);
    assert [] + c == c;
  }

  lemma CopyLeavesOthers(es: seq<Entry>, rs: seq<Entry>, dst: Id, d: Date, q: Id)
    requires q != dst
    ensures Rows(es + CopyRows(rs, dst, d), q) == Rows(es, q)
  {
    var c := CopyRows(rs, dst, d);
    RowsAppend(es, c, q);
    NoRowsElsewhere(c, q);
    assert Rows(es, q) + [] == Rows(es, q);
  }

  lemma {:induction false} NoRowsElsewhere(rs: seq<Entry>, q: Id)
    requires forall k :: 0 <= k < |rs| ==> rs[k].playlist != q
    ensures Rows(rs, q) == []
  {
    if rs != [] {
      NoRowsElsewhere(rs[1..], q);
    }
  }
}
