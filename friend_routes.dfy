/** The friendship routes: the friends list, the pending requests in both
    directions, search by username, and the state machine over the
    directed rows of user_friendships (request, accept, decline,
    unfriend). A row (a, b) says that `a` asked `b`; nothing keeps the
    two directions in step. */
module FriendRoutes {
  import opened Basics
  import opened Schema

  // ---------------------------------------------------------------------
  // Queries

  /** users JOIN user_friendships ON cond(uf, u): for each friendship row
      in table order, the users it joins to. */
  function JoinUsers(fs: seq<Friendship>, users: seq<User>, cond: (Friendship, User) -> bool): (r: seq<User>)
    ensures forall u :: u in r ==> u in users && exists f :: f in fs && cond(f, u)
  {
    if fs == [] then []
    else
      var f := fs[0];
      Filter(users, (u: User) => cond(f, u)) + JoinUsers(fs[1..], users, cond)
  }

  /** Every user the join condition pairs with some row is in the join. */
  lemma {:induction false} JoinUsersComplete(fs: seq<Friendship>, users: seq<User>,
                                             cond: (Friendship, User) -> bool, f: Friendship, u: User)
    requires f in fs && u in users && cond(f, u)
    ensures u in JoinUsers(fs, users, cond)
  {
    if fs[0] == f {
      assert u in Filter(users, (v: User) => cond(f, v));
    } else {
      JoinUsersComplete(fs[1..], users, cond, f, u);
    }
  }

  /** The accepted row `f` joins `me` and the user `other`, in either
      direction. */
  predicate Befriended(f: Friendship, me: Id, other: Id) {
    f.status == Accepted && ((f.user == me && f.friend == other) || (f.friend == me && f.user == other))
  }

  /** The join condition and WHERE clause of the friends query. */
  function FriendsCond(me: Id): (c: (Friendship, User) -> bool)
    ensures forall f, u :: c(f, u) <==> Befriended(f, me, u.id) && u.id != me
  {
    (f: Friendship, u: User) =>
      (u.id == f.friend || u.id == f.user) && (f.user == me || f.friend == me)
      && f.status == Accepted && u.id != me
  }

  /** GET / and GET /friends-list: the users on the other end of an
      accepted row that involves `me`, one row per friendship row (no
      DISTINCT), never `me` itself. */
  function Friends(fs: seq<Friendship>, users: seq<User>, me: Id): (r: seq<User>)
    ensures forall u :: u in r ==> u.id != me
  {
    JoinUsers(fs, users, FriendsCond(me))
  }

  /** A user is on the friends list exactly when an accepted row, in
      either direction, joins them to `me`. */
  lemma FriendsMembers(fs: seq<Friendship>, users: seq<User>, me: Id, u: User)
    ensures u in Friends(fs, users, me) <==>
      u in users && u.id != me && exists f :: f in fs && Befriended(f, me, u.id)
  {
    if u in users && u.id != me && exists f :: f in fs && Befriended(f, me, u.id) {
      var f :| f in fs && Befriended(f, me, u.id);
      JoinUsersComplete(fs, users, FriendsCond(me), f, u);
    }
  }

  /** Friendship as the list shows it is symmetric: `a` lists `b` exactly
      when `b` lists `a`. */
  lemma FriendsSymmetric(fs: seq<Friendship>, users: seq<User>, a: User, b: User)
    requires a in users && b in users
    ensures b in Friends(fs, users, a.id) <==> a in Friends(fs, users, b.id)
  {
    FriendsMembers(fs, users, a.id, b);
    FriendsMembers(fs, users, b.id, a);
    if b in Friends(fs, users, a.id) {
      var f :| f in fs && Befriended(f, a.id, b.id);
      assert Befriended(f, b.id, a.id);
    }
    if a in Friends(fs, users, b.id) {
      var f :| f in fs && Befriended(f, b.id, a.id);
      assert Befriended(f, a.id, b.id);
    }
  }

  datatype PendingLists = PendingLists(received: seq<User>, sent: seq<User>)

  /** A pending row says that `a` asked `b`. */
  predicate PendingRow(f: Friendship, a: Id, b: Id) {
    f.user == a && f.friend == b && f.status == Pending
  }

  /** The join condition of the received list: `u` sent `me` a pending
      request. */
  function ReceivedCond(me: Id): (c: (Friendship, User) -> bool)
    ensures forall f, u :: c(f, u) <==> PendingRow(f, u.id, me)
  {
    (f: Friendship, u: User) => u.id == f.user && f.friend == me && f.status == Pending
  }

  /** The join condition of the sent list: `me` sent `u` a pending
      request, the same row seen from the other end. */
  function SentCond(me: Id): (c: (Friendship, User) -> bool)
    ensures forall f, u :: c(f, u) <==> PendingRow(f, me, u.id)
  {
    (f: Friendship, u: User) => u.id == f.friend && f.user == me && f.status == Pending
  }

  /** GET /pending: the senders of pending rows addressed to `me`, and the
      addressees of pending rows `me` sent. */
  function PendingRequests(fs: seq<Friendship>, users: seq<User>, me: Id): (r: PendingLists)
    ensures forall u :: u in r.received ==> u in users
    ensures forall u :: u in r.sent ==> u in users
  {
    PendingLists(JoinUsers(fs, users, ReceivedCond(me)), JoinUsers(fs, users, SentCond(me)))
  }

  /** The two halves of the pending lists, exactly. */
  lemma PendingMembers(fs: seq<Friendship>, users: seq<User>, me: Id, u: User)
    ensures u in PendingRequests(fs, users, me).received <==>
      u in users && exists f :: f in fs && f.user == u.id && f.friend == me && f.status == Pending
    ensures u in PendingRequests(fs, users, me).sent <==>
      u in users && exists f :: f in fs && f.user == me && f.friend == u.id && f.status == Pending
  {
    if u in users && exists f :: f in fs && f.user == u.id && f.friend == me && f.status == Pending {
      var f :| f in fs && f.user == u.id && f.friend == me && f.status == Pending;
      JoinUsersComplete(fs, users, ReceivedCond(me), f, u);
    }
    if u in users && exists f :: f in fs && f.user == me && f.friend == u.id && f.status == Pending {
      var f :| f in fs && f.user == me && f.friend == u.id && f.status == Pending;
      JoinUsersComplete(fs, users, SentCond(me), f, u);
    }
  }

  /** GET /search: the first user whose username equals the query, or the
      "User not found" error object. */
  function SearchUser(users: seq<User>, username: string): (r: Option<User>)
    ensures r.Some? ==> r.value in users && r.value.username == username
    ensures r.None? <==> forall u :: u in users ==> u.username != username
  {
    First(users, (u: User) => u.username == username)
  }

  // ---------------------------------------------------------------------
  // Table operations

  /** Some row, of any status, says that `a` asked `b`: the duplicate
      check's SELECT returns at least one row. */
  predicate Requested(fs: seq<Friendship>, a: Id, b: Id): (r: bool)
    ensures r <==> |Filter(fs, (f: Friendship) => f.user == a && f.friend == b)| > 0
  {
    var q := Filter(fs, (f: Friendship) => f.user == a && f.friend == b);
    assert |q| > 0 ==> q[0] in q;
    exists f :: f in fs && f.user == a && f.friend == b
  }

  /** A pending row says that `a` asked `b`: the accept check's SELECT
      returns at least one row. Such a row is a request. */
  predicate PendingFrom(fs: seq<Friendship>, a: Id, b: Id): (r: bool)
    ensures r <==> |Filter(fs, (f: Friendship) => PendingRow(f, a, b))| > 0
    ensures r ==> Requested(fs, a, b)
  {
    var q := Filter(fs, (f: Friendship) => PendingRow(f, a, b));
    assert |q| > 0 ==> q[0] in q;
    exists f :: f in fs && PendingRow(f, a, b)
  }

  /** UPDATE ... SET status = 'accepted' WHERE user_id = a AND friend_id = b. */
  function AcceptRows(fs: seq<Friendship>, a: Id, b: Id): (r: seq<Friendship>)
    ensures |r| == |fs|
    ensures forall k :: 0 <= k < |r| ==>
      r[k] == if fs[k].user == a && fs[k].friend == b then fs[k].(status := Accepted) else fs[k]
  {
    seq(|fs|, k requires 0 <= k < |fs| => if fs[k].user == a && fs[k].friend == b then fs[k].(status := Accepted) else fs[k])
  }

  /** Once `b` accepts a row from `a`, each lists the other. */
  lemma AcceptMakesFriends(fs: seq<Friendship>, users: seq<User>, a: User, b: User)
    requires a in users && b in users && a.id != b.id && Requested(fs, a.id, b.id)
    ensures b in Friends(AcceptRows(fs, a.id, b.id), users, a.id)
    ensures a in Friends(AcceptRows(fs, a.id, b.id), users, b.id)
  {
    var r := AcceptRows(fs, a.id, b.id);
    var f :| f in fs && f.user == a.id && f.friend == b.id;
    var k :| 0 <= k < |fs| && fs[k] == f;
    assert r[k] in r && Befriended(r[k], a.id, b.id) && Befriended(r[k], b.id, a.id);
    FriendsMembers(r, users, a.id, b);
    FriendsMembers(r, users, b.id, a);
  }

  /** An update that matches no row changes nothing. */
  lemma AcceptNothing(fs: seq<Friendship>, a: Id, b: Id)
    requires !Requested(fs, a, b)
    ensures AcceptRows(fs, a, b) == fs
  {
    var r := AcceptRows(fs, a, b);
    forall k | 0 <= k < |fs| ensures r[k] == fs[k] {
      assert fs[k] in fs;
    }
  }

  /** The rows the decline handler keeps: all but the pending rows from
      `a` to `b`. */
  function Declined(fs: seq<Friendship>, a: Id, b: Id): (r: seq<Friendship>)
    ensures !PendingFrom(r, a, b)
    ensures forall f :: f in r <==> f in fs && !(f.user == a && f.friend == b && f.status == Pending)
  {
    Filter(fs, (f: Friendship) => !(f.user == a && f.friend == b && f.status == Pending))
  }

  /** Declining twice is declining once. */
  lemma DeclineIdempotent(fs: seq<Friendship>, a: Id, b: Id)
    ensures Declined(Declined(fs, a, b), a, b) == Declined(fs, a, b)
  {
    FilterIdempotent(fs, (f: Friendship) => !(f.user == a && f.friend == b && f.status == Pending));
  }

  /** Declining removes only pending rows, so nobody's friends list
      changes. */
  lemma DeclineKeepsFriends(fs: seq<Friendship>, users: seq<User>, a: Id, b: Id, me: Id, u: User)
    ensures u in Friends(Declined(fs, a, b), users, me) <==> u in Friends(fs, users, me)
  {
    var r := Declined(fs, a, b);
    FriendsMembers(fs, users, me, u);
    FriendsMembers(r, users, me, u);
    if u in Friends(fs, users, me) {
      var f :| f in fs && Befriended(f, me, u.id);
      assert f in r;
    }
  }

  /** The rows the unfriend handler keeps: every row between `a` and `b`
      goes, in both directions and whatever its status. */
  function Unfriended(fs: seq<Friendship>, a: Id, b: Id): (r: seq<Friendship>)
    ensures forall f :: f in r <==> f in fs && !((f.user == a && f.friend == b) || (f.user == b && f.friend == a))
  {
    Filter(fs, (f: Friendship) => !((f.user == a && f.friend == b) || (f.user == b && f.friend == a)))
  }

  /** After unfriending, neither lists the other, and either may send a
      new request. */
  lemma UnfriendSeparates(fs: seq<Friendship>, users: seq<User>, a: User, b: User)
    ensures b !in Friends(Unfriended(fs, a.id, b.id), users, a.id)
    ensures a !in Friends(Unfriended(fs, a.id, b.id), users, b.id)
    ensures !Requested(Unfriended(fs, a.id, b.id), a.id, b.id)
    ensures !Requested(Unfriended(fs, a.id, b.id), b.id, a.id)
  {
    var r := Unfriended(fs, a.id, b.id);
    FriendsMembers(r, users, a.id, b);
    FriendsMembers(r, users, b.id, a);
  }

  // ---------------------------------------------------------------------
  // Handlers

  /** Replaces the friendship table; no key involves it. */
  method SetFriendships(db: Database, fs: seq<Friendship>)
    requires db.Valid()
    modifies db
    ensures db.Valid() && db.nextId == old(db.nextId)
    ensures db.Snapshot() == old(db.Snapshot()).(friendships := fs)
  {
    db.friendships := fs;
  }

  /** POST /request: refused with 400 when `me` already has a row towards
      `friendId`, of any status (the opposite direction is not looked
      at); otherwise one pending row dated today. Either way a row
      (me, friendId) exists afterwards. */
  method SendRequest(db: Database, me: Id, friendId: Id, today: Date) returns (reply: Reply)
    requires db.Valid()
    modifies db
    ensures db.Valid() && db.nextId == old(db.nextId)
    ensures reply == BadRequest <==> Requested(old(db.friendships), me, friendId)
    ensures reply == BadRequest ==> db.Snapshot() == old(db.Snapshot())
    ensures reply == Ok || reply == BadRequest
    ensures reply == Ok ==>
              db.Snapshot() == old(db.Snapshot()).(friendships := old(db.friendships) + [Friendship(me, friendId, today, Pending)])
    ensures Requested(db.friendships, me, friendId)
  {
    var existing := Filter(db.friendships, (f: Friendship) => f.user == me && f.friend == friendId);
    if |existing| > 0 {
      assert existing[0] in existing;
      return BadRequest;
    }
    var row := Friendship(me, friendId, today, Pending);
    SetFriendships(db, db.friendships + [row]);
    assert row in db.friendships;
    reply := Ok;
  }

  /** PUT /accept/:friendId: 400 and no change unless `friendId` has a
      pending row towards `me`; then every row (friendId, me) becomes
      accepted. */
  method AcceptRequest(db: Database, me: Id, friendId: Id) returns (reply: Reply)
    requires db.Valid()
    modifies db
    ensures db.Valid() && db.nextId == old(db.nextId)
    ensures reply == BadRequest <==> !PendingFrom(old(db.friendships), friendId, me)
    ensures reply == BadRequest ==> db.Snapshot() == old(db.Snapshot())
    ensures reply == Ok || reply == BadRequest
    ensures reply == Ok ==>
              db.Snapshot() == old(db.Snapshot()).(friendships := AcceptRows(old(db.friendships), friendId, me))
  {
    var existing := Filter(db.friendships, (f: Friendship) => f.user == friendId && f.friend == me && f.status == Pending);
    if |existing| == 0 {
      return BadRequest;
    }
    assert existing[0] in existing;
    SetFriendships(db, AcceptRows(db.friendships, friendId, me));
    reply := Ok;
  }

  /** DELETE /decline/:friendId: removes the pending rows (friendId, me)
      and answers success whether or not there were any. */
  method DeclineRequest(db: Database, me: Id, friendId: Id) returns (reply: Reply)
    requires db.Valid()
    modifies db
    ensures db.Valid() && db.nextId == old(db.nextId)
    ensures reply == Ok
    ensures db.Snapshot() == old(db.Snapshot()).(friendships := Declined(old(db.friendships), friendId, me))
  {
    SetFriendships(db, Declined(db.friendships, friendId, me));
    reply := Ok;
  }

  /** DELETE /unfriend/:friendId: removes every row between the two users,
      in both directions; always success. */
  method Unfriend(db: Database, me: Id, friendId: Id) returns (reply: Reply)
    requires db.Valid()
    modifies db
    ensures db.Valid() && db.nextId == old(db.nextId)
    ensures reply == Ok
    ensures db.Snapshot() == old(db.Snapshot()).(friendships := Unfriended(old(db.friendships), me, friendId))
  {
    SetFriendships(db, Unfriended(db.friendships, me, friendId));
    reply := Ok;
  }
}
