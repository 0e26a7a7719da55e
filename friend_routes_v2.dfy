/** The friendship routes of the v2 app: a one-directional friends list,
    a request with no duplicate check and an accept that updates whatever
    rows match without checking that any do. */
module FriendRoutesV2 {
  import opened Basics
  import opened Schema
  import opened FriendRoutes

  /** The join condition and WHERE clause of the v2 friends query. */
  function OneWayCond(me: Id): (c: (Friendship, User) -> bool)
    ensures forall f, u :: c(f, u) <==> Befriended(f, me, u.id) && f.user == me
  {
    (f: Friendship, u: User) => u.id == f.friend && f.user == me && f.status == Accepted
  }

  /** GET /: the users `me` asked and who accepted, one row per
      friendship row. */
  function FriendsOneWay(fs: seq<Friendship>, users: seq<User>, me: Id): (r: seq<User>)
    ensures forall u :: u in r ==> u in users
  {
    JoinUsers(fs, users, OneWayCond(me))
  }

  /** Exactly the users with an accepted row from `me` to them. */
  lemma OneWayMembers(fs: seq<Friendship>, users: seq<User>, me: Id, u: User)
    ensures u in FriendsOneWay(fs, users, me) <==>
      u in users && exists f :: f in fs && f.user == me && f.friend == u.id && f.status == Accepted
  {
    if u in users && exists f :: f in fs && f.user == me && f.friend == u.id && f.status == Accepted {
      var f :| f in fs && f.user == me && f.friend == u.id && f.status == Accepted;
      JoinUsersComplete(fs, users, OneWayCond(me), f, u);
    }
  }

  /** The v2 list is not symmetric: after user 2 accepts user 1's request,
      1 lists 2 but 2 does not list 1, where the two-way list of the
      first app shows each to the other. */
  lemma OneWayAsymmetric()
    ensures var a, b := User(1, "a", "A"), User(2, "b", "B");
      var fs := [Friendship(1, 2, 0, Accepted)];
      && b in FriendsOneWay(fs, [a, b], 1) && a !in FriendsOneWay(fs, [a, b], 2)
      && b in Friends(fs, [a, b], 1) && a in Friends(fs, [a, b], 2)
  {
    var a, b := User(1, "a", "A"), User(2, "b", "B");
    var fs := [Friendship(1, 2, 0, Accepted)];
    OneWayMembers(fs, [a, b], 1, b);
    OneWayMembers(fs, [a, b], 2, a);
    FriendsMembers(fs, [a, b], 1, b);
    FriendsMembers(fs, [a, b], 2, a);
    assert Befriended(fs[0], 1, 2) && Befriended(fs[0], 2, 1);
  }

  /** POST /request: one pending row (me, friendId) dated today, even when
      one already exists; always success. */
  method SendRequestV2(db: Database, me: Id, friendId: Id, today: Date) returns (reply: Reply)
    requires db.Valid()
    modifies db
    ensures db.Valid() && db.nextId == old(db.nextId)
    ensures reply == Ok
    ensures db.Snapshot() == old(db.Snapshot()).(friendships := old(db.friendships) + [Friendship(me, friendId, today, Pending)])
  {
    SetFriendships(db, db.friendships + [Friendship(me, friendId, today, Pending)]);
    reply := Ok;
  }

  /** A second identical request adds a second identical row. */
  lemma RequestTwiceDuplicates(fs: seq<Friendship>, row: Friendship)
    ensures multiset(fs + [row] + [row])[row] == multiset(fs)[row] + 2
  {
    assert multiset(fs + [row] + [row]) == multiset(fs) + multiset{row} + multiset{row};
  }

  /** PUT /accept/:friendId: every row (friendId, me) becomes accepted,
      whatever its status; success even when no row matched. */
  method AcceptRequestV2(db: Database, me: Id, friendId: Id) returns (reply: Reply)
    requires db.Valid()
    modifies db
    ensures db.Valid() && db.nextId == old(db.nextId)
    ensures reply == Ok
    ensures db.Snapshot() == old(db.Snapshot()).(friendships := AcceptRows(old(db.friendships), friendId, me))
  {
    SetFriendships(db, AcceptRows(db.friendships, friendId, me));
    reply := Ok;
  }
}
