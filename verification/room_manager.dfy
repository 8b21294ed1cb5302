/**
  Room membership (src/Server/RoomManager.php).

  The PHP class keeps `$rooms[$roomId][$userId] = true`: an ordered array of
  rooms, each an ordered array whose keys are the members. Here a room's
  members are a sequence without duplicates, in insertion order, so that the
  order in which the dispatcher later walks a room is the source's order.
*/
module Rooms {
  import opened Wrappers

  type RoomId = string
  type UserId = string
  type RoomMap = map<RoomId, seq<UserId>>

  /** PHP array keys are unique: a member is listed once. */
  ghost predicate NoDup<T>(s: seq<T>) {
    forall i, j :: 0 <= i < j < |s| ==> s[i] != s[j]
  }

  ghost predicate WellFormed(m: RoomMap) {
    forall r :: r in m ==> NoDup(m[r])
  }

  /** `isset($rooms[$roomId][$userId])` */
  predicate Member(m: RoomMap, r: RoomId, u: UserId) {
    r in m && u in m[r]
  }

  /** `unset($members[$userId])`: drop `u`, keep the others in order. */
  function Without(s: seq<UserId>, u: UserId): (t: seq<UserId>)
    ensures forall v :: v in t <==> v in s && v != u
    ensures u !in s ==> t == s
    ensures |t| <= |s|
  {
    if s == [] then []
    else if s[0] == u then Without(s[1..], u)
    else [s[0]] + Without(s[1..], u)
  }

  lemma NoDupTail(s: seq<UserId>)
    requires s != [] && NoDup(s)
    ensures NoDup(s[1..]) && s[0] !in s[1..]
  {
    forall i, j | 0 <= i < j < |s[1..]| ensures s[1..][i] != s[1..][j] {
      assert s[1..][i] == s[i + 1] && s[1..][j] == s[j + 1];
    }
    forall k | 0 <= k < |s[1..]| ensures s[1..][k] != s[0] {
      assert s[1..][k] == s[k + 1];
    }
  }

  lemma {:induction false} WithoutKeepsNoDup(s: seq<UserId>, u: UserId)
    requires NoDup(s)
    ensures NoDup(Without(s, u))
  {
    if s != [] {
      NoDupTail(s);
      WithoutKeepsNoDup(s[1..], u);
      if s[0] != u {
        var t := Without(s[1..], u);
        assert s[0] !in t;
        forall i, j | 0 <= i < j < |[s[0]] + t| ensures ([s[0]] + t)[i] != ([s[0]] + t)[j] {
          if i == 0 {
            assert ([s[0]] + t)[j] == t[j - 1];
          } else {
            assert ([s[0]] + t)[i] == t[i - 1] && ([s[0]] + t)[j] == t[j - 1];
          }
        }
      }
    }
  }

  /** Removing a member listed once cuts out exactly that position: the others keep their order. */
  lemma {:induction false} WithoutRemovesAt(s: seq<UserId>, u: UserId, i: nat)
    requires NoDup(s) && i < |s| && s[i] == u
    ensures Without(s, u) == s[..i] + s[i + 1..]
  {
    NoDupTail(s);
    if i == 0 {
      assert Without(s, u) == Without(s[1..], u) == s[1..];
      assert s[..0] + s[1..] == s[1..];
    } else {
      assert s[0] != u by { assert s[0] != s[i]; }
      assert Without(s, u) == [s[0]] + Without(s[1..], u);
      WithoutRemovesAt(s[1..], u, i - 1);
      CutAfterHead(s, i);
    }
  }

  /** Cutting position `i` out of a sequence is keeping its head and cutting `i - 1` out of its tail. */
  lemma CutAfterHead<T>(s: seq<T>, i: nat)
    requires 0 < i < |s|
    ensures [s[0]] + (s[1..][..i - 1] + s[1..][i..]) == s[..i] + s[i + 1..]
  {
    assert s[1..][..i - 1] == s[1..i];
    assert s[1..][i..] == s[i + 1..];
    assert s[..i] == [s[0]] + s[1..i];
  }

  /** Model of `createRoom`: store an empty room unless one is already there. */
  function Created(m: RoomMap, r: RoomId): (m': RoomMap)
    ensures r in m'
    ensures r in m ==> m' == m
    ensures r !in m ==> m'[r] == [] && m'.Keys == m.Keys + {r}
    ensures forall q :: q in m ==> q in m' && m'[q] == m[q]
  {
    if r in m then m else m[r := []]
  }

  /** Model of `joinRoom`: create the room when absent, then add the user at the end unless present. */
  function Joined(m: RoomMap, r: RoomId, u: UserId): (m': RoomMap)
    ensures Member(m', r, u)
    ensures m'.Keys == m.Keys + {r}
    ensures forall q :: q in m && q != r ==> m'[q] == m[q]
    ensures forall v :: Member(m', r, v) <==> v == u || Member(m, r, v)
    ensures Member(m, r, u) ==> m' == m
    ensures !Member(m, r, u) ==> m'[r] == (if r in m then m[r] else []) + [u]
  {
    var members := if r in m then m[r] else [];
    if u in members then m else m[r := members + [u]]
  }

  /** Model of `leaveRoom`: remove the user if present, then delete the room if it is empty (or absent). */
  function Left(m: RoomMap, r: RoomId, u: UserId): (m': RoomMap)
    ensures !Member(m', r, u)
    ensures r in m' ==> m'[r] != []
    ensures m'.Keys == if r in m && Without(m[r], u) != [] then m.Keys else m.Keys - {r}
    ensures forall q :: q in m && q != r ==> q in m' && m'[q] == m[q]
    ensures r in m' ==> m'[r] == Without(m[r], u)
    ensures forall v :: v != u ==> (Member(m', r, v) <==> Member(m, r, v))
  {
    var m1 := if Member(m, r, u) then m[r := Without(m[r], u)] else m;
    if r in m1 && m1[r] != [] then m1 else m1 - {r}
  }

  /** Model of `getRoomParticipants`: `$rooms[$roomId] ?? null`. */
  function Participants(m: RoomMap, r: RoomId): (p: Option<seq<UserId>>)
    ensures p.Some? <==> r in m
    ensures p.Some? ==> forall v :: v in p.value <==> Member(m, r, v)
  {
    if r in m then Some(m[r]) else None
  }

  lemma CreatedKeepsWellFormed(m: RoomMap, r: RoomId)
    requires WellFormed(m)
    ensures WellFormed(Created(m, r))
  {
  }

  lemma JoinedKeepsWellFormed(m: RoomMap, r: RoomId, u: UserId)
    requires WellFormed(m)
    ensures WellFormed(Joined(m, r, u))
  {
  }

  lemma LeftKeepsWellFormed(m: RoomMap, r: RoomId, u: UserId)
    requires WellFormed(m)
    ensures WellFormed(Left(m, r, u))
  {
    if Member(m, r, u) {
      WithoutKeepsNoDup(m[r], u);
    }
  }

  /** Joining twice is the same as joining once. */
  lemma JoinIdempotent(m: RoomMap, r: RoomId, u: UserId)
    ensures Joined(Joined(m, r, u), r, u) == Joined(m, r, u)
  {
  }

  /** Creating a room twice is the same as once, and never drops members. */
  lemma CreateIdempotent(m: RoomMap, r: RoomId)
    ensures Created(Created(m, r), r) == Created(m, r)
    ensures forall v :: Member(m, r, v) ==> Member(Created(m, r), r, v)
  {
  }

  /** Leaving a room one is not in changes nothing, except that a room stored empty is deleted. */
  lemma LeaveNonMember(m: RoomMap, r: RoomId, u: UserId)
    requires !Member(m, r, u)
    ensures Left(m, r, u) == if r in m && m[r] == [] then m - {r} else m
  {
  }

  /** Joining a room that does not exist and leaving it again leaves no trace. */
  lemma JoinLeaveRoundTrip(m: RoomMap, r: RoomId, u: UserId)
    requires r !in m
    ensures Left(Joined(m, r, u), r, u) == m
    ensures Participants(Left(Joined(m, r, u), r, u), r) == None
  {
  }

  /** Only `createRoom` stores an empty room: joins and leaves keep "no room is empty". */
  ghost predicate NoEmptyRoom(m: RoomMap) {
    forall r :: r in m ==> m[r] != []
  }

  lemma JoinLeaveKeepNoEmptyRoom(m: RoomMap, r: RoomId, u: UserId)
    requires NoEmptyRoom(m)
    ensures NoEmptyRoom(Joined(m, r, u))
    ensures NoEmptyRoom(Left(m, r, u))
  {
  }

  lemma CreatedMayStoreEmpty(m: RoomMap, r: RoomId)
    requires r !in m
    ensures !NoEmptyRoom(Created(m, r))
  {
  }

  /** The room table, updated in place by the dispatcher. */
  class RoomManager {
    var rooms: RoomMap

    ghost predicate Valid()
      reads this
    {
      WellFormed(rooms)
    }

    constructor ()
      ensures Valid() && rooms == map[]
    {
      rooms := map[];
    }

    method CreateRoom(roomId: RoomId)
      requires Valid()
      modifies this
      ensures Valid()
      ensures rooms == Created(old(rooms), roomId)
    {
      if roomId !in rooms {
        rooms := rooms[roomId := []];
      }
    }

    method JoinRoom(roomId: RoomId, userId: UserId)
      requires Valid()
      modifies this
      ensures Valid()
      ensures rooms == Joined(old(rooms), roomId, userId)
    {
      if roomId !in rooms {
        rooms := rooms[roomId := []];
      }
      if userId !in rooms[roomId] {
        rooms := rooms[roomId := rooms[roomId] + [userId]];
      }
    }

    method LeaveRoom(roomId: RoomId, userId: UserId)
      requires Valid()
      modifies this
      ensures Valid()
      ensures rooms == Left(old(rooms), roomId, userId)
    {
      LeftKeepsWellFormed(rooms, roomId, userId);
      if roomId in rooms && userId in rooms[roomId] {
        rooms := rooms[roomId := Without(rooms[roomId], userId)];
      }
      if roomId !in rooms || rooms[roomId] == [] {
        rooms := rooms - {roomId};
      }
    }

    method IsUserInRoom(roomId: RoomId, userId: UserId) returns (b: bool)
      ensures b <==> roomId in rooms && userId in rooms[roomId]
    {
      b := roomId in rooms && userId in rooms[roomId];
    }

    method GetRoomParticipants(roomId: RoomId) returns (p: Option<seq<UserId>>)
      ensures p.Some? <==> roomId in rooms
      ensures p.Some? ==> p.value == rooms[roomId]
    {
      if roomId in rooms {
        p := Some(rooms[roomId]);
      } else {
        p := None;
      }
    }
  }
}
