/**
  The connection registry: `WebSocketServer::$fdToUserIdMap`
  (src/Server/WebSocketServer.php).

  A PHP array is ordered, and `array_search` returns the FIRST key whose value
  matches, so the registry is a sequence of bindings in insertion order with
  at most one binding per connection handle (fd).
*/
module Registry {
  import opened Wrappers
  import Rooms

  type Fd = int

  datatype Binding = Binding(fd: Fd, userId: Rooms.UserId)

  type FdMap = seq<Binding>

  /** Array keys are unique: each fd is bound at most once. */
  ghost predicate UniqueFds(reg: FdMap) {
    forall i, j :: 0 <= i < j < |reg| ==> reg[i].fd != reg[j].fd
  }

  /** The position of the fd's binding, if any. */
  function IndexOf(reg: FdMap, fd: Fd): (r: Option<nat>)
    ensures r.Some? ==> r.value < |reg| && reg[r.value].fd == fd
    ensures r.Some? ==> forall j :: 0 <= j < r.value ==> reg[j].fd != fd
    ensures r.None? ==> forall j :: 0 <= j < |reg| ==> reg[j].fd != fd
  {
    if reg == [] then None
    else if reg[0].fd == fd then Some(0)
    else match IndexOf(reg[1..], fd)
      case None => None
      case Some(k) => Some(k + 1)
  }

  /** `$fdToUserIdMap[$fd] ?? null` */
  function Lookup(reg: FdMap, fd: Fd): (r: Option<Rooms.UserId>)
    ensures r.Some? <==> exists i :: 0 <= i < |reg| && reg[i].fd == fd
    ensures UniqueFds(reg) ==> forall i :: 0 <= i < |reg| && reg[i].fd == fd ==> r == Some(reg[i].userId)
  {
    match IndexOf(reg, fd)
    case None => None
    case Some(i) => Some(reg[i].userId)
  }

  /** `$fdToUserIdMap[$fd] = $userId`: overwrite in place, or append a new binding. */
  function Bind(reg: FdMap, fd: Fd, u: Rooms.UserId): (reg': FdMap)
    ensures Lookup(reg', fd) == Some(u)
    ensures forall f :: f != fd ==> Lookup(reg', f) == Lookup(reg, f)
    ensures UniqueFds(reg) ==> UniqueFds(reg')
    ensures IndexOf(reg, fd).None? ==> reg' == reg + [Binding(fd, u)]
    ensures IndexOf(reg, fd).Some? ==> reg' == reg[IndexOf(reg, fd).value := Binding(fd, u)]
  {
    match IndexOf(reg, fd)
    case Some(i) =>
      var reg' := reg[i := Binding(fd, u)];
      assert IndexOf(reg', fd) == Some(i) by { IndexOfAfterUpdate(reg, i, fd, u); }
      assert forall f :: f != fd ==> IndexOf(reg', f) == IndexOf(reg, f) by {
        forall f | f != fd ensures IndexOf(reg', f) == IndexOf(reg, f) { IndexOfOtherAfterUpdate(reg, i, fd, u, f); }
      }
      reg'
    case None =>
      var reg' := reg + [Binding(fd, u)];
      assert IndexOf(reg', fd) == Some(|reg|) by { IndexOfAfterAppend(reg, Binding(fd, u), fd); }
      assert forall f :: f != fd ==> IndexOf(reg', f) == IndexOf(reg, f) by {
        forall f | f != fd ensures IndexOf(reg', f) == IndexOf(reg, f) { IndexOfAfterAppend(reg, Binding(fd, u), f); }
      }
      reg'
  }

  /** `unset($fdToUserIdMap[$fd])`: the others keep their order. */
  function Unbind(reg: FdMap, fd: Fd): (reg': FdMap)
    ensures forall b :: b in reg' <==> b in reg && b.fd != fd
    ensures Lookup(reg', fd) == None
    ensures IndexOf(reg, fd).None? ==> reg' == reg
  {
    if reg == [] then []
    else if reg[0].fd == fd then Unbind(reg[1..], fd)
    else [reg[0]] + Unbind(reg[1..], fd)
  }

  /** Unbinding one fd keeps the keys unique. */
  lemma {:induction false} UnbindKeepsUnique(reg: FdMap, fd: Fd)
    requires UniqueFds(reg)
    ensures UniqueFds(Unbind(reg, fd))
  {
    if reg != [] {
      UniqueTail(reg);
      UnbindKeepsUnique(reg[1..], fd);
      if reg[0].fd != fd {
        HeadFdFresh(reg);
        PrependKeepsUnique(reg[0], Unbind(reg[1..], fd));
      }
    }
  }

  lemma HeadFdFresh(reg: FdMap)
    requires reg != [] && UniqueFds(reg)
    ensures forall b :: b in reg[1..] ==> b.fd != reg[0].fd
  {
    forall b | b in reg[1..] ensures b.fd != reg[0].fd {
      var k :| 0 <= k < |reg[1..]| && reg[1..][k] == b;
      assert reg[k + 1] == b;
    }
  }

  lemma PrependKeepsUnique(b: Binding, rest: FdMap)
    requires UniqueFds(rest)
    requires forall c :: c in rest ==> c.fd != b.fd
    ensures UniqueFds([b] + rest)
  {
    var reg' := [b] + rest;
    forall i, j | 0 <= i < j < |reg'| ensures reg'[i].fd != reg'[j].fd {
      assert reg'[j] == rest[j - 1];
      if i > 0 {
        assert reg'[i] == rest[i - 1];
      }
    }
  }

  /** With unique fds, unbinding cuts out exactly the fd's position: the others keep their order. */
  lemma {:induction false} UnbindRemovesAt(reg: FdMap, fd: Fd, i: nat)
    requires UniqueFds(reg) && IndexOf(reg, fd) == Some(i)
    ensures Unbind(reg, fd) == reg[..i] + reg[i + 1..]
  {
    if i == 0 {
      UnbindAtHead(reg, fd);
      assert reg[..0] + reg[1..] == reg[1..];
    } else {
      UniqueTail(reg);
      assert reg[0].fd != fd;
      assert IndexOf(reg[1..], fd) == Some(i - 1);
      assert Unbind(reg, fd) == [reg[0]] + Unbind(reg[1..], fd);
      UnbindRemovesAt(reg[1..], fd, i - 1);
      Rooms.CutAfterHead(reg, i);
    }
  }

  lemma UnbindAtHead(reg: FdMap, fd: Fd)
    requires UniqueFds(reg) && reg != [] && reg[0].fd == fd
    ensures Unbind(reg, fd) == reg[1..]
  {
    HeadFdFresh(reg);
    var tail := reg[1..];
    assert IndexOf(tail, fd).None? by {
      forall j | 0 <= j < |tail| ensures tail[j].fd != fd { assert tail[j] in tail; }
    }
  }

  /** Unbinding one fd keeps every other fd's binding. */
  lemma UnbindKeepsOthers(reg: FdMap, fd: Fd)
    requires UniqueFds(reg)
    ensures UniqueFds(Unbind(reg, fd))
    ensures forall f :: f != fd ==> Lookup(Unbind(reg, fd), f) == Lookup(reg, f)
  {
    UnbindKeepsUnique(reg, fd);
    var reg' := Unbind(reg, fd);
    forall f | f != fd ensures Lookup(reg', f) == Lookup(reg, f) {
      if Lookup(reg, f).Some? {
        var i :| 0 <= i < |reg| && reg[i].fd == f;
        assert reg[i] in reg';
        var k :| 0 <= k < |reg'| && reg'[k] == reg[i];
      }
    }
  }

  /** `array_search($userId, $fdToUserIdMap)`: the fd of the first binding to the user. */
  function SearchFd(reg: FdMap, u: Rooms.UserId): (r: Option<Fd>)
    ensures r.Some? ==>
      exists i :: 0 <= i < |reg| && reg[i] == Binding(r.value, u) && forall j :: 0 <= j < i ==> reg[j].userId != u
    ensures r.None? <==> forall i :: 0 <= i < |reg| ==> reg[i].userId != u
  {
    if reg == [] then None
    else if reg[0].userId == u then
      assert reg[0] == Binding(reg[0].fd, u);
      Some(reg[0].fd)
    else
      var r := SearchFd(reg[1..], u);
      if r.Some? then
        var i :| 0 <= i < |reg[1..]| && reg[1..][i] == Binding(r.value, u) && forall j :: 0 <= j < i ==> reg[1..][j].userId != u;
        assert reg[i + 1] == Binding(r.value, u);
        assert forall j :: 0 <= j < i + 1 ==> reg[j].userId != u by {
          forall j | 0 < j < i + 1 ensures reg[j].userId != u { assert reg[j] == reg[1..][j - 1]; }
        }
        r
      else
        assert forall i :: 1 <= i < |reg| ==> reg[i] == reg[1..][i - 1];
        r
  }

  /** Appending a binding changes the first match only for a user that had none. */
  lemma {:induction false} SearchFdAppend(reg: FdMap, b: Binding, v: Rooms.UserId)
    ensures SearchFd(reg + [b], v) == if SearchFd(reg, v).None? && b.userId == v then Some(b.fd) else SearchFd(reg, v)
  {
    if reg == [] {
      assert [] + [b] == [b];
      assert [b][1..] == [];
    } else {
      assert (reg + [b])[0] == reg[0];
      assert (reg + [b])[1..] == reg[1..] + [b];
      SearchFdAppend(reg[1..], b, v);
    }
  }

  /**
    A user's second connection, bound after the first, does not change
    which connection `array_search` finds for anybody.
  */
  lemma BindKeepsFirstConnection(reg: FdMap, fd: Fd, u: Rooms.UserId)
    requires Lookup(reg, fd).None? && SearchFd(reg, u).Some?
    ensures forall v :: SearchFd(Bind(reg, fd, u), v) == SearchFd(reg, v)
  {
    assert Bind(reg, fd, u) == reg + [Binding(fd, u)];
    forall v ensures SearchFd(Bind(reg, fd, u), v) == SearchFd(reg, v) {
      SearchFdAppend(reg, Binding(fd, u), v);
    }
  }

  /** PHP truthiness of a bound user id: the empty string and "0" are false. */
  predicate Truthy(u: Rooms.UserId) {
    u != "" && u != "0"
  }

  /** `onClose`: the fd's binding is removed only when its user id is truthy. */
  function Closed(reg: FdMap, fd: Fd): (reg': FdMap)
    ensures Lookup(reg, fd).Some? && Truthy(Lookup(reg, fd).value) ==> reg' == Unbind(reg, fd)
    ensures Lookup(reg, fd).None? || !Truthy(Lookup(reg, fd).value) ==> reg' == reg
  {
    match Lookup(reg, fd)
    case Some(u) => if Truthy(u) then Unbind(reg, fd) else reg
    case None => reg
  }

  // ----- helper facts about IndexOf -----

  lemma UniqueTail(reg: FdMap)
    requires reg != []
    ensures UniqueFds(reg) ==> UniqueFds(reg[1..])
  {
    if UniqueFds(reg) {
      forall i, j | 0 <= i < j < |reg[1..]| ensures reg[1..][i].fd != reg[1..][j].fd {
        assert reg[1..][i] == reg[i + 1] && reg[1..][j] == reg[j + 1];
      }
    }
  }

  lemma {:induction false} IndexOfAfterUpdate(reg: FdMap, i: nat, fd: Fd, u: Rooms.UserId)
    requires IndexOf(reg, fd) == Some(i)
    ensures IndexOf(reg[i := Binding(fd, u)], fd) == Some(i)
  {
    if i > 0 {
      assert reg[i := Binding(fd, u)][1..] == reg[1..][i - 1 := Binding(fd, u)];
      IndexOfAfterUpdate(reg[1..], i - 1, fd, u);
    }
  }

  lemma {:induction false} IndexOfOtherAfterUpdate(reg: FdMap, i: nat, fd: Fd, u: Rooms.UserId, f: Fd)
    requires i < |reg| && reg[i].fd == fd && f != fd
    ensures IndexOf(reg[i := Binding(fd, u)], f) == IndexOf(reg, f)
  {
    if i > 0 && reg[0].fd != f {
      assert reg[i := Binding(fd, u)][1..] == reg[1..][i - 1 := Binding(fd, u)];
      IndexOfOtherAfterUpdate(reg[1..], i - 1, fd, u, f);
    }
  }

  lemma {:induction false} IndexOfAfterAppend(reg: FdMap, b: Binding, f: Fd)
    requires IndexOf(reg, b.fd).None?
    ensures IndexOf(reg + [b], f) == if f == b.fd then Some(|reg|) else IndexOf(reg, f)
  {
    if reg != [] {
      assert (reg + [b])[1..] == reg[1..] + [b];
      if reg[0].fd != f {
        IndexOfAfterAppend(reg[1..], b, f);
      }
    }
  }
}
