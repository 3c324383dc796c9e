/**
 * The server's connection manager: for every user, the plugin sockets and the admin-console
 * sockets that are currently open, each list in connection order.
 */
module Connections {

  /** Identity of an accepted WebSocket; Python compares sockets by identity. */
  type SocketId = nat

  /** `Dict[int, List[WebSocket]]` */
  type Channels = map<int, seq<SocketId>>

  /** No user is left with an empty list: disconnecting the last socket deletes the key. */
  ghost predicate NoEmptyLists(m: Channels) {
    forall u :: u in m ==> m[u] != []
  }

  /** The user's sockets, or none. */
  function SocketsOf(m: Channels, u: int): seq<SocketId> {
    if u in m then m[u] else []
  }

  /** Connecting: create the user's list when missing, then append the socket. */
  function Attach(m: Channels, u: int, s: SocketId): (r: Channels)
    ensures r.Keys == m.Keys + {u}
    ensures |r[u]| > 0 && r[u][|r[u]| - 1] == s && r[u][..|r[u]| - 1] == SocketsOf(m, u)
    ensures forall v :: v in m && v != u ==> r[v] == m[v]
    ensures NoEmptyLists(m) ==> NoEmptyLists(r)
  {
    m[u := SocketsOf(m, u) + [s]]
  }

  /** Position of the first occurrence of `s`. */
  function FirstIndex(l: seq<SocketId>, s: SocketId): (i: nat)
    requires s in l
    ensures i < |l| && l[i] == s
    ensures forall j :: 0 <= j < i ==> l[j] != s
  {
    if l[0] == s then 0 else FirstIndex(l[1..], s) + 1
  }

  /** Python's `list.remove(s)`: the first occurrence is deleted, any later ones stay. */
  function RemoveFirst(l: seq<SocketId>, s: SocketId): (r: seq<SocketId>)
    ensures s !in l ==> r == l
  {
    if l == [] then []
    else if l[0] == s then l[1..]
    else [l[0]] + RemoveFirst(l[1..], s)
  }

  /** What RemoveFirst deletes is exactly the element at the first index holding `s`. */
  lemma {:induction false} RemoveFirstAt(l: seq<SocketId>, s: SocketId)
    requires s in l
    ensures RemoveFirst(l, s) == l[..FirstIndex(l, s)] + l[FirstIndex(l, s) + 1..]
  {
    var i := FirstIndex(l, s);
    if l[0] == s {
      assert l == [s] + l[1..];
    } else {
      var tail := l[1..];
      RemoveFirstAt(tail, s);
      var k := FirstIndex(tail, s);
      assert i == k + 1;
      calc {
        RemoveFirst(l, s);
        [l[0]] + RemoveFirst(tail, s);
        [l[0]] + (tail[..k] + tail[k + 1..]);
        { assert [l[0]] + tail[..k] == l[..i]; assert tail[k + 1..] == l[i + 1..]; }
        l[..i] + l[i + 1..];
      }
    }
  }

  /** RemoveFirst takes away one copy of `s` and nothing else. */
  lemma {:induction false} RemoveFirstMultiset(l: seq<SocketId>, s: SocketId)
    requires s in l
    ensures multiset(RemoveFirst(l, s)) == multiset(l) - multiset{s}
  {
    RemoveFirstAt(l, s);
    var i := FirstIndex(l, s);
    var before, after := l[..i], l[i + 1..];
    assert l == before + [s] + after;
    assert multiset(l) == multiset(before) + multiset{s} + multiset(after);
    assert multiset(RemoveFirst(l, s)) == multiset(before) + multiset(after);
  }

  /** Disconnecting: remove the socket if registered, then delete the user's key if the list is empty. */
  function Detach(m: Channels, u: int, s: SocketId): (r: Channels)
    ensures u !in m ==> r == m
    ensures forall v :: v != u ==> (v in r <==> v in m)
    ensures forall v :: v in m && v != u ==> r[v] == m[v]
    ensures u in m ==> (u in r <==> RemoveFirst(m[u], s) != [])
    ensures u in r ==> r[u] == RemoveFirst(m[u], s)
    ensures NoEmptyLists(m) ==> NoEmptyLists(r)
  {
    if u !in m then m
    else
      var l := if s in m[u] then RemoveFirst(m[u], s) else m[u];
      if l == [] then m - {u} else m[u := l]
  }

  /** Disconnecting a socket the user never registered changes nothing. */
  lemma DetachUnregistered(m: Channels, u: int, s: SocketId)
    requires NoEmptyLists(m) && s !in SocketsOf(m, u)
    ensures Detach(m, u, s) == m
  {
    if u in m {
      assert Detach(m, u, s) == m[u := m[u]];
    }
  }

  lemma {:induction false} RemoveFirstOfAppended(l: seq<SocketId>, s: SocketId)
    requires s !in l
    ensures RemoveFirst(l + [s], s) == l
  {
    if l == [] {
      assert [s][1..] == [];
    } else {
      assert (l + [s])[1..] == l[1..] + [s];
      RemoveFirstOfAppended(l[1..], s);
      assert [l[0]] + l[1..] == l;
    }
  }

  /** Disconnecting a socket right after connecting it, when it was not already registered, restores the map. */
  lemma AttachDetach(m: Channels, u: int, s: SocketId)
    requires NoEmptyLists(m) && s !in SocketsOf(m, u)
    ensures Detach(Attach(m, u, s), u, s) == m
  {
    var l := SocketsOf(m, u);
    var a := Attach(m, u, s);
    assert a[u] == l + [s];
    RemoveFirstOfAppended(l, s);
    var r := Detach(a, u, s);
    assert u in r <==> u in m;
    assert r.Keys == m.Keys;
    assert forall v :: v in r ==> r[v] == m[v];
  }

  /** One connection-lifecycle event on one of the two maps. */
  datatype ChannelEvent = Connect(userId: int, socket: SocketId) | Disconnect(userId: int, socket: SocketId)

  function Apply(m: Channels, e: ChannelEvent): Channels {
    match e
    case Connect(u, s) => Attach(m, u, s)
    case Disconnect(u, s) => Detach(m, u, s)
  }

  function Replay(m: Channels, events: seq<ChannelEvent>): Channels
    decreases |events|
  {
    if events == [] then m else Replay(Apply(m, events[0]), events[1..])
  }

  /** Every map reachable by connects and disconnects from an empty one has no empty list. */
  lemma {:induction false} ReplayKeepsNoEmptyLists(m: Channels, events: seq<ChannelEvent>)
    requires NoEmptyLists(m)
    ensures NoEmptyLists(Replay(m, events))
    decreases |events|
  {
    if events != [] {
      ReplayKeepsNoEmptyLists(Apply(m, events[0]), events[1..]);
    }
  }

  /** The outcome of one `send_json` in a broadcast. */
  datatype Delivery = Delivery(socket: SocketId, delivered: bool)

  class ConnectionManager {
    var pluginConnections: Channels
    var adminConnections: Channels

    ghost predicate Valid()
      reads this
    {
      NoEmptyLists(pluginConnections) && NoEmptyLists(adminConnections)
    }

    constructor ()
      ensures Valid()
      ensures pluginConnections == map[] && adminConnections == map[]
    {
      pluginConnections := map[];
      adminConnections := map[];
    }

    method ConnectPlugin(socket: SocketId, userId: int)
      requires Valid()
      modifies this`pluginConnections
      ensures Valid()
      ensures pluginConnections == Attach(old(pluginConnections), userId, socket)
    {
      if userId !in pluginConnections {
        pluginConnections := pluginConnections[userId := []];
      }
      pluginConnections := pluginConnections[userId := pluginConnections[userId] + [socket]];
    }

    method DisconnectPlugin(socket: SocketId, userId: int)
      requires Valid()
      modifies this`pluginConnections
      ensures Valid()
      ensures pluginConnections == Detach(old(pluginConnections), userId, socket)
    {
      if userId in pluginConnections {
        if socket in pluginConnections[userId] {
          pluginConnections := pluginConnections[userId := RemoveFirst(pluginConnections[userId], socket)];
        }
        if pluginConnections[userId] == [] {
          pluginConnections := pluginConnections - {userId};
        }
      }
    }

    method ConnectAdmin(socket: SocketId, userId: int)
      requires Valid()
      modifies this`adminConnections
      ensures Valid()
      ensures adminConnections == Attach(old(adminConnections), userId, socket)
    {
      if userId !in adminConnections {
        adminConnections := adminConnections[userId := []];
      }
      adminConnections := adminConnections[userId := adminConnections[userId] + [socket]];
    }

    method DisconnectAdmin(socket: SocketId, userId: int)
      requires Valid()
      modifies this`adminConnections
      ensures Valid()
      ensures adminConnections == Detach(old(adminConnections), userId, socket)
    {
      if userId in adminConnections {
        if socket in adminConnections[userId] {
          adminConnections := adminConnections[userId := RemoveFirst(adminConnections[userId], socket)];
        }
        if adminConnections[userId] == [] {
          adminConnections := adminConnections - {userId};
        }
      }
    }

    /**
     * Sends one log entry to every admin socket of the user, in connection order. `failing`
     * names the sockets whose send raises; the loop goes on past it (the server-log write is not modelled).
     */
    method BroadcastLog(userId: int, failing: set<SocketId>) returns (attempts: seq<Delivery>)
      ensures |attempts| == |SocketsOf(adminConnections, userId)|
      ensures forall i :: 0 <= i < |attempts| ==>
        attempts[i].socket == SocketsOf(adminConnections, userId)[i]
        && (attempts[i].delivered <==> attempts[i].socket !in failing)
    {
      attempts := [];
      if userId in adminConnections {
        var connections := adminConnections[userId];
        for i := 0 to |connections|
          invariant |attempts| == i
          invariant forall j :: 0 <= j < i ==>
            attempts[j].socket == connections[j] && (attempts[j].delivered <==> connections[j] !in failing)
        {
          attempts := attempts + [Delivery(connections[i], connections[i] !in failing)];
        }
      }
    }
  }
}
