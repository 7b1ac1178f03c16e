/** The websocket connection registry of the user backend
    (user_backend/app/api/v1/core/endpoints/websockets.py, `ConnectionManager`):
    the open sockets of each user and of each watched project. A socket is
    identified by a number; accepting the handshake and logging are not part
    of this model. */
module Websockets {
  import opened Seqs

  type Socket = int

  datatype Manager = Manager(active: map<int, seq<Socket>>, projects: map<int, seq<Socket>>)

  /** The registry starts empty. */
  const Empty: Manager := Manager(map[], map[])

  /** A user with no open socket has no entry. */
  predicate Valid(m: Manager) {
    forall u :: u in m.active ==> m.active[u] != []
  }

  /** `connect`: the socket joins the end of the user's list, which is
      created when the user had none. */
  function Connect(m: Manager, ws: Socket, userId: int): (r: Manager)
    ensures r.active.Keys == m.active.Keys + {userId}
    ensures r.active[userId] == (if userId in m.active then m.active[userId] else []) + [ws]
    ensures forall u :: u in m.active && u != userId ==> r.active[u] == m.active[u]
    ensures r.projects == m.projects
  {
    var list := if userId in m.active then m.active[userId] else [];
    m.(active := m.active[userId := list + [ws]])
  }

  /** `disconnect`: one occurrence of the socket leaves the user's list, and
      an emptied list is dropped; one occurrence leaves every project list,
      where emptied lists stay. */
  function Disconnect(m: Manager, ws: Socket, userId: int): (r: Manager)
    ensures r.active == DropUserSocket(m.active, ws, userId)
    ensures r.projects.Keys == m.projects.Keys
    ensures forall p :: p in m.projects ==>
              (ws in m.projects[p] ==> multiset(r.projects[p]) == multiset(m.projects[p]) - multiset{ws})
              && (ws !in m.projects[p] ==> r.projects[p] == m.projects[p])
    ensures forall p :: p in m.projects && ws in m.projects[p] ==>
              r.projects[p] == m.projects[p][..FirstIndex(m.projects[p], ws)]
                               + m.projects[p][FirstIndex(m.projects[p], ws) + 1..]
  {
    CutEach(m.projects, ws);
    var projects := map p | p in m.projects :: RemoveFirst(m.projects[p], ws);
    Manager(DropUserSocket(m.active, ws, userId), projects)
  }

  /** Every list the socket leaves keeps its other sockets in order. */
  lemma CutEach(lists: map<int, seq<Socket>>, ws: Socket)
    ensures forall p :: p in lists && ws in lists[p] ==>
              RemoveFirst(lists[p], ws) == lists[p][..FirstIndex(lists[p], ws)] + lists[p][FirstIndex(lists[p], ws) + 1..]
  {
    forall p | p in lists && ws in lists[p]
      ensures RemoveFirst(lists[p], ws) == lists[p][..FirstIndex(lists[p], ws)] + lists[p][FirstIndex(lists[p], ws) + 1..]
    {
      RemoveFirstCuts(lists[p], ws);
    }
  }

  /** The user half of `disconnect`. */
  function DropUserSocket(active: map<int, seq<Socket>>, ws: Socket, userId: int): (r: map<int, seq<Socket>>)
    ensures userId !in active ==> r == active
    ensures userId in active ==>
              var left := RemoveFirst(active[userId], ws);
              && (left == [] ==> r == active - {userId})
              && (left != [] ==> r == active[userId := left])
  {
    if userId !in active then active
    else
      var left := RemoveFirst(active[userId], ws);
      if left == [] then active - {userId} else active[userId := left]
  }

  /** `connect_to_project`: the socket joins the end of the project's list,
      duplicates included. */
  function ConnectToProject(m: Manager, ws: Socket, projectId: int): (r: Manager)
    ensures r.projects.Keys == m.projects.Keys + {projectId}
    ensures r.projects[projectId] == (if projectId in m.projects then m.projects[projectId] else []) + [ws]
    ensures forall p :: p in m.projects && p != projectId ==> r.projects[p] == m.projects[p]
    ensures r.active == m.active
  {
    var list := if projectId in m.projects then m.projects[projectId] else [];
    m.(projects := m.projects[projectId := list + [ws]])
  }

  /** Every operation keeps users with no sockets out of the registry. */
  lemma EmptyValid()
    ensures Valid(Empty)
  {
  }

  lemma ConnectValid(m: Manager, ws: Socket, userId: int)
    requires Valid(m)
    ensures Valid(Connect(m, ws, userId))
  {
  }

  lemma DisconnectValid(m: Manager, ws: Socket, userId: int)
    requires Valid(m)
    ensures Valid(Disconnect(m, ws, userId))
  {
  }

  lemma ConnectToProjectValid(m: Manager, ws: Socket, projectId: int)
    requires Valid(m)
    ensures Valid(ConnectToProject(m, ws, projectId))
  {
  }

  /** Disconnecting a socket that was just connected, and that no project
      list holds, gives the registry back. */
  lemma {:induction false} ConnectDisconnect(m: Manager, ws: Socket, userId: int)
    requires Valid(m)
    requires userId in m.active ==> ws !in m.active[userId]
    requires forall p :: p in m.projects ==> ws !in m.projects[p]
    ensures Disconnect(Connect(m, ws, userId), ws, userId) == m
  {
    var d := Disconnect(Connect(m, ws, userId), ws, userId);
    ConnectDisconnectUsers(m, ws, userId);
    ConnectDisconnectProjects(m, ws, userId);
    assert d.active == m.active && d.projects == m.projects;
  }

  lemma {:induction false} ConnectDisconnectUsers(m: Manager, ws: Socket, userId: int)
    requires Valid(m)
    requires userId in m.active ==> ws !in m.active[userId]
    ensures Disconnect(Connect(m, ws, userId), ws, userId).active == m.active
  {
    if userId in m.active {
      ConnectDisconnectKnownUser(m.active, ws, userId);
    } else {
      ConnectDisconnectNewUser(m.active, ws, userId);
    }
  }

  lemma ConnectDisconnectKnownUser(active: map<int, seq<Socket>>, ws: Socket, userId: int)
    requires userId in active && active[userId] != [] && ws !in active[userId]
    ensures DropUserSocket(active[userId := active[userId] + [ws]], ws, userId) == active
  {
    RemoveFirstAppended(active[userId], ws);
    var c := active[userId := active[userId] + [ws]];
    assert DropUserSocket(c, ws, userId) == c[userId := active[userId]];
    assert c[userId := active[userId]] == active;
  }

  lemma ConnectDisconnectNewUser(active: map<int, seq<Socket>>, ws: Socket, userId: int)
    requires userId !in active
    ensures DropUserSocket(active[userId := [ws]], ws, userId) == active
  {
    RemoveFirstAppended([], ws);
    var c := active[userId := [ws]];
    assert DropUserSocket(c, ws, userId) == c - {userId};
    assert c - {userId} == active;
  }

  lemma {:induction false} ConnectDisconnectProjects(m: Manager, ws: Socket, userId: int)
    requires forall p :: p in m.projects ==> ws !in m.projects[p]
    ensures Disconnect(Connect(m, ws, userId), ws, userId).projects == m.projects
  {
    var c := Connect(m, ws, userId);
    var d := Disconnect(c, ws, userId);
    forall p | p in m.projects
      ensures d.projects[p] == m.projects[p]
    {
      assert c.projects[p] == m.projects[p];
    }
  }

  /** Removing a value appended to a list that did not hold it gives the list back. */
  lemma {:induction false} RemoveFirstAppended(s: seq<Socket>, x: Socket)
    requires x !in s
    ensures RemoveFirst(s + [x], x) == s
  {
    if |s| == 0 {
      assert s + [x] == [x];
    } else {
      assert (s + [x])[1..] == s[1..] + [x];
      RemoveFirstAppended(s[1..], x);
      assert s == [s[0]] + s[1..];
    }
  }

  /** A socket still connected elsewhere for the user keeps the user's entry. */
  lemma DisconnectKeepsOthers(m: Manager, ws: Socket, userId: int, other: Socket)
    requires userId in m.active && other in m.active[userId] && other != ws
    ensures userId in Disconnect(m, ws, userId).active
  {
    var left := RemoveFirst(m.active[userId], ws);
    if ws in m.active[userId] {
      assert multiset(m.active[userId])[other] > 0;
      assert multiset(left)[other] > 0;
    }
  }
}
