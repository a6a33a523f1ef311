/** The presence registry of server.js: the `onlineUsers` Map from socket
    id to `{ username, socketId }`, in insertion order. The `username` a
    socket carries after `authenticate` is always the one stored here for
    its id, so this registry is also where `socket.username` is read. */
module Presence {
  import opened JsValues

  datatype Presence = Presence(socketId: string, username: string)

  predicate DistinctSockets(ps: seq<Presence>)
  {
    forall i, j :: 0 <= i < j < |ps| ==> ps[i].socketId != ps[j].socketId
  }

  /** `socket.username` of the socket `sid`: undefined until it has
      authenticated. */
  function SocketUser(ps: seq<Presence>, sid: string): (u: Option<string>)
    ensures u.Some? <==> exists i :: 0 <= i < |ps| && ps[i].socketId == sid
    ensures u.Some? ==> Presence(sid, u.value) in ps
  {
    if ps == [] then None
    else if ps[0].socketId == sid then Some(ps[0].username)
    else
      var rest := SocketUser(ps[1..], sid);
      assert forall i :: 1 <= i < |ps| ==> ps[i] == ps[1..][i - 1];
      assert rest.Some? ==> Presence(sid, rest.value) in ps by {
        if rest.Some? { assert Presence(sid, rest.value) in ps[1..]; }
      }
      rest
  }

  /** `Array.from(onlineUsers.values()).find(u => u.username === name)`:
      the earliest registered socket of that user. */
  function FindOnline(ps: seq<Presence>, name: string): (p: Option<Presence>)
    ensures p.None? <==> forall i :: 0 <= i < |ps| ==> ps[i].username != name
    ensures p.Some? ==> p.value in ps && p.value.username == name
    ensures p.Some? ==> exists i :: 0 <= i < |ps| && ps[i] == p.value
                                    && forall j :: 0 <= j < i ==> ps[j].username != name
  {
    if ps == [] then None
    else if ps[0].username == name then Some(ps[0])
    else
      var rest := FindOnline(ps[1..], name);
      assert forall i :: 1 <= i < |ps| ==> ps[i] == ps[1..][i - 1];
      if rest.Some? then
        ghost var i :| 0 <= i < |ps[1..]| && ps[1..][i] == rest.value
                       && forall j :: 0 <= j < i ==> ps[1..][j].username != name;
        assert ps[i + 1] == rest.value;
        rest
      else rest
  }

  /** `onlineUsers.set(sid, { username, socketId: sid })`: an existing
      entry is replaced where it stands, a new one goes last. */
  function SetPresence(ps: seq<Presence>, sid: string, name: string): (r: seq<Presence>)
    ensures |r| == if SocketUser(ps, sid).None? then |ps| + 1 else |ps|
    ensures SocketUser(ps, sid).None? ==> r == ps + [Presence(sid, name)]
    ensures forall i :: 0 <= i < |ps| && ps[i].socketId == sid && FirstSocket(ps, sid, i) ==>
              r == ps[i := Presence(sid, name)]
  {
    if ps == [] then [Presence(sid, name)]
    else if ps[0].socketId == sid then
      assert [Presence(sid, name)] + ps[1..] == ps[0 := Presence(sid, name)];
      [Presence(sid, name)] + ps[1..]
    else
      var rest := SetPresence(ps[1..], sid, name);
      SetConsInPlace(ps, sid, Presence(sid, name), rest);
      [ps[0]] + rest
  }

  /** Keeping a head whose id differs keeps the tail's in-place
      replacement in place, one index further on. */
  lemma SetConsInPlace(ps: seq<Presence>, sid: string, p: Presence, rest: seq<Presence>)
    requires ps != [] && ps[0].socketId != sid
    requires forall i :: 0 <= i < |ps[1..]| && ps[1..][i].socketId == sid && FirstSocket(ps[1..], sid, i) ==>
               rest == ps[1..][i := p]
    ensures forall i :: 0 <= i < |ps| && ps[i].socketId == sid && FirstSocket(ps, sid, i) ==>
              [ps[0]] + rest == ps[i := p]
  {
    forall i | 0 <= i < |ps| && ps[i].socketId == sid && FirstSocket(ps, sid, i)
      ensures [ps[0]] + rest == ps[i := p]
    {
      assert ps[1..][i - 1].socketId == sid;
      assert FirstSocket(ps[1..], sid, i - 1);
    }
  }

  /** No socket before index i has id `sid`. */
  predicate FirstSocket(ps: seq<Presence>, sid: string, i: nat)
    requires i <= |ps|
  {
    forall j :: 0 <= j < i ==> ps[j].socketId != sid
  }

  /** After `set`, the socket reads the new name, every other socket reads
      what it read before, and the ids stay distinct. */
  lemma SetPresenceSpec(ps: seq<Presence>, sid: string, name: string)
    requires DistinctSockets(ps)
    ensures DistinctSockets(SetPresence(ps, sid, name))
    ensures SocketUser(SetPresence(ps, sid, name), sid) == Some(name)
    ensures forall s :: s != sid ==> SocketUser(SetPresence(ps, sid, name), s) == SocketUser(ps, s)
    ensures forall p :: p in SetPresence(ps, sid, name) ==> p in ps || p == Presence(sid, name)
    ensures forall i :: 0 <= i < |ps| && ps[i].socketId == sid ==>
              SetPresence(ps, sid, name) == ps[i := Presence(sid, name)]
  {
    SetPresenceDistinct(ps, sid, name);
    SetPresenceReads(ps, sid, name);
    forall i | 0 <= i < |ps| && ps[i].socketId == sid
      ensures SetPresence(ps, sid, name) == ps[i := Presence(sid, name)]
    {
      assert FirstSocket(ps, sid, i);
    }
  }

  /** The tail of a registry with distinct ids has distinct ids. */
  lemma DistinctSocketsTail(ps: seq<Presence>)
    requires DistinctSockets(ps) && ps != []
    ensures DistinctSockets(ps[1..])
  {
    forall i, j | 0 <= i < j < |ps[1..]| ensures ps[1..][i].socketId != ps[1..][j].socketId {
      assert ps[1..][i] == ps[i + 1] && ps[1..][j] == ps[j + 1];
    }
  }

  /** `set` adds no entry but the new one and keeps the ids distinct. */
  lemma {:induction false} SetPresenceDistinct(ps: seq<Presence>, sid: string, name: string)
    requires DistinctSockets(ps)
    ensures DistinctSockets(SetPresence(ps, sid, name))
    ensures forall p :: p in SetPresence(ps, sid, name) ==> p in ps || p == Presence(sid, name)
  {
    var r := SetPresence(ps, sid, name);
    if ps == [] {
    } else if ps[0].socketId == sid {
      assert r[1..] == ps[1..];
      forall i, j | 0 <= i < j < |r| ensures r[i].socketId != r[j].socketId {
        assert r[j] == ps[j];
        if i > 0 { assert r[i] == ps[i]; }
      }
      forall p | p in r ensures p in ps || p == Presence(sid, name) {
        if p != r[0] { assert p in r[1..]; }
      }
    } else {
      var rest := SetPresence(ps[1..], sid, name);
      assert r == [ps[0]] + rest && r[1..] == rest;
      DistinctSocketsTail(ps);
      SetPresenceDistinct(ps[1..], sid, name);
      forall i, j | 0 <= i < j < |r| ensures r[i].socketId != r[j].socketId {
        if i == 0 {
          assert r[j] in rest;
          if r[j] in ps[1..] {
            var k :| 0 <= k < |ps[1..]| && ps[1..][k] == r[j];
            assert ps[k + 1] == r[j];
          }
        } else {
          assert r[i] == rest[i - 1] && r[j] == rest[j - 1];
        }
      }
      forall p | p in r ensures p in ps || p == Presence(sid, name) {
        if p != ps[0] { assert p in rest; }
      }
    }
  }

  /** After `set`, `sid` reads the new name and every other socket reads
      what it read before. */
  lemma {:induction false} SetPresenceReads(ps: seq<Presence>, sid: string, name: string)
    ensures SocketUser(SetPresence(ps, sid, name), sid) == Some(name)
    ensures forall s :: s != sid ==> SocketUser(SetPresence(ps, sid, name), s) == SocketUser(ps, s)
  {
    var r := SetPresence(ps, sid, name);
    if ps == [] {
    } else if ps[0].socketId == sid {
      assert r[1..] == ps[1..];
    } else {
      SetPresenceReads(ps[1..], sid, name);
      assert r[1..] == SetPresence(ps[1..], sid, name);
    }
  }

  /** `onlineUsers.delete(sid)`: the entry of `sid` goes, and the others
      keep their insertion order. */
  function RemovePresence(ps: seq<Presence>, sid: string): (r: seq<Presence>)
    requires DistinctSockets(ps)
    ensures forall p :: p in r <==> p in ps && p.socketId != sid
    ensures forall i :: 0 <= i < |ps| && ps[i].socketId == sid ==> r == ps[..i] + ps[i + 1..]
    ensures SocketUser(ps, sid).None? ==> r == ps
  {
    if ps == [] then []
    else
      DistinctSocketsTail(ps);
      var rest := RemovePresence(ps[1..], sid);
      if ps[0].socketId == sid then
        RemoveHeadOrder(ps, sid, rest);
        rest
      else
        RemoveConsOrder(ps, sid, rest);
        [ps[0]] + rest
  }

  /** After `delete`, `sid` reads undefined, every other socket reads what
      it read before, and the ids stay distinct. */
  lemma {:induction false} RemovePresenceSpec(ps: seq<Presence>, sid: string)
    requires DistinctSockets(ps)
    ensures DistinctSockets(RemovePresence(ps, sid))
    ensures SocketUser(RemovePresence(ps, sid), sid).None?
    ensures forall s :: s != sid ==> SocketUser(RemovePresence(ps, sid), s) == SocketUser(ps, s)
  {
    if ps != [] {
      DistinctSocketsTail(ps);
      RemovePresenceSpec(ps[1..], sid);
      var rest := RemovePresence(ps[1..], sid);
      var r := RemovePresence(ps, sid);
      if ps[0].socketId != sid {
        assert r == [ps[0]] + rest && r[1..] == rest;
        assert forall p :: p in ps[1..] ==> p.socketId != ps[0].socketId by {
          forall p | p in ps[1..] ensures p.socketId != ps[0].socketId {
            var k :| 0 <= k < |ps[1..]| && ps[1..][k] == p;
            assert ps[k + 1] == p;
          }
        }
        forall i, j | 0 <= i < j < |r| ensures r[i].socketId != r[j].socketId {
          if i == 0 {
            assert r[j] in rest;
          } else {
            assert r[i] == rest[i - 1] && r[j] == rest[j - 1];
          }
        }
      }
    }
  }

  /** Deleting the head's id from a registry with distinct ids leaves the
      tail. */
  lemma RemoveHeadOrder(ps: seq<Presence>, sid: string, rest: seq<Presence>)
    requires DistinctSockets(ps) && ps != [] && ps[0].socketId == sid
    requires forall p :: p in rest <==> p in ps[1..] && p.socketId != sid
    requires SocketUser(ps[1..], sid).None? ==> rest == ps[1..]
    ensures forall p :: p in rest <==> p in ps && p.socketId != sid
    ensures forall i :: 0 <= i < |ps| && ps[i].socketId == sid ==> rest == ps[..i] + ps[i + 1..]
  {
    assert SocketUser(ps[1..], sid).None? by {
      forall k | 0 <= k < |ps[1..]| ensures ps[1..][k].socketId != sid {
        assert ps[1..][k] == ps[k + 1];
      }
    }
    assert ps == [ps[0]] + ps[1..];
    forall i | 0 <= i < |ps| && ps[i].socketId == sid ensures rest == ps[..i] + ps[i + 1..] {
      assert i == 0;
    }
  }

  /** Keeping a head whose id differs keeps the tail's gap-closing in
      place, one index further on. */
  lemma RemoveConsOrder(ps: seq<Presence>, sid: string, rest: seq<Presence>)
    requires ps != [] && ps[0].socketId != sid
    requires forall p :: p in rest <==> p in ps[1..] && p.socketId != sid
    requires forall i :: 0 <= i < |ps[1..]| && ps[1..][i].socketId == sid ==> rest == ps[1..][..i] + ps[1..][i + 1..]
    requires SocketUser(ps[1..], sid).None? ==> rest == ps[1..]
    ensures forall p :: p in [ps[0]] + rest <==> p in ps && p.socketId != sid
    ensures forall i :: 0 <= i < |ps| && ps[i].socketId == sid ==> [ps[0]] + rest == ps[..i] + ps[i + 1..]
    ensures SocketUser(ps, sid).None? ==> [ps[0]] + rest == ps
  {
    assert ps == [ps[0]] + ps[1..];
    forall i | 0 <= i < |ps| && ps[i].socketId == sid ensures [ps[0]] + rest == ps[..i] + ps[i + 1..] {
      assert ps[1..][i - 1].socketId == sid;
      ConsSplice(ps, i);
    }
  }

  /** Removing index i of a sequence, seen from its tail. */
  lemma ConsSplice<T>(s: seq<T>, i: nat)
    requires 0 < i < |s|
    ensures [s[0]] + (s[1..][..i - 1] + s[1..][i..]) == s[..i] + s[i + 1..]
  {
    assert s[1..][..i - 1] == s[1..i] && s[1..][i..] == s[i + 1..];
    assert s[..i] == [s[0]] + s[1..i];
  }
}
