/** The in-memory state of server.js and its socket handlers. Each handler
    runs to completion on Node's single event loop, so each is one method
    of `GameServer`. Randomness (`Math.random()`), time-derived ids
    (`Date.now()`) and the outcome of `jwt.verify` are parameters;
    emitted events are returned, in emission order. */
module Server {
  import opened JsValues
  import opened Board
  import opened Users
  import opened Rooms
  import opened Presence
  import opened Matchmaking
  import opened Events

  /** What `jwt.verify` did with the token: it threw, or it returned a
      payload whose `username` may be missing. */
  datatype TokenResult = InvalidToken | ValidToken(username: Option<string>)

  /** A `challenges` value. The challenger is `socket.username` of the
      sender, which is undefined when the sender never authenticated. */
  datatype Challenge = Challenge(challenger: Option<string>, challenged: string, challengerSymbol: string)

  /** Every room keeps its shape and seats stored users only. */
  ghost predicate RoomsValid(rooms: map<string, Room>, recs: map<string, UserRecord>)
  {
    forall id :: id in rooms ==> ValidRoom(rooms[id]) && rooms[id].players.Keys <= recs.Keys
  }

  /** Every pending match keeps its shape and pairs stored users only. */
  ghost predicate PendingValid(ms: map<string, PendingMatch>, recs: map<string, UserRecord>)
  {
    forall id :: id in ms ==> ValidPending(ms[id]) && ms[id].players.Keys <= recs.Keys
  }

  /** Every challenge names stored users. */
  ghost predicate ChallengesValid(cs: map<string, Challenge>, recs: map<string, UserRecord>)
  {
    forall id :: id in cs ==> cs[id].challenged in recs && (cs[id].challenger.Some? ==> cs[id].challenger.value in recs)
  }

  /** Storing a well-formed room of stored users keeps the rooms valid. */
  lemma RoomsValidStore(rooms: map<string, Room>, id: string, room: Room, recs: map<string, UserRecord>)
    requires RoomsValid(rooms, recs)
    requires ValidRoom(room) && room.players.Keys <= recs.Keys
    ensures RoomsValid(rooms[id := room], recs)
  {
  }

  /** The same for pending matches. */
  lemma PendingValidStore(ms: map<string, PendingMatch>, id: string, m: PendingMatch, recs: map<string, UserRecord>)
    requires PendingValid(ms, recs)
    requires ValidPending(m) && m.players.Keys <= recs.Keys
    ensures PendingValid(ms[id := m], recs)
  {
  }

  /** An accepted choice seats the same users. */
  lemma AcceptedKeepsValid(m: PendingMatch, k: string, symbol: string, recs: map<string, UserRecord>)
    requires ValidPending(m) && k in m.players && m.players.Keys <= recs.Keys
    requires ChooseSymbol(m, k, symbol).Accepted?
    ensures ChooseSymbol(m, k, symbol).pending.players.Keys <= recs.Keys
  {
  }

  /** A promoted match seats the same users. */
  lemma PromotedKeepsUsers(m: PendingMatch, k: string, symbol: string, recs: map<string, UserRecord>)
    requires ValidPending(m) && k in m.players && m.players.Keys <= recs.Keys
    requires ChooseSymbol(m, k, symbol).Promoted?
    ensures ChooseSymbol(m, k, symbol).players.Keys <= recs.Keys
  {
  }

  /** Deleting a pending match keeps the rest valid. */
  lemma PendingValidDelete(ms: map<string, PendingMatch>, id: string, recs: map<string, UserRecord>)
    requires PendingValid(ms, recs)
    ensures PendingValid(ms - {id}, recs)
  {
  }

  /** What one `matchSymbolChosen` leaves behind. */
  datatype SymbolStep = SymbolStep(pending: map<string, PendingMatch>, rooms: map<string, Room>, out: seq<Emit>)

  /** `matchSymbolChosen` (server.js:320-364) for the caller `me` on
      socket `sid`: a caller who is not a player of the match is ignored;
      otherwise `ChooseSymbol` decides. A taken symbol is refused, an
      accepted one is recorded, and the second accepted choice turns the
      pending match into the room `matchId`, with `keys[0]` or `keys[1]`
      moving first (the random index), telling every player. Only the
      entry `matchId` of either map is touched. */
  function SymbolChosen(pending: map<string, PendingMatch>, rooms: map<string, Room>, sid: string,
                        me: Option<string>, matchId: string, symbol: string, secondFirst: bool): (s: SymbolStep)
    requires matchId in pending ==> ValidPending(pending[matchId])
    ensures forall id :: id != matchId ==> (id in s.pending <==> id in pending) && (id in s.rooms <==> id in rooms)
    ensures forall id :: id != matchId && id in pending ==> s.pending[id] == pending[id]
    ensures forall id :: id != matchId && id in rooms ==> s.rooms[id] == rooms[id]
  {
    if !Joined(pending, me, matchId) then SymbolStep(pending, rooms, [])
    else
      match ChooseSymbol(pending[matchId], PropKey(me), symbol)
      case Taken => SymbolStep(pending, rooms, [Emit(ToSocket(sid), SymbolTaken(symbol))])
      case Accepted(m) => SymbolStep(pending[matchId := m], rooms, [Emit(ToSocket(sid), SymbolAccepted)])
      case Promoted(keys, players) =>
        var first := keys[if secondFirst then 1 else 0];
        var room := NewRoom(keys, players, first);
        SymbolStep(pending - {matchId}, rooms[matchId := room],
                   [Emit(ToSocket(sid), SymbolAccepted)] + ToPlayers(keys, players, GameStart(matchId, players, Some(first), EmptyBoard())))
  }

  /** Whether `me` is a player of the pending match `matchId`. */
  predicate Joined(pending: map<string, PendingMatch>, me: Option<string>, matchId: string)
  {
    matchId in pending && PropKey(me) in pending[matchId].players
  }

  /** Only a player of the match gets an answer, and it says whether the
      symbol was free; a free symbol is recorded for the chooser. */
  lemma SymbolChosenReply(pending: map<string, PendingMatch>, rooms: map<string, Room>, sid: string,
                          me: Option<string>, matchId: string, symbol: string, secondFirst: bool)
    requires matchId in pending ==> ValidPending(pending[matchId])
    ensures var s := SymbolChosen(pending, rooms, sid, me, matchId, symbol, secondFirst);
            && (s.out == [] <==> !Joined(pending, me, matchId))
            && (Joined(pending, me, matchId) ==>
                  s.out[0] == Emit(ToSocket(sid), if symbol in pending[matchId].chosenSymbols
                                                  then SymbolTaken(symbol) else SymbolAccepted))
            && (!Joined(pending, me, matchId) || symbol in pending[matchId].chosenSymbols ==>
                  s.pending == pending && s.rooms == rooms)
  {
  }

  /** The second free symbol starts the game: the pending match becomes a
      room of the same players, on an empty board, with the chosen key
      moving first, and every player is told. A first free symbol is
      recorded and the match stays pending. */
  lemma SymbolChosenStartsRoom(pending: map<string, PendingMatch>, rooms: map<string, Room>, sid: string,
                               me: Option<string>, matchId: string, symbol: string, secondFirst: bool)
    requires matchId in pending ==> ValidPending(pending[matchId])
    requires Joined(pending, me, matchId) && symbol !in pending[matchId].chosenSymbols
    ensures var s := SymbolChosen(pending, rooms, sid, me, matchId, symbol, secondFirst);
            var m := pending[matchId];
            var players := m.players[PropKey(me) := m.players[PropKey(me)].(symbol := Some(symbol))];
            if m.symbolsChosen == 1 then
              && matchId !in s.pending && matchId in s.rooms
              && s.rooms[matchId] == NewRoom(m.keys, players, m.keys[if secondFirst then 1 else 0])
              && s.out[1..] == ToPlayers(m.keys, players,
                                         GameStart(matchId, players, s.rooms[matchId].currentPlayer, EmptyBoard()))
            else
              && s.rooms == rooms && matchId in s.pending
              && s.pending[matchId].players == players
              && s.pending[matchId].chosenSymbols == m.chosenSymbols + {symbol}
  {
  }

  /** Choosing a symbol keeps every pending match and room well formed and
      seats stored users only. */
  lemma SymbolChosenKeepsValid(pending: map<string, PendingMatch>, rooms: map<string, Room>, sid: string,
                               me: Option<string>, matchId: string, symbol: string, secondFirst: bool,
                               recs: map<string, UserRecord>)
    requires PendingValid(pending, recs) && RoomsValid(rooms, recs)
    ensures var s := SymbolChosen(pending, rooms, sid, me, matchId, symbol, secondFirst);
            PendingValid(s.pending, recs) && RoomsValid(s.rooms, recs)
  {
    if Joined(pending, me, matchId) {
      var m := pending[matchId];
      var o := ChooseSymbol(m, PropKey(me), symbol);
      if o.Accepted? {
        AcceptedKeepsValid(m, PropKey(me), symbol, recs);
        PendingValidStore(pending, matchId, o.pending, recs);
      } else if o.Promoted? {
        PromotedKeepsUsers(m, PropKey(me), symbol, recs);
        var room := NewRoom(o.keys, o.players, o.keys[if secondFirst then 1 else 0]);
        RoomsValidStore(rooms, matchId, room, recs);
        PendingValidDelete(pending, matchId, recs);
      }
    }
  }

  class GameServer {
    var users: UserStore
    var onlineUsers: seq<Presence>
    var gameRooms: map<string, Room>
    var challenges: map<string, Challenge>
    var matchmakingQueue: seq<string>
    var pendingMatches: map<string, PendingMatch>

    /** Every name the server holds belongs to a stored user (users are
        never removed), rooms and pending matches keep their shape, and the
        queue and the socket ids hold no repeats. */
    ghost predicate Valid()
      reads this
    {
      && ValidStore(users)
      && DistinctSockets(onlineUsers)
      && (forall p :: p in onlineUsers ==> p.username in users.records)
      && Distinct(matchmakingQueue)
      && (forall n :: n in matchmakingQueue ==> n in users.records)
      && RoomsValid(gameRooms, users.records)
      && PendingValid(pendingMatches, users.records)
      && ChallengesValid(challenges, users.records)
    }

    /** The process starts with the users loaded from users.json and
        everything else empty. */
    constructor (loaded: UserStore)
      requires ValidStore(loaded)
      ensures Valid()
      ensures users == loaded && onlineUsers == [] && gameRooms == map[]
      ensures challenges == map[] && matchmakingQueue == [] && pendingMatches == map[]
    {
      users := loaded;
      onlineUsers := [];
      gameRooms := map[];
      challenges := map[];
      matchmakingQueue := [];
      pendingMatches := map[];
    }

    lemma CallerIsUser(sid: string)
      requires Valid()
      ensures SocketUser(onlineUsers, sid).Some? ==> SocketUser(onlineUsers, sid).value in users.records
    {
    }

    // -------------------------------------------------------------------
    // HTTP routes

    /** `/api/register` (server.js:49-64). */
    method Register(name: string) returns (ok: bool)
      requires Valid()
      modifies this
      ensures Valid()
      ensures ok == (name !in old(users.records))
      ensures ok ==> Some(users) == Users.Register(old(users), name)
      ensures !ok ==> users == old(users)
      ensures onlineUsers == old(onlineUsers) && gameRooms == old(gameRooms)
      ensures challenges == old(challenges) && matchmakingQueue == old(matchmakingQueue)
      ensures pendingMatches == old(pendingMatches)
    {
      var r := Users.Register(users, name);
      ok := r.Some?;
      if ok {
        users := r.value;
      }
    }

    // -------------------------------------------------------------------
    // Presence (server.js:86-99, 366-372)

    /** `authenticate`: a token that fails verification gets 'authError';
        a token naming a stored user registers the socket and broadcasts
        the online list; any other token is ignored. */
    method Authenticate(sid: string, token: TokenResult) returns (out: seq<Emit>)
      requires Valid()
      modifies this
      ensures Valid()
      ensures token.InvalidToken? ==> out == [Emit(ToSocket(sid), AuthError)]
                                      && onlineUsers == old(onlineUsers)
      ensures token.ValidToken? && token.username.Some? && token.username.value in users.records ==>
                && onlineUsers == SetPresence(old(onlineUsers), sid, token.username.value)
                && SocketUser(onlineUsers, sid) == token.username
                && out == [Emit(ToSocket(sid), Authenticated(users.records[token.username.value])),
                           Emit(ToEveryone, OnlineUsers(onlineUsers))]
      ensures token.ValidToken? && !(token.username.Some? && token.username.value in users.records) ==>
                out == [] && onlineUsers == old(onlineUsers)
      ensures users == old(users) && gameRooms == old(gameRooms) && challenges == old(challenges)
      ensures matchmakingQueue == old(matchmakingQueue) && pendingMatches == old(pendingMatches)
    {
      match token
      case InvalidToken =>
        out := [Emit(ToSocket(sid), AuthError)];
      case ValidToken(u) =>
        if u.Some? && u.value in users.records {
          SetPresenceSpec(onlineUsers, sid, u.value);
          onlineUsers := SetPresence(onlineUsers, sid, u.value);
          out := [Emit(ToSocket(sid), Authenticated(users.records[u.value])), Emit(ToEveryone, OnlineUsers(onlineUsers))];
        } else {
          out := [];
        }
    }

    /** `disconnect`: an authenticated (truthy) name leaves the queue, the
        socket leaves the registry, and the online list is broadcast. */
    method Disconnect(sid: string) returns (out: seq<Emit>)
      requires Valid()
      modifies this
      ensures Valid()
      ensures var me := SocketUser(old(onlineUsers), sid);
              matchmakingQueue == if Truthy(me) then Without(old(matchmakingQueue), me.value)
                                  else old(matchmakingQueue)
      ensures onlineUsers == RemovePresence(old(onlineUsers), sid)
      ensures SocketUser(onlineUsers, sid).None?
      ensures out == [Emit(ToEveryone, OnlineUsers(onlineUsers))]
      ensures users == old(users) && gameRooms == old(gameRooms) && challenges == old(challenges)
      ensures pendingMatches == old(pendingMatches)
    {
      var me := SocketUser(onlineUsers, sid);
      if Truthy(me) {
        WithoutDistinct(matchmakingQueue, me.value);
        matchmakingQueue := Without(matchmakingQueue, me.value);
      }
      RemovePresenceSpec(onlineUsers, sid);
      onlineUsers := RemovePresence(onlineUsers, sid);
      out := [Emit(ToEveryone, OnlineUsers(onlineUsers))];
    }

    /** `updateAvatar` (server.js:263-272). */
    method UpdateAvatar(sid: string, avatar: string) returns (out: seq<Emit>)
      requires Valid()
      modifies this
      ensures Valid()
      ensures var me := SocketUser(old(onlineUsers), sid);
              if Truthy(me) && me.value in old(users.records) then
                users == SetAvatar(old(users), me.value, avatar) && out == [Emit(ToSocket(sid), AvatarUpdated(avatar))]
              else
                users == old(users) && out == []
      ensures onlineUsers == old(onlineUsers) && gameRooms == old(gameRooms) && challenges == old(challenges)
      ensures matchmakingQueue == old(matchmakingQueue) && pendingMatches == old(pendingMatches)
    {
      var me := SocketUser(onlineUsers, sid);
      if Truthy(me) && me.value in users.records {
        users := SetAvatar(users, me.value, avatar);
        out := [Emit(ToSocket(sid), AvatarUpdated(avatar))];
      } else {
        out := [];
      }
    }

    // -------------------------------------------------------------------
    // Challenges (server.js:101-149)

    /** `sendChallenge`: only a target with an online socket gets a
        challenge; it is stored under `challengeId`. */
    method SendChallenge(sid: string, target: string, symbol: string, challengeId: string)
      returns (out: seq<Emit>)
      requires Valid()
      modifies this
      ensures Valid()
      ensures var t := FindOnline(old(onlineUsers), target);
              var me := SocketUser(old(onlineUsers), sid);
              if t.Some? then
                && challenges == old(challenges)[challengeId := Challenge(me, target, symbol)]
                && out == [Emit(ToSocket(t.value.socketId), ChallengeReceived(challengeId, me))]
              else
                challenges == old(challenges) && out == []
      ensures users == old(users) && onlineUsers == old(onlineUsers) && gameRooms == old(gameRooms)
      ensures matchmakingQueue == old(matchmakingQueue) && pendingMatches == old(pendingMatches)
    {
      var t := FindOnline(onlineUsers, target);
      var me := SocketUser(onlineUsers, sid);
      if t.Some? {
        CallerIsUser(sid);
        challenges := challenges[challengeId := Challenge(me, target, symbol)];
        out := [Emit(ToSocket(t.value.socketId), ChallengeReceived(challengeId, me))];
      } else {
        out := [];
      }
    }

    /** The room an accepted challenge creates: the challenger keeps the
        stored symbol and socket, the challenged name gets the responder's
        symbol and socket (whoever responded), and the first player is
        either of the two names. */
    static function ChallengeRoom(c: Challenge, challengerSid: string, symbol: string, responderSid: string,
                                  challengerFirst: bool): (r: Room)
      requires c.challenger.Some?
      ensures ValidRoom(r)
      ensures r.keys == OwnKeys(c.challenger.value, c.challenged)
      ensures c.challenger.value != c.challenged ==>
                && r.players[c.challenger.value] == Player(Some(c.challengerSymbol), challengerSid)
                && r.players[c.challenged] == Player(Some(symbol), responderSid)
      ensures c.challenger.value == c.challenged ==>
                r.players == map[c.challenged := Player(Some(symbol), responderSid)]
      ensures r.currentPlayer == Some(if challengerFirst then c.challenger.value else c.challenged)
      ensures r.board == EmptyBoard() && r.state == Playing && r.lastWinner == None
      ensures r.rematchRequests == {}
    {
      var a := c.challenger.value;
      var players := map[a := Player(Some(c.challengerSymbol), challengerSid)][c.challenged := Player(Some(symbol), responderSid)];
      var keys := OwnKeys(a, c.challenged);
      NewRoom(keys, players, if challengerFirst then a else c.challenged)
    }

    /** `respondToChallenge`: an unknown id is ignored. An acceptance while
        the challenger is online creates a room under `roomId`; otherwise
        the challenger (if online) is told it was declined. The challenge
        is deleted either way. */
    method RespondToChallenge(sid: string, challengeId: string, accepted: bool, symbol: string,
                              roomId: string, challengerFirst: bool) returns (out: seq<Emit>)
      requires Valid()
      modifies this
      ensures Valid()
      ensures challengeId !in old(challenges) ==>
                challenges == old(challenges) && gameRooms == old(gameRooms) && out == []
      ensures challengeId in old(challenges) ==>
                var c := old(challenges)[challengeId];
                var cu := if c.challenger.Some? then FindOnline(old(onlineUsers), c.challenger.value) else None;
                && challenges == old(challenges) - {challengeId}
                && (accepted && cu.Some? ==>
                      var room := ChallengeRoom(c, cu.value.socketId, symbol, sid, challengerFirst);
                      && gameRooms == old(gameRooms)[roomId := room]
                      && out == [Emit(ToSocket(cu.value.socketId), GameStart(roomId, room.players, room.currentPlayer, room.board)),
                                 Emit(ToSocket(sid), GameStart(roomId, room.players, room.currentPlayer, room.board))])
                && (!(accepted && cu.Some?) ==>
                      && gameRooms == old(gameRooms)
                      && out == [Emit(if cu.Some? then ToSocket(cu.value.socketId) else ToNobody,
                                      ChallengeDeclined(c.challenged))])
      ensures users == old(users) && onlineUsers == old(onlineUsers)
      ensures matchmakingQueue == old(matchmakingQueue) && pendingMatches == old(pendingMatches)
    {
      if challengeId !in challenges {
        out := [];
        return;
      }
      var c := challenges[challengeId];
      var cu := if c.challenger.Some? then FindOnline(onlineUsers, c.challenger.value) else None;
      if accepted && cu.Some? {
        var room := ChallengeRoom(c, cu.value.socketId, symbol, sid, challengerFirst);
        gameRooms := gameRooms[roomId := room];
        var ev := GameStart(roomId, room.players, room.currentPlayer, room.board);
        out := [Emit(ToSocket(cu.value.socketId), ev), Emit(ToSocket(sid), ev)];
      } else {
        out := [Emit(if cu.Some? then ToSocket(cu.value.socketId) else ToNobody, ChallengeDeclined(c.challenged))];
      }
      challenges := challenges - {challengeId};
    }

    // -------------------------------------------------------------------
    // Game rooms (server.js:151-188, 203-261)

    /** `makeMove`: the room-level effect is `Move`; its counter increments
        are applied to the stored users and every player is sent the
        'gameUpdate'. When the handler throws, what it changed before the
        throw stays changed and nothing is emitted. */
    method MakeMove(sid: string, roomId: string, position: int) returns (out: seq<Emit>, threw: bool)
      requires Valid()
      modifies this
      ensures Valid()
      ensures var me := SocketUser(old(onlineUsers), sid);
              !(roomId in old(gameRooms) && MoveAllowed(old(gameRooms)[roomId], me, position)) ==>
                gameRooms == old(gameRooms) && users == old(users) && out == [] && !threw
      ensures var me := SocketUser(old(onlineUsers), sid);
              roomId in old(gameRooms) && MoveAllowed(old(gameRooms)[roomId], me, position) ==>
                var m := Move(old(gameRooms)[roomId], me, position);
                && gameRooms == old(gameRooms)[roomId := m.room]
                && users == old(users).(records := ApplyDeltas(old(users).records, m.deltas))
                && threw == (m.status == Threw)
                && out == if threw then [] else
                            ToPlayers(m.room.keys, m.room.players,
                                      GameUpdate(m.room.board, m.room.currentPlayer, m.room.state, m.winner, m.isDraw))
      ensures onlineUsers == old(onlineUsers) && challenges == old(challenges)
      ensures matchmakingQueue == old(matchmakingQueue) && pendingMatches == old(pendingMatches)
    {
      var me := SocketUser(onlineUsers, sid);
      if roomId !in gameRooms || !MoveAllowed(gameRooms[roomId], me, position) {
        out, threw := [], false;
        return;
      }
      var m := Move(gameRooms[roomId], me, position);
      gameRooms := gameRooms[roomId := m.room];
      users := users.(records := ApplyDeltas(users.records, m.deltas));
      threw := m.status == Threw;
      if threw {
        out := [];
      } else {
        out := ToPlayers(m.room.keys, m.room.players,
                         GameUpdate(m.room.board, m.room.currentPlayer, m.room.state, m.winner, m.isDraw));
      }
    }

    /** `requestRematch`: a player's vote is recorded and the first other
        player is told, when that player's name is truthy. */
    method RequestRematch(sid: string, roomId: string) returns (out: seq<Emit>)
      requires Valid()
      modifies this
      ensures Valid()
      ensures var me := SocketUser(old(onlineUsers), sid);
              if roomId in old(gameRooms) && PropKey(me) in old(gameRooms)[roomId].players then
                var r := old(gameRooms)[roomId];
                var other := FindOther(r.keys, me);
                && gameRooms == old(gameRooms)[roomId := Rooms.RequestRematch(r, me)]
                && out == if Truthy(other) then [Emit(ToSocket(r.players[other.value].socketId), RematchRequested(me))]
                          else []
              else
                gameRooms == old(gameRooms) && out == []
      ensures users == old(users) && onlineUsers == old(onlineUsers) && challenges == old(challenges)
      ensures matchmakingQueue == old(matchmakingQueue) && pendingMatches == old(pendingMatches)
    {
      var me := SocketUser(onlineUsers, sid);
      if roomId in gameRooms && PropKey(me) in gameRooms[roomId].players {
        var r := gameRooms[roomId];
        gameRooms := gameRooms[roomId := Rooms.RequestRematch(r, me)];
        var other := FindOther(r.keys, me);
        out := if Truthy(other) then [Emit(ToSocket(r.players[other.value].socketId), RematchRequested(me))] else [];
      } else {
        out := [];
      }
    }

    /** `respondToRematch`: the room-level effect is `RespondToRematch`.
        A started game is announced to every player; a decline is
        reported to every player on another socket. */
    method RespondToRematch(sid: string, roomId: string, accepted: bool) returns (out: seq<Emit>)
      requires Valid()
      modifies this
      ensures Valid()
      ensures var me := SocketUser(old(onlineUsers), sid);
              if roomId in old(gameRooms) && PropKey(me) in old(gameRooms)[roomId].players then
                var r := old(gameRooms)[roomId];
                var res := Rooms.RespondToRematch(r, me, accepted);
                && gameRooms == old(gameRooms)[roomId := res.room]
                && out == if res.started then
                            ToPlayers(r.keys, r.players, GameStart(roomId, r.players, res.room.currentPlayer, res.room.board))
                          else if !accepted then ToOtherPlayers(r.keys, r.players, sid, RematchDeclined(me))
                          else []
              else
                gameRooms == old(gameRooms) && out == []
      ensures users == old(users) && onlineUsers == old(onlineUsers) && challenges == old(challenges)
      ensures matchmakingQueue == old(matchmakingQueue) && pendingMatches == old(pendingMatches)
    {
      var me := SocketUser(onlineUsers, sid);
      if roomId in gameRooms && PropKey(me) in gameRooms[roomId].players {
        var r := gameRooms[roomId];
        var res := Rooms.RespondToRematch(r, me, accepted);
        gameRooms := gameRooms[roomId := res.room];
        if res.started {
          out := ToPlayers(r.keys, r.players, GameStart(roomId, r.players, res.room.currentPlayer, res.room.board));
        } else if !accepted {
          out := ToOtherPlayers(r.keys, r.players, sid, RematchDeclined(me));
        } else {
          out := [];
        }
      } else {
        out := [];
      }
    }

    /** `leaveGame`: the room is deleted, whoever asks. */
    method LeaveGame(roomId: string)
      requires Valid()
      modifies this
      ensures Valid()
      ensures gameRooms == old(gameRooms) - {roomId}
      ensures users == old(users) && onlineUsers == old(onlineUsers) && challenges == old(challenges)
      ensures matchmakingQueue == old(matchmakingQueue) && pendingMatches == old(pendingMatches)
    {
      gameRooms := gameRooms - {roomId};
    }

    // -------------------------------------------------------------------
    // Matchmaking (server.js:274-364)

    /** `findMatch`: see `FindMatchStep`. A pairing creates the pending
        match `matchId` and tells both users. */
    method FindMatch(sid: string, matchId: string) returns (out: seq<Emit>)
      requires Valid()
      modifies this
      ensures Valid()
      ensures var me := SocketUser(old(onlineUsers), sid);
              var st := FindMatchStep(old(matchmakingQueue), me, old(onlineUsers));
              match st
              case NoOp =>
                matchmakingQueue == old(matchmakingQueue) && pendingMatches == old(pendingMatches) && out == []
              case Queued(q) =>
                matchmakingQueue == q && pendingMatches == old(pendingMatches) && out == []
              case Paired(q, opp) =>
                && matchmakingQueue == q
                && pendingMatches == old(pendingMatches)[matchId := NewPending(me.value, sid, opp.username, opp.socketId)]
                && out == [Emit(ToSocket(sid), MatchFound(matchId, opp.username)),
                           Emit(ToSocket(opp.socketId), MatchFound(matchId, me.value))]
      ensures users == old(users) && onlineUsers == old(onlineUsers) && gameRooms == old(gameRooms)
      ensures challenges == old(challenges)
    {
      var me := SocketUser(onlineUsers, sid);
      var st := FindMatchStep(matchmakingQueue, me, onlineUsers);
      CallerIsUser(sid);
      match st
      case NoOp =>
        out := [];
      case Queued(q) =>
        matchmakingQueue := q;
        out := [];
      case Paired(q, opp) =>
        var m := NewPending(me.value, sid, opp.username, opp.socketId);
        assert opp in onlineUsers;
        assert m.players.Keys <= users.records.Keys;
        PendingValidStore(pendingMatches, matchId, m, users.records);
        matchmakingQueue := q;
        pendingMatches := pendingMatches[matchId := m];
        out := [Emit(ToSocket(sid), MatchFound(matchId, opp.username)),
                Emit(ToSocket(opp.socketId), MatchFound(matchId, me.value))];
    }

    /** `cancelMatchmaking`: an authenticated (truthy) name leaves the
        queue; nothing else changes. */
    method CancelMatchmaking(sid: string)
      requires Valid()
      modifies this
      ensures Valid()
      ensures var me := SocketUser(old(onlineUsers), sid);
              matchmakingQueue == if Truthy(me) then Without(old(matchmakingQueue), me.value)
                                  else old(matchmakingQueue)
      ensures users == old(users) && onlineUsers == old(onlineUsers) && gameRooms == old(gameRooms)
      ensures challenges == old(challenges) && pendingMatches == old(pendingMatches)
    {
      var me := SocketUser(onlineUsers, sid);
      if Truthy(me) {
        WithoutDistinct(matchmakingQueue, me.value);
        matchmakingQueue := Without(matchmakingQueue, me.value);
      }
    }

    /** `matchSymbolChosen` (server.js:320-364): see `SymbolChosen`. */
    method MatchSymbolChosen(sid: string, matchId: string, symbol: string, secondFirst: bool)
      returns (out: seq<Emit>)
      requires Valid()
      modifies this
      ensures Valid()
      ensures var s := SymbolChosen(old(pendingMatches), old(gameRooms), sid, SocketUser(old(onlineUsers), sid),
                                    matchId, symbol, secondFirst);
              pendingMatches == s.pending && gameRooms == s.rooms && out == s.out
      ensures users == old(users) && onlineUsers == old(onlineUsers) && challenges == old(challenges)
      ensures matchmakingQueue == old(matchmakingQueue)
    {
      var me := SocketUser(onlineUsers, sid);
      var s := SymbolChosen(pendingMatches, gameRooms, sid, me, matchId, symbol, secondFirst);
      SymbolChosenKeepsValid(pendingMatches, gameRooms, sid, me, matchId, symbol, secondFirst, users.records);
      pendingMatches, gameRooms, out := s.pending, s.rooms, s.out;
    }
  }
}
