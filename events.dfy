/** The socket.io events the server emits, as values: which socket (or
    every socket) an event is addressed to, and its payload. Delivery
    itself is not modelled. */
module Events {
  import opened JsValues
  import opened Board
  import opened Rooms
  import opened Presence
  import opened Users

  /** `io.to(socketId)`, `io.emit` (everyone), or `io.to(undefined)`,
      which reaches no socket. */
  datatype Target = ToSocket(sid: string) | ToEveryone | ToNobody

  datatype Event =
    | Authenticated(user: UserRecord)
    | AuthError
    | OnlineUsers(online: seq<Presence>)
    | ChallengeReceived(challengeId: string, challenger: Option<string>)
    | ChallengeDeclined(challenged: string)
    | GameStart(roomId: string, players: map<string, Player>, currentPlayer: Option<string>, board: seq<Cell>)
    | GameUpdate(board: seq<Cell>, currentPlayer: Option<string>, state: GameState,
                 winner: Option<string>, isDraw: bool)
    | RematchRequested(requester: Option<string>)
    | RematchDeclined(decliner: Option<string>)
    | AvatarUpdated(avatar: string)
    | MatchFound(matchId: string, opponent: string)
    | SymbolTaken(symbol: string)
    | SymbolAccepted

  datatype Emit = Emit(to: Target, event: Event)

  /** `Object.values(players).forEach(p => io.to(p.socketId).emit(...))`:
      one event per player, in key order. */
  function ToPlayers(keys: seq<string>, players: map<string, Player>, ev: Event): (out: seq<Emit>)
    requires forall i :: 0 <= i < |keys| ==> keys[i] in players
    ensures |out| == |keys|
    ensures forall i :: 0 <= i < |keys| ==> out[i] == Emit(ToSocket(players[keys[i]].socketId), ev)
  {
    if keys == [] then []
    else [Emit(ToSocket(players[keys[0]].socketId), ev)] + ToPlayers(keys[1..], players, ev)
  }

  /** The keys, in order, of the players whose socket is not `sid`. */
  function OtherKeys(keys: seq<string>, players: map<string, Player>, sid: string): (r: seq<string>)
    requires forall i :: 0 <= i < |keys| ==> keys[i] in players
    ensures |r| <= |keys|
    ensures forall k :: k in r <==> k in keys && players[k].socketId != sid
    ensures forall i :: 0 <= i < |r| ==> r[i] in players
  {
    if keys == [] then []
    else
      assert forall i :: 1 <= i < |keys| ==> keys[1..][i - 1] == keys[i];
      var rest := OtherKeys(keys[1..], players, sid);
      assert forall k :: k in keys <==> k == keys[0] || k in keys[1..];
      if players[keys[0]].socketId != sid then [keys[0]] + rest else rest
  }

  /** The filter keeps the order of its input: filtering a concatenation
      concatenates the filtered parts. */
  lemma {:induction false} OtherKeysAppend(a: seq<string>, b: seq<string>, players: map<string, Player>, sid: string)
    requires forall i :: 0 <= i < |a| ==> a[i] in players
    requires forall i :: 0 <= i < |b| ==> b[i] in players
    ensures forall i :: 0 <= i < |a + b| ==> (a + b)[i] in players
    ensures OtherKeys(a + b, players, sid) == OtherKeys(a, players, sid) + OtherKeys(b, players, sid)
  {
    assert forall i :: 0 <= i < |a + b| ==> (a + b)[i] == if i < |a| then a[i] else b[i - |a|];
    if a != [] {
      assert (a + b)[1..] == a[1..] + b;
      OtherKeysAppend(a[1..], b, players, sid);
    } else {
      assert a + b == b;
    }
  }

  /** The same, skipping players whose socket is `sid`: one event per
      other player, in key order. */
  function ToOtherPlayers(keys: seq<string>, players: map<string, Player>, sid: string, ev: Event): (out: seq<Emit>)
    requires forall i :: 0 <= i < |keys| ==> keys[i] in players
    ensures out == ToPlayers(OtherKeys(keys, players, sid), players, ev)
    ensures forall e :: e in out ==> e.event == ev && e.to.ToSocket? && e.to.sid != sid
    ensures forall k :: k in keys && players[k].socketId != sid ==> Emit(ToSocket(players[k].socketId), ev) in out
  {
    if keys == [] then []
    else
      var rest := ToOtherPlayers(keys[1..], players, sid, ev);
      assert forall k :: k in keys && k != keys[0] ==> k in keys[1..];
      if players[keys[0]].socketId != sid then [Emit(ToSocket(players[keys[0]].socketId), ev)] + rest
      else rest
  }
}
