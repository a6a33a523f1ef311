/** A game room of server.js (the values of the `gameRooms` Map) and the
    room-level part of the `makeMove`, `requestRematch` and
    `respondToRematch` handlers, as functions from the room before the
    event to the room after it. */
module Rooms {
  import opened JsValues
  import opened Board
  import opened Users

  /** `room.players[name]`: the symbol the player marks cells with (null
      when a pending match was promoted before this player chose) and the
      socket the player's events are sent to. */
  datatype Player = Player(symbol: Option<string>, socketId: string)

  /** `gameState`: 'playing', 'finished' (someone won) or 'draw'. */
  datatype GameState = Playing | Finished | Drawn

  /** `keys` is `Object.keys(room.players)`; `rematchRequests` holds the
      `socket.username` values (possibly undefined) that asked for a
      rematch. */
  datatype Room = Room(
    keys: seq<string>,
    players: map<string, Player>,
    board: seq<Cell>,
    currentPlayer: Option<string>,
    state: GameState,
    lastWinner: Option<string>,
    rematchRequests: set<Option<string>>)

  /** The players object has one key (a user who challenged themself) or
      two distinct keys. */
  predicate PlayersShape(keys: seq<string>, players: map<string, Player>)
  {
    && (|keys| == 1 || (|keys| == 2 && keys[0] != keys[1]))
    && (forall k :: k in players ==> k in keys)
    && (forall i :: 0 <= i < |keys| ==> keys[i] in players)
  }

  /** `Object.keys(players).find(p => players[p].symbol === sym)`. */
  function SymbolOwner(keys: seq<string>, players: map<string, Player>, sym: Option<string>): (r: Option<string>)
    requires forall i :: 0 <= i < |keys| ==> keys[i] in players
    ensures r.None? <==> forall i :: 0 <= i < |keys| ==> players[keys[i]].symbol != sym
    ensures r.Some? ==> exists i :: 0 <= i < |keys| && keys[i] == r.value
                                    && forall j :: 0 <= j < i ==> players[keys[j]].symbol != sym
    ensures r.Some? ==> r.value in keys && players[r.value].symbol == sym
  {
    if keys == [] then None
    else if players[keys[0]].symbol == sym then Some(keys[0])
    else
      var rest := SymbolOwner(keys[1..], players, sym);
      assert forall i :: 1 <= i < |keys| ==> keys[i] == keys[1..][i - 1];
      if rest.Some? then
        ghost var i :| 0 <= i < |keys[1..]| && keys[1..][i] == rest.value
                       && forall j :: 0 <= j < i ==> players[keys[1..][j]].symbol != sym;
        assert keys[i + 1] == rest.value;
        rest
      else rest
  }

  /** Every symbol on the board is the symbol of one of the players. */
  predicate MarksOwned(r: Room)
    requires PlayersShape(r.keys, r.players) && |r.board| == 9
  {
    forall i :: 0 <= i < 9 && r.board[i].Some? ==> SymbolOwner(r.keys, r.players, r.board[i]).Some?
  }

  /** The shape every room the handlers build keeps. */
  predicate ValidRoom(r: Room)
  {
    && PlayersShape(r.keys, r.players)
    && |r.board| == 9
    && MarksOwned(r)
    && (r.currentPlayer.Some? ==> r.currentPlayer.value in r.keys)
    && (r.lastWinner.Some? ==> r.lastWinner.value in r.keys)
  }

  /** `checkWinner(board, room)` (server.js:375-391): the first player, in
      key order, whose symbol is on the first complete line. */
  function CheckWinner(keys: seq<string>, players: map<string, Player>, b: seq<Cell>): (w: Option<string>)
    requires PlayersShape(keys, players) && |b| == 9
    ensures w.Some? ==> w.value in keys
  {
    match WinningMark(b)
    case None => None
    case Some(_) => SymbolOwner(keys, players, WinningMark(b))
  }

  /** A new game: `Array(9).fill(null)`, 'playing', no last winner and no
      rematch votes. */
  function NewRoom(keys: seq<string>, players: map<string, Player>, first: string): (r: Room)
    requires PlayersShape(keys, players) && first in keys
    ensures ValidRoom(r)
    ensures r.board == EmptyBoard() && r.state == Playing && r.currentPlayer == Some(first)
    ensures r.lastWinner == None && r.rematchRequests == {}
    ensures r.keys == keys && r.players == players
  {
    var r := Room(keys, players, EmptyBoard(), Some(first), Playing, None, {});
    assert MarksOwned(r);
    r
  }

  // ---------------------------------------------------------------------
  // makeMove (server.js:151-188)

  /** Ignored: the guard failed and nothing happens. Applied: the handler
      ran to the end. Threw: a TypeError ended the handler; what it had
      already changed stays changed. */
  datatype MoveStatus = Ignored | Applied | Threw

  /** The room after the move, the counter increments, and the `winner`
      and `isDraw` values the handler computed. */
  datatype MoveResult = MoveResult(status: MoveStatus, room: Room, deltas: seq<Delta>,
                                   winner: Option<string>, isDraw: bool)

  /** The guard of server.js:153: the caller is the current player (strict
      equality, so an unauthenticated caller matches an undefined current
      player) and the cell at `position` is exactly null. Positions outside
      0..8 read undefined and fail. There is no check of `gameState`. */
  predicate MoveAllowed(r: Room, caller: Option<string>, position: int)
    requires |r.board| == 9
  {
    r.currentPlayer == caller && 0 <= position < 9 && r.board[position] == None
  }

  /** One increment of `draws` for every player, in key order. */
  function DrawDeltas(keys: seq<string>): (ds: seq<Delta>)
    ensures |ds| == |keys|
    ensures forall i :: 0 <= i < |keys| ==> ds[i] == Delta(keys[i], DrawStat)
  {
    if keys == [] then [] else [Delta(keys[0], DrawStat)] + DrawDeltas(keys[1..])
  }

  function Move(r: Room, caller: Option<string>, position: int): (m: MoveResult)
    requires ValidRoom(r)
    ensures m.status != Ignored <==> MoveAllowed(r, caller, position)
    ensures m.status == Ignored ==> m.room == r && m.deltas == []
    // players[socket.username] is missing: the handler throws before any change
    ensures MoveAllowed(r, caller, position) && PropKey(caller) !in r.players ==> m.status == Threw
    ensures m.status == Threw && PropKey(caller) !in r.players ==> m.room == r && m.deltas == []
    ensures m.status == Threw ==> m.room.currentPlayer == r.currentPlayer
    // otherwise exactly one cell changes, to the mover's symbol
    ensures m.status != Ignored && PropKey(caller) in r.players ==>
              m.room.board == r.board[position := r.players[PropKey(caller)].symbol]
              && m.winner == CheckWinner(r.keys, r.players, m.room.board)
              && m.isDraw == (!Truthy(m.winner) && IsFull(m.room.board))
    ensures m.room.keys == r.keys && m.room.players == r.players
    ensures m.room.rematchRequests == r.rematchRequests
    // a win
    ensures m.status == Applied && Truthy(m.winner) ==>
              && m.room.state == Finished
              && m.room.lastWinner == m.winner
              && m.room.currentPlayer == r.currentPlayer
              && |r.keys| == 2
              && exists loser :: loser in r.keys && loser != m.winner.value
                                 && m.deltas == [Delta(m.winner.value, Win), Delta(loser, Loss)]
    // a one-player room cannot name a loser: `loserUser.losses++` throws after the win was counted
    ensures m.status == Threw && PropKey(caller) in r.players ==>
              && |r.keys| == 1 && Truthy(m.winner)
              && m.room.state == Finished && m.room.lastWinner == r.lastWinner
              && m.deltas == [Delta(m.winner.value, Win)]
    // a draw
    ensures m.status == Applied && m.isDraw ==>
              && m.room.state == Drawn
              && m.room.currentPlayer == r.currentPlayer
              && m.room.lastWinner == r.lastWinner
              && m.deltas == DrawDeltas(r.keys)
    // the game goes on
    ensures m.status == Applied && !Truthy(m.winner) && !m.isDraw ==>
              && m.room.state == r.state
              && m.room.currentPlayer == FindOther(r.keys, caller)
              && m.room.lastWinner == r.lastWinner
              && m.deltas == []
    ensures ValidRoom(m.room)
  {
    if !MoveAllowed(r, caller, position) then MoveResult(Ignored, r, [], None, false)
    else if PropKey(caller) !in r.players then MoveResult(Threw, r, [], None, false)
    else
      var sym := r.players[PropKey(caller)].symbol;
      var board := r.board[position := sym];
      var placed := r.(board := board);
      assert MarksOwned(placed) by {
        forall i | 0 <= i < 9 && board[i].Some?
          ensures SymbolOwner(r.keys, r.players, board[i]).Some?
        {
          if i == position {
            assert r.players[PropKey(caller)].symbol == board[i];
          }
        }
      }
      var winner := CheckWinner(r.keys, r.players, board);
      var isDraw := !Truthy(winner) && IsFull(board);
      if Truthy(winner) then
        var loser := FindOther(r.keys, winner);
        var finished := placed.(state := Finished);
        if loser.None? then
          MoveResult(Threw, finished, [Delta(winner.value, Win)], winner, false)
        else
          MoveResult(Applied, finished.(lastWinner := winner),
                     [Delta(winner.value, Win), Delta(loser.value, Loss)], winner, false)
      else if isDraw then
        MoveResult(Applied, placed.(state := Drawn), DrawDeltas(r.keys), winner, true)
      else
        MoveResult(Applied, placed.(currentPlayer := FindOther(r.keys, caller)), [], winner, false)
  }

  /** A winner is declared exactly when some line holds three equal
      non-empty symbols, and it is the first player in key order holding
      the symbol of the first such line. */
  lemma WinnerIffLine(r: Room, caller: Option<string>, position: int)
    requires ValidRoom(r)
    requires Move(r, caller, position).status != Ignored && PropKey(caller) in r.players
    ensures var b := Move(r, caller, position).room.board;
            Move(r, caller, position).winner.Some? <==> exists l :: 0 <= l < 8 && LineComplete(b, l)
    ensures var m := Move(r, caller, position);
            m.winner.Some? ==>
              exists l :: 0 <= l < 8 && LineComplete(m.room.board, l)
                          && (forall k :: 0 <= k < l ==> !LineComplete(m.room.board, k))
                          && m.winner == SymbolOwner(r.keys, r.players, m.room.board[Lines[l].0])
  {
    var m := Move(r, caller, position);
    var b := m.room.board;
    WinningMarkSpec(b);
    if WinningMark(b).Some? {
      var l :| 0 <= l < 8 && LineComplete(b, l) && (forall k :: 0 <= k < l ==> !LineComplete(b, k))
               && WinningMark(b) == b[Lines[l].0];
      assert b[Lines[l].0].Some?;
      assert SymbolOwner(r.keys, r.players, b[Lines[l].0]).Some?;
    }
  }

  /** A draw is declared exactly when no line is complete and all nine
      cells are non-null, provided no player is named by the empty string
      (an empty name is falsy, so a line won by such a player is not a
      win in server.js). */
  lemma DrawIffFullWithoutLine(r: Room, caller: Option<string>, position: int)
    requires ValidRoom(r) && forall i :: 0 <= i < |r.keys| ==> r.keys[i] != ""
    requires Move(r, caller, position).status != Ignored && PropKey(caller) in r.players
    ensures var m := Move(r, caller, position);
            m.isDraw <==> IsFull(m.room.board) && forall l :: 0 <= l < 8 ==> !LineComplete(m.room.board, l)
  {
    var m := Move(r, caller, position);
    WinnerIffLine(r, caller, position);
    assert m.winner.Some? ==> m.winner.value in r.keys;
  }

  lemma CountOfPair(a: Delta, b: Delta, n: string, s: Stat)
    ensures CountOf([a, b], n, s) == (if a == Delta(n, s) then 1 else 0) + (if b == Delta(n, s) then 1 else 0)
  {
    assert [a, b][1..] == [b];
    assert [b][1..] == [];
    assert CountOf([b], n, s) == (if b == Delta(n, s) then 1 else 0) + CountOf([], n, s);
  }

  /** A finished game changes the counters by one win and one loss for
      two different players, or by one draw for each player; a move that
      does not end the game changes no counter. */
  lemma MoveStatsBalance(r: Room, caller: Option<string>, position: int, n: string)
    requires ValidRoom(r) && |r.keys| == 2
    requires Move(r, caller, position).status == Applied
    ensures var m := Move(r, caller, position);
            && CountOf(m.deltas, n, Win) + CountOf(m.deltas, n, Loss) <= 1
            && (m.isDraw ==> CountOf(m.deltas, n, DrawStat) == (if n in r.keys then 1 else 0))
            && (!m.isDraw ==> CountOf(m.deltas, n, DrawStat) == 0)
            && (m.deltas == [] <==> !m.isDraw && !Truthy(m.winner))
  {
    var m := Move(r, caller, position);
    var ds := m.deltas;
    if m.isDraw {
      assert ds == [Delta(r.keys[0], DrawStat), Delta(r.keys[1], DrawStat)];
      CountOfPair(ds[0], ds[1], n, Win);
      CountOfPair(ds[0], ds[1], n, Loss);
      CountOfPair(ds[0], ds[1], n, DrawStat);
    } else if Truthy(m.winner) {
      var loser :| loser in r.keys && loser != m.winner.value
                   && ds == [Delta(m.winner.value, Win), Delta(loser, Loss)];
      CountOfPair(ds[0], ds[1], n, Win);
      CountOfPair(ds[0], ds[1], n, Loss);
      CountOfPair(ds[0], ds[1], n, DrawStat);
    }
  }

  /** Two increments for two different stored users. */
  lemma ApplyTwo(users: map<string, UserRecord>, x: string, sx: Stat, y: string, sy: Stat)
    requires x in users && y in users && x != y
    ensures var after := ApplyDeltas(users, [Delta(x, sx), Delta(y, sy)]);
            && after.Keys == users.Keys
            && after[x] == Bump(users[x], sx) && after[y] == Bump(users[y], sy)
            && forall n :: n in users && n != x && n != y ==> after[n] == users[n]
  {
    var ds := [Delta(x, sx), Delta(y, sy)];
    var m1 := users[x := Bump(users[x], sx)];
    var m2 := m1[y := Bump(m1[y], sy)];
    assert ds[1..] == [Delta(y, sy)] && ds[1..][1..] == [];
    assert ApplyDeltas(users, ds) == ApplyDeltas(m1, ds[1..]);
    assert ApplyDeltas(m1, ds[1..]) == ApplyDeltas(m2, []);
  }

  /** The user records after a winning move: the winner has one more
      win, the other player one more loss, and every other record is as
      it was. */
  lemma WinCounters(users: map<string, UserRecord>, r: Room, caller: Option<string>, position: int)
    requires ValidRoom(r) && forall k :: k in r.players ==> k in users
    requires Move(r, caller, position).status == Applied && Truthy(Move(r, caller, position).winner)
    ensures var m := Move(r, caller, position);
            var after := ApplyDeltas(users, m.deltas);
            var w := m.winner.value;
            && after.Keys == users.Keys
            && after[w] == users[w].(wins := users[w].wins + 1)
            && exists l :: l in r.keys && l != w
                           && after[l] == users[l].(losses := users[l].losses + 1)
                           && forall n :: n in users && n != w && n != l ==> after[n] == users[n]
  {
    var m := Move(r, caller, position);
    assert forall k :: k in r.keys ==> k in users;
    WinPair(users, r.keys, m.winner.value, m.deltas);
  }

  /** A win and a loss, for the winner and another stored user. */
  lemma WinPair(users: map<string, UserRecord>, keys: seq<string>, w: string, ds: seq<Delta>)
    requires forall k :: k in keys ==> k in users
    requires exists l :: l in keys && l != w && ds == [Delta(w, Win), Delta(l, Loss)]
    requires w in keys
    ensures var after := ApplyDeltas(users, ds);
            && after.Keys == users.Keys
            && after[w] == users[w].(wins := users[w].wins + 1)
            && exists l :: l in keys && l != w
                           && after[l] == users[l].(losses := users[l].losses + 1)
                           && forall n :: n in users && n != w && n != l ==> after[n] == users[n]
  {
    var l :| l in keys && l != w && ds == [Delta(w, Win), Delta(l, Loss)];
    ApplyTwo(users, w, Win, l, Loss);
  }

  /** The user records after a drawing move: each player has one more
      draw, and every other record is as it was. */
  lemma DrawCounters(users: map<string, UserRecord>, r: Room, caller: Option<string>, position: int)
    requires ValidRoom(r) && |r.keys| == 2 && forall k :: k in r.players ==> k in users
    requires Move(r, caller, position).status == Applied && Move(r, caller, position).isDraw
    ensures var after := ApplyDeltas(users, Move(r, caller, position).deltas);
            && after.Keys == users.Keys
            && (forall k :: k in r.keys ==> after[k] == users[k].(draws := users[k].draws + 1))
            && (forall n :: n in users && n !in r.keys ==> after[n] == users[n])
  {
    assert r.keys[0] in r.players && r.keys[1] in r.players;
    DrawPair(users, r.keys);
  }

  /** Two draws, one for each of two different stored users. */
  lemma DrawPair(users: map<string, UserRecord>, keys: seq<string>)
    requires |keys| == 2 && keys[0] != keys[1] && keys[0] in users && keys[1] in users
    ensures var after := ApplyDeltas(users, DrawDeltas(keys));
            && after.Keys == users.Keys
            && (forall k :: k in keys ==> after[k] == users[k].(draws := users[k].draws + 1))
            && (forall n :: n in users && n !in keys ==> after[n] == users[n])
  {
    assert DrawDeltas(keys) == [Delta(keys[0], DrawStat), Delta(keys[1], DrawStat)];
    ApplyTwo(users, keys[0], DrawStat, keys[1], DrawStat);
    assert forall k :: k in keys ==> k == keys[0] || k == keys[1];
  }

  // ---------------------------------------------------------------------
  // Rematch (server.js:203-257)

  /** `requestRematch`: a caller that is a key of `players` adds its
      `socket.username` to the rematch votes; nothing else changes, and
      there is no check of `gameState`. */
  function RequestRematch(r: Room, caller: Option<string>): (r': Room)
    ensures PropKey(caller) !in r.players ==> r' == r
    ensures PropKey(caller) in r.players ==>
              r' == r.(rematchRequests := r.rematchRequests + {caller})
  {
    if PropKey(caller) in r.players then r.(rematchRequests := r.rematchRequests + {caller}) else r
  }

  /** The player who moves first in a rematch: anyone but the last winner
      when there is one (a truthy name), otherwise the first key. */
  function RematchFirst(r: Room): (p: Option<string>)
    requires 0 < |r.keys|
    ensures p.Some? ==> p.value in r.keys
    ensures Truthy(r.lastWinner) ==> p != r.lastWinner
    ensures p.None? <==> Truthy(r.lastWinner) && forall i :: 0 <= i < |r.keys| ==> Some(r.keys[i]) == r.lastWinner
  {
    if Truthy(r.lastWinner) then FindOther(r.keys, r.lastWinner) else Some(r.keys[0])
  }

  datatype RematchResult = RematchResult(room: Room, started: bool)

  /** `respondToRematch`: an accepting response is a vote; with two votes
      a new game starts on the same room. A decline clears the votes and
      leaves everything else as it is. */
  function RespondToRematch(r: Room, caller: Option<string>, accepted: bool): (res: RematchResult)
    requires ValidRoom(r)
    ensures PropKey(caller) !in r.players ==> res.room == r && !res.started
    ensures PropKey(caller) in r.players && !accepted ==>
              res.room == r.(rematchRequests := {}) && !res.started
    ensures PropKey(caller) in r.players && accepted ==>
              res.started == (|r.rematchRequests + {caller}| == 2)
    ensures PropKey(caller) in r.players && accepted && !res.started ==>
              res.room == r.(rematchRequests := r.rematchRequests + {caller})
    ensures res.started ==>
              && res.room.board == EmptyBoard()
              && res.room.state == Playing
              && res.room.rematchRequests == {}
              && res.room.currentPlayer == RematchFirst(r)
              && res.room.lastWinner == r.lastWinner
              && res.room.keys == r.keys && res.room.players == r.players
    ensures ValidRoom(res.room)
  {
    if PropKey(caller) !in r.players then RematchResult(r, false)
    else if !accepted then RematchResult(r.(rematchRequests := {}), false)
    else
      var votes := r.rematchRequests + {caller};
      if |votes| == 2 then
        var r' := r.(board := EmptyBoard(), state := Playing, currentPlayer := RematchFirst(r),
                     rematchRequests := {});
        assert MarksOwned(r');
        RematchResult(r', true)
      else
        RematchResult(r.(rematchRequests := votes), false)
  }

  /** In a two-player room the loser of the last game moves first in the
      rematch; with no last winner (a draw or no game won yet in this
      room) the first key does. */
  lemma RematchLoserFirst(r: Room)
    requires ValidRoom(r) && |r.keys| == 2
    ensures Truthy(r.lastWinner) ==>
              RematchFirst(r).Some? && RematchFirst(r).value in r.keys
              && RematchFirst(r) != r.lastWinner
    ensures !Truthy(r.lastWinner) ==> RematchFirst(r) == Some(r.keys[0])
  {
    if Truthy(r.lastWinner) {
      assert Some(r.keys[0]) != r.lastWinner || Some(r.keys[1]) != r.lastWinner;
    }
  }
}
