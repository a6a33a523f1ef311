/** Random matchmaking of server.js: the `matchmakingQueue` Set (kept in
    insertion order), the pairing step of `findMatch` (server.js:274-312)
    and the symbol negotiation of `matchSymbolChosen` over the
    `pendingMatches` Map (server.js:320-364). */
module Matchmaking {
  import opened JsValues
  import opened Presence
  import opened Rooms

  // ---------------------------------------------------------------------
  // Queue and pairing

  /** What `findMatch` does to the queue. */
  datatype MatchStep =
    | NoOp                                           // caller unauthenticated or already queued
    | Queued(queue: seq<string>)                      // caller added, nobody to pair with yet
    | Paired(queue: seq<string>, opponent: Presence)   // caller and opponent taken out of the queue

  /** `findMatch`: add the caller, look at the first other queued user,
      and pair with that user when one of its sockets is online. */
  function FindMatchStep(queue: seq<string>, me: Option<string>, online: seq<Presence>): (st: MatchStep)
    requires Distinct(queue)
    ensures st.NoOp? <==> !Truthy(me) || me.value in queue
    ensures st.Queued? ==> st.queue == queue + [me.value] && Distinct(st.queue)
    ensures st.Queued? ==> var o := FindOther(queue + [me.value], me);
                           o.None? || FindOnline(online, o.value).None?
    ensures st.Paired? ==>
              && Some(st.opponent.username) == FindOther(queue, me)
              && Some(st.opponent) == FindOnline(online, st.opponent.username)
              && st.opponent.username != me.value
              && me.value !in st.queue && st.opponent.username !in st.queue
              && (forall x :: x in st.queue <==> x in queue && x != st.opponent.username)
              && Distinct(st.queue)
    ensures st.Paired? ==> st.queue == Without(queue, st.opponent.username)
  {
    if !Truthy(me) || me.value in queue then NoOp
    else
      var q := queue + [me.value];
      assert Distinct(q);
      var other := FindOther(q, me);
      if other.None? then Queued(q)
      else
        var opp := FindOnline(online, other.value);
        if opp.None? then Queued(q)
        else
          assert FindOther(q, me) == FindOther(queue, me) by { FindOtherAppend(queue, me.value); }
          var q' := Without(Without(q, me.value), other.value);
          WithoutLast(queue, me.value);
          WithoutDistinct(q, me.value);
          WithoutDistinct(Without(q, me.value), other.value);
          Paired(q', opp.value)
  }

  /** The caller, appended last, is never the first "other" member. */
  lemma {:induction false} FindOtherAppend(queue: seq<string>, me: string)
    ensures FindOther(queue + [me], Some(me)) == FindOther(queue, Some(me))
  {
    if queue != [] {
      assert (queue + [me])[1..] == queue[1..] + [me];
      FindOtherAppend(queue[1..], me);
    } else {
      assert [me][1..] == [];
    }
  }

  /** Deleting the value just appended, when it was not there before,
      gives back the list. */
  lemma {:induction false} WithoutLast(s: seq<string>, m: string)
    requires m !in s
    ensures Without(s + [m], m) == s
  {
    if s != [] {
      assert (s + [m])[1..] == s[1..] + [m];
      WithoutLast(s[1..], m);
    } else {
      assert Without([m][1..], m) == [];
    }
  }

  /** Pairing is exclusive: after a pairing neither party can be paired
      again by a later `findMatch` unless it queues again, because a
      pairing step only ever picks a queued user. */
  lemma PairedLeaveQueue(queue: seq<string>, me: Option<string>, online: seq<Presence>,
                         next: Option<string>)
    requires Distinct(queue)
    requires FindMatchStep(queue, me, online).Paired?
    ensures var st := FindMatchStep(queue, me, online);
            var later := FindMatchStep(st.queue, next, online);
            later.Paired? && next != me && next != Some(st.opponent.username) ==>
              later.opponent.username != me.value && later.opponent.username != st.opponent.username
  {
    var st := FindMatchStep(queue, me, online);
    var later := FindMatchStep(st.queue, next, online);
    if later.Paired? && next != me && next != Some(st.opponent.username) {
      assert later.opponent.username in st.queue;
    }
  }

  /** `matchmakingQueue.delete(name)`, as `cancelMatchmaking` and
      `disconnect` do it: the name is gone, the rest stays in order, and a
      second delete changes nothing. */
  lemma CancelIdempotent(queue: seq<string>, name: string)
    requires Distinct(queue)
    ensures name !in Without(queue, name)
    ensures Without(Without(queue, name), name) == Without(queue, name)
    ensures forall x :: x != name ==> (x in Without(queue, name) <==> x in queue)
    ensures forall i :: 0 <= i < |queue| && queue[i] == name ==> Without(queue, name) == queue[..i] + queue[i + 1..]
  {
    forall i | 0 <= i < |queue| && queue[i] == name
      ensures Without(queue, name) == queue[..i] + queue[i + 1..]
    {
      WithoutAt(queue, i);
    }
    WithoutDistinct(queue, name);
    WithoutDistinct(Without(queue, name), name);
  }

  // ---------------------------------------------------------------------
  // Pending matches and symbol negotiation

  /** A `pendingMatches` value: the players object (both symbols start
      null), the count of accepted choices and the set of symbols taken. */
  datatype PendingMatch = PendingMatch(keys: seq<string>, players: map<string, Player>,
                                       symbolsChosen: nat, chosenSymbols: set<string>)

  /** Two players; the count equals the number of symbols taken and is
      below two while the match is pending; every symbol a player holds is
      taken, and two players never hold the same symbol. */
  ghost predicate ValidPending(m: PendingMatch)
  {
    && PlayersShape(m.keys, m.players)
    && |m.keys| == 2
    && m.symbolsChosen == |m.chosenSymbols| && m.symbolsChosen < 2
    && (forall k :: k in m.players && m.players[k].symbol.Some? ==> m.players[k].symbol.value in m.chosenSymbols)
    && SymbolsDistinct(m.players)
  }

  /** No two players hold the same non-null symbol. */
  ghost predicate SymbolsDistinct(players: map<string, Player>)
  {
    forall a, b :: a in players && b in players && a != b && players[a].symbol.Some?
                   ==> players[a].symbol != players[b].symbol
  }

  /** The match `findMatch` creates for the caller and the opponent. */
  function NewPending(me: string, mySid: string, opp: string, oppSid: string): (m: PendingMatch)
    requires me != opp
    ensures ValidPending(m)
    ensures m.keys == OwnKeys(me, opp)
    ensures m.players == map[me := Player(None, mySid), opp := Player(None, oppSid)]
    ensures m.symbolsChosen == 0 && m.chosenSymbols == {}
  {
    PendingMatch(OwnKeys(me, opp), map[me := Player(None, mySid), opp := Player(None, oppSid)], 0, {})
  }

  /** The outcome of one `matchSymbolChosen`. */
  datatype SymbolOutcome =
    | Taken                                           // 'symbolTaken', nothing changes
    | Accepted(pending: PendingMatch)                 // 'symbolAccepted', still pending
    | Promoted(keys: seq<string>, players: map<string, Player>) // 'symbolAccepted', then the room starts

  /** Record `symbol` for the player under key `k` unless it is taken;
      the second accepted choice promotes the match. The count is of
      accepted choices, so one player choosing twice also promotes it. */
  function ChooseSymbol(m: PendingMatch, k: string, symbol: string): (o: SymbolOutcome)
    requires ValidPending(m) && k in m.players
    ensures o.Taken? <==> symbol in m.chosenSymbols
    ensures o.Accepted? ==> ValidPending(o.pending)
                            && o.pending.keys == m.keys
                            && o.pending.players == m.players[k := m.players[k].(symbol := Some(symbol))]
                            && o.pending.chosenSymbols == m.chosenSymbols + {symbol}
                            && o.pending.symbolsChosen == m.symbolsChosen + 1
    ensures o.Promoted? <==> symbol !in m.chosenSymbols && m.symbolsChosen == 1
    ensures o.Promoted? ==> && PlayersShape(o.keys, o.players) && |o.keys| == 2
                            && o.keys == m.keys
                            && o.players == m.players[k := m.players[k].(symbol := Some(symbol))]
                            && SymbolsDistinct(o.players)
  {
    if symbol in m.chosenSymbols then Taken
    else
      var players := m.players[k := m.players[k].(symbol := Some(symbol))];
      var chosen := m.chosenSymbols + {symbol};
      assert |chosen| == |m.chosenSymbols| + 1;
      if m.symbolsChosen + 1 == 2 then Promoted(m.keys, players)
      else Accepted(PendingMatch(m.keys, players, m.symbolsChosen + 1, chosen))
  }

  /** Two accepted choices by the same player start the game with the
      other player's symbol still null. */
  lemma OnePlayerChoosesTwice()
    ensures var m := NewPending("alice", "s1", "bob", "s2");
            var first := ChooseSymbol(m, "alice", "X");
            first.Accepted? &&
            var second := ChooseSymbol(first.pending, "alice", "O");
            second.Promoted? && second.players["bob"].symbol == None
            && second.players["alice"].symbol == Some("O")
  {
    var m := NewPending("alice", "s1", "bob", "s2");
    assert "X" !in m.chosenSymbols;
    var first := ChooseSymbol(m, "alice", "X");
    assert "O" !in first.pending.chosenSymbols;
  }
}
