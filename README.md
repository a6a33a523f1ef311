# TikTakToo game server and client helpers, in Dafny

This project models the in-memory game and session logic of a two-player
tic-tac-toe server (server.js) and a few client-side helpers of its web page
(public/script.js), and proves properties of the model.

The server holds six collections, and every socket handler is one short,
synchronous update of them. The collections are:

- `users` and `onlineUsers`;
- `gameRooms` and `challenges`;
- `matchmakingQueue` and `pendingMatches`.

Here those six are the fields of the class `Server.GameServer`, and each
handler is a method of it. Each method keeps the class invariant `Valid()`:

- every name the server holds belongs to a stored user;
- socket ids and queue entries are not repeated;
- every room and pending match keeps its shape.

Each method's `ensures` gives its whole new state and the events it emits,
in emission order.

The room-level logic is written as pure functions over room values:

- `Rooms.Move` for a move: the guard, the cell write, `checkWinner`, win or
  draw, the counter increments and the turn change;
- `Rooms.RespondToRematch` for the rematch vote;
- `Matchmaking.FindMatchStep` for queueing and pairing;
- `Matchmaking.ChooseSymbol` and `Server.SymbolChosen` for symbol
  negotiation.

Lemmas about these functions state the game rules:

- a winner exactly when a line is complete;
- a draw exactly when the board is full with no line;
- one win plus one loss, or one draw each;
- the loser of the last game moves first in a rematch;
- a pairing takes both users out of the queue;
- a stable leaderboard.

These JavaScript behaviours are reproduced:

- truthiness: the empty string is a falsy name;
- `obj[undefined]` reads the key "undefined";
- `Object.keys` lists integer-like keys first;
- `Array.prototype.find` takes the first match;
- the stable `Array.prototype.sort`;
- `String.prototype.trim`;
- the global literal `replace`;
- `slice` clamping.

The source's own quirks are kept:

- `makeMove` and the rematch handlers never look at `gameState`;
- after a win `currentPlayer` stays on the winner;
- `symbolsChosen` counts accepted choices, so one player choosing twice
  starts the game (`Matchmaking.OnePlayerChoosesTwice`);
- a challenge has no duplicate-symbol check;
- a draw does not clear `lastWinner`;
- a self-challenge makes a one-player room, where a win throws a TypeError
  after the winner's `wins` has been incremented. The model reports this as
  status `Threw` and keeps the partial update.

On the client side the project models:

- `validateInput` with the rules the login and register fields attach;
- the register form's pre-submit length checks;
- `processEmotes`, as a loop over the 12 tokens;
- `addEmote`'s splice and cursor arithmetic;
- `getAvatarIcon`;
- the find-match button, whose flag decides which request a click sends.

`Validation.SubmitAcceptsWhatLiveRuleRejects` exhibits one difference
between the two register checks. The submit check does not trim, so " ab"
is sent although the live check marks it invalid.

The following are parameters of the methods:

- the outcome of `jwt.verify`, as `TokenResult`;
- the `Date.now()`-derived ids (`challengeId`, `roomId`, `matchId`);
- the `Math.random()` choice of the first player (`challengerFirst`,
  `secondFirst`).

server.js has no rock-paper-scissors tie-break and no turn timer: it never
emits 'rpsStart', 'rpsResult' or 'timerUpdate', and never handles
'rpsChoice'. In public/script.js the listeners for those events
(public/script.js:218-274) and the `updateTimer` helper they call
(public/script.js:511-517) only draw screens, and the 'rpsChoice'
that public/script.js:935-946 sends reaches no handler. The model has
neither feature.

## Model

| member | source | states |
|---|---|---|
| JsValues.OwnKeys | server.js:125-129 | the keys of a two-key players object: one key when the names are equal, otherwise both; an integer-like name comes before an ordinary one whichever was written first, two integer-like names come in ascending numeric order, and two ordinary names in insertion order |
| JsValues.FindOther | server.js:175 | `find(p => p !== x)`: none exactly when every key equals x, otherwise the first key that differs |
| JsValues.Without | server.js:286-287 | deleting from the ordered queue leaves exactly the other members, and deleting an absent name changes nothing |
| JsValues.WithoutDistinct | server.js:314-318 | deleting keeps the queue free of repeats |
| JsValues.WithoutAt | server.js:286-287 | in a queue without repeats, deleting the member at index i gives the queue before i followed by the queue after i, so the others keep their order |
| Board.FirstCompleteLine | server.js:376-389 | none exactly when no line from the start index on is complete, otherwise the first complete line in scan order |
| Board.WinningMarkSpec | server.js:382-390 | there is a winning mark exactly when some line holds three equal non-empty cells; it is the mark of the first such line, and it is truthy |
| Board.EmptyBoardOpen | server.js:130 | a fresh `Array(9).fill(null)` board has no winning line and is not full |
| Rooms.SymbolOwner | server.js:385-387 | the first key, in key order, whose player holds the symbol, and none exactly when no player holds it |
| Rooms.CheckWinner | server.js:375-391 | a declared winner is always one of the room's keys |
| Rooms.NewRoom | server.js:125-134 | a new game is an empty board, 'playing', the chosen first player, no last winner and no rematch votes, and it is a well-formed room |
| Rooms.Move | server.js:151-188 | the move is applied exactly when the caller is the current player and the cell in range is null (no gameState check), otherwise nothing changes; see the row note under this table |
| Rooms.WinnerIffLine | server.js:154-157 | after a move a winner is named exactly when some line is complete, and it is the first player in key order holding the symbol of the first complete line |
| Rooms.DrawIffFullWithoutLine | server.js:156-157 | with no player named "", a draw is declared exactly when the board is full and no line is complete |
| Rooms.MoveStatsBalance | server.js:159-176 | in a two-player room, a move changes every user's wins and losses together by at most one; a draw gives each player exactly one draw; a move that does not end the game changes no counter |
| Rooms.WinCounters | server.js:161-166 | after a win the winner has one more win, the other player one more loss, and every other stored record is unchanged |
| Rooms.DrawCounters | server.js:168-171 | after a draw each of the two players has one more draw and every other stored record is unchanged |
| Rooms.RequestRematch | server.js:203-211 | a caller who is a player is added to the rematch votes; anyone else changes nothing |
| Rooms.RespondToRematch | server.js:221-257 | a decline clears the votes and nothing else; an acceptance starts a game exactly when the votes then number two, resetting the board, state and votes and keeping players and lastWinner; the room stays well formed |
| Rooms.RematchFirst | server.js:235 | the first mover of a rematch is one of the room's keys and never a truthy last winner; there is none only when every key is the last winner |
| Rooms.RematchLoserFirst | server.js:235 | in a two-player room the rematch is opened by the player who did not win the last game, or by the first key when there is no truthy last winner |
| Users.Register | server.js:49-64 | registration fails exactly when the name is taken; otherwise the new user has zero counters, no avatar, and comes last in iteration order |
| Users.SetAvatar | server.js:265-267 | only the avatar of the named user changes |
| Users.ApplyDeltas | server.js:164-170 | the counter increments, applied in order, never add or remove a user (what they do to each counter is `ApplyDeltasCounts`) |
| Users.ApplyDeltasCounts | server.js:164-171 | each stored counter rises by exactly the number of increments aimed at it, and the avatar is untouched |
| Users.Entries | server.js:77 | one leaderboard entry per stored user, in iteration order, carrying that user's stored wins, losses and draws |
| Users.InsertByWins | server.js:78 | inserting into a list sorted by descending wins keeps it sorted and adds exactly the one element |
| Users.SortByWins | server.js:78 | the sort orders by descending wins and is a permutation of its input |
| Users.InsertKeepsTies | server.js:78 | insertion puts the new element ahead of the elements it ties with |
| Users.SortKeepsTies | server.js:78 | the sort is stable: users with equal wins keep their iteration order |
| Users.Leaderboard | server.js:76-79 | the ranking cut to its first ten entries: min(10, users) entries (order and membership are `LeaderboardSpec`) |
| Users.LeaderboardSpec | server.js:76-82 | the leaderboard has min(10, users) entries, sorted by wins, all stored users, and nobody left off has more wins than anyone on it |
| Users.LeaderboardKeepsTies | server.js:77-79 | tied users on the leaderboard are the first of their tie group in iteration order |
| Presence.SocketUser | server.js:91-92 | `socket.username` is defined exactly when the socket is registered, and then it is the registered name |
| Presence.FindOnline | server.js:102 | none exactly when no online entry has the name, otherwise the earliest registered entry with it |
| Presence.SetPresence | server.js:92 | `Map.set` adds a new socket last; an existing socket's entry is replaced at its first position, everything else staying where it was |
| Presence.SetPresenceSpec | server.js:91-92 | after `set` the socket reads the new name, every other socket reads what it did before, ids stay distinct, no other entry appears, and a registered socket's entry is replaced where it stands |
| Presence.RemovePresence | server.js:370 | `delete` leaves exactly the other entries, in their order: the registry before the socket's entry followed by the registry after it, or the registry unchanged when the socket is not in it |
| Presence.RemovePresenceSpec | server.js:370 | after `delete` the socket is unregistered, every other socket reads what it did before, and ids stay distinct |
| Matchmaking.FindMatchStep | server.js:274-312 | no-op exactly when the caller is unauthenticated or already queued; a queued caller is appended; a pairing picks the first other queued user, only when online, and removes both from the queue, the rest keeping its order (the queue becomes `Without(queue, opponent)`) |
| Matchmaking.PairedLeaveQueue | server.js:284-287 | after a pairing, a later pairing by a third user can pick neither of the two paired users |
| Matchmaking.CancelIdempotent | server.js:314-318 | removing a name from the queue removes it, keeps every other member in its order (the queue before the name followed by the queue after it), and a second removal changes nothing |
| Matchmaking.WithoutLast | server.js:276-287 | deleting the caller just added to a queue that did not hold it gives back the queue as it was |
| Matchmaking.NewPending | server.js:290-298 | a new pending match has both players with null symbols, a count of 0 and no symbols taken, and is well formed |
| Matchmaking.ChooseSymbol | server.js:320-336 | a taken symbol is refused exactly when it is in the chosen set; otherwise it is recorded for the chooser and the count rises; the match is promoted exactly when the count reaches two |
| Matchmaking.OnePlayerChoosesTwice | server.js:329-336 | one player choosing twice starts the game with the other player's symbol still null |
| Events.ToPlayers | server.js:178-186 | one event per player, in key order, addressed to that player's socket |
| Events.OtherKeys | server.js:249-253 | the keys whose player is on another socket: exactly those keys and no more than there are keys |
| Events.OtherKeysAppend | server.js:249-253 | the filter keeps key order: filtering two lists joined is joining the filtered lists |
| Events.ToOtherPlayers | server.js:249-253 | exactly one event per player on another socket, in key order (the `ToPlayers` list of `OtherKeys`); none goes to the caller's socket |
| Server.SymbolChosen | server.js:320-364 | a symbol choice touches only the pending match and the room under the match id |
| Server.SymbolChosenReply | server.js:322-333 | only a player of the match gets a reply, 'symbolTaken' or 'symbolAccepted' as the symbol was taken or free, and a refused or ignored choice changes nothing |
| Server.SymbolChosenStartsRoom | server.js:329-361 | the second free symbol deletes the pending match and creates the room (same players, empty board, chosen first player) and tells every player; a first free symbol is recorded and the match stays pending |
| Server.SymbolChosenKeepsValid | server.js:329-361 | symbol negotiation keeps every pending match and room well formed and seating stored users only |
| Server.GameServer.constructor | server.js:18-23 | the server starts with the loaded users and every other collection empty, and its invariant holds |
| Server.GameServer.Register | server.js:49-64 | a free name is registered as `Users.Register` says; a taken name changes nothing; the invariant is kept |
| Server.GameServer.Authenticate | server.js:86-99 | an invalid token gets 'authError'; a token naming a stored user registers the socket and emits 'authenticated' then the online list; any other token is ignored |
| Server.GameServer.Disconnect | server.js:366-372 | a truthy caller leaves the queue, the socket is unregistered, and the new online list is broadcast |
| Server.GameServer.UpdateAvatar | server.js:263-272 | an authenticated stored caller's avatar is set and confirmed; otherwise nothing happens |
| Server.GameServer.SendChallenge | server.js:101-115 | a challenge is stored and delivered to the target's earliest socket exactly when the target is online; otherwise nothing changes |
| Server.GameServer.ChallengeRoom | server.js:122-134 | the room of an accepted challenge: challenger with the stored symbol and socket, challenged with the responder's symbol and socket, empty board, 'playing', first player one of the two |
| Server.GameServer.RespondToChallenge | server.js:117-149 | an unknown id is ignored; an acceptance with the challenger online creates the room and sends 'gameStart' to both sockets; otherwise 'challengeDeclined' goes to the challenger's socket (or nowhere); the challenge is always deleted |
| Server.GameServer.MakeMove | server.js:151-188 | the room becomes `Rooms.Move`'s result and the user counters get its increments; every player gets 'gameUpdate' unless the handler threw |
| Server.GameServer.RequestRematch | server.js:203-219 | a player's vote is recorded and the first other key is told exactly when that key is truthy (a player named "" is not told) |
| Server.GameServer.RespondToRematch | server.js:221-257 | the room becomes `Rooms.RespondToRematch`'s result; a started game is announced to every player and a decline to every player on another socket |
| Server.GameServer.LeaveGame | server.js:259-261 | the room is deleted whoever asks |
| Server.GameServer.FindMatch | server.js:274-312 | the queue follows `FindMatchStep`; a pairing stores one new pending match and sends 'matchFound' to both users |
| Server.GameServer.CancelMatchmaking | server.js:314-318 | a truthy caller leaves the queue; nothing else changes |
| Server.GameServer.MatchSymbolChosen | server.js:320-364 | pending matches, rooms and emitted events follow `SymbolChosen`; the invariant is kept |
| Validation.TrimStart | public/script.js:27 | the result is a suffix, only white space was dropped, and it does not start with white space |
| Validation.TrimEnd | public/script.js:27 | the result is a prefix, only white space was dropped, and it does not end with white space |
| Validation.Trim | public/script.js:27 | neither end of the result is white space, and it is empty exactly when the input is all white space |
| Validation.TrimIsInfix | public/script.js:27 | the trimmed value is a contiguous piece of the input |
| Validation.TrimIgnoresPadding | public/script.js:27 | white space added around a string does not change its trimmed form |
| Validation.NatToString | public/script.js:36 | the decimal text printed for the minimum length reads back as that number and has no leading zero |
| Validation.CheckRules | public/script.js:31-40 | valid exactly when no rule fails, with an empty message exactly when valid |
| Validation.ValidateInput | public/script.js:26-44 | the trimmed value is valid exactly when required, minimum length and pattern all pass; a failure always carries a message |
| Validation.FirstFailingRuleDecides | public/script.js:31-40 | the message is that of the first failing rule in the order required, minLength, pattern |
| Validation.BlankRequiredFails | public/script.js:27-33 | a required field holding only white space fails with 'This field is required', whatever the other rules |
| Validation.PaddingIgnored | public/script.js:27-37 | white space around a value never changes the verdict or message |
| Validation.RegisterUsernameRule | public/script.js:151-157 | a register username passes the live check exactly when its trimmed form has at least 3 characters, all letters, digits or underscores |
| Validation.LengthRules | public/script.js:96-102 | a password passes exactly when its trimmed form has at least 6 characters, a login username at least 3 |
| Validation.RegisterPrecheck | public/script.js:111-118 | the request is sent exactly when the untrimmed username has at least 3 and the password at least 6 characters, with the username message taking precedence |
| Validation.SubmitAcceptsWhatLiveRuleRejects | public/script.js:104-158 | " ab" passes the submit check but fails the live register-username check |
| Emotes.ReplaceAll | public/script.js:893 | a global literal replace produces only characters of the input or of the replacement |
| Emotes.ReplaceAllAbsent | public/script.js:893 | a global replace leaves a string without an occurrence of the pattern unchanged |
| Emotes.ReplaceAllLength | public/script.js:893 | each replaced occurrence changes the length by the replacement's length minus the pattern's |
| Emotes.ReplaceAllSelf | public/script.js:893 | replacing a literal by itself gives back the string |
| Emotes.ReplaceAllPrefix | public/script.js:893 | text before the first occurrence is copied unchanged and the occurrence becomes the replacement |
| Emotes.EscapeRegExp | public/script.js:892 | a string with no metacharacter escapes to itself, and escaping never shortens |
| Emotes.TokensWellFormed | public/script.js:875-888 | the table has 12 entries, each a `:name:` token with a lower-case name |
| Emotes.TokensMatchLiterally | public/script.js:891-892 | every token's escaped regular expression is the token itself, so it matches literally |
| Emotes.ProcessEmotes | public/script.js:874-897 | the loop applies every table entry in order, each replacing all occurrences of its token in the text built so far |
| Emotes.NoTokensUnchanged | public/script.js:890-896 | a message holding none of the tokens comes back unchanged |
| Emotes.NoColonUnchanged | public/script.js:874-897 | a message without a colon comes back unchanged |
| Emotes.AddEmote | public/script.js:804-815 | the text before the clamped cursor, then the emote and a space, then the rest; the cursor moves by the emote's length plus one |
| Emotes.AddEmoteRoundTrip | public/script.js:810-814 | with the cursor inside the text, the new cursor is just after the inserted space, and removing the text between the two cursors gives back the original |
| ClientUi.GetAvatarIcon | public/script.js:1112-1124 | a known avatar gets its mapped icon and anything else, a missing avatar included, gets 'bi-controller' |
| ClientUi.AvatarIconRoundTrip | public/script.js:1113-1122 | the avatar can be read back from a known avatar's icon |
| ClientUi.AvatarIconsDistinct | public/script.js:1113-1122 | different known avatars get different icons |
| ClientUi.MissingAvatarIcon | public/script.js:1123 | a user without an avatar gets 'bi-controller' |
| ClientUi.MatchButton.constructor | public/script.js:6 | the page starts not searching and having sent nothing |
| ClientUi.MatchButton.FindMatch | public/script.js:1088-1097 | a click sends 'cancelMatchmaking' when searching and 'findMatch' otherwise, and flips the flag; a cancel is only ever sent right after a find request |
| ClientUi.MatchButton.OnMatchFound | public/script.js:318-319 | 'matchFound' clears the flag without sending anything |

Note on the `Rooms.Move` row. When the move is applied:

- exactly the chosen cell takes the mover's symbol;
- a win sets 'finished' and `lastWinner`, and keeps `currentPlayer`;
- a draw sets 'draw';
- any other move passes the turn to the other player.

A permitted move by a caller who is not a key of the players object makes
the handler throw before any change. A one-player room throws after the win
was counted. A throw never changes `currentPlayer`.

In a one-player room a move that does not end the game passes the turn to
`find(p => p !== caller)` over the one key, which is undefined
(server.js:175). From then on no caller is the current player, so every
later move is refused and that game stalls; `Rooms.Move` reproduces this
through `FindOther` returning none.

## Left out

- Password hashing and comparison (bcrypt), the `/api/login` route and JWT signing are foreign library calls. `jwt.verify` is the `TokenResult` parameter, and records carry no password.
- The users.json file (`loadUsers`, `saveUsers`) is file I/O. The constructor takes the loaded users as a parameter.
- `Date.now()` ids and `Math.random()` are method parameters.
- The Express and socket.io wiring, and the delivery of emitted events, are transport. Events are returned as an ordered list with their targets.
- The chat relay `sendMessage` and the typing indicator only pass data through.
- All DOM, CSS, notification, sound and `fetch` code of public/script.js is UI and I/O. This includes `updateInputValidation`, the button text of `updateFindMatchButton` and `setSelectionRange`.
- The floating-point win rate of the profile view is left out.
- Concurrency is left out. The socket handlers are synchronous and run to completion. `/api/register` is not: it awaits `bcrypt.hash` (server.js:54) between the `users.has` check (server.js:51) and `users.set` (server.js:55), so two registrations of one name can both pass the check and the second overwrites the first. `Users.Register` models the route as one step and does not capture that interleaving.
- Handler payloads of unexpected JavaScript types are left out: non-string names, symbols or ids, non-integer positions, a missing `username` in a register body. Every name, symbol and id is a string and positions are integers.
- `users.get(undefined)`, for a token without a username, is modelled as "no user". This is what it gives when no user was registered without a name.
- Property names inherited from `Object.prototype` (for example `iconMap['toString']`) are left out. Lookups see own keys only.
- Lengths are counted in characters, not UTF-16 code units.
- The Node process crashing after an uncaught TypeError is left out. Rooms.Move's `Threw` status stops at the end of the handler.
- `$` substitution patterns in `String.prototype.replace` are left out. None of the emote markup contains `$`.
- Regular expressions in general are left out. The model covers only literal tokens and the one pattern `/^[a-zA-Z0-9_]+$/`.
- Rooms.DrawIffFullWithoutLine: assumes no player is named by the empty string. For a complete line of such a player's symbol, `checkWinner` returns the empty name, which the handler treats as no winner, so a full board with that line counts as a draw.
- Rooms.DrawCounters: stated for two-player rooms only. In a self-challenge room the one player gets one draw, by `Users.ApplyDeltasCounts`.
