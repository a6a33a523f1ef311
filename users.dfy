/** The user store of server.js: the `users` Map (insertion-ordered,
    keyed by username), the `/api/register` rule, the win/loss/draw
    counters that finished games increment, and the `/api/leaderboard`
    ranking. Password hashing and the users.json file are not part of
    this model. */
module Users {
  import opened JsValues

  datatype UserRecord = UserRecord(wins: nat, losses: nat, draws: nat, avatar: Option<string>)

  /** The `users` Map: `order` is its iteration (insertion) order. */
  datatype UserStore = UserStore(order: seq<string>, records: map<string, UserRecord>)

  ghost predicate ValidStore(s: UserStore)
  {
    Distinct(s.order) && forall n :: n in s.records <==> n in s.order
  }

  /** `/api/register` (server.js:49-64): a taken name is refused with
      'Username already exists'; otherwise a record with zero counters and
      no avatar is added at the end of the iteration order. */
  function Register(s: UserStore, name: string): (r: Option<UserStore>)
    requires ValidStore(s)
    ensures r.None? <==> name in s.records
    ensures r.Some? ==> ValidStore(r.value)
                        && r.value.order == s.order + [name]
                        && r.value.records == s.records[name := UserRecord(0, 0, 0, None)]
  {
    if name in s.records then None
    else
      var order := s.order + [name];
      assert forall i :: 0 <= i < |s.order| ==> order[i] == s.order[i];
      Some(UserStore(order, s.records[name := UserRecord(0, 0, 0, None)]))
  }

  /** `user.avatar = avatar` for a stored user; other users are untouched. */
  function SetAvatar(s: UserStore, name: string, avatar: string): (r: UserStore)
    requires name in s.records
    ensures r.order == s.order && r.records.Keys == s.records.Keys
    ensures r.records[name].avatar == Some(avatar)
    ensures r.records[name].(avatar := None) == s.records[name].(avatar := None)
    ensures forall n :: n in s.records && n != name ==> r.records[n] == s.records[n]
  {
    s.(records := s.records[name := s.records[name].(avatar := Some(avatar))])
  }

  // ---------------------------------------------------------------------
  // Counters

  datatype Stat = Win | Loss | DrawStat

  /** One `++` on one user's counter. */
  datatype Delta = Delta(name: string, stat: Stat)

  function Bump(u: UserRecord, s: Stat): UserRecord
  {
    match s
    case Win => u.(wins := u.wins + 1)
    case Loss => u.(losses := u.losses + 1)
    case DrawStat => u.(draws := u.draws + 1)
  }

  /** How many of the increments in `ds` go to counter `s` of user `n`. */
  function CountOf(ds: seq<Delta>, n: string, s: Stat): nat
  {
    if ds == [] then 0
    else (if ds[0] == Delta(n, s) then 1 else 0) + CountOf(ds[1..], n, s)
  }

  /** Apply the increments in order. An increment for a name that is not
      stored would throw in server.js; the store invariant of the server
      rules that out, and here it changes nothing. */
  function ApplyDeltas(m: map<string, UserRecord>, ds: seq<Delta>): (r: map<string, UserRecord>)
    ensures r.Keys == m.Keys
  {
    if ds == [] then m
    else
      var d := ds[0];
      var m' := if d.name in m then m[d.name := Bump(m[d.name], d.stat)] else m;
      ApplyDeltas(m', ds[1..])
  }

  /** Each stored counter rises by exactly the number of increments aimed
      at it, and nothing else about the record changes. */
  lemma {:induction false} ApplyDeltasCounts(m: map<string, UserRecord>, ds: seq<Delta>, n: string)
    requires n in m
    ensures n in ApplyDeltas(m, ds)
    ensures ApplyDeltas(m, ds)[n].wins == m[n].wins + CountOf(ds, n, Win)
    ensures ApplyDeltas(m, ds)[n].losses == m[n].losses + CountOf(ds, n, Loss)
    ensures ApplyDeltas(m, ds)[n].draws == m[n].draws + CountOf(ds, n, DrawStat)
    ensures ApplyDeltas(m, ds)[n].avatar == m[n].avatar
  {
    if ds != [] {
      var d := ds[0];
      var m' := if d.name in m then m[d.name := Bump(m[d.name], d.stat)] else m;
      ApplyDeltasCounts(m', ds[1..], n);
    }
  }

  // ---------------------------------------------------------------------
  // Leaderboard (server.js:76-82)

  datatype Entry = Entry(username: string, wins: nat, losses: nat, draws: nat)

  /** `Array.from(users.values())` projected to the public fields. */
  function Entries(s: UserStore): (es: seq<Entry>)
    requires ValidStore(s)
    ensures |es| == |s.order|
    ensures forall i :: 0 <= i < |es| ==> es[i].username == s.order[i]
    ensures forall i :: 0 <= i < |es| ==>
              var u := s.records[es[i].username];
              es[i].wins == u.wins && es[i].losses == u.losses && es[i].draws == u.draws
  {
    seq(|s.order|, i requires 0 <= i < |s.order| =>
      var u := s.records[s.order[i]];
      Entry(s.order[i], u.wins, u.losses, u.draws))
  }

  ghost predicate SortedByWins(s: seq<Entry>)
  {
    forall i, j :: 0 <= i < j < |s| ==> s[i].wins >= s[j].wins
  }

  /** Insert `x` before the first element with no more wins than it, so
      that `x` stays ahead of the later elements it ties with. */
  function InsertByWins(x: Entry, t: seq<Entry>): (r: seq<Entry>)
    requires SortedByWins(t)
    ensures SortedByWins(r)
    ensures multiset(r) == multiset(t) + multiset{x}
  {
    if t == [] || x.wins >= t[0].wins then
      InsertFront(x, t);
      [x] + t
    else
      var rest := InsertByWins(x, t[1..]);
      InsertBehind(x, t, rest);
      [t[0]] + rest
  }

  /** The insertion's first case: `x` goes in front. */
  lemma InsertFront(x: Entry, t: seq<Entry>)
    requires SortedByWins(t) && (t == [] || x.wins >= t[0].wins)
    ensures SortedByWins([x] + t)
  {
    assert forall i :: 0 <= i < |t| ==> t[i].wins <= x.wins by {
      if t != [] { assert forall i :: 0 < i < |t| ==> t[0].wins >= t[i].wins; }
    }
    ConsSorted(x, t);
  }

  /** The insertion's second case: the head stays in front of the tail
      with `x` inserted. */
  lemma InsertBehind(x: Entry, t: seq<Entry>, rest: seq<Entry>)
    requires SortedByWins(t) && t != [] && x.wins < t[0].wins
    requires SortedByWins(rest) && multiset(rest) == multiset(t[1..]) + multiset{x}
    ensures SortedByWins([t[0]] + rest)
    ensures multiset([t[0]] + rest) == multiset(t) + multiset{x}
  {
    assert multiset(rest) == multiset(t[1..] + [x]);
    assert forall i :: 0 <= i < |t[1..] + [x]| ==> (t[1..] + [x])[i].wins <= t[0].wins by {
      assert forall i :: 0 < i < |t| ==> t[0].wins >= t[i].wins;
    }
    BoundedByWins(rest, t[1..] + [x], t[0].wins);
    ConsSorted(t[0], rest);
    assert t == [t[0]] + t[1..];
  }

  /** An element with at least the wins of every element of a sorted
      sequence can go in front of it. */
  lemma ConsSorted(h: Entry, rest: seq<Entry>)
    requires SortedByWins(rest)
    requires forall i :: 0 <= i < |rest| ==> rest[i].wins <= h.wins
    ensures SortedByWins([h] + rest)
  {
    var r := [h] + rest;
    forall i, j | 0 <= i < j < |r| ensures r[i].wins >= r[j].wins {
      assert r[j] == rest[j - 1];
      if i > 0 { assert r[i] == rest[i - 1]; }
    }
  }

  lemma SwapEmpty(a: seq<Entry>, b: seq<Entry>, c: seq<Entry>)
    requires a == [] || b == []
    ensures a + (b + c) == b + (a + c)
  {
    if a == [] {
      assert a + (b + c) == b + c && a + c == c;
    } else {
      assert b + (a + c) == a + c && b + c == c;
    }
  }

  lemma SortedTail(t: seq<Entry>)
    requires SortedByWins(t) && t != []
    ensures SortedByWins(t[1..])
  {
    assert forall i :: 0 <= i < |t[1..]| ==> t[1..][i] == t[i + 1];
  }

  /** A bound on wins carries over to a permutation. */
  lemma BoundedByWins(a: seq<Entry>, b: seq<Entry>, w: nat)
    requires multiset(a) == multiset(b)
    requires forall i :: 0 <= i < |b| ==> b[i].wins <= w
    ensures forall i :: 0 <= i < |a| ==> a[i].wins <= w
  {
    forall i | 0 <= i < |a| ensures a[i].wins <= w {
      assert a[i] in multiset(b);
      var k :| 0 <= k < |b| && b[k] == a[i];
    }
  }

  /** The stable sort that `.sort((a, b) => b.wins - a.wins)` performs
      (JavaScript's sort is stable): most wins first, ties in iteration
      order. */
  function SortByWins(s: seq<Entry>): (r: seq<Entry>)
    ensures SortedByWins(r)
    ensures multiset(r) == multiset(s)
    ensures |r| == |s|
  {
    if s == [] then []
    else
      assert s == [s[0]] + s[1..];
      InsertByWins(s[0], SortByWins(s[1..]))
  }

  /** The entries with exactly `w` wins, in order. */
  function WithWins(s: seq<Entry>, w: nat): seq<Entry>
  {
    if s == [] then []
    else (if s[0].wins == w then [s[0]] else []) + WithWins(s[1..], w)
  }

  lemma {:induction false} InsertKeepsTies(x: Entry, t: seq<Entry>, w: nat)
    requires SortedByWins(t)
    ensures WithWins(InsertByWins(x, t), w)
            == (if x.wins == w then [x] else []) + WithWins(t, w)
  {
    var xs := if x.wins == w then [x] else [];
    if t == [] || x.wins >= t[0].wins {
      assert InsertByWins(x, t) == [x] + t;
      assert ([x] + t)[1..] == t;
    } else {
      SortedTail(t);
      var rest := InsertByWins(x, t[1..]);
      var ts := if t[0].wins == w then [t[0]] else [];
      assert InsertByWins(x, t) == [t[0]] + rest;
      assert ([t[0]] + rest)[1..] == rest;
      InsertKeepsTies(x, t[1..], w);
      assert ts == [] || xs == [];
      var tail := WithWins(t[1..], w);
      calc {
        WithWins([t[0]] + rest, w);
        ts + WithWins(rest, w);
        ts + (xs + tail);
        { SwapEmpty(ts, xs, tail); }
        xs + (ts + tail);
        xs + WithWins(t, w);
      }
    }
  }

  /** Stability: the entries that tie on any number of wins keep their
      relative order. */
  lemma {:induction false} SortKeepsTies(s: seq<Entry>, w: nat)
    ensures WithWins(SortByWins(s), w) == WithWins(s, w)
  {
    if s != [] {
      SortKeepsTies(s[1..], w);
      InsertKeepsTies(s[0], SortByWins(s[1..]), w);
    }
  }

  /** `.slice(0, 10)` of the ranking. */
  function Leaderboard(s: UserStore): (top: seq<Entry>)
    requires ValidStore(s)
    ensures |top| == if |s.order| < 10 then |s.order| else 10
  {
    var ranked := SortByWins(Entries(s));
    ranked[..if |ranked| < 10 then |ranked| else 10]
  }

  /** The leaderboard lists min(10, number of users) users, most wins
      first, each of them a stored user, and nobody left off it has more
      wins than anybody on it. */
  lemma LeaderboardSpec(s: UserStore)
    requires ValidStore(s)
    ensures |Leaderboard(s)| == if |s.order| < 10 then |s.order| else 10
    ensures SortedByWins(Leaderboard(s))
    ensures forall e :: e in Leaderboard(s) ==> e in Entries(s)
    ensures forall e, t :: e in Entries(s) && e !in Leaderboard(s) && t in Leaderboard(s) ==> e.wins <= t.wins
  {
    var es := Entries(s);
    var ranked := SortByWins(es);
    var k := if |ranked| < 10 then |ranked| else 10;
    assert Leaderboard(s) == ranked[..k];
    SortedPrefix(ranked, k);
    PrefixMembers(es, ranked, k);
    PrefixCutoff(es, ranked, k);
  }

  lemma SortedPrefix(r: seq<Entry>, k: nat)
    requires SortedByWins(r) && k <= |r|
    ensures SortedByWins(r[..k])
  {
    assert forall i :: 0 <= i < k ==> r[..k][i] == r[i];
  }

  lemma PrefixMembers(es: seq<Entry>, r: seq<Entry>, k: nat)
    requires multiset(r) == multiset(es) && k <= |r|
    ensures forall e :: e in r[..k] ==> e in es
  {
    forall e | e in r[..k] ensures e in es {
      assert e in r;
      assert e in multiset(r);
    }
  }

  lemma PrefixCutoff(es: seq<Entry>, r: seq<Entry>, k: nat)
    requires SortedByWins(r) && multiset(r) == multiset(es) && k <= |r|
    ensures forall e, t :: e in es && e !in r[..k] && t in r[..k] ==> e.wins <= t.wins
  {
    forall e, t | e in es && e !in r[..k] && t in r[..k] ensures e.wins <= t.wins {
      assert e in multiset(es);
      var i :| 0 <= i < |r| && r[i] == e;
      var j :| 0 <= j < k && r[..k][j] == t;
      assert r[j] == t;
      assert forall m :: 0 <= m < k ==> r[..k][m] == r[m];
    }
  }

  /** Users that tie on wins appear on the leaderboard in iteration order,
      as the first of them in the full ranking. */
  lemma LeaderboardKeepsTies(s: UserStore, w: nat)
    requires ValidStore(s)
    ensures WithWins(Leaderboard(s), w) <= WithWins(Entries(s), w)
  {
    var es := Entries(s);
    var ranked := SortByWins(es);
    assert |ranked| == |multiset(ranked)| == |es|;
    var k := if |ranked| < 10 then |ranked| else 10;
    assert Leaderboard(s) == ranked[..k];
    RankedPrefixKeepsTies(es, k, w);
  }

  /** Any prefix of the ranking lists the users of one win count in their
      original order. */
  lemma RankedPrefixKeepsTies(es: seq<Entry>, k: nat, w: nat)
    requires k <= |SortByWins(es)|
    ensures WithWins(SortByWins(es)[..k], w) <= WithWins(es, w)
  {
    var ranked := SortByWins(es);
    assert ranked == ranked[..k] + ranked[k..];
    WithWinsAppend(ranked[..k], ranked[k..], w);
    SortKeepsTies(es, w);
  }

  lemma {:induction false} WithWinsAppend(a: seq<Entry>, b: seq<Entry>, w: nat)
    ensures WithWins(a + b, w) == WithWins(a, w) + WithWins(b, w)
  {
    if a != [] {
      assert (a + b)[1..] == a[1..] + b;
      WithWinsAppend(a[1..], b, w);
    } else {
      assert a + b == b;
    }
  }
}
