/** Chat emotes of public/script.js: the substitution of `:name:` tokens
    by icon markup when a message is shown (`processEmotes`) and the
    insertion of a token at the cursor of the message field (`addEmote`). */
module Emotes {

  // ---------------------------------------------------------------------
  // Global replacement of a literal

  /** `p` occurs in `s` starting at `i`. */
  predicate OccursAt(s: string, p: string, i: nat)
  {
    i + |p| <= |s| && s[i..i + |p|] == p
  }

  ghost predicate Occurs(s: string, p: string)
  {
    exists i: nat :: OccursAt(s, p, i)
  }

  /** `s.replace(new RegExp(p, 'g'), r)` for a pattern `p` that is a
      plain, non-empty literal and a replacement without `$`: the string
      is scanned left to right, and each occurrence found is replaced and
      skipped, so occurrences never overlap. */
  function ReplaceAll(s: string, p: string, r: string): (t: string)
    requires p != []
    ensures forall c :: c in t ==> c in s || c in r
    decreases |s|
  {
    if |s| < |p| then s
    else if s[..|p|] == p then r + ReplaceAll(s[|p|..], p, r)
    else [s[0]] + ReplaceAll(s[1..], p, r)
  }

  /** A string without an occurrence is returned as it is. */
  lemma {:induction false} ReplaceAllAbsent(s: string, p: string, r: string)
    requires p != [] && !Occurs(s, p)
    ensures ReplaceAll(s, p, r) == s
    decreases |s|
  {
    if |s| < |p| {
    } else if s[..|p|] == p {
      assert OccursAt(s, p, 0);
    } else {
      assert !Occurs(s[1..], p) by {
        if Occurs(s[1..], p) {
          var i: nat :| OccursAt(s[1..], p, i);
          assert s[i + 1..i + 1 + |p|] == s[1..][i..i + |p|];
          assert OccursAt(s, p, i + 1);
        }
      }
      ReplaceAllAbsent(s[1..], p, r);
    }
  }

  /** The number of occurrences the scan replaces. */
  function Replaced(s: string, p: string): nat
    requires p != []
    decreases |s|
  {
    if |s| < |p| then 0
    else if s[..|p|] == p then 1 + Replaced(s[|p|..], p)
    else Replaced(s[1..], p)
  }

  /** Each replacement changes the length by `|r| - |p|`. */
  lemma {:induction false} ReplaceAllLength(s: string, p: string, r: string)
    requires p != []
    ensures |ReplaceAll(s, p, r)| == |s| + Replaced(s, p) * (|r| - |p|)
    decreases |s|
  {
    if |s| < |p| {
    } else if s[..|p|] == p {
      var rest := s[|p|..];
      ReplaceAllLength(rest, p, r);
      ScaleStep(Replaced(rest, p), |r| - |p|);
    } else {
      ReplaceAllLength(s[1..], p, r);
    }
  }

  lemma ScaleStep(k: nat, d: int)
    ensures (1 + k) * d == d + k * d
  {
  }

  /** Replacing a literal by itself gives back the string. */
  lemma {:induction false} ReplaceAllSelf(s: string, p: string)
    requires p != []
    ensures ReplaceAll(s, p, p) == s
    decreases |s|
  {
    if |s| < |p| {
    } else if s[..|p|] == p {
      ReplaceAllSelf(s[|p|..], p);
      assert s == s[..|p|] + s[|p|..];
    } else {
      ReplaceAllSelf(s[1..], p);
      assert s == [s[0]] + s[1..];
    }
  }

  /** Text in front of the first occurrence is copied unchanged. */
  lemma {:induction false} ReplaceAllPrefix(a: string, b: string, p: string, r: string)
    requires p != []
    requires forall i: nat :: i < |a| ==> !OccursAt(a + p + b, p, i)
    ensures ReplaceAll(a + p + b, p, r) == a + r + ReplaceAll(b, p, r)
    decreases |a|
  {
    var s := a + p + b;
    if a == [] {
      assert s[..|p|] == p && s[|p|..] == b;
    } else {
      assert !OccursAt(s, p, 0);
      var s' := a[1..] + p + b;
      assert s[1..] == s';
      NoEarlierOccurrence(a, b, p);
      ReplaceAllPrefix(a[1..], b, p, r);
      calc {
        ReplaceAll(s, p, r);
        [s[0]] + ReplaceAll(s', p, r);
        [a[0]] + (a[1..] + r + ReplaceAll(b, p, r));
        { assert a == [a[0]] + a[1..]; }
        a + r + ReplaceAll(b, p, r);
      }
    }
  }

  lemma NoEarlierOccurrence(a: string, b: string, p: string)
    requires a != []
    requires forall i: nat :: i < |a| ==> !OccursAt(a + p + b, p, i)
    ensures forall i: nat :: i < |a[1..]| ==> !OccursAt(a[1..] + p + b, p, i)
  {
    var s := a + p + b;
    forall i: nat | i < |a[1..]| ensures !OccursAt(a[1..] + p + b, p, i) {
      assert !OccursAt(s, p, i + 1);
      assert s[i + 1..i + 1 + |p|] == (a[1..] + p + b)[i..i + |p|];
    }
  }

  // ---------------------------------------------------------------------
  // processEmotes (public/script.js:874-897)

  /** Characters that `emote.replace(/[.*+?^${}()|[\]\\]/g, '\\$&')`
      escapes. */
  predicate IsRegexSpecial(c: char)
  {
    || c == '.' || c == '*' || c == '+' || c == '?' || c == '^' || c == '$'
    || c == '{' || c == '}' || c == '(' || c == ')' || c == '|' || c == '[' || c == ']' || c == '\\'
  }

  /** The escaped regular-expression source built from a token. */
  function EscapeRegExp(s: string): (e: string)
    ensures (forall i :: 0 <= i < |s| ==> !IsRegexSpecial(s[i])) ==> e == s
    ensures |e| >= |s|
  {
    if s == [] then []
    else (if IsRegexSpecial(s[0]) then ['\\', s[0]] else [s[0]]) + EscapeRegExp(s[1..])
  }

  datatype EmoteEntry = EmoteEntry(token: string, html: string)

  /** `emoteMap`, in its key order. */
  const EmoteTable: seq<EmoteEntry> := [
    EmoteEntry(":smile:", "<i class=\"bi bi-emoji-smile\" style=\"color: #fbbf24;\"></i>"),
    EmoteEntry(":laugh:", "<i class=\"bi bi-emoji-laughing\" style=\"color: #fbbf24;\"></i>"),
    EmoteEntry(":cool:", "<i class=\"bi bi-emoji-sunglasses\" style=\"color: #3b82f6;\"></i>"),
    EmoteEntry(":love:", "<i class=\"bi bi-emoji-heart-eyes\" style=\"color: #ef4444;\"></i>"),
    EmoteEntry(":think:", "<i class=\"bi bi-emoji-thinking\" style=\"color: #8b5cf6;\"></i>"),
    EmoteEntry(":sad:", "<i class=\"bi bi-emoji-frown\" style=\"color: #6b7280;\"></i>"),
    EmoteEntry(":angry:", "<i class=\"bi bi-emoji-angry\" style=\"color: #ef4444;\"></i>"),
    EmoteEntry(":thumbsup:", "<i class=\"bi bi-hand-thumbs-up\" style=\"color: #10b981;\"></i>"),
    EmoteEntry(":thumbsdown:", "<i class=\"bi bi-hand-thumbs-down\" style=\"color: #ef4444;\"></i>"),
    EmoteEntry(":heart:", "<i class=\"bi bi-heart-fill\" style=\"color: #ef4444;\"></i>"),
    EmoteEntry(":fire:", "<i class=\"bi bi-fire\" style=\"color: #f97316;\"></i>"),
    EmoteEntry(":star:", "<i class=\"bi bi-star-fill\" style=\"color: #fbbf24;\"></i>")
  ]

  /** A token is `:`, a lower-case name, `:`. */
  predicate IsToken(t: string)
  {
    && |t| >= 3 && t[0] == ':' && t[|t| - 1] == ':'
    && forall i :: 0 < i < |t| - 1 ==> 'a' <= t[i] <= 'z'
  }

  /** Every token is a well-formed `:name:`. */
  lemma TokensWellFormed()
    ensures |EmoteTable| == 12
    ensures forall i :: 0 <= i < |EmoteTable| ==> IsToken(EmoteTable[i].token)
  {
    FirstTokensWellFormed();
    LastTokensWellFormed();
  }

  lemma FirstTokensWellFormed()
    ensures IsToken(":smile:") && IsToken(":laugh:") && IsToken(":cool:") && IsToken(":love:")
    ensures IsToken(":think:") && IsToken(":sad:")
  {
  }

  lemma LastTokensWellFormed()
    ensures IsToken(":angry:") && IsToken(":thumbsup:") && IsToken(":thumbsdown:")
    ensures IsToken(":heart:") && IsToken(":fire:") && IsToken(":star:")
  {
  }

  /** A token holds no regular-expression metacharacter, so the regular
      expression built from it is the token itself and matches it
      literally. */
  lemma TokensMatchLiterally()
    ensures forall i :: 0 <= i < |EmoteTable| ==> EscapeRegExp(EmoteTable[i].token) == EmoteTable[i].token
  {
    TokensWellFormed();
    forall i | 0 <= i < |EmoteTable|
      ensures EscapeRegExp(EmoteTable[i].token) == EmoteTable[i].token
    {
      TokenEscapesToItself(EmoteTable[i].token);
    }
  }

  lemma TokenEscapesToItself(t: string)
    requires IsToken(t)
    ensures EscapeRegExp(t) == t
  {
    assert forall k :: 0 <= k < |t| ==> !IsRegexSpecial(t[k]) by {
      forall k | 0 <= k < |t| ensures !IsRegexSpecial(t[k]) {
        if 0 < k < |t| - 1 {
          assert 'a' <= t[k] <= 'z';
        }
      }
    }
  }

  /** The message after the first `n` entries of the table are applied. */
  function ProcessedBy(message: string, n: nat): (t: string)
    requires n <= |EmoteTable|
  {
    if n == 0 then message
    else ReplaceAll(ProcessedBy(message, n - 1), EmoteTable[n - 1].token, EmoteTable[n - 1].html)
  }

  /** `processEmotes`: every entry, in table order, replaces all of its
      token's occurrences in the message built so far. */
  method ProcessEmotes(message: string) returns (processed: string)
    ensures processed == ProcessedBy(message, |EmoteTable|)
  {
    TokensWellFormed();
    processed := message;
    var i := 0;
    while i < |EmoteTable|
      invariant 0 <= i <= |EmoteTable|
      invariant processed == ProcessedBy(message, i)
    {
      processed := ReplaceAll(processed, EmoteTable[i].token, EmoteTable[i].html);
      i := i + 1;
    }
  }

  /** A message holding none of the tokens is shown as it was written. */
  lemma {:induction false} NoTokensUnchanged(message: string, n: nat)
    requires n <= |EmoteTable|
    requires forall i :: 0 <= i < |EmoteTable| ==> !Occurs(message, EmoteTable[i].token)
    ensures ProcessedBy(message, n) == message
  {
    if n > 0 {
      NoTokensUnchanged(message, n - 1);
      TokensWellFormed();
      ReplaceAllAbsent(message, EmoteTable[n - 1].token, EmoteTable[n - 1].html);
    }
  }

  /** Every token contains a colon, so a message without one is shown as
      it was written. */
  lemma NoColonUnchanged(message: string)
    requires ':' !in message
    ensures ProcessedBy(message, |EmoteTable|) == message
  {
    TokensWellFormed();
    forall i | 0 <= i < |EmoteTable| ensures !Occurs(message, EmoteTable[i].token) {
    }
    NoTokensUnchanged(message, |EmoteTable|);
  }

  // ---------------------------------------------------------------------
  // addEmote (public/script.js:804-822)

  datatype Edit = Edit(value: string, cursor: nat)

  /** `value.slice(0, cursor) + emote + ' ' + value.slice(cursor)` with the
      cursor moved to `cursor + emote.length + 1`. `slice` clamps an index
      past the end; the new cursor is computed from the unclamped one. */
  function AddEmote(value: string, cursor: nat, emote: string): (e: Edit)
    ensures var c := if cursor <= |value| then cursor else |value|;
            && |e.value| == |value| + |emote| + 1
            && e.value[..c] == value[..c]
            && e.value[c..c + |emote| + 1] == emote + " "
            && e.value[c + |emote| + 1..] == value[c..]
    ensures e.cursor == cursor + |emote| + 1
  {
    var c := if cursor <= |value| then cursor else |value|;
    var v := value[..c] + emote + " " + value[c..];
    assert v[..c] == value[..c];
    assert v[c..c + |emote| + 1] == emote + " ";
    assert v[c + |emote| + 1..] == value[c..];
    Edit(v, cursor + |emote| + 1)
  }

  /** With the cursor inside the text, the new cursor sits just after the
      inserted space, and deleting what lies between the two cursors gives
      back the original text. */
  lemma AddEmoteRoundTrip(value: string, cursor: nat, emote: string)
    requires cursor <= |value|
    ensures var e := AddEmote(value, cursor, emote);
            && e.value[..e.cursor] == value[..cursor] + emote + " "
            && e.value[e.cursor..] == value[cursor..]
            && e.value[..cursor] + e.value[e.cursor..] == value
  {
    var e := AddEmote(value, cursor, emote);
    assert e.value[..e.cursor] == e.value[..cursor] + e.value[cursor..e.cursor];
    assert value == value[..cursor] + value[cursor..];
  }
}
