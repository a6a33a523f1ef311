/** JavaScript value semantics that the server and the client depend on:
    null/undefined, truthiness of strings, the string a value becomes when
    it is used as a property key, the order of the own keys of an object
    literal, and `Array.prototype.find` over a list of keys. */
module JsValues {

  /** `null` or `undefined` (None), or a present value (Some). */
  datatype Option<+T> = None | Some(value: T)

  /** Truthiness of a value that is either absent or a string: the empty
      string is falsy, like null and undefined. */
  predicate Truthy(v: Option<string>)
  {
    v.Some? && v.value != ""
  }

  /** The key `obj[v]` reads: an absent value (`undefined`) is converted
      to the string "undefined". */
  function PropKey(v: Option<string>): (k: string)
    ensures v.Some? ==> k == v.value
    ensures v.None? ==> k == "undefined"
  {
    if v.Some? then v.value else "undefined"
  }

  predicate IsDigit(c: char)
  {
    '0' <= c <= '9'
  }

  predicate AllDigits(s: string)
  {
    forall i :: 0 <= i < |s| ==> IsDigit(s[i])
  }

  /** The decimal value of a string of digits. */
  function DigitsValue(s: string): nat
    requires AllDigits(s)
  {
    if s == [] then 0
    else DigitsValue(s[..|s| - 1]) * 10 + (s[|s| - 1] as int - '0' as int)
  }

  /** A canonical array index: the decimal form, without leading zeros, of
      an integer in [0, 2^32 - 2]. Such keys are listed first, in numeric
      order, by `Object.keys`. */
  predicate IsArrayIndex(s: string)
  {
    && 0 < |s|
    && AllDigits(s)
    && (s[0] == '0' ==> |s| == 1)
    && DigitsValue(s) < 0xFFFF_FFFF
  }

  /** The key order of `{[a]: ..., [b]: ...}`: a repeated key appears once,
      array-index keys come first in ascending numeric order, and the other
      keys follow in insertion order. */
  function OwnKeys(a: string, b: string): (ks: seq<string>)
    ensures a == b ==> ks == [a]
    ensures a != b ==> |ks| == 2 && ks[0] != ks[1] && {ks[0], ks[1]} == {a, b}
    ensures a != b && !IsArrayIndex(a) && !IsArrayIndex(b) ==> ks == [a, b]
    ensures a != b && IsArrayIndex(a) && !IsArrayIndex(b) ==> ks == [a, b]
    ensures a != b && IsArrayIndex(b) && !IsArrayIndex(a) ==> ks == [b, a]
    ensures a != b && IsArrayIndex(a) && IsArrayIndex(b) ==>
              IsArrayIndex(ks[0]) && IsArrayIndex(ks[1]) && DigitsValue(ks[0]) <= DigitsValue(ks[1])
  {
    if a == b then [a]
    else if IsArrayIndex(a) && IsArrayIndex(b) then
      (if DigitsValue(a) <= DigitsValue(b) then [a, b] else [b, a])
    else if IsArrayIndex(b) then [b, a]
    else [a, b]
  }

  /** `keys.find(p => p !== x)`: the first key different from `x`. */
  function FindOther(keys: seq<string>, x: Option<string>): (r: Option<string>)
    ensures r.None? <==> forall i :: 0 <= i < |keys| ==> Some(keys[i]) == x
    ensures r.Some? ==> exists i :: 0 <= i < |keys| && keys[i] == r.value
                                    && forall j :: 0 <= j < i ==> Some(keys[j]) == x
    ensures r.Some? ==> r.value in keys && Some(r.value) != x
  {
    if keys == [] then None
    else if Some(keys[0]) != x then Some(keys[0])
    else
      var rest := FindOther(keys[1..], x);
      assert forall i :: 1 <= i < |keys| ==> keys[i] == keys[1..][i - 1];
      if rest.Some? then
        ghost var i :| 0 <= i < |keys[1..]| && keys[1..][i] == rest.value
                       && forall j :: 0 <= j < i ==> Some(keys[1..][j]) == x;
        assert keys[i + 1] == rest.value;
        rest
      else rest
  }

  /** Removing a value from a list that holds each value at most once
      (`Set.prototype.delete` on an insertion-ordered set). */
  function Without(s: seq<string>, x: string): (r: seq<string>)
    ensures forall y :: y in r <==> y in s && y != x
    ensures |r| <= |s|
    ensures x !in s ==> r == s
  {
    if s == [] then []
    else if s[0] == x then Without(s[1..], x)
    else [s[0]] + Without(s[1..], x)
  }

  predicate Distinct(s: seq<string>)
  {
    forall i, j :: 0 <= i < j < |s| ==> s[i] != s[j]
  }

  /** On a list without repeats, deleting keeps it without repeats. */
  lemma {:induction false} WithoutDistinct(s: seq<string>, x: string)
    requires Distinct(s)
    ensures Distinct(Without(s, x))
  {
    if s != [] {
      assert Distinct(s[1..]) by {
        forall i, j | 0 <= i < j < |s[1..]| ensures s[1..][i] != s[1..][j] {
          assert s[1..][i] == s[i + 1] && s[1..][j] == s[j + 1];
        }
      }
      WithoutDistinct(s[1..], x);
      if s[0] != x {
        assert s[0] !in s[1..] by {
          forall k | 0 <= k < |s[1..]| ensures s[1..][k] != s[0] {
            assert s[1..][k] == s[k + 1];
          }
        }
        var r := [s[0]] + Without(s[1..], x);
        forall i, j | 0 <= i < j < |r| ensures r[i] != r[j] {
          if i == 0 {
            assert r[j] in Without(s[1..], x) by { assert r[j] == Without(s[1..], x)[j - 1]; }
          } else {
            assert r[i] == Without(s[1..], x)[i - 1] && r[j] == Without(s[1..], x)[j - 1];
          }
        }
      }
    }
  }

  /** On a list without repeats, deleting the value at index i closes the
      gap there; everything else keeps its order. */
  lemma {:induction false} WithoutAt(s: seq<string>, i: nat)
    requires Distinct(s) && i < |s|
    ensures Without(s, s[i]) == s[..i] + s[i + 1..]
  {
    var x := s[i];
    if i == 0 {
      assert x !in s[1..] by {
        forall k | 0 <= k < |s[1..]| ensures s[1..][k] != x {
          assert s[1..][k] == s[k + 1];
        }
      }
    } else {
      assert Distinct(s[1..]) by {
        forall a, b | 0 <= a < b < |s[1..]| ensures s[1..][a] != s[1..][b] {
          assert s[1..][a] == s[a + 1] && s[1..][b] == s[b + 1];
        }
      }
      assert s[1..][i - 1] == x;
      WithoutAt(s[1..], i - 1);
      assert s[1..][..i - 1] + s[1..][i..] == s[1..i] + s[i + 1..];
      assert s[..i] == [s[0]] + s[1..i];
    }
  }
}
