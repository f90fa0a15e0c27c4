/**
 * Strings: the few `String.prototype` operations the front end relies on,
 * over `seq<char>`. Lower-casing is ASCII-only.
 */
module Strings {

  predicate IsUpperAscii(c: char)
  {
    'A' <= c <= 'Z'
  }

  /** `toLowerCase` on one character, restricted to ASCII letters. */
  function LowerChar(c: char): (r: char)
    ensures IsUpperAscii(c) ==> r as int == c as int + 32
    ensures !IsUpperAscii(c) ==> r == c
    ensures !IsUpperAscii(r)
  {
    if IsUpperAscii(c) then (c as int + 32) as char else c
  }

  /** `s.toLowerCase()`. */
  function Lower(s: string): (r: string)
    ensures |r| == |s|
    ensures forall i :: 0 <= i < |s| ==> r[i] == LowerChar(s[i])
  {
    if s == [] then [] else [LowerChar(s[0])] + Lower(s[1..])
  }

  /** `sub` occurs in `s` starting at index `i`. */
  predicate OccursAt(s: string, sub: string, i: int)
  {
    0 <= i && i + |sub| <= |s| && s[i..i + |sub|] == sub
  }

  /** `s.includes(sub)`, scanning from the left. */
  function Includes(s: string, sub: string): (r: bool)
    ensures r <==> exists i :: OccursAt(s, sub, i)
    decreases |s|
  {
    if OccursAt(s, sub, 0) then true
    else if s == [] then false
    else
      var rest := Includes(s[1..], sub);
      assert rest ==> exists i :: OccursAt(s, sub, i) by {
        if rest {
          var i :| OccursAt(s[1..], sub, i);
          assert s[i + 1..i + 1 + |sub|] == s[1..][i..i + |sub|];
          assert OccursAt(s, sub, i + 1);
        }
      }
      assert (exists i :: OccursAt(s, sub, i)) ==> rest by {
        if exists i :: OccursAt(s, sub, i) {
          var i :| OccursAt(s, sub, i);
          assert i != 0;
          assert s[1..][i - 1..i - 1 + |sub|] == s[i..i + |sub|];
          assert OccursAt(s[1..], sub, i - 1);
        }
      }
      rest
  }

  /** `s.endsWith(suffix)`. */
  predicate EndsWith(s: string, suffix: string)
  {
    |suffix| <= |s| && s[|s| - |suffix|..] == suffix
  }

  /** `s.replace(/x/g, y)` for a single character `x`: every `x` becomes `y`. */
  function ReplaceAll(s: string, x: char, y: char): (r: string)
    ensures |r| == |s|
    ensures forall i :: 0 <= i < |s| ==> r[i] == (if s[i] == x then y else s[i])
  {
    if s == [] then []
    else [if s[0] == x then y else s[0]] + ReplaceAll(s[1..], x, y)
  }

  /** `s.replace(x, y)` with a string pattern: only the first `x` becomes `y`. */
  function ReplaceFirst(s: string, x: char, y: char): (r: string)
    ensures |r| == |s|
    ensures forall i :: 0 <= i < |s| ==> r[i] == (if s[i] == x && x !in s[..i] then y else s[i])
  {
    if s == [] then []
    else if s[0] == x then
      assert forall i :: 0 < i < |s| ==> s[..i][0] == x;
      [y] + s[1..]
    else
      var rest := ReplaceFirst(s[1..], x, y);
      var r := [s[0]] + rest;
      assert forall i :: 0 < i < |s| ==> r[i] == (if s[i] == x && x !in s[..i] then y else s[i]) by {
        forall i | 0 < i < |s|
          ensures r[i] == (if s[i] == x && x !in s[..i] then y else s[i])
        {
          assert s[..i] == [s[0]] + s[1..][..i - 1];
          assert r[i] == rest[i - 1];
        }
      }
      r
  }

  /** After replacing every `x` by a different `y`, no `x` is left, and doing it again changes nothing. */
  lemma ReplaceAllClears(s: string, x: char, y: char)
    requires x != y
    ensures x !in ReplaceAll(s, x, y)
    ensures ReplaceAll(ReplaceAll(s, x, y), x, y) == ReplaceAll(s, x, y)
  {
    var r := ReplaceAll(s, x, y);
    assert forall i :: 0 <= i < |r| ==> r[i] != x;
  }
}
