/**
 * The three string operations the query evaluator applies to the `range`
 * and `usage` directives of a request: `str.find`, `str.lower` and
 * `str.split` with a one-character separator.
 */
module Strings {
  /** `t` occurs in `s` starting at position `i`. */
  predicate OccursAt(s: string, t: string, i: int)
  {
    0 <= i && i + |t| <= |s| && s[i..i + |t|] == t
  }

  lemma OccursShift(s: string, t: string)
    requires s != []
    ensures forall i :: 0 <= i ==> (OccursAt(s, t, i + 1) <==> OccursAt(s[1..], t, i))
  {
    forall i | 0 <= i
      ensures OccursAt(s, t, i + 1) <==> OccursAt(s[1..], t, i)
    {
      if i + 1 + |t| <= |s| {
        var a, b := s[i + 1..i + 1 + |t|], s[1..][i..i + |t|];
        assert |a| == |b|;
        assert forall j :: 0 <= j < |a| ==> a[j] == s[i + 1 + j] == b[j];
        assert a == b;
      }
    }
  }

  /** `str.find`: the first position at which `t` occurs in `s`, or -1. */
  function Find(s: string, t: string): (r: int)
    ensures -1 <= r <= |s|
    ensures r == -1 <==> forall i :: 0 <= i <= |s| ==> !OccursAt(s, t, i)
    ensures r >= 0 ==> OccursAt(s, t, r) && forall i :: 0 <= i < r ==> !OccursAt(s, t, i)
    decreases |s|
  {
    if |s| < |t| then -1
    else if s[..|t|] == t then
      assert OccursAt(s, t, 0);
      0
    else
      assert !OccursAt(s, t, 0);
      OccursShift(s, t);
      var r := Find(s[1..], t);
      assert forall i :: 1 <= i <= |s| ==> (OccursAt(s, t, i) <==> OccursAt(s[1..], t, i - 1));
      if r == -1 then -1 else r + 1
  }

  /** `str.lower`, restricted to the ASCII letters. */
  function Lower(s: string): string
  {
    seq(|s|, i requires 0 <= i < |s| => if 'A' <= s[i] <= 'Z' then (s[i] as int + 32) as char else s[i])
  }

  /** The inverse of splitting: the parts glued back with the separator between them. */
  function Join(parts: seq<string>, sep: char): string
    requires |parts| >= 1
  {
    if |parts| == 1 then parts[0] else parts[0] + [sep] + Join(parts[1..], sep)
  }

  /**
   * `str.split(sep)`: the maximal separator-free pieces of `s`, empty pieces
   * included; the result joins back to `s`.
   */
  function Split(s: string, sep: char): (parts: seq<string>)
    ensures |parts| >= 1
    ensures forall i :: 0 <= i < |parts| ==> sep !in parts[i]
    ensures Join(parts, sep) == s
    decreases |s|
  {
    if s == [] then [[]]
    else
      var rest := Split(s[1..], sep);
      if s[0] == sep then
        assert ([[]] + rest)[1..] == rest;
        [[]] + rest
      else
        var parts := [[s[0]] + rest[0]] + rest[1..];
        assert |rest| > 1 ==> parts[1..] == rest[1..];
        assert s == [s[0]] + s[1..];
        parts
  }
}
