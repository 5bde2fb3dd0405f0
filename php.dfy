/**
 * The small pieces of PHP string semantics the Docs command relies on:
 * truthiness, the `?:` operator, explode/implode on one separator,
 * strtolower, a boolean converted to a string, and Laravel's ends_with.
 */
module Php {
  import opened Wrappers

  /** A PHP string is falsy exactly when it is "" or "0". */
  predicate Truthy(s: string)
    ensures Truthy(s) <==> |s| >= 2 || (|s| == 1 && s[0] != '0')
  {
    s != "" && s != "0"
  }

  /** An option value is truthy when it is set (not null) and its string is truthy. */
  predicate OptionTruthy(o: Option<string>)
    ensures o.None? ==> !OptionTruthy(o)
    ensures o.Some? ==> (OptionTruthy(o) <==> |o.value| >= 2 || (|o.value| == 1 && o.value[0] != '0'))
  {
    o.Some? && Truthy(o.value)
  }

  /** `$option ?: $fallback` for a string option. */
  function Elvis(o: Option<string>, fallback: string): (r: string)
    ensures OptionTruthy(o) ==> r == o.value
    ensures !OptionTruthy(o) ==> r == fallback
  {
    match o
    case Some(v) => if Truthy(v) then v else fallback
    case None => fallback
  }

  /** Converting a boolean to a string: true is "1", false is "". */
  function BoolToString(b: bool): (s: string)
    ensures Truthy(s) <==> b
  {
    if b then "1" else ""
  }

  /** strtolower on one character (ASCII letters only). */
  function LowerChar(c: char): (d: char)
    ensures !('A' <= d <= 'Z')
    ensures !('A' <= c <= 'Z') ==> d == c
  {
    if 'A' <= c <= 'Z' then (c as int - 'A' as int + 'a' as int) as char else c
  }

  /** strtolower: every ASCII upper-case letter replaced by its lower-case form. */
  function StrToLower(s: string): (r: string)
    ensures |r| == |s|
    ensures forall i :: 0 <= i < |s| ==> r[i] == LowerChar(s[i])
  {
    seq(|s|, i requires 0 <= i < |s| => LowerChar(s[i]))
  }

  /**
   * Laravel's ends_with for a single needle: `substr($s, -strlen($suffix)) === $suffix`.
   * For the empty needle, substr from -0 is the whole string, so only "" ends with "".
   */
  predicate EndsWith(s: string, suffix: string)
    ensures suffix == [] ==> (EndsWith(s, suffix) <==> s == [])
    ensures suffix != [] ==> (EndsWith(s, suffix) <==>
      |suffix| <= |s| && forall i :: 0 <= i < |suffix| ==> s[|s| - |suffix| + i] == suffix[i])
    ensures EndsWith(s, suffix) ==> |suffix| <= |s| && s == s[..|s| - |suffix|] + suffix
  {
    if suffix == [] then s == [] else |suffix| <= |s| && s[|s| - |suffix|..] == suffix
  }

  /**
   * `$arr[$i]` on a list: an index outside the list reads as null. PHP also
   * raises an "undefined offset" notice there, which is not modelled.
   */
  function ElementAt(parts: seq<string>, i: int): (r: Option<string>)
    ensures r.Some? <==> 0 <= i < |parts|
    ensures r.Some? ==> r.value == parts[i]
  {
    if 0 <= i < |parts| then Some(parts[i]) else None
  }

  /** explode(sep, s): the pieces of s between occurrences of sep, never an empty list. */
  function Explode(sep: char, s: string): (parts: seq<string>)
    ensures |parts| >= 1
    ensures forall i :: 0 <= i < |parts| ==> sep !in parts[i]
  {
    if s == [] then [[]]
    else
      var rest := Explode(sep, s[1..]);
      if s[0] == sep then [[]] + rest
      else [[s[0]] + rest[0]] + rest[1..]
  }

  /** implode(sep, parts): the pieces joined with sep between consecutive ones. */
  function Implode(sep: char, parts: seq<string>): (s: string)
    requires |parts| >= 1
  {
    if |parts| == 1 then parts[0] else parts[0] + [sep] + Implode(sep, parts[1..])
  }

  /** Exploding and imploding on the same separator gives the string back. */
  lemma {:induction false} ImplodeExplode(sep: char, s: string)
    ensures Implode(sep, Explode(sep, s)) == s
  {
    if s != [] {
      var rest := Explode(sep, s[1..]);
      ImplodeExplode(sep, s[1..]);
      if s[0] == sep {
        assert ([[]] + rest)[1..] == rest;
      } else {
        var parts := [[s[0]] + rest[0]] + rest[1..];
        assert parts[1..] == rest[1..];
        if |rest| == 1 {
          assert s == [s[0]] + s[1..];
        } else {
          assert Implode(sep, rest) == rest[0] + [sep] + Implode(sep, rest[1..]);
          assert s == [s[0]] + s[1..];
        }
      }
    }
  }

  /** A string without the separator explodes into itself alone. */
  lemma {:induction false} ExplodeWithoutSeparator(sep: char, s: string)
    requires sep !in s
    ensures Explode(sep, s) == [s]
  {
    if s != [] {
      ExplodeWithoutSeparator(sep, s[1..]);
      assert [s[0]] + s[1..] == s;
    }
  }

  /** Exploding a separator-free piece followed by the separator and more. */
  lemma {:induction false} ExplodeCons(sep: char, p: string, t: string)
    requires sep !in p
    ensures Explode(sep, p + [sep] + t) == [p] + Explode(sep, t)
  {
    if p == [] {
      assert p + [sep] + t == [sep] + t;
      assert ([sep] + t)[1..] == t;
    } else {
      var s := p + [sep] + t;
      assert s[0] == p[0] && s[1..] == p[1..] + [sep] + t;
      ExplodeCons(sep, p[1..], t);
      assert [p[0]] + p[1..] == p;
    }
  }

  /** Imploding separator-free pieces and exploding again gives the pieces back. */
  lemma {:induction false} ExplodeImplode(sep: char, parts: seq<string>)
    requires |parts| >= 1
    requires forall i :: 0 <= i < |parts| ==> sep !in parts[i]
    ensures Explode(sep, Implode(sep, parts)) == parts
  {
    if |parts| == 1 {
      ExplodeWithoutSeparator(sep, parts[0]);
    } else {
      ExplodeImplode(sep, parts[1..]);
      ExplodeCons(sep, parts[0], Implode(sep, parts[1..]));
      assert [parts[0]] + parts[1..] == parts;
    }
  }
}
