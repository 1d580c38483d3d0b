/** String helpers shared by the writer, the reader and the table formatters:
    Python's `sep.join`, a single-character split that undoes it, prefix and
    substring tests, ASCII lower-casing and `str()` of an integer. */
module Strings {

  /** `sep.join(parts)` */
  function Join(parts: seq<string>, sep: string): string
  {
    if |parts| == 0 then ""
    else if |parts| == 1 then parts[0]
    else parts[0] + sep + Join(parts[1..], sep)
  }

  /** Joining one more part adds the separator and the part at the end. */
  lemma {:induction false} JoinSnoc(parts: seq<string>, last: string, sep: string)
    ensures Join(parts + [last], sep) == if parts == [] then last else Join(parts, sep) + sep + last
  {
    if |parts| > 1 {
      assert (parts + [last])[1..] == parts[1..] + [last];
      JoinSnoc(parts[1..], last, sep);
    }
  }

  /** `"".join(parts)` */
  function Concat(parts: seq<string>): string
  {
    if parts == [] then "" else Concat(parts[..|parts| - 1]) + parts[|parts| - 1]
  }

  /** Each part followed by the terminator. */
  function Terminated(parts: seq<string>, terminator: string): string
  {
    if parts == [] then "" else Terminated(parts[..|parts| - 1], terminator) + parts[|parts| - 1] + terminator
  }

  /** A terminated run is the parts joined by the terminator, with one empty
      part after the last terminator. */
  lemma {:induction false} TerminatedIsJoin(parts: seq<string>, c: char)
    ensures Terminated(parts, [c]) == Join(parts + [""], [c])
  {
    if parts != [] {
      var n := |parts| - 1;
      TerminatedIsJoin(parts[..n], c);
      assert parts[..n] + [parts[n]] == parts;
      JoinEmptyLast(parts[..n], parts[n], c);
    }
  }

  /** One more part before the trailing empty one. */
  lemma JoinEmptyLast(init: seq<string>, last: string, c: char)
    ensures Join(init + [last] + [""], [c]) == Join(init + [""], [c]) + last + [c]
  {
    var parts := init + [last];
    JoinSnoc(parts, "", [c]);
    assert Join(parts + [""], [c]) == Join(parts, [c]) + [c] + "";
    JoinSnoc(init, last, [c]);
    JoinSnoc(init, "", [c]);
    if init == [] {
      assert Join(parts, [c]) == last && Join(init + [""], [c]) == "";
    } else {
      assert Join(parts, [c]) == Join(init, [c]) + [c] + last;
      assert Join(init + [""], [c]) == Join(init, [c]) + [c] + "";
    }
  }

  /** Index of the first occurrence of `c` in `s`, or `|s|` when there is none. */
  function IndexOf(s: string, c: char): (i: nat)
    ensures i <= |s|
    ensures i < |s| ==> s[i] == c
    ensures forall j :: 0 <= j < i ==> s[j] != c
  {
    if s == [] then 0
    else if s[0] == c then 0
    else 1 + IndexOf(s[1..], c)
  }

  /** `s.split(c)` for a one-character separator. */
  function Split(s: string, c: char): (parts: seq<string>)
    ensures |parts| >= 1
    decreases |s|
  {
    var i := IndexOf(s, c);
    if i == |s| then [s] else [s[..i]] + Split(s[i + 1..], c)
  }

  /** Splitting a joined sequence at its one-character separator gives the
      parts back, provided no part contains the separator. */
  lemma {:induction false} SplitJoin(parts: seq<string>, c: char)
    requires |parts| >= 1
    requires forall k :: 0 <= k < |parts| ==> c !in parts[k]
    ensures Split(Join(parts, [c]), c) == parts
  {
    if |parts| == 1 {
      assert IndexOf(parts[0], c) == |parts[0]|;
    } else {
      SplitJoin(parts[1..], c);
      SplitFirst(parts[0], Join(parts[1..], [c]), c);
      assert parts == [parts[0]] + parts[1..];
    }
  }

  /** Text without the separator, the separator and the rest: the text is
      the first part. */
  lemma SplitFirst(p: string, rest: string, c: char)
    requires c !in p
    ensures Split(p + [c] + rest, c) == [p] + Split(rest, c)
  {
    var s := p + [c] + rest;
    assert forall j :: 0 <= j < |p| ==> s[j] == p[j];
    assert IndexOf(s, c) == |p| by {
      assert s[|p|] == c;
    }
    assert s[..|p|] == p;
    assert s[|p| + 1..] == rest;
  }

  predicate IsPrefix(p: string, s: string)
  {
    |p| <= |s| && s[..|p|] == p
  }

  /** `p in s` for strings: `p` occurs somewhere in `s`. */
  predicate Contains(s: string, p: string)
  {
    exists i :: 0 <= i <= |s| - |p| && IsPrefix(p, s[i..])
  }

  /** `str.lower()` restricted to the ASCII letters. */
  function AsciiLower(s: string): (r: string)
    ensures |r| == |s|
    ensures forall i :: 0 <= i < |s| ==>
      r[i] == (if 'A' <= s[i] <= 'Z' then (s[i] as int + 32) as char else s[i])
  {
    seq(|s|, i requires 0 <= i < |s| =>
      if 'A' <= s[i] <= 'Z' then (s[i] as int + 32) as char else s[i])
  }

  /** A run of `n` copies of `c` (Python's `c * n`). */
  function Repeat(c: char, n: nat): (r: string)
    ensures |r| == n
    ensures forall i :: 0 <= i < n ==> r[i] == c
  {
    seq(n, _ => c)
  }

  function DigitChar(d: nat): char
    requires d < 10
  {
    "0123456789"[d]
  }

  /** Decimal digits of a natural number, most significant first. */
  function NatDigits(n: nat): (r: string)
    ensures |r| >= 1
    decreases n
  {
    if n < 10 then [DigitChar(n)] else NatDigits(n / 10) + [DigitChar(n % 10)]
  }

  /** `str(n)` for a Python int. */
  function IntString(n: int): string
  {
    if n < 0 then "-" + NatDigits(-n) else NatDigits(n)
  }
}
