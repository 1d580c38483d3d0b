/** `parse_url`: the openBIS object link given to the export script is checked
    against the ELN address and the second openBIS permID in it (the object's
    own; the first is its parent's) is taken as the permID of the entry. */
module ParseUrl {

  import opened Strings
  import opened Json
  import Writer

  predicate IsDigit(c: char)
  {
    '0' <= c <= '9'
  }

  predicate NoDigit(s: string)
  {
    forall k :: 0 <= k < |s| ==> !IsDigit(s[k])
  }

  /** The shape of `\d{17}-\d+`: 17 digits, a dash and at least one digit. */
  predicate IsPermId(m: string)
  {
    |m| >= 19 && (forall k :: 0 <= k < 17 ==> IsDigit(m[k])) && m[17] == '-' &&
    forall k :: 18 <= k < |m| ==> IsDigit(m[k])
  }

  /** Where the run of digits that starts at `i` ends. */
  function DigitRunEnd(s: string, i: nat): (e: nat)
    requires i <= |s|
    ensures i <= e <= |s|
    ensures forall k :: i <= k < e ==> IsDigit(s[k])
    ensures e == |s| || !IsDigit(s[e])
    decreases |s| - i
  {
    if i == |s| || !IsDigit(s[i]) then i else DigitRunEnd(s, i + 1)
  }

  /** The end of the match of `\d{17}-\d+` that starts at `i`, if any; the
      trailing `\d+` is greedy. */
  function MatchAt(s: string, i: nat): (r: Option<nat>)
    requires i <= |s|
    ensures r.Some? ==> i < r.value <= |s| && IsPermId(s[i..r.value])
    ensures r.Some? ==> r.value == |s| || !IsDigit(s[r.value])
  {
    if i + 19 <= |s| && (forall k :: i <= k < i + 17 ==> IsDigit(s[k])) && s[i + 17] == '-' && IsDigit(s[i + 18]) then
      var e := DigitRunEnd(s, i + 18);
      assert forall k :: 18 <= k < e - i ==> s[i..e][k] == s[i + k];
      Some(e)
    else None
  }

  /** The spans that `re.findall` reports from position `from` on: the
      leftmost match, then the search goes on after its end. */
  function Matches(s: string, from: nat): (spans: seq<(nat, nat)>)
    requires from <= |s|
    ensures forall k :: 0 <= k < |spans| ==> from <= spans[k].0 < spans[k].1 <= |s|
    decreases |s| - from
  {
    if from == |s| then []
    else match MatchAt(s, from)
      case Some(e) => [(from, e)] + Matches(s, e)
      case None => Matches(s, from + 1)
  }

  /** Every reported span holds a permID, and the spans do not overlap. */
  lemma {:induction false} MatchesArePermIds(s: string, from: nat)
    requires from <= |s|
    ensures forall k :: 0 <= k < |Matches(s, from)| ==>
      IsPermId(s[Matches(s, from)[k].0..Matches(s, from)[k].1])
    ensures forall k :: 0 < k < |Matches(s, from)| ==> Matches(s, from)[k - 1].1 <= Matches(s, from)[k].0
    decreases |s| - from
  {
    if from < |s| {
      match MatchAt(s, from)
      case Some(e) => MatchesArePermIds(s, e);
      case None => MatchesArePermIds(s, from + 1);
    }
  }

  /** Each reported span is the greedy match at its own start. */
  lemma {:induction false} MatchesAreMatchAt(s: string, from: nat)
    requires from <= |s|
    ensures forall k :: 0 <= k < |Matches(s, from)| ==>
      MatchAt(s, Matches(s, from)[k].0) == Some(Matches(s, from)[k].1)
    decreases |s| - from
  {
    if from < |s| {
      match MatchAt(s, from)
      case Some(e) => MatchesAreMatchAt(s, e);
      case None => MatchesAreMatchAt(s, from + 1);
    }
  }

  /** No match is skipped: every position where the pattern matches lies
      inside a reported span, so the reported spans are the leftmost
      non-overlapping matches. */
  lemma {:induction false} MatchesComplete(s: string, from: nat, i: nat)
    requires from <= i < |s| && MatchAt(s, i).Some?
    ensures exists k :: 0 <= k < |Matches(s, from)| && Matches(s, from)[k].0 <= i < Matches(s, from)[k].1
    decreases |s| - from
  {
    var spans := Matches(s, from);
    match MatchAt(s, from)
    case Some(e) =>
      assert spans == [(from, e)] + Matches(s, e);
      if i < e {
        assert spans[0].0 <= i < spans[0].1;
      } else {
        MatchesComplete(s, e, i);
        var k :| 0 <= k < |Matches(s, e)| && Matches(s, e)[k].0 <= i < Matches(s, e)[k].1;
        assert spans[k + 1] == Matches(s, e)[k];
      }
    case None =>
      assert spans == Matches(s, from + 1);
      MatchesComplete(s, from + 1, i);
  }

  /** `re.findall(r"\d{17}-\d+", s)` */
  function FindAll(s: string): (ms: seq<string>)
    ensures |ms| == |Matches(s, 0)|
    ensures forall k :: 0 <= k < |ms| ==> IsPermId(ms[k])
  {
    var spans := Matches(s, 0);
    MatchesArePermIds(s, 0);
    seq(|spans|, k requires 0 <= k < |spans| => s[spans[k].0..spans[k].1])
  }

  /** Each string `findall` reports is the greedy match at its span's start. */
  lemma FindAllGreedy(s: string)
    ensures forall k :: 0 <= k < |FindAll(s)| ==>
      MatchAt(s, Matches(s, 0)[k].0) == Some(Matches(s, 0)[k].1) &&
      FindAll(s)[k] == s[Matches(s, 0)[k].0..Matches(s, 0)[k].1]
  {
    MatchesAreMatchAt(s, 0);
  }

  /** `findall` drops no match: a match starting anywhere in the text
      overlaps a reported one. */
  lemma FindAllComplete(s: string, i: nat)
    requires i < |s| && MatchAt(s, i).Some?
    ensures exists k :: 0 <= k < |FindAll(s)| && Matches(s, 0)[k].0 <= i < Matches(s, 0)[k].1
  {
    MatchesComplete(s, 0, i);
  }

  /** `re.search("^" + pattern, s)` for a pattern whose only special
      character is `.`, which matches any character but a newline. */
  predicate RegexPrefixMatches(pattern: string, s: string)
  {
    |pattern| <= |s| &&
    forall k :: 0 <= k < |pattern| ==> if pattern[k] == '.' then s[k] != '\n' else s[k] == pattern[k]
  }

  /** Both ways of reading the ELN check share the permID extraction:
      fewer than two permIDs raise IndexError, else the second one. */
  function SecondPermId(url: string): (r: Outcome<string>)
    ensures r.Raised? <==> |FindAll(url)| < 2
    ensures r.Raised? ==> r.error == IndexError
    ensures r.Ok? ==> r.value == FindAll(url)[1] && IsPermId(r.value)
  {
    var ms := FindAll(url);
    if |ms| < 2 then Raised(IndexError) else Ok(ms[1])
  }

  /** `parse_url` as written: the ELN address is used as a regular
      expression, so each of its dots matches any character. */
  function ParseUrlAsWritten(url: string): (r: Outcome<string>)
    ensures r.Raised? ==> r.error == IndexError
    ensures r.Ok? <==> RegexPrefixMatches(Writer.ELN_URI, url) && |FindAll(url)| >= 2
    ensures r.Ok? ==> r.value == FindAll(url)[1] && IsPermId(r.value)
  {
    if RegexPrefixMatches(Writer.ELN_URI, url) then SecondPermId(url) else Raised(IndexError)
  }

  /** `parse_url` with the ELN address compared literally, as intended. */
  function ParseUrl(url: string): (r: Outcome<string>)
    ensures r.Raised? ==> r.error == IndexError
    ensures r.Ok? <==> IsPrefix(Writer.ELN_URI, url) && |FindAll(url)| >= 2
    ensures r.Ok? ==> r.value == FindAll(url)[1] && IsPermId(r.value)
  {
    if IsPrefix(Writer.ELN_URI, url) then SecondPermId(url) else Raised(IndexError)
  }

  /** The result is a piece of the link, found after another permID. */
  lemma ParseUrlFindsSecond(url: string)
    requires ParseUrl(url).Ok?
    ensures var spans := Matches(url, 0);
      |spans| >= 2 && ParseUrl(url).value == url[spans[1].0..spans[1].1] &&
      IsPermId(url[spans[0].0..spans[0].1]) && spans[0].1 <= spans[1].0
  {
    MatchesArePermIds(url, 0);
  }

  // ---------------------------------------------------------------------
  // An object link gives back its own permID
  // ---------------------------------------------------------------------

  /** Text without digits holds no match. */
  lemma {:induction false} SkipNoDigits(s: string, from: nat, n: nat)
    requires from + n <= |s|
    requires forall k :: from <= k < from + n ==> !IsDigit(s[k])
    ensures Matches(s, from) == Matches(s, from + n)
    decreases n
  {
    if n > 0 {
      assert MatchAt(s, from).None? by {
        assert !IsDigit(s[from]);
      }
      SkipNoDigits(s, from + 1, n - 1);
    }
  }

  /** A permID followed by a non-digit, or by the end, is matched whole. */
  lemma MatchPermIdAt(s: string, i: nat, p: string)
    requires IsPermId(p) && i + |p| <= |s| && s[i..i + |p|] == p
    requires i + |p| == |s| || !IsDigit(s[i + |p|])
    ensures MatchAt(s, i) == Some(i + |p|)
  {
    assert forall k :: 0 <= k < |p| ==> s[i + k] == p[k];
    DigitRunEndAt(s, i + 18, i + |p|);
  }

  lemma {:induction false} DigitRunEndAt(s: string, i: nat, e: nat)
    requires i <= e <= |s|
    requires forall k :: i <= k < e ==> IsDigit(s[k])
    requires e == |s| || !IsDigit(s[e])
    ensures DigitRunEnd(s, i) == e
    decreases e - i
  {
    if i < e {
      DigitRunEndAt(s, i + 1, e);
    }
  }

  /** Text whose digits are exactly two permIDs, separated by a non-digit,
      holds those two matches. */
  lemma FindsTwo(a: string, parent: string, b: string, own: string, c: string)
    requires IsPermId(parent) && IsPermId(own)
    requires NoDigit(a) && NoDigit(b) && NoDigit(c) && b != ""
    ensures FindAll(a + parent + b + own + c) == [parent, own]
  {
    var s := a + parent + b + own + c;
    var i1 := |a|;
    var e1 := i1 + |parent|;
    var i2 := e1 + |b|;
    var e2 := i2 + |own|;
    assert |s| == e2 + |c|;
    assert forall k :: 0 <= k < i1 ==> s[k] == a[k];
    assert s[i1..e1] == parent;
    assert s[e1] == b[0];
    assert forall k :: e1 <= k < i2 ==> s[k] == b[k - e1];
    assert s[i2..e2] == own;
    assert forall k :: e2 <= k < |s| ==> s[k] == c[k - e2];
    MatchPermIdAt(s, i1, parent);
    MatchPermIdAt(s, i2, own);
    MatchesTwo(s, i1, e1, i2, e2);
    FindAllOfTwo(s, i1, e1, i2, e2);
  }

  /** A match at `i` is reported, and the search goes on at its end. */
  lemma MatchesStep(s: string, i: nat, e: nat)
    requires i < |s| && MatchAt(s, i) == Some(e)
    ensures Matches(s, i) == [(i, e)] + Matches(s, e)
  {
  }

  /** Nothing is found at the end of the text. */
  lemma MatchesAtEnd(s: string)
    ensures Matches(s, |s|) == []
  {
  }

  /** The match spans of text whose digits are two matches at known places. */
  lemma MatchesTwo(s: string, i1: nat, e1: nat, i2: nat, e2: nat)
    requires i1 < e1 < i2 < e2 <= |s|
    requires MatchAt(s, i1) == Some(e1) && MatchAt(s, i2) == Some(e2)
    requires forall k :: 0 <= k < i1 ==> !IsDigit(s[k])
    requires forall k :: e1 <= k < i2 ==> !IsDigit(s[k])
    requires forall k :: e2 <= k < |s| ==> !IsDigit(s[k])
    ensures Matches(s, 0) == [(i1, e1), (i2, e2)]
  {
    MatchesOnly(s, e1, i2, e2);
    MatchesFirst(s, i1, e1);
  }

  /** From `from` on, the only match is the one at `i`. */
  lemma MatchesOnly(s: string, from: nat, i: nat, e: nat)
    requires from <= i < e <= |s| && MatchAt(s, i) == Some(e)
    requires forall k :: from <= k < i ==> !IsDigit(s[k])
    requires forall k :: e <= k < |s| ==> !IsDigit(s[k])
    ensures Matches(s, from) == [(i, e)]
  {
    MatchesLast(s, i, e);
    SkipNoDigits(s, from, i - from);
  }

  /** The first match is the one at `i`, when no digit comes before it. */
  lemma MatchesFirst(s: string, i: nat, e: nat)
    requires i < |s| && MatchAt(s, i) == Some(e)
    requires forall k :: 0 <= k < i ==> !IsDigit(s[k])
    ensures Matches(s, 0) == [(i, e)] + Matches(s, e)
  {
    MatchesStep(s, i, e);
    SkipNoDigits(s, 0, i);
  }

  /** A match followed by no digit up to the end is the last one. */
  lemma MatchesLast(s: string, i: nat, e: nat)
    requires i < |s| && MatchAt(s, i) == Some(e)
    requires forall k :: e <= k < |s| ==> !IsDigit(s[k])
    ensures Matches(s, i) == [(i, e)]
  {
    SkipNoDigits(s, e, |s| - e);
    MatchesAtEnd(s);
    MatchesStep(s, i, e);
  }

  /** The texts of two spans. */
  lemma FindAllOfTwo(s: string, i1: nat, e1: nat, i2: nat, e2: nat)
    requires i1 <= e1 <= |s| && i2 <= e2 <= |s|
    requires Matches(s, 0) == [(i1, e1), (i2, e2)]
    ensures FindAll(s) == [s[i1..e1], s[i2..e2]]
  {
    assert FindAll(s)[0] == s[i1..e1];
  }

  /** A link on the ELN whose digits are exactly two permIDs, the parent's
      and then the object's, gives the object's permID. */
  lemma ObjectLinkGivesItsPermId(a: string, parent: string, b: string, own: string, c: string)
    requires IsPermId(parent) && IsPermId(own)
    requires NoDigit(a) && NoDigit(b) && NoDigit(c) && b != ""
    ensures ParseUrl(Writer.ELN_URI + a + parent + b + own + c) == Ok(own)
  {
    var prefix := Writer.ELN_URI + a;
    assert NoDigit(prefix) by {
      assert forall k :: 0 <= k < |Writer.ELN_URI| ==> prefix[k] == Writer.ELN_URI[k];
      assert forall k :: |Writer.ELN_URI| <= k < |prefix| ==> prefix[k] == a[k - |Writer.ELN_URI|];
    }
    FindsTwo(prefix, parent, b, own, c);
    assert Writer.ELN_URI + a + parent + b + own + c == prefix + parent + b + own + c;
  }

  // ---------------------------------------------------------------------
  // The unescaped ELN address
  // ---------------------------------------------------------------------

  /** A host that only looks like the ELN's passes the check as written and
      yields a permID; the literal check rejects it. */
  lemma LookalikeHostPasses()
    ensures ParseUrlAsWritten("https://myXelnYde/" + "12345678901234567-1" + "/" + "12345678901234567-2" + "") ==
      Ok("12345678901234567-2")
    ensures ParseUrl("https://myXelnYde/" + "12345678901234567-1" + "/" + "12345678901234567-2" + "") ==
      Raised(IndexError)
  {
    var s := "https://myXelnYde/" + "12345678901234567-1" + "/" + "12345678901234567-2" + "";
    assert RegexPrefixMatches(Writer.ELN_URI, s);
    assert s[10] != Writer.ELN_URI[10];
    FindsTwo("https://myXelnYde/", "12345678901234567-1", "/", "12345678901234567-2", "");
  }
}
