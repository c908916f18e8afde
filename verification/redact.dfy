/** Redaction of listed query parameters in URLs by one regular-expression substitution, and of the span
    attributes that carry URLs or credential headers. Letters are ASCII. */
module Redact {

  import opened Wrappers
  import opened Text

  const REDACTED: string := "REDACTED"

  const DEFAULT_NAMES: seq<string> :=
    ["key", "token", "code", "state", "password", "signature", "X-Amz-Signature", "X-Amz-Credential",
     "X-Amz-Security-Token"]

  // -- The pattern (^|[?&;])(name|...)=[^&#;]* ------------------------------------------------------

  predicate IsSep(c: char) { c == '?' || c == '&' || c == ';' }

  predicate EndsValue(c: char) { c == '&' || c == '#' || c == ';' }

  /** The alternation's names, in lower case; for names free of delimiters their order is irrelevant. */
  function PatternNames(extra: seq<string>): seq<string> { LowerAll(DEFAULT_NAMES + extra) }

  function LowerAll(names: seq<string>): seq<string> {
    if names == [] then [] else [Lower(names[0])] + LowerAll(names[1..])
  }

  /** `s` begins with this name, in any case, and an equals sign. */
  predicate Fits(name: string, s: string) {
    |name| < |s| && Lower(s[..|name|]) == name && s[|name|] == '='
  }

  /** The length of the first alternative that fits. */
  function Match(names: seq<string>, s: string): (n: Option<nat>)
    ensures n.Some? ==> n.value < |s|
  {
    if names == [] then None
    else if Fits(names[0], s) then Some(|names[0]|)
    else Match(names[1..], s)
  }

  function AfterValue(s: string): (rest: string)
    ensures |rest| <= |s|
  {
    if s == [] || EndsValue(s[0]) then s else AfterValue(s[1..])
  }

  /** `pattern.sub` with a replacement for the value; `atStart` says whether `^` matches here. */
  function Sub(names: seq<string>, s: string, atStart: bool, r: string): string
    decreases |s|
  {
    var here := if atStart then Match(names, s) else None;
    if here.Some? then
      s[..here.value + 1] + (r + Sub(names, AfterValue(s[here.value + 1..]), false, r))
    else if s == [] then []
    else
      var next := if IsSep(s[0]) then Match(names, s[1..]) else None;
      if next.Some? then
        s[..next.value + 2] + (r + Sub(names, AfterValue(s[next.value + 2..]), false, r))
      else [s[0]] + Sub(names, s[1..], false, r)
  }

  /** `redact_url`. */
  function RedactUrl(names: seq<string>, url: string): string { Sub(names, url, true, REDACTED) }

  // -- Names ---------------------------------------------------------------------------------------------

  predicate IsSpecial(c: char) { IsSep(c) || c == '#' || c == '=' }

  predicate Plain(s: string) { forall i | 0 <= i < |s| :: !IsSpecial(s[i]) }

  predicate Clean(names: seq<string>) { forall i | 0 <= i < |names| :: Plain(names[i]) }

  /** The parameter at the head of `s` has a listed name of length n: an exact match, `key` is not `monkey`. */
  predicate Exact(names: seq<string>, s: string, n: nat) { n < |s| && s[n] == '=' && Lower(s[..n]) in names }

  lemma {:induction false} MatchIsExact(names: seq<string>, s: string)
    ensures Match(names, s).Some? ==> Exact(names, s, Match(names, s).value)
    ensures Match(names, s).None? ==> forall n: nat :: !Exact(names, s, n)
  {
    if names != [] {
      MatchIsExact(names[1..], s);
      assert names == [names[0]] + names[1..];
      forall n: nat | Exact(names, s, n) ensures Match(names, s).Some? {
        assert Lower(s[..n]) == names[0] || Exact(names[1..], s, n);
      }
    }
  }

  lemma ExactIsPlain(names: seq<string>, s: string, n: nat)
    requires Clean(names) && Exact(names, s, n)
    ensures forall i | 0 <= i < n :: !IsSpecial(s[i])
  {
    var low := Lower(s[..n]);
    var k :| 0 <= k < |names| && names[k] == low;
    forall i | 0 <= i < n ensures !IsSpecial(s[i]) {
      assert low[i] == LowerChar(s[i]);
    }
  }

  lemma ExactIsUnique(names: seq<string>, s: string, n: nat, m: nat)
    requires Clean(names) && Exact(names, s, n) && Exact(names, s, m)
    ensures n == m
  {
    ExactIsPlain(names, s, n);
    ExactIsPlain(names, s, m);
  }

  /** Whether the head of `s` is listed depends on its text up to the equals sign alone. */
  lemma ExactPrefix(names: seq<string>, s: string, t: string, n: nat)
    requires n < |s| && n < |t| && s[..n + 1] == t[..n + 1]
    ensures Exact(names, s, n) <==> Exact(names, t, n)
  {
    assert s[..n] == s[..n + 1][..n] == t[..n];
    assert s[n] == s[..n + 1][n] && t[n] == t[..n + 1][n];
  }

  lemma MatchOf(names: seq<string>, s: string, n: nat)
    requires Clean(names) && Exact(names, s, n)
    ensures Match(names, s) == Some(n)
  {
    MatchIsExact(names, s);
    ExactIsUnique(names, s, n, Match(names, s).value);
  }

  // -- The three ways a substitution goes on -------------------------------------------------------------

  lemma SubAtStart(names: seq<string>, s: string, n: nat, r: string)
    requires Clean(names) && Exact(names, s, n)
    ensures Sub(names, s, true, r) == s[..n + 1] + (r + Sub(names, AfterValue(s[n + 1..]), false, r))
  {
    MatchOf(names, s, n);
  }

  lemma SubAtSep(names: seq<string>, s: string, atStart: bool, n: nat, r: string)
    requires Clean(names) && s != [] && IsSep(s[0]) && Exact(names, s[1..], n)
    ensures Sub(names, s, atStart, r) == s[..n + 2] + (r + Sub(names, AfterValue(s[n + 2..]), false, r))
    ensures Sub(names, s, atStart, r)[0] == s[0]
  {
    MatchOf(names, s[1..], n);
    MatchIsExact(names, s);
    if Match(names, s).Some? {
      SepNotExact(names, s, Match(names, s).value);
    }
  }

  lemma SepNotExact(names: seq<string>, s: string, n: nat)
    requires Clean(names) && s != [] && IsSep(s[0])
    ensures !Exact(names, s, n)
  {
    if Exact(names, s, n) {
      ExactIsPlain(names, s, n);
    }
  }

  predicate Unlisted(names: seq<string>, s: string, atStart: bool) {
    (atStart ==> Match(names, s).None?) && (s != [] && IsSep(s[0]) ==> Match(names, s[1..]).None?)
  }

  lemma SubCopies(names: seq<string>, s: string, atStart: bool, r: string)
    requires Unlisted(names, s, atStart)
    ensures Sub(names, s, atStart, r) == if s == [] then [] else [s[0]] + Sub(names, s[1..], false, r)
  {
  }

  /** One of the three. */
  lemma SubCases(names: seq<string>, s: string, atStart: bool) returns (n: nat)
    requires Clean(names)
    ensures (atStart && Exact(names, s, n)) || (s != [] && IsSep(s[0]) && Exact(names, s[1..], n))
        || Unlisted(names, s, atStart)
  {
    MatchIsExact(names, s);
    n := 0;
    if atStart && Match(names, s).Some? {
      n := Match(names, s).value;
    } else if s != [] && IsSep(s[0]) && Match(names, s[1..]).Some? {
      MatchIsExact(names, s[1..]);
      n := Match(names, s[1..]).value;
    }
  }

  /** What follows a value: nothing, or a character that ends values. */
  predicate AtEnd(s: string) { s == [] || EndsValue(s[0]) }

  lemma {:induction false} AfterValueAtEnd(s: string)
    ensures AtEnd(AfterValue(s))
  {
    if s != [] { AfterValueAtEnd(s[1..]); }
  }

  lemma {:induction false} AfterValueSkips(r: string, rest: string)
    requires Plain(r) && AtEnd(rest)
    ensures AfterValue(r + rest) == rest
  {
    if r == [] {
      assert r + rest == rest;
    } else {
      assert (r + rest)[0] == r[0] && (r + rest)[1..] == r[1..] + rest;
      AfterValueSkips(r[1..], rest);
    }
  }

  lemma SubAtEnd(names: seq<string>, s: string, r: string)
    requires Clean(names) && AtEnd(s)
    ensures AtEnd(Sub(names, s, false, r))
  {
    var n := SubCases(names, s, false);
    if Unlisted(names, s, false) {
      SubCopies(names, s, false, r);
    } else {
      SubAtSep(names, s, false, n, r);
    }
  }

  /** Up to the first separator the substitution copies. */
  lemma {:induction false} SubPrefix(names: seq<string>, s: string, r: string, m: nat)
    requires Clean(names) && m <= |Sub(names, s, false, r)|
    requires forall i | 0 <= i < m :: !IsSep(Sub(names, s, false, r)[i])
    ensures m <= |s| && s[..m] == Sub(names, s, false, r)[..m]
    decreases |s|
  {
    var o := Sub(names, s, false, r);
    var n := SubCases(names, s, false);
    if m > 0 {
      if Unlisted(names, s, false) {
        SubCopies(names, s, false, r);
        assert o[1..] == Sub(names, s[1..], false, r);
        SubPrefix(names, s[1..], r, m - 1);
        assert s[..m] == [s[0]] + s[1..][..m - 1];
        assert o[..m] == [o[0]] + o[1..][..m - 1];
      } else {
        SubAtSep(names, s, false, n, r);
      }
    }
  }

  /** A listed name at the head of the result was at the head of the text. */
  lemma ExactBefore(names: seq<string>, s: string, r: string, n: nat)
    requires Clean(names) && Exact(names, Sub(names, s, false, r), n)
    ensures Exact(names, s, n)
  {
    var o := Sub(names, s, false, r);
    ExactIsPlain(names, o, n);
    SubPrefix(names, s, r, n + 1);
    ExactPrefix(names, s, o, n);
  }

  lemma UnlistedAfter(names: seq<string>, s: string, atStart: bool, r: string)
    requires Clean(names) && Unlisted(names, s, atStart)
    ensures Unlisted(names, Sub(names, s, atStart, r), atStart)
  {
    var o := Sub(names, s, atStart, r);
    SubCopies(names, s, atStart, r);
    if s != [] {
      MatchIsExact(names, s);
      MatchIsExact(names, s[1..]);
      MatchIsExact(names, o);
      MatchIsExact(names, o[1..]);
      assert o[1..] == Sub(names, s[1..], false, r);
      if IsSep(s[0]) && Match(names, o[1..]).Some? { ExactBefore(names, s[1..], r, Match(names, o[1..]).value); }
      if atStart && Match(names, o).Some? { HeadBefore(names, s, r, Match(names, o).value); }
    }
  }

  lemma HeadBefore(names: seq<string>, s: string, r: string, n: nat)
    requires Clean(names) && s != [] && Exact(names, [s[0]] + Sub(names, s[1..], false, r), n)
    ensures Exact(names, s, n)
  {
    var tail := Sub(names, s[1..], false, r);
    TailOfExact(names, s[0], tail, n);
    SubPrefix(names, s[1..], r, n);
    PrependPrefix(s[0], s[1..], tail, n);
    assert [s[0]] + s[1..] == s;
    ExactPrefix(names, s, [s[0]] + tail, n);
  }

  lemma TailOfExact(names: seq<string>, c: char, tail: string, n: nat)
    requires Clean(names) && Exact(names, [c] + tail, n)
    ensures n <= |tail| && forall i | 0 <= i < n :: !IsSep(tail[i])
  {
    ExactIsPlain(names, [c] + tail, n);
    forall i | 0 <= i < n ensures !IsSep(tail[i]) { assert ([c] + tail)[i + 1] == tail[i]; }
  }

  lemma PrependPrefix(c: char, a: string, b: string, n: nat)
    requires n <= |a| && n <= |b| && a[..n] == b[..n]
    ensures ([c] + a)[..n + 1] == ([c] + b)[..n + 1]
  {
    assert ([c] + a)[..n + 1] == [c] + a[..n];
    assert ([c] + b)[..n + 1] == [c] + b[..n];
  }

  /** A listed parameter starts at i: the start, or past a separator. */
  predicate Listed(names: seq<string>, s: string, atStart: bool, i: nat, n: nat) {
    i <= |s| && (if i == 0 then atStart else IsSep(s[i - 1])) && Exact(names, s[i..], n)
  }

  lemma FirstListed(names: seq<string>, s: string, atStart: bool, n: nat) returns (k: nat)
    requires (atStart && Exact(names, s, n)) || (s != [] && IsSep(s[0]) && Exact(names, s[1..], n))
    ensures k <= 1 && Listed(names, s, atStart, k, n) && (k == 1 ==> IsSep(s[0])) && k + n < |s|
        && Exact(names, s[k..], n)
  {
    assert s[0..] == s;
    k := if atStart && Exact(names, s, n) then 0 else 1;
  }

  lemma SubListed(names: seq<string>, s: string, atStart: bool, k: nat, n: nat, r: string)
    requires Clean(names) && k <= 1 && Listed(names, s, atStart, k, n)
    ensures k + n + 1 <= |s|
    ensures Sub(names, s, atStart, r) == s[..k + n + 1] + (r + Sub(names, AfterValue(s[k + n + 1..]), false, r))
  {
    assert s[0..] == s;
    if k == 0 { SubAtStart(names, s, n, r); } else { SubAtSep(names, s, atStart, n, r); }
  }

  /** A text that agrees with `s` up to there has the same first listed parameter. */
  lemma ListedStays(names: seq<string>, s: string, o: string, atStart: bool, k: nat, n: nat)
    requires k <= 1 && Listed(names, s, atStart, k, n) && k + n < |s| && k + n < |o| && o[..k + n + 1] == s[..k + n + 1]
    ensures Listed(names, o, atStart, k, n)
  {
    assert s[k..][..n + 1] == s[..k + n + 1][k..] && o[k..][..n + 1] == o[..k + n + 1][k..];
    ExactPrefix(names, s[k..], o[k..], n);
    assert k == 1 ==> s[0] == s[..k + n + 1][0] && o[0] == o[..k + n + 1][0];
  }

  // -- What redaction does --------------------------------------------------------------------------------

  /** Substituting over a substitution is substituting once. With the empty replacement this says that
      nothing but the listed values changes, and that the result depends on nothing else. */
  lemma {:induction false} SubTwice(names: seq<string>, s: string, atStart: bool, r: string, q: string)
    requires Clean(names) && Plain(r)
    ensures Sub(names, Sub(names, s, atStart, r), atStart, q) == Sub(names, s, atStart, q)
    decreases |s|
  {
    var o := Sub(names, s, atStart, r);
    var n := SubCases(names, s, atStart);
    if Unlisted(names, s, atStart) {
      UnlistedAfter(names, s, atStart, r);
      SubCopies(names, s, atStart, r);
      SubCopies(names, s, atStart, q);
      SubCopies(names, o, atStart, q);
      if s != [] {
        assert o[1..] == Sub(names, s[1..], false, r);
        SubTwice(names, s[1..], false, r, q);
      }
    } else {
      var k := FirstListed(names, s, atStart, n);
      var rest := AfterValue(s[k + n + 1..]);
      SubTwice(names, rest, false, r, q);
      SubTwiceListed(names, s, atStart, k, n, r, q, rest);
    }
  }

  lemma SubTwiceListed(names: seq<string>, s: string, atStart: bool, k: nat, n: nat, r: string, q: string, rest: string)
    requires Clean(names) && Plain(r) && k <= 1 && Listed(names, s, atStart, k, n) && k + n < |s|
    requires rest == AfterValue(s[k + n + 1..])
    requires Sub(names, Sub(names, rest, false, r), false, q) == Sub(names, rest, false, q)
    ensures Sub(names, Sub(names, s, atStart, r), atStart, q) == Sub(names, s, atStart, q)
  {
    var o := Sub(names, s, atStart, r);
    SubListed(names, s, atStart, k, n, r);
    SubListed(names, s, atStart, k, n, q);
    ResultHead(names, s, k + n + 1, rest, r);
    ListedStays(names, s, o, atStart, k, n);
    SubListed(names, o, atStart, k, n, q);
  }

  /** The parts of a result whose first listed parameter's value begins at k. */
  lemma ResultHead(names: seq<string>, s: string, k: nat, rest: string, r: string)
    requires Clean(names) && Plain(r) && k <= |s| && rest == AfterValue(s[k..])
    ensures var tail := Sub(names, rest, false, r);
            var o := s[..k] + (r + tail);
            o[..k] == s[..k] && o[k..] == r + tail && AfterValue(o[k..]) == tail && AtEnd(tail)
  {
    AfterValueAtEnd(s[k..]);
    SubAtEnd(names, rest, r);
    AfterValueSkips(r, Sub(names, rest, false, r));
  }

  // -- What is left -----------------------------------------------------------------------------------------

  /** The value there is r, up to the next character that ends values. */
  predicate HasValue(s: string, at: nat, r: string) {
    at + |r| <= |s| && s[at..at + |r|] == r && AtEnd(s[at + |r|..])
  }

  ghost predicate AllValues(names: seq<string>, s: string, atStart: bool, r: string) {
    forall i: nat, n: nat | Listed(names, s, atStart, i, n) :: HasValue(s, i + n + 1, r)
  }

  lemma HasValueShifts(head: string, s: string, at: nat, r: string)
    requires HasValue(s, at, r)
    ensures HasValue(head + s, |head| + at, r)
  {
    var o := head + s;
    assert o[|head| + at..|head| + at + |r|] == s[at..at + |r|];
    assert o[|head| + at + |r|..] == s[at + |r|..];
  }

  /** Past a head without separators and listed names, the listed parameters are those of the tail. */
  lemma TailValues(names: seq<string>, head: string, tail: string, atStart: bool, r: string, i: nat, n: nat)
    requires AllValues(names, tail, false, r) && Listed(names, head + tail, atStart, i, n) && i > |head|
    ensures HasValue(head + tail, i + n + 1, r)
  {
    var o := head + tail;
    var j := i - |head|;
    assert o[i..] == tail[j..] && o[i - 1] == tail[j - 1];
    assert Listed(names, tail, false, j, n);
    HasValueShifts(head, tail, j + n + 1, r);
  }

  /** In a head up to the first listed parameter's new value no other one starts. */
  lemma HeadHasOne(names: seq<string>, s: string, o: string, atStart: bool, k: nat, n: nat, r: string, i: nat, m: nat)
    requires Clean(names) && Plain(r) && k <= 1 && k + n < |s| && (k == 1 ==> IsSep(s[0]))
    requires Exact(names, s[k..], n) && s[..k + n + 1] + r <= o && i != k && i <= k + n + 1 + |r|
    ensures !Listed(names, o, atStart, i, m)
  {
    var head := s[..k + n + 1] + r;
    if i < k {
      assert o[0] == head[0] == s[0];
      assert o[0..] == o;
      SepNotExact(names, o, m);
    } else {
      ExactIsPlain(names, s[k..], n);
      var j := i - 1;
      assert o[j] == head[j];
      assert j < k + n ==> head[j] == s[k..][j - k];
      assert j == k + n ==> head[j] == s[k..][n];
      assert j > k + n ==> head[j] == r[j - (k + n + 1)];
    }
  }

  /** The first listed parameter has its new value, the others are those of the tail. */
  lemma FirstValue(names: seq<string>, s: string, atStart: bool, k: nat, n: nat, tail: string, r: string)
    requires Clean(names) && Plain(r) && k <= 1 && k + n < |s| && (k == 1 ==> IsSep(s[0]))
    requires Exact(names, s[k..], n) && AllValues(names, tail, false, r) && AtEnd(tail)
    ensures AllValues(names, s[..k + n + 1] + (r + tail), atStart, r)
  {
    var head := s[..k + n + 1] + r;
    var o := s[..k + n + 1] + (r + tail);
    assert o == head + tail;
    forall i: nat, m: nat | Listed(names, o, atStart, i, m) ensures HasValue(o, i + m + 1, r) {
      if i > |head| {
        TailValues(names, head, tail, atStart, r, i, m);
      } else {
        if i != k { HeadHasOne(names, s, o, atStart, k, n, r, i, m); }
        ValueOfHead(names, s, k, n, tail, r, m);
      }
    }
  }

  lemma ValueOfHead(names: seq<string>, s: string, k: nat, n: nat, tail: string, r: string, m: nat)
    requires Clean(names) && k + n < |s| && Exact(names, s[k..], n) && AtEnd(tail)
    requires Exact(names, (s[..k + n + 1] + (r + tail))[k..], m)
    ensures HasValue(s[..k + n + 1] + (r + tail), k + m + 1, r)
  {
    var o := s[..k + n + 1] + (r + tail);
    assert o[k..][..n + 1] == s[k..][..n + 1];
    ExactPrefix(names, o[k..], s[k..], n);
    ExactIsUnique(names, o[k..], m, n);
    assert o[k + n + 1..k + n + 1 + |r|] == r;
    assert o[k + n + 1 + |r|..] == tail;
  }

  lemma {:induction false} SubLeaves(names: seq<string>, s: string, atStart: bool, r: string)
    requires Clean(names) && Plain(r)
    ensures AllValues(names, Sub(names, s, atStart, r), atStart, r)
    decreases |s|
  {
    var n := SubCases(names, s, atStart);
    if Unlisted(names, s, atStart) {
      UnlistedAfter(names, s, atStart, r);
      SubCopies(names, s, atStart, r);
      if s != [] { SubLeaves(names, s[1..], false, r); }
      var tail := if s == [] then [] else Sub(names, s[1..], false, r);
      UnlistedValues(names, Sub(names, s, atStart, r), atStart, tail, r);
    } else {
      var k := FirstListed(names, s, atStart, n);
      SubListed(names, s, atStart, k, n, r);
      var rest := AfterValue(s[k + n + 1..]);
      SubLeaves(names, rest, false, r);
      ResultHead(names, s, k + n + 1, rest, r);
      FirstValue(names, s, atStart, k, n, Sub(names, rest, false, r), r);
    }
  }

  lemma UnlistedValues(names: seq<string>, o: string, atStart: bool, tail: string, r: string)
    requires Clean(names) && Unlisted(names, o, atStart) && AllValues(names, tail, false, r)
    requires o == [] ==> tail == []
    requires o != [] ==> o == [o[0]] + tail
    ensures AllValues(names, o, atStart, r)
  {
    MatchIsExact(names, o);
    forall i: nat, m: nat | Listed(names, o, atStart, i, m) ensures HasValue(o, i + m + 1, r) {
      assert o[0..] == o;
      MatchIsExact(names, o[1..]);
      assert i > 1;
      TailValues(names, [o[0]], tail, atStart, r, i, m);
    }
  }

  lemma HasValueDrops(o: string, d: nat, at: nat, r: string)
    requires d <= |o| && HasValue(o, d + at, r)
    ensures HasValue(o[d..], at, r)
  {
    assert o[d..][at..at + |r|] == o[d + at..d + at + |r|];
    assert o[d..][at + |r|..] == o[d + at + |r|..];
  }

  lemma DropValues(names: seq<string>, o: string, atStart: bool, d: nat, r: string)
    requires AllValues(names, o, atStart, r) && 1 <= d <= |o|
    ensures AllValues(names, o[d..], false, r)
  {
    forall i: nat, m: nat | Listed(names, o[d..], false, i, m) ensures HasValue(o[d..], i + m + 1, r) {
      DropValue(names, o, atStart, d, r, i, m);
    }
  }

  lemma DropValue(names: seq<string>, o: string, atStart: bool, d: nat, r: string, i: nat, m: nat)
    requires AllValues(names, o, atStart, r) && 1 <= d <= |o| && Listed(names, o[d..], false, i, m)
    ensures HasValue(o[d..], i + m + 1, r)
  {
    ListedShifts(names, o, atStart, d, i, m);
    ValueOf(names, o, atStart, d + i, m, r);
    HasValueDrops(o, d, i + m + 1, r);
  }

  lemma {:induction false} SubFixes(names: seq<string>, o: string, atStart: bool, r: string)
    requires Clean(names) && Plain(r) && AllValues(names, o, atStart, r)
    ensures Sub(names, o, atStart, r) == o
    decreases |o|
  {
    var n := SubCases(names, o, atStart);
    if Unlisted(names, o, atStart) {
      SubCopies(names, o, atStart, r);
      if o != [] {
        DropValues(names, o, atStart, 1, r);
        SubFixes(names, o[1..], false, r);
      }
    } else {
      var k := FirstListed(names, o, atStart, n);
      var rest := AfterFirstValue(names, o, atStart, k, n, r);
      SubFixes(names, rest, false, r);
      SubKeepsFirst(names, o, atStart, k, n, r, rest);
    }
  }

  lemma AfterFirstValue(names: seq<string>, o: string, atStart: bool, k: nat, n: nat, r: string) returns (rest: string)
    requires Clean(names) && Plain(r) && AllValues(names, o, atStart, r) && Listed(names, o, atStart, k, n)
    ensures k + n < |o| && AfterValue(o[k + n + 1..]) == rest && o == o[..k + n + 1] + (r + rest)
    ensures AllValues(names, rest, false, r) && |rest| < |o|
  {
    var d := FirstText(names, o, atStart, k, n, r);
    DropValues(names, o, atStart, d, r);
    rest := o[d..];
  }

  lemma FirstText(names: seq<string>, o: string, atStart: bool, k: nat, n: nat, r: string) returns (d: nat)
    requires Clean(names) && Plain(r) && AllValues(names, o, atStart, r) && Listed(names, o, atStart, k, n)
    ensures k + n < |o| && 1 <= d <= |o| && AfterValue(o[k + n + 1..]) == o[d..]
    ensures o == o[..k + n + 1] + (r + o[d..])
  {
    ValueOf(names, o, atStart, k, n, r);
    SplitValue(o, k + n + 1, r);
    d := k + n + 1 + |r|;
  }

  lemma ValueOf(names: seq<string>, o: string, atStart: bool, k: nat, n: nat, r: string)
    requires AllValues(names, o, atStart, r) && Listed(names, o, atStart, k, n)
    ensures HasValue(o, k + n + 1, r)
  {
  }

  lemma SubKeepsFirst(names: seq<string>, o: string, atStart: bool, k: nat, n: nat, r: string, rest: string)
    requires Clean(names) && k <= 1 && Listed(names, o, atStart, k, n) && k + n < |o|
    requires AfterValue(o[k + n + 1..]) == rest && o == o[..k + n + 1] + (r + rest)
        && Sub(names, rest, false, r) == rest
    ensures Sub(names, o, atStart, r) == o
  {
    SubListed(names, o, atStart, k, n, r);
  }

  lemma SplitValue(o: string, at: nat, r: string)
    requires Plain(r) && HasValue(o, at, r)
    ensures o == o[..at] + (r + o[at + |r|..]) && AfterValue(o[at..]) == o[at + |r|..]
  {
    var rest := o[at + |r|..];
    assert o[at..] == r + rest;
    AfterValueSkips(r, rest);
  }

  // -- What is outside the values -------------------------------------------------------------------------

  /** Position p is inside the value of some listed parameter: no character that ends values stands between
      the parameter's equals sign and p. */
  ghost predicate InValue(names: seq<string>, s: string, atStart: bool, p: nat)
    requires p < |s|
  {
    exists i: nat, n: nat :: Listed(names, s, atStart, i, n) && Reaches(s, i + n + 1, p)
  }

  predicate Reaches(s: string, start: nat, p: nat)
    requires p < |s|
  {
    start <= p && forall q | start <= q <= p :: !EndsValue(s[q])
  }

  /** The characters from position p on that are in no value. */
  ghost function Outside(names: seq<string>, s: string, atStart: bool, p: nat): string
    requires p <= |s|
    decreases |s| - p
  {
    if p == |s| then []
    else (if InValue(names, s, atStart, p) then [] else [s[p]]) + Outside(names, s, atStart, p + 1)
  }

  /** The URL without the values of its listed parameters. */
  ghost function Blanked(names: seq<string>, url: string): string { Outside(names, url, true, 0) }

  lemma {:induction false} OutsideKeeps(names: seq<string>, s: string, atStart: bool, p: nat, q: nat)
    requires p <= q <= |s| && forall k: nat | p <= k < q :: !InValue(names, s, atStart, k)
    ensures Outside(names, s, atStart, p) == s[p..q] + Outside(names, s, atStart, q)
    decreases q - p
  {
    var rest := Outside(names, s, atStart, q);
    if p < q {
      OutsideKeeps(names, s, atStart, p + 1, q);
      HeadFirst(s, p, q, rest);
    } else {
      assert s[p..q] + rest == rest;
    }
  }

  lemma HeadFirst(s: string, p: nat, q: nat, rest: string)
    requires p < q <= |s|
    ensures s[p..q] + rest == [s[p]] + (s[p + 1..q] + rest)
  {
  }

  ghost predicate AllInside(names: seq<string>, s: string, atStart: bool, p: nat, q: nat)
    requires q <= |s|
  {
    forall k: nat | p <= k < q :: InValue(names, s, atStart, k)
  }

  lemma {:induction false} OutsideSkips(names: seq<string>, s: string, atStart: bool, p: nat, q: nat)
    requires p <= q <= |s| && AllInside(names, s, atStart, p, q)
    ensures Outside(names, s, atStart, p) == Outside(names, s, atStart, q)
    decreases q - p
  {
    if p < q {
      InsideFirst(names, s, atStart, p, q);
      OutsideSkipsOne(names, s, atStart, p);
      OutsideSkips(names, s, atStart, p + 1, q);
    }
  }

  lemma InsideFirst(names: seq<string>, s: string, atStart: bool, p: nat, q: nat)
    requires p < q <= |s| && AllInside(names, s, atStart, p, q)
    ensures InValue(names, s, atStart, p) && AllInside(names, s, atStart, p + 1, q)
  {
  }

  lemma OutsideSkipsOne(names: seq<string>, s: string, atStart: bool, p: nat)
    requires p < |s| && InValue(names, s, atStart, p)
    ensures Outside(names, s, atStart, p) == Outside(names, s, atStart, p + 1)
  {
  }

  /** From d on nothing depends on what came before. */
  ghost predicate Apart(names: seq<string>, s: string, atStart: bool, d: nat)
    requires d <= |s|
  {
    forall p: nat | p < |s| - d :: InValue(names, s, atStart, d + p) <==> InValue(names, s[d..], false, p)
  }

  lemma OutsideShiftsOne(names: seq<string>, s: string, atStart: bool, d: nat, t: string, p: nat)
    requires d + p < |s| && |t| == |s| - d && t[p] == s[d + p]
    requires InValue(names, s, atStart, d + p) == InValue(names, t, false, p)
    requires Outside(names, s, atStart, d + p + 1) == Outside(names, t, false, p + 1)
    ensures Outside(names, s, atStart, d + p) == Outside(names, t, false, p)
  {
  }

  lemma {:induction false} OutsideShifts(names: seq<string>, s: string, atStart: bool, d: nat, p: nat)
    requires d + p <= |s| && Apart(names, s, atStart, d)
    ensures Outside(names, s, atStart, d + p) == Outside(names, s[d..], false, p)
    decreases |s| - d - p
  {
    if d + p < |s| {
      OutsideShifts(names, s, atStart, d, p + 1);
      OutsideShiftsOne(names, s, atStart, d, s[d..], p);
    }
  }

  lemma ReachesShifts(s: string, d: nat, start: nat, p: nat)
    requires d + p < |s|
    ensures Reaches(s[d..], start, p) <==> Reaches(s, d + start, d + p)
  {
    assert forall q | 0 <= q < |s| - d :: s[d..][q] == s[d + q];
    if Reaches(s[d..], start, p) {
      forall q | d + start <= q <= d + p ensures !EndsValue(s[q]) { assert s[d..][q - d] == s[q]; }
    }
  }

  lemma ListedShifts(names: seq<string>, s: string, atStart: bool, d: nat, i: nat, n: nat)
    requires 1 <= i && d + i <= |s|
    ensures Listed(names, s[d..], false, i, n) <==> Listed(names, s, atStart, d + i, n)
  {
    assert s[d..][i..] == s[d + i..] && s[d..][i - 1] == s[d + i - 1];
  }

  lemma InValueShifts(names: seq<string>, s: string, atStart: bool, d: nat, p: nat)
    requires d + p < |s| && InValue(names, s[d..], false, p)
    ensures InValue(names, s, atStart, d + p)
  {
    var i: nat, n: nat :| Listed(names, s[d..], false, i, n) && Reaches(s[d..], i + n + 1, p);
    ListedShifts(names, s, atStart, d, i, n);
    ReachesShifts(s, d, i + n + 1, p);
    assert Reaches(s, (d + i) + n + 1, d + p);
  }

  /** A listed parameter that starts past d is one of the tail. */
  lemma InTail(names: seq<string>, s: string, atStart: bool, d: nat, p: nat, i: nat, n: nat)
    requires d + p < |s| && i > d && Listed(names, s, atStart, i, n) && Reaches(s, i + n + 1, d + p)
    ensures InValue(names, s[d..], false, p)
  {
    ListedShifts(names, s, atStart, d, i - d, n);
    ReachesShifts(s, d, i - d + n + 1, p);
    assert Reaches(s[d..], (i - d) + n + 1, p);
  }

  lemma UnlistedStarts(names: seq<string>, s: string, atStart: bool, i: nat, n: nat)
    requires Clean(names) && s != [] && Unlisted(names, s, atStart) && Listed(names, s, atStart, i, n)
    ensures i > 1
  {
    MatchIsExact(names, s);
    MatchIsExact(names, s[1..]);
    assert s[0..] == s;
  }

  lemma UnlistedIsOutside(names: seq<string>, s: string, atStart: bool)
    requires Clean(names) && s != [] && Unlisted(names, s, atStart)
    ensures !InValue(names, s, atStart, 0) && Apart(names, s, atStart, 1)
  {
    forall p: nat | p < |s| - 1 ensures InValue(names, s, atStart, 1 + p) <==> InValue(names, s[1..], false, p) {
      if InValue(names, s, atStart, 1 + p) {
        var i: nat, n: nat :| Listed(names, s, atStart, i, n) && Reaches(s, i + n + 1, 1 + p);
        UnlistedStarts(names, s, atStart, i, n);
        InTail(names, s, atStart, 1, p, i, n);
      }
      if InValue(names, s[1..], false, p) { InValueShifts(names, s, atStart, 1, p); }
    }
  }

  /** Up to the first listed parameter's value nothing is inside a value. */
  lemma HeadIsOutside(names: seq<string>, s: string, atStart: bool, k: nat, n: nat, p: nat)
    requires Clean(names) && k <= 1 && (k == 1 ==> s != [] && IsSep(s[0])) && k + n < |s| && Exact(names, s[k..], n)
    requires Listed(names, s, atStart, k, n) && p < k + n + 1
    ensures !InValue(names, s, atStart, p)
  {
    forall i: nat, m: nat | Listed(names, s, atStart, i, m) ensures !Reaches(s, i + m + 1, p) {
      if i != k && i <= k + n + 1 {
        assert s[..k + n + 1] + "" == s[..k + n + 1];
        assert s[..k + n + 1] <= s;
        HeadHasOne(names, s, s, atStart, k, n, "", i, m);
      }
      if i == k { ExactIsUnique(names, s[k..], m, n); }
    }
  }

  /** How far the value that starts at `at` goes. */
  lemma {:induction false} ValueExtent(s: string, at: nat) returns (e: nat)
    requires at <= |s|
    ensures at <= e <= |s| && s[e..] == AfterValue(s[at..]) && forall q | at <= q < e :: !EndsValue(s[q])
    ensures e < |s| ==> EndsValue(s[e])
    decreases |s| - at
  {
    if at == |s| || EndsValue(s[at]) {
      e := at;
    } else {
      e := ValueExtent(s, at + 1);
      assert s[at..][1..] == s[at + 1..];
    }
  }

  lemma ValueIsInside(names: seq<string>, s: string, atStart: bool, k: nat, n: nat, e: nat, p: nat)
    requires Listed(names, s, atStart, k, n) && k + n + 1 <= p < e <= |s|
    requires forall q | k + n + 1 <= q < e :: !EndsValue(s[q])
    ensures InValue(names, s, atStart, p)
  {
    assert Reaches(s, k + n + 1, p);
  }

  lemma NameChars(names: seq<string>, s: string, i: nat, n: nat)
    requires Clean(names) && i <= |s| && Exact(names, s[i..], n)
    ensures i + n < |s| && s[i + n] == '=' && forall q | i <= q < i + n :: !IsSpecial(s[q])
  {
    ExactIsPlain(names, s[i..], n);
    forall q | i <= q < i + n ensures !IsSpecial(s[q]) { assert s[q] == s[i..][q - i]; }
  }

  /** A character that ends values ends them: what starts before it does not reach past it. */
  lemma EndSeparates(names: seq<string>, s: string, atStart: bool, e: nat, p: nat)
    requires Clean(names) && 1 <= e && e + p < |s| && EndsValue(s[e])
    ensures InValue(names, s, atStart, e + p) <==> InValue(names, s[e..], false, p)
  {
    if InValue(names, s, atStart, e + p) {
      var i: nat, n: nat :| Listed(names, s, atStart, i, n) && Reaches(s, i + n + 1, e + p);
      NameChars(names, s, i, n);
      InTail(names, s, atStart, e, p, i, n);
    }
    if InValue(names, s[e..], false, p) { InValueShifts(names, s, atStart, e, p); }
  }

  /** Substituting nothing for the values leaves exactly what is outside them. */
  lemma {:induction false} SubNothing(names: seq<string>, s: string, atStart: bool)
    requires Clean(names)
    ensures Outside(names, s, atStart, 0) == Sub(names, s, atStart, "")
    decreases |s|
  {
    var n := SubCases(names, s, atStart);
    if Unlisted(names, s, atStart) {
      SubCopies(names, s, atStart, "");
      if s != [] {
        UnlistedIsOutside(names, s, atStart);
        OutsideShifts(names, s, atStart, 1, 0);
        SubNothing(names, s[1..], false);
      }
    } else {
      var k := FirstListed(names, s, atStart, n);
      var e := ValueExtent(s, k + n + 1);
      SubNothing(names, s[e..], false);
      ListedOutside(names, s, atStart, k, n, e);
      SubListedNothing(names, s, atStart, k, n, s[e..]);
    }
  }

  lemma SubListedNothing(names: seq<string>, s: string, atStart: bool, k: nat, n: nat, rest: string)
    requires Clean(names) && k <= 1 && Listed(names, s, atStart, k, n) && k + n < |s|
    requires rest == AfterValue(s[k + n + 1..])
    ensures Sub(names, s, atStart, "") == s[..k + n + 1] + Sub(names, rest, false, "")
  {
    SubListed(names, s, atStart, k, n, "");
    assert "" + Sub(names, rest, false, "") == Sub(names, rest, false, "");
  }

  lemma ListedOutside(names: seq<string>, s: string, atStart: bool, k: nat, n: nat, e: nat)
    requires Clean(names) && k <= 1 && (k == 1 ==> s != [] && IsSep(s[0])) && k + n < |s| && Exact(names, s[k..], n)
    requires Listed(names, s, atStart, k, n) && k + n + 1 <= e <= |s|
    requires (forall q | k + n + 1 <= q < e :: !EndsValue(s[q])) && (e < |s| ==> EndsValue(s[e]))
    ensures Outside(names, s, atStart, 0) == s[..k + n + 1] + Outside(names, s[e..], false, 0)
  {
    HeadOutside(names, s, atStart, k, n);
    ValueOutside(names, s, atStart, k, n, e);
    TailOutside(names, s, atStart, e);
  }

  lemma TailOutside(names: seq<string>, s: string, atStart: bool, e: nat)
    requires Clean(names) && 1 <= e <= |s| && (e < |s| ==> EndsValue(s[e]))
    ensures Outside(names, s, atStart, e) == Outside(names, s[e..], false, 0)
  {
    EndApart(names, s, atStart, e);
    OutsideShifts(names, s, atStart, e, 0);
  }

  lemma HeadOutside(names: seq<string>, s: string, atStart: bool, k: nat, n: nat)
    requires Clean(names) && k <= 1 && (k == 1 ==> s != [] && IsSep(s[0])) && k + n < |s| && Exact(names, s[k..], n)
    requires Listed(names, s, atStart, k, n)
    ensures Outside(names, s, atStart, 0) == s[..k + n + 1] + Outside(names, s, atStart, k + n + 1)
  {
    var at := k + n + 1;
    forall p: nat | p < at ensures !InValue(names, s, atStart, p) { HeadIsOutside(names, s, atStart, k, n, p); }
    OutsideKeeps(names, s, atStart, 0, at);
    assert s[0..at] == s[..at];
  }

  lemma ValueOutside(names: seq<string>, s: string, atStart: bool, k: nat, n: nat, e: nat)
    requires Listed(names, s, atStart, k, n) && k + n + 1 <= e <= |s|
    requires forall q | k + n + 1 <= q < e :: !EndsValue(s[q])
    ensures Outside(names, s, atStart, k + n + 1) == Outside(names, s, atStart, e)
  {
    AllValueInside(names, s, atStart, k, n, e);
    OutsideSkips(names, s, atStart, k + n + 1, e);
  }

  lemma AllValueInside(names: seq<string>, s: string, atStart: bool, k: nat, n: nat, e: nat)
    requires Listed(names, s, atStart, k, n) && k + n + 1 <= e <= |s|
    requires forall q | k + n + 1 <= q < e :: !EndsValue(s[q])
    ensures AllInside(names, s, atStart, k + n + 1, e)
  {
    forall p: nat | k + n + 1 <= p < e ensures InValue(names, s, atStart, p) {
      ValueIsInside(names, s, atStart, k, n, e, p);
    }
  }

  lemma EndApart(names: seq<string>, s: string, atStart: bool, e: nat)
    requires Clean(names) && 1 <= e <= |s| && (e < |s| ==> EndsValue(s[e]))
    ensures Apart(names, s, atStart, e)
  {
    forall p: nat | p < |s| - e ensures InValue(names, s, atStart, e + p) <==> InValue(names, s[e..], false, p) {
      EndSeparates(names, s, atStart, e, p);
    }
  }

  /** Redacting is idempotent; every character outside the values of listed parameters stays, in its order;
      and URLs that differ in such values only become the same. */
  lemma RedactionTouchesValuesOnly(names: seq<string>, url: string, other: string)
    requires Clean(names)
    ensures RedactUrl(names, RedactUrl(names, url)) == RedactUrl(names, url)
    ensures Blanked(names, RedactUrl(names, url)) == Blanked(names, url)
    ensures Blanked(names, url) == Blanked(names, other) <==> RedactUrl(names, url) == RedactUrl(names, other)
  {
    RedactedIsPlain();
    ReplacingTouchesValuesOnly(names, url, other, REDACTED);
  }

  lemma RedactedIsPlain()
    ensures Plain(REDACTED)
  {
  }

  /** The same for any replacement. */
  lemma ReplacingTouchesValuesOnly(names: seq<string>, url: string, other: string, r: string)
    requires Clean(names) && Plain(r)
    ensures Sub(names, Sub(names, url, true, r), true, r) == Sub(names, url, true, r)
    ensures Blanked(names, Sub(names, url, true, r)) == Blanked(names, url)
    ensures Blanked(names, url) == Blanked(names, other) <==> Sub(names, url, true, r) == Sub(names, other, true, r)
  {
    SubTwice(names, url, true, r, r);
    BlankThenReplace(names, url, r);
    BlankThenReplace(names, other, r);
  }

  lemma BlankThenReplace(names: seq<string>, url: string, r: string)
    requires Clean(names) && Plain(r)
    ensures Blanked(names, Sub(names, url, true, r)) == Blanked(names, url)
    ensures Sub(names, Blanked(names, url), true, r) == Sub(names, url, true, r)
  {
    SubNothing(names, url, true);
    SubNothing(names, Sub(names, url, true, r), true);
    SubTwice(names, url, true, r, "");
    SubTwice(names, url, true, "", r);
  }

  /** What redaction is: the one text that has REDACTED after every listed name, up to the next delimiter,
      and is the URL everywhere else. */
  lemma RedactionIsExact(names: seq<string>, url: string, result: string)
    requires Clean(names)
    ensures result == RedactUrl(names, url) <==>
              AllValues(names, result, true, REDACTED) && Blanked(names, result) == Blanked(names, url)
  {
    SubLeaves(names, url, true, REDACTED);
    RedactionTouchesValuesOnly(names, url, result);
    if AllValues(names, result, true, REDACTED) {
      SubFixes(names, result, true, REDACTED);
    }
  }

  /** The names a caller adds are added, in any case, and none is taken away. */
  lemma NamesOnlyGrow(extra: seq<string>, name: string)
    ensures Lower(name) in PatternNames(extra) <==>
              (exists i :: 0 <= i < |DEFAULT_NAMES| && Lower(DEFAULT_NAMES[i]) == Lower(name))
              || (exists i :: 0 <= i < |extra| && Lower(extra[i]) == Lower(name))
  {
    LowerAllHolds(DEFAULT_NAMES + extra, Lower(name));
    var all := DEFAULT_NAMES + extra;
    assert forall i | 0 <= i < |DEFAULT_NAMES| :: all[i] == DEFAULT_NAMES[i];
    assert forall i | 0 <= i < |extra| :: all[|DEFAULT_NAMES| + i] == extra[i];
    if i :| 0 <= i < |all| && Lower(all[i]) == Lower(name) {
      assert i >= |DEFAULT_NAMES| ==> all[i] == extra[i - |DEFAULT_NAMES|];
    }
  }

  lemma {:induction false} LowerAllHolds(names: seq<string>, low: string)
    ensures low in LowerAll(names) <==> exists i :: 0 <= i < |names| && Lower(names[i]) == low
  {
    if names != [] {
      LowerAllHolds(names[1..], low);
      assert forall i | 1 <= i < |names| :: names[i] == names[1..][i - 1];
      assert forall i | 0 <= i < |names[1..]| :: names[1..][i] == names[i + 1];
    }
  }

  /** The names in the pattern are free of delimiters if those a caller adds are. */
  lemma NamesAreClean(extra: seq<string>)
    requires Clean(extra)
    ensures Clean(PatternNames(extra))
  {
    DefaultsAreClean();
    LowerAllClean(DEFAULT_NAMES + extra);
  }

  lemma DefaultsAreClean()
    ensures Clean(DEFAULT_NAMES)
  {
    ShortNamesArePlain();
    LongNamesArePlain();
  }

  lemma ShortNamesArePlain()
    ensures Plain("key") && Plain("token") && Plain("code") && Plain("state") && Plain("password") && Plain("signature")
  {
  }

  lemma LongNamesArePlain()
    ensures Plain("X-Amz-Signature") && Plain("X-Amz-Credential") && Plain("X-Amz-Security-Token")
  {
  }

  lemma {:induction false} LowerAllClean(names: seq<string>)
    requires Clean(names)
    ensures Clean(LowerAll(names))
  {
    if names != [] {
      assert Plain(Lower(names[0])) by {
        assert forall i | 0 <= i < |names[0]| :: !IsSpecial(names[0][i]);
      }
      LowerAllClean(names[1..]);
    }
  }

  // -- Span attributes ----------------------------------------------------------------------------------

  datatype Attribute = Str(text: string) | Strs(items: seq<string>) | Scalar(int)

  predicate IsUrlAttribute(key: string) { key in ["url.full", "http.url", "url.query", "http.target"] }

  /** The part after the last dot. */
  function LastPart(key: string): string {
    if key == "" then "" else if '.' in key[1..] || key[0] == '.' then LastPart(key[1..]) else key
  }

  predicate IsSecretHeader(key: string) {
    && ("http.request.header." <= key || "http.response.header." <= key)
    && LastPart(key) in ["authorization", "proxy_authorization", "cookie", "set_cookie"]
  }

  function Copies(n: nat): (s: seq<string>)
    ensures |s| == n && forall i | 0 <= i < n :: s[i] == REDACTED
  {
    if n == 0 then [] else [REDACTED] + Copies(n - 1)
  }

  /** `_redacted_like`. */
  function RedactedLike(value: Attribute): Attribute {
    match value
    case Strs(items) => Strs(Copies(|items|))
    case _ => Str(REDACTED)
  }

  /** What an attribute should be exported as. */
  function Scrubbed(names: seq<string>, key: string, value: Attribute): Attribute {
    if IsUrlAttribute(key) && value.Str? then
      match value
      case Str(url) => Str(RedactUrl(names, url))
      case _ => value
    else if IsSecretHeader(key) then RedactedLike(value)
    else value
  }

  predicate Concerned(names: seq<string>, key: string, value: Attribute) {
    if IsUrlAttribute(key) && value.Str? then Scrubbed(names, key, value) != value else IsSecretHeader(key)
  }

  lemma {:induction false} LastPartIs(head: string, name: string)
    requires '.' !in name
    ensures LastPart(head + "." + name) == name
  {
    var key := head + "." + name;
    if head == "" {
      assert key[1..] == name;
      NoDot(name);
    } else {
      assert key[1..] == head[1..] + "." + name;
      assert '.' in key[1..] by { assert key[1..][|head| - 1] == '.'; }
      LastPartIs(head[1..], name);
    }
  }

  lemma NoDot(name: string)
    requires '.' !in name
    ensures LastPart(name) == name
  {
  }

  /** The four credential headers of a request or a response, under that prefix and no other, are exported as
      REDACTED, item for item; every other header is left alone, and is no reason to copy the span. What counts
      is the part after the last dot. */
  lemma CredentialsAreGone(names: seq<string>, request: bool, inner: string, name: string, value: Attribute)
    requires '.' !in name && (inner == "" || inner[0] == '.')
    ensures var key := (if request then "http.request.header" else "http.response.header") + inner + "." + name;
            var credential := name == "authorization" || name == "proxy_authorization" || name == "cookie"
                              || name == "set_cookie";
            var scrubbed := Scrubbed(names, key, value);
            && (Concerned(names, key, value) <==> credential)
            && (!credential ==> scrubbed == value)
            && (credential && !value.Strs? ==> scrubbed == Str("REDACTED"))
            && (credential && value.Strs? ==>
                  && scrubbed.Strs? && |scrubbed.items| == |value.items|
                  && forall i | 0 <= i < |value.items| :: scrubbed.items[i] == "REDACTED")
  {
    var head := if request then "http.request.header" else "http.response.header";
    LastPartIs(head + inner, name);
    PrefixIs(head, inner, "." + name);
    assert (head + inner) + ("." + name) == head + inner + "." + name;
    NoUrlAttribute(head + inner + "." + name);
  }

  lemma PrefixIs(head: string, inner: string, rest: string)
    requires rest != "" && rest[0] == '.' && (inner == "" || inner[0] == '.')
    ensures head + "." <= (head + inner) + rest
  {
    assert ((head + inner) + rest)[..|head| + 1] == head + ".";
  }

  lemma NoUrlAttribute(key: string)
    requires "http.request.header" <= key || "http.response.header" <= key
    ensures !IsUrlAttribute(key)
  {
  }

  /** An attribute that is neither a URL attribute nor under one of the two prefixes is left alone. */
  lemma OthersAreLeft(names: seq<string>, key: string, value: Attribute)
    requires !("http.request.header." <= key || "http.response.header." <= key)
    ensures Scrubbed(names, key, value)
         == if value.Str? && (key == "url.full" || key == "http.url" || key == "url.query" || key == "http.target")
            then Str(RedactUrl(names, value.text)) else value
    ensures Concerned(names, key, value) <==> Scrubbed(names, key, value) != value
  {
  }

  /** `_redacted_attributes`: None leaves the span as it is. */
  method RedactedAttributes(names: seq<string>, attributes: map<string, Attribute>)
    returns (result: Option<map<string, Attribute>>)
    ensures result.None? <==> forall key | key in attributes :: !Concerned(names, key, attributes[key])
    ensures result.None? ==> forall key | key in attributes :: Scrubbed(names, key, attributes[key]) == attributes[key]
    ensures result.Some? ==> result.value == map key | key in attributes :: Scrubbed(names, key, attributes[key])
  {
    var changed: map<string, Attribute> := map[];
    var rest := attributes.Keys;
    while rest != {}
      invariant rest <= attributes.Keys
      invariant forall key :: key in changed <==>
                  key in attributes && key !in rest && Concerned(names, key, attributes[key])
      invariant forall key | key in changed :: changed[key] == Scrubbed(names, key, attributes[key])
      decreases |rest|
    {
      var key :| key in rest;
      var value := attributes[key];
      rest := rest - {key};
      if IsUrlAttribute(key) && value.Str? {
        var redacted := Scrubbed(names, key, value);
        if redacted != value { changed := changed[key := redacted]; }
      } else if IsSecretHeader(key) {
        changed := changed[key := RedactedLike(value)];
      }
    }
    forall key | key in attributes && !Concerned(names, key, attributes[key])
      ensures Scrubbed(names, key, attributes[key]) == attributes[key]
    {
    }
    if changed == map[] { return None; }
    result := Some(map key | key in attributes :: if key in changed then changed[key] else attributes[key]);
  }
}
