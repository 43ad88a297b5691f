/** What `String.prototype.match` and `RegExp.exec` do with a pattern, given
    the pattern as a matcher: a function saying what a match starting at the
    head of a text captures. `Leftmost` finds the first position where a
    match starts; `AllTexts` is the loop over a global pattern that collects
    every capture. */
module Scan {
  import opened Wrappers

  /** The first position of `s` at which `f` matches, and the match there. */
  function Leftmost<T>(f: string -> Option<T>, s: string): (r: Option<(nat, T)>)
    ensures r.Some? ==> r.value.0 <= |s| && f(s[r.value.0..]) == Some(r.value.1)
    decreases |s|
  {
    assert s[0..] == s;
    match f(s)
    case Some(x) => Some((0, x))
    case None =>
      if s == [] then None
      else
        assert forall j :: 1 <= j <= |s| ==> s[j..] == s[1..][j - 1..];
        match Leftmost(f, s[1..])
        case Some((i, x)) => Some((i + 1, x))
        case None => None
  }

  /** No position before the one `Leftmost` reports matches; when it reports
      none, no position matches at all. */
  lemma {:induction false} LeftmostIsFirst<T>(f: string -> Option<T>, s: string)
    ensures Leftmost(f, s).Some? ==>
              forall j {:trigger f(s[j..])} :: 0 <= j < Leftmost(f, s).value.0 ==> f(s[j..]).None?
    ensures Leftmost(f, s).None? ==> forall j {:trigger f(s[j..])} :: 0 <= j <= |s| ==> f(s[j..]).None?
    decreases |s|
  {
    assert s[0..] == s;
    if f(s).None? && s != [] {
      LeftmostIsFirst(f, s[1..]);
      assert forall j :: 1 <= j <= |s| ==> s[j..] == s[1..][j - 1..];
    }
  }

  /** A match found `n` characters further on. */
  function Shift<T>(r: Option<(nat, T)>, n: nat): Option<(nat, T)> {
    match r
    case Some((i, x)) => Some((i + n, x))
    case None => None
  }

  /** The captured text of a match and the length of the whole match. */
  datatype Capture = Capture(text: string, length: nat)

  /** Every capture a global pattern with matcher `f` yields, in order. The
      scan stops at an empty match, which would not move the regex's
      `lastIndex` on; the server's patterns never match empty text. */
  function AllTexts(f: string -> Option<Capture>, xml: string): seq<string>
    decreases |xml|
  {
    match Leftmost(f, xml)
    case None => []
    case Some((i, c)) =>
      if 0 < c.length && i + c.length <= |xml| then [c.text] + AllTexts(f, xml[i + c.length..]) else []
  }

  /** One match of the global pattern and what follows it. */
  lemma {:induction false} AllTextsUnfold(f: string -> Option<Capture>, s: string, i: nat, c: Capture)
    requires Leftmost(f, s) == Some((i, c)) && 0 < c.length && i + c.length <= |s|
    ensures AllTexts(f, s) == [c.text] + AllTexts(f, s[i + c.length..])
  {
  }

  /** The same, naming the text after the match. */
  lemma {:induction false} AllTextsUnfoldTo(f: string -> Option<Capture>, s: string, i: nat, c: Capture, after: string)
    requires Leftmost(f, s) == Some((i, c)) && 0 < c.length && i + c.length <= |s|
    requires s[i + c.length..] == after
    ensures AllTexts(f, s) == [c.text] + AllTexts(f, after)
  {
    AllTextsUnfold(f, s, i, c);
  }

  /** A match at the head of `s`, followed by `r`. */
  lemma {:induction false} AllTextsAfter(f: string -> Option<Capture>, s: string, r: string, c: Capture)
    requires Leftmost(f, s) == Some((0, c)) && 0 < c.length <= |s| && s[c.length..] == r
    ensures AllTexts(f, s) == [c.text] + AllTexts(f, r)
  {
    AllTextsUnfold(f, s, 0, c);
  }

  /** A match covering exactly the head `e` of the text. */
  lemma {:induction false} AllTextsOfHead(f: string -> Option<Capture>, e: string, rest: string, c: Capture)
    requires Leftmost(f, e + rest) == Some((0, c)) && c.length == |e| && 0 < |e|
    ensures AllTexts(f, e + rest) == [c.text] + AllTexts(f, rest)
  {
    assert (e + rest)[|e|..] == rest;
    AllTextsAfter(f, e + rest, rest, c);
  }

  /** Positions that cannot start a match do not change what a global scan
      yields. */
  lemma {:induction false} AllTextsShift(f: string -> Option<Capture>, s: string, rest: string, n: nat)
    requires n <= |s| && s[n..] == rest
    requires Leftmost(f, s) == Shift(Leftmost(f, rest), n)
    ensures AllTexts(f, s) == AllTexts(f, rest)
  {
    var found := Leftmost(f, rest);
    if found.Some? && 0 < found.value.1.length && found.value.0 + found.value.1.length <= |rest| {
      ShiftFound(f, s, rest, n, found.value.0, found.value.1);
    }
  }

  /** `AllTextsShift` when the scan finds a match. */
  lemma {:induction false} ShiftFound(f: string -> Option<Capture>, s: string, rest: string, n: nat, i: nat, c: Capture)
    requires n <= |s| && s[n..] == rest
    requires Leftmost(f, rest) == Some((i, c)) && Leftmost(f, s) == Some((i + n, c))
    requires 0 < c.length && i + c.length <= |rest|
    ensures AllTexts(f, s) == AllTexts(f, rest)
  {
    var after := rest[i + c.length..];
    assert s[i + n + c.length..] == after;
    AllTextsUnfoldTo(f, s, i + n, c, after);
    AllTextsUnfoldTo(f, rest, i, c, after);
  }

  /** A match at the head of `s` is the first one. */
  lemma {:induction false} LeftmostAtHead<T>(f: string -> Option<T>, s: string, x: T)
    requires f(s) == Some(x)
    ensures Leftmost(f, s) == Some((0, x))
  {
  }

  /** A match right after positions that cannot start one is the first one. */
  lemma {:induction false} LeftmostAfter<T>(f: string -> Option<T>, pre: string, rest: string, x: T)
    requires forall j {:trigger f((pre + rest)[j..])} :: 0 <= j < |pre| ==> f((pre + rest)[j..]).None?
    requires f(rest) == Some(x)
    ensures Leftmost(f, pre + rest) == Some((|pre|, x))
  {
    LeftmostSkip(f, pre, rest);
    LeftmostAtHead(f, rest, x);
  }

  /** Positions that cannot start a match can be skipped. */
  lemma {:induction false} LeftmostSkip<T>(f: string -> Option<T>, pre: string, rest: string)
    requires forall j {:trigger f((pre + rest)[j..])} :: 0 <= j < |pre| ==> f((pre + rest)[j..]).None?
    ensures Leftmost(f, pre + rest) == Shift(Leftmost(f, rest), |pre|)
    decreases |pre|
  {
    if pre != [] {
      var s := pre + rest;
      assert s[0..] == s;
      assert f(s[0..]).None?;
      assert s[1..] == pre[1..] + rest;
      forall j | 0 <= j < |pre[1..]| ensures f((pre[1..] + rest)[j..]).None? {
        assert (pre[1..] + rest)[j..] == s[j + 1..];
      }
      LeftmostSkip(f, pre[1..], rest);
      assert Leftmost(f, s) == Shift(Leftmost(f, s[1..]), 1);
    } else {
      assert pre + rest == rest;
      assert Shift(Leftmost(f, rest), 0) == Leftmost(f, rest);
    }
  }
}
