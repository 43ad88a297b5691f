/** The text side of the Namecheap server: splitting a domain into SLD and
    TLD, the three pattern readers over a raw XML reply, the error check
    every reply goes through, the nameserver reader and the success markers.
    Each regular expression of the server is modelled as a matcher: a
    function that says what a match starting at the head of a text captures,
    handed to the scans of module `Scan`. */
module NamecheapXml {
  import opened Wrappers
  import opened Strings
  import opened Scan

  // ---------------------------------------------------------------------
  // parseDomain

  datatype Domain = Domain(sld: string, tld: string)

  /** `parseDomain`: lower-cases, splits on '.', and takes the LAST label as
      the TLD and everything before it as the SLD. */
  function ParseDomain(domain: string): (r: Result<Domain, string>)
    ensures r.Err? <==> '.' !in domain
    ensures r.Err? ==> r.error == "Invalid domain format: " + domain + ". Expected format: example.com"
    ensures r.Ok? ==> r.value.sld + "." + r.value.tld == Lower(domain)
    ensures r.Ok? ==> '.' !in r.value.tld
  {
    var lowered := Lower(domain);
    var parts := Split(lowered, '.');
    LowerKeepsChar(domain, '.');
    SplitSingleIffNoSeparator(lowered, '.');
    if |parts| < 2 then
      Err("Invalid domain format: " + domain + ". Expected format: example.com")
    else
      JoinSplit(lowered, '.');
      JoinLast(parts, '.');
      SplitPiecesHaveNoSeparator(lowered, '.');
      Ok(Domain(Join(parts[..|parts| - 1], '.'), parts[|parts| - 1]))
  }

  /** The comment in `parseDomain` speaks of multi-part TLDs such as .co.uk,
      but the code keeps only the last label: the TLD of a domain is what
      follows its last dot. */
  lemma {:induction false} ParseDomainTakesLastLabel(domain: string, before: string, lastLabel: string)
    requires Lower(domain) == before + "." + lastLabel && '.' !in lastLabel
    ensures ParseDomain(domain) == Ok(Domain(before, lastLabel))
  {
    assert '.' in domain by {
      LowerKeepsChar(domain, '.');
      assert Lower(domain)[|before|] == '.';
    }
    var r := ParseDomain(domain);
    var sld, tld := r.value.sld, r.value.tld;
    var s := Lower(domain);
    SameLastLabel(s, sld, tld, before, lastLabel);
  }

  /** A text has one split at its last dot. */
  lemma {:induction false} SameLastLabel(s: string, a: string, b: string, c: string, d: string)
    requires s == a + "." + b && s == c + "." + d && '.' !in b && '.' !in d
    ensures a == c && b == d
  {
    assert forall k :: |a| < k < |s| ==> s[k] == b[k - |a| - 1];
    assert forall k :: |c| < k < |s| ==> s[k] == d[k - |c| - 1];
    assert s[|a|] == '.' && s[|c|] == '.';
    assert |a| == |c|;
    assert b == s[|a| + 1..] == d;
    assert a == s[..|a|] == c;
  }

  // ---------------------------------------------------------------------
  // Element text: <tag[^>]*>([^<]*)</tag> and its relatives

  /** One of the server's text patterns: `<tag` followed by `[^>]*>` when
      `attributes` holds or directly by `>`, then the captured text (`[^<]*`,
      or `[^<]+` when `nonEmpty` holds), then `</tag>`; `ignoreCase` is the
      `i` flag. */
  datatype TextPattern = TextPattern(tag: string, ignoreCase: bool, attributes: bool, nonEmpty: bool)

  predicate LiteralAt(s: string, lit: string, ignoreCase: bool) {
    if ignoreCase then StartsWithIgnoreCase(s, lit) else StartsWith(s, lit)
  }

  /** A match of `p` at the head of `s`. */
  function TextMatch(p: TextPattern, s: string): (r: Option<Capture>)
    ensures r.Some? ==> 0 < r.value.length <= |s|
  {
    var open := "<" + p.tag;
    if !LiteralAt(s, open, p.ignoreCase) then None
    else
      AfterOpenBound(p, s[|open|..]);
      match AfterOpen(p, s[|open|..])
      case Some(c) => Some(Capture(c.text, |open| + c.length))
      case None => None
  }

  /** After `<tag`: `[^>]*` (or nothing) and `>`, then the element's body. A
      greedy `[^>]*` runs to the first '>': backtracking cannot end it
      earlier, since what follows must be a '>'. */
  function AfterOpen(p: TextPattern, u: string): Option<Capture> {
    var g := if p.attributes then IndexOrEnd(u, '>') else 0;
    if g >= |u| || u[g] != '>' then None
    else
      match ElementBody(p, u[g + 1..])
      case Some(c) => Some(Capture(c.text, g + 1 + c.length))
      case None => None
  }

  /** After the `>`: the text up to the first '<', then `</tag>`. */
  function ElementBody(p: TextPattern, v: string): Option<Capture> {
    var t := IndexOrEnd(v, '<');
    var close := "</" + p.tag + ">";
    if (p.nonEmpty && t == 0) || !LiteralAt(v[t..], close, p.ignoreCase) then None
    else Some(Capture(v[..t], t + |close|))
  }

  lemma {:induction false} AfterOpenBound(p: TextPattern, u: string)
    ensures AfterOpen(p, u).Some? ==> AfterOpen(p, u).value.length <= |u|
  {
  }

  /** The capture of a text pattern holds no '<', and is non-empty when the
      pattern says `+`. */
  lemma {:induction false} CaptureIsText(p: TextPattern, s: string)
    ensures TextMatch(p, s).Some? ==> '<' !in TextMatch(p, s).value.text
    ensures TextMatch(p, s).Some? && p.nonEmpty ==> TextMatch(p, s).value.text != ""
  {
    var open := "<" + p.tag;
    if LiteralAt(s, open, p.ignoreCase) {
      AfterOpenIsText(p, s[|open|..]);
    }
  }

  lemma {:induction false} AfterOpenIsText(p: TextPattern, u: string)
    ensures AfterOpen(p, u).Some? ==> '<' !in AfterOpen(p, u).value.text
    ensures AfterOpen(p, u).Some? && p.nonEmpty ==> AfterOpen(p, u).value.text != ""
  {
    var g := if p.attributes then IndexOrEnd(u, '>') else 0;
    if g < |u| && u[g] == '>' {
      ElementBodyIsText(p, u[g + 1..]);
    }
  }

  lemma {:induction false} ElementBodyIsText(p: TextPattern, v: string)
    ensures ElementBody(p, v).Some? ==> '<' !in ElementBody(p, v).value.text
    ensures ElementBody(p, v).Some? && p.nonEmpty ==> ElementBody(p, v).value.text != ""
  {
    IndexOrEndFacts(v, '<');
  }

  function TextMatcher(p: TextPattern): string -> Option<Capture> {
    s => TextMatch(p, s)
  }

  /** `xml.match(re)` for a text pattern: the text captured at the first match. */
  function FirstText(p: TextPattern, xml: string): (r: Option<string>)
    ensures r.Some? ==> '<' !in r.value && (p.nonEmpty ==> r.value != "")
  {
    match Leftmost(TextMatcher(p), xml)
    case Some((i, c)) =>
      CaptureIsText(p, xml[i..]);
      Some(c.text)
    case None => None
  }

  /** `match` yields null exactly when the pattern matches nowhere. */
  lemma {:induction false} FirstTextNone(p: TextPattern, xml: string)
    ensures FirstText(p, xml).None? <==>
              forall j {:trigger TextMatch(p, xml[j..])} :: 0 <= j <= |xml| ==> TextMatch(p, xml[j..]).None?
  {
    assert forall j :: 0 <= j <= |xml| ==> TextMatcher(p)(xml[j..]) == TextMatch(p, xml[j..]);
    LeftmostIsFirst(TextMatcher(p), xml);
  }

  /** The pattern of `extractValue(xml, tag)`. */
  function ValuePattern(tag: string): TextPattern {
    TextPattern(tag, true, true, false)
  }

  /** `extractValue`: the text of the first `<tag …>text</tag>`, any case. */
  function ExtractValue(xml: string, tag: string): (r: Option<string>)
    ensures r.Some? ==> '<' !in r.value
  {
    FirstText(ValuePattern(tag), xml)
  }

  /** `extractValue` yields null exactly when no element matches. */
  lemma {:induction false} ExtractValueNone(xml: string, tag: string)
    ensures ExtractValue(xml, tag).None? <==>
              forall j {:trigger TextMatch(ValuePattern(tag), xml[j..])} ::
                0 <= j <= |xml| ==> TextMatch(ValuePattern(tag), xml[j..]).None?
  {
    FirstTextNone(ValuePattern(tag), xml);
  }

  /** The element `<tag attrs>text</tag>` as a pattern reads it. */
  function ElementText(p: TextPattern, attrs: string, text: string): string {
    "<" + p.tag + (attrs + (">" + (text + ("</" + p.tag + ">"))))
  }

  lemma {:induction false} ElementBodyOf(p: TextPattern, text: string, post: string)
    requires '<' !in text && (p.nonEmpty ==> text != "")
    ensures ElementBody(p, text + ("</" + p.tag + ">" + post))
         == Some(Capture(text, |text| + |"</" + p.tag + ">"|))
  {
    var close := "</" + p.tag + ">";
    var v := text + (close + post);
    assert v[..|text|] == text && v[|text|..] == close + post;
    IndexOrEndAt(v, '<', |text|);
    assert (close + post)[..|close|] == close;
  }

  /** One step of the match after `<tag`, stated over any text. */
  lemma {:induction false} AfterOpenStep(p: TextPattern, u: string, g: nat, c: Capture)
    requires g < |u| && u[g] == '>'
    requires (if p.attributes then IndexOrEnd(u, '>') else 0) == g
    requires ElementBody(p, u[g + 1..]) == Some(c)
    ensures AfterOpen(p, u) == Some(Capture(c.text, g + 1 + c.length))
  {
  }

  lemma {:induction false} TextMatchStep(p: TextPattern, s: string, c: Capture)
    requires LiteralAt(s, "<" + p.tag, p.ignoreCase)
    requires AfterOpen(p, s[|"<" + p.tag|..]) == Some(c)
    ensures TextMatch(p, s) == Some(Capture(c.text, |"<" + p.tag| + c.length))
  {
  }

  lemma {:induction false} AfterOpenOf(p: TextPattern, attrs: string, v: string, c: Capture)
    requires ElementBody(p, v) == Some(c)
    requires if p.attributes then '>' !in attrs else attrs == ""
    ensures AfterOpen(p, attrs + (">" + v)) == Some(Capture(c.text, |attrs| + 1 + c.length))
  {
    var u := attrs + (">" + v);
    if p.attributes {
      assert IndexOrEnd(u, '>') == |attrs| by {
        assert u[..|attrs|] == attrs;
        IndexOrEndAt(u, '>', |attrs|);
      }
    }
    assert u[|attrs|] == '>' by {}
    assert u[|attrs| + 1..] == v by {}
    AfterOpenStep(p, u, |attrs|, c);
  }

  /** An element matches at its head, capturing its text. */
  lemma {:induction false} TextMatchOfElement(p: TextPattern, attrs: string, text: string, post: string)
    requires '<' !in text && (p.nonEmpty ==> text != "")
    requires if p.attributes then '>' !in attrs else attrs == ""
    ensures TextMatch(p, ElementText(p, attrs, text) + post)
         == Some(Capture(text, |ElementText(p, attrs, text)|))
  {
    var u := attrs + (">" + (text + ("</" + p.tag + ">" + post)));
    ElementLayout(p, attrs, text, post, u);
    TextMatchOfLayout(p, attrs, text, post, u, ElementText(p, attrs, text) + post);
  }

  /** The match at `<tag` followed by the rest of an element. */
  lemma {:induction false} TextMatchOfLayout(p: TextPattern, attrs: string, text: string, post: string, u: string, s: string)
    requires '<' !in text && (p.nonEmpty ==> text != "")
    requires if p.attributes then '>' !in attrs else attrs == ""
    requires u == attrs + (">" + (text + ("</" + p.tag + ">" + post))) && s == ("<" + p.tag) + u
    ensures TextMatch(p, s) == Some(Capture(text, |"<" + p.tag| + |attrs| + 1 + |text| + |"</" + p.tag + ">"|))
  {
    var open, close := "<" + p.tag, "</" + p.tag + ">";
    var body := Capture(text, |text| + |close|);
    var afterOpen := Capture(text, |attrs| + 1 + body.length);
    LiteralHead(s, open, u, p.ignoreCase);
    assert AfterOpen(p, u) == Some(afterOpen) by {
      ElementBodyOf(p, text, post);
      AfterOpenOf(p, attrs, text + (close + post), body);
    }
    TextMatchStep(p, s, afterOpen);
  }

  lemma {:induction false} ElementLayout(p: TextPattern, attrs: string, text: string, post: string, u: string)
    requires u == attrs + (">" + (text + ("</" + p.tag + ">" + post)))
    ensures ElementText(p, attrs, text) + post == ("<" + p.tag) + u
    ensures |ElementText(p, attrs, text)| == |"<" + p.tag| + |attrs| + 1 + |text| + |"</" + p.tag + ">"|
  {
  }

  /** A text that starts with `lit` matches it, with or without the `i` flag. */
  lemma {:induction false} LiteralHead(s: string, lit: string, u: string, ignoreCase: bool)
    requires s == lit + u
    ensures LiteralAt(s, lit, ignoreCase) && s[|lit|..] == u
  {
    assert s[..|lit|] == lit;
  }

  /** A whole element preceded by text in which no match of the pattern
      starts is the first match, and its text is the capture. */
  lemma {:induction false} FirstElement(p: TextPattern, pre: string, attrs: string, text: string, post: string)
    requires '<' !in text && (p.nonEmpty ==> text != "")
    requires if p.attributes then '>' !in attrs else attrs == ""
    requires forall j :: 0 <= j < |pre| ==> TextMatch(p, (pre + ElementText(p, attrs, text) + post)[j..]).None?
    ensures Leftmost(TextMatcher(p), pre + ElementText(p, attrs, text) + post)
         == Some((|pre|, Capture(text, |ElementText(p, attrs, text)|)))
  {
    var e := ElementText(p, attrs, text) + post;
    var s := pre + e;
    assert pre + ElementText(p, attrs, text) + post == s;
    forall j | 0 <= j < |pre| ensures TextMatcher(p)(s[j..]).None? {
      assert TextMatch(p, s[j..]).None?;
    }
    TextMatchOfElement(p, attrs, text, post);
    LeftmostAfter(TextMatcher(p), pre, e, Capture(text, |ElementText(p, attrs, text)|));
  }

  /** In particular when no '<' comes before the element. */
  lemma {:induction false} LeftmostElement(p: TextPattern, pre: string, attrs: string, text: string, post: string)
    requires '<' !in pre && '<' !in text && (p.nonEmpty ==> text != "")
    requires if p.attributes then '>' !in attrs else attrs == ""
    ensures Leftmost(TextMatcher(p), pre + ElementText(p, attrs, text) + post)
         == Some((|pre|, Capture(text, |ElementText(p, attrs, text)|)))
  {
    var s := pre + ElementText(p, attrs, text) + post;
    forall j | 0 <= j < |pre| ensures TextMatch(p, s[j..]).None? {
      assert s[j..][0] == pre[j];
      NoTextAt(p, s[j..]);
    }
    FirstElement(p, pre, attrs, text, post);
  }

  /** No text pattern matches at a character other than '<'. */
  lemma {:induction false} NoTextAt(p: TextPattern, t: string)
    requires t != [] && t[0] != '<'
    ensures TextMatch(p, t).None?
  {
    var open := "<" + p.tag;
    if |open| <= |t| {
      assert Lower(t[..|open|])[0] == LowerChar(t[0]) != '<';
      assert Lower(open)[0] == '<';
      assert t[..|open|][0] == t[0] != open[0];
    }
  }

  /** `extractValue` reads back the text of the first element of its tag. */
  lemma {:induction false} ExtractValueOfElement(tag: string, pre: string, attrs: string, value: string, post: string)
    requires '>' !in attrs && '<' !in value
    requires forall j :: 0 <= j < |pre| ==>
               TextMatch(ValuePattern(tag), (pre + ElementText(ValuePattern(tag), attrs, value) + post)[j..]).None?
    ensures ExtractValue(pre + ElementText(ValuePattern(tag), attrs, value) + post, tag) == Some(value)
  {
    FirstElement(ValuePattern(tag), pre, attrs, value, post);
  }

  // ---------------------------------------------------------------------
  // extractAttribute: <tag[^>]*\sattr="([^"]*)"

  /** A match of `\sattr="([^"]*)"` at position `k` of `s`. */
  function AttrCandidate(s: string, attr: string, k: nat): (r: Option<string>)
    ensures r.Some? ==> '"' !in r.value
  {
    if k < |s| && IsSpace(s[k]) && StartsWithIgnoreCase(s[k + 1..], attr + "=\"") then
      var v0 := k + 1 + |attr| + 2;
      var q := IndexOrEnd(s[v0..], '"');
      IndexOrEndFacts(s[v0..], '"');
      assert s[v0..v0 + q] == s[v0..][..q];
      if v0 + q < |s| then Some(s[v0..v0 + q]) else None
    else None
  }

  /** The greatest position in `[lo, hi)` holding a candidate: the greedy
      `[^>]*` gives back characters one at a time from its longest run, so
      the match it settles on is the last candidate. */
  function LastCandidateAt(s: string, attr: string, lo: nat, hi: nat): (r: Option<nat>)
    ensures r.Some? ==> lo <= r.value < hi && AttrCandidate(s, attr, r.value).Some?
    decreases hi - lo
  {
    if hi <= lo then None
    else if AttrCandidate(s, attr, hi - 1).Some? then Some(hi - 1)
    else LastCandidateAt(s, attr, lo, hi - 1)
  }

  /** A match of `extractAttribute`'s pattern at the head of `s`: the value
      of the LAST `attr="…"` inside the first tag, so a repeated attribute
      yields its later value. */
  function AttrMatch(tag: string, attr: string, s: string): Option<string> {
    var open := "<" + tag;
    if !StartsWithIgnoreCase(s, open) then None
    else
      var a := |open|;
      ValueOfHit(s, attr, LastCandidateAt(s, attr, a, a + IndexOrEnd(s[a..], '>')))
  }

  /** The value read at a candidate position, if there is one. */
  function ValueOfHit(s: string, attr: string, hit: Option<nat>): Option<string> {
    if hit.None? then None else AttrCandidate(s, attr, hit.value)
  }

  function AttrMatcher(tag: string, attr: string): string -> Option<string> {
    s => AttrMatch(tag, attr, s)
  }

  /** `extractAttribute`. */
  function ExtractAttribute(xml: string, tag: string, attr: string): (r: Option<string>)
    ensures r.Some? ==> '"' !in r.value
  {
    match Leftmost(AttrMatcher(tag, attr), xml)
    case Some((i, v)) =>
      assert AttrMatcher(tag, attr)(xml[i..]) == AttrMatch(tag, attr, xml[i..]);
      Some(v)
    case None => None
  }

  /** `extractAttribute` yields null exactly when no tag carries the attribute. */
  lemma {:induction false} ExtractAttributeNone(xml: string, tag: string, attr: string)
    ensures ExtractAttribute(xml, tag, attr).None? <==>
              forall j {:trigger AttrMatch(tag, attr, xml[j..])} ::
                0 <= j <= |xml| ==> AttrMatch(tag, attr, xml[j..]).None?
  {
    assert forall j :: 0 <= j <= |xml| ==> AttrMatcher(tag, attr)(xml[j..]) == AttrMatch(tag, attr, xml[j..]);
    LeftmostIsFirst(AttrMatcher(tag, attr), xml);
  }

  /** Somewhere in `rest` white space is followed by `attr="`, in any case:
      a place where `\sattr="` matches again. */
  predicate RecursIn(rest: string, attr: string) {
    exists j :: 0 <= j < |rest| && IsSpace(rest[j]) && StartsWithIgnoreCase(rest[j + 1..], attr + "=\"")
  }

  /** The tag `<tag before attr="value"after>`. */
  function AttributedTag(tag: string, before: string, attr: string, value: string, after: string): string {
    "<" + tag + before + " " + attr + "=\"" + value + "\"" + after + ">"
  }

  /** Tag and attribute names as the server passes them: plain identifiers. */
  predicate IsName(name: string) {
    |name| >= 1 && forall i :: 0 <= i < |name| ==> IsWordChar(name[i])
  }

  /** The attribute's candidate at the space before it reads its value. */
  lemma {:induction false} CandidateAtAttribute(pre: string, attr: string, value: string, post: string)
    requires '"' !in value
    ensures AttrCandidate(pre + (" " + (attr + "=\"" + (value + ("\"" + post)))), attr, |pre|) == Some(value)
  {
    var lit := attr + "=\"";
    var s := pre + (" " + (lit + (value + ("\"" + post))));
    var k := |pre|;
    assert s[k] == ' ';
    assert StartsWithIgnoreCase(s[k + 1..], lit) by {
      assert s[k + 1..] == lit + (value + ("\"" + post));
      assert s[k + 1..][..|lit|] == lit;
    }
    var v0 := k + 1 + |lit|;
    assert IndexOrEnd(s[v0..], '"') == |value| && s[v0..v0 + |value|] == value by {
      assert s[v0..] == value + ("\"" + post);
      assert s[v0..][..|value|] == value;
      IndexOrEndAt(s[v0..], '"', |value|);
    }
    AttrCandidateAt(s, attr, k, |value|);
  }

  /** A candidate, stated over any text. */
  lemma {:induction false} AttrCandidateAt(s: string, attr: string, k: nat, q: nat)
    requires k < |s| && IsSpace(s[k]) && StartsWithIgnoreCase(s[k + 1..], attr + "=\"")
    requires k + 3 + |attr| + q < |s| && IndexOrEnd(s[k + 3 + |attr|..], '"') == q
    ensures AttrCandidate(s, attr, k) == Some(s[k + 3 + |attr|..k + 3 + |attr| + q])
  {
  }

  /** Inside `attr="` there is no white space, so no candidate starts there. */
  lemma {:induction false} NoCandidateInLiteral(s: string, attr: string, k: nat, k': nat)
    requires IsName(attr) && k < k' <= k + |attr| + 2
    requires k + 1 + |attr| + 2 <= |s| && s[k + 1..k + |attr| + 3] == attr + "=\""
    ensures AttrCandidate(s, attr, k').None?
  {
    var lit := attr + "=\"";
    assert s[k'] == lit[k' - k - 1];
  }

  /** No character of `attr="` lowers to '>'. */
  lemma {:induction false} NameLiteralHasNoAngle(attr: string)
    requires IsName(attr)
    ensures forall j :: 0 <= j < |attr + "=\""| ==> LowerChar((attr + "=\"")[j]) != '>'
  {
    forall j | 0 <= j < |attr| ensures LowerChar((attr + "=\"")[j]) != '>' {
      assert IsWordChar(attr[j]);
    }
  }

  /** A '>' after a case-blind match of `lit` lies past it when `lit` has none. */
  lemma {:induction false} AngleAfterLiteral(t: string, lit: string, i: nat)
    requires StartsWithIgnoreCase(t, lit) && i < |t| && t[i] == '>'
    requires forall j :: 0 <= j < |lit| ==> LowerChar(lit[j]) != '>'
    ensures i >= |lit|
  {
    forall j | 0 <= j < |lit| ensures t[j] != '>' {
      assert Lower(t[..|lit|])[j] == Lower(lit)[j];
    }
  }

  /** A candidate after the attribute's `="` would put `attr="` inside the
      rest of the tag. */
  lemma {:induction false} CandidateInRest(s: string, attr: string, v0: nat, g: nat, rest: string, k': nat)
    requires IsName(attr) && v0 <= k' < g < |s| && s[v0..g] == rest && s[g] == '>'
    requires AttrCandidate(s, attr, k').Some?
    ensures RecursIn(rest, attr)
  {
    var lit := attr + "=\"";
    var start := k' + 1;
    NameLiteralHasNoAngle(attr);
    AngleAfterLiteral(s[start..], lit, g - start);
    var j := k' - v0;
    assert rest[j] == s[k'];
    assert s[start..][..|lit|] == s[start..start + |lit|];
    assert rest[j + 1..][..|lit|] == s[start..start + |lit|];
  }

  /** `extractAttribute` reads back an attribute of the first tag that
      carries it, provided the attribute does not occur again later in that
      tag (when it does, the later occurrence wins: `AttrMatchLaterWins`). */
  lemma {:induction false} ExtractAttributeOfElement(tag: string, attr: string, pre: string, before: string,
                                  value: string, after: string, post: string)
    requires IsName(attr)
    requires '>' !in before && '"' !in value && '>' !in value && '>' !in after
    requires !RecursIn(value + "\"" + after, attr)
    requires forall j :: 0 <= j < |pre| ==>
               AttrMatch(tag, attr, (pre + AttributedTag(tag, before, attr, value, after) + post)[j..]).None?
    ensures ExtractAttribute(pre + AttributedTag(tag, before, attr, value, after) + post, tag, attr) == Some(value)
  {
    var e := AttributedTag(tag, before, attr, value, after) + post;
    var s := pre + e;
    assert pre + AttributedTag(tag, before, attr, value, after) + post == s;
    forall j | 0 <= j < |pre| ensures AttrMatcher(tag, attr)(s[j..]).None? {
      assert AttrMatch(tag, attr, s[j..]).None?;
    }
    AttrMatchOfTag(tag, attr, before, value, after, post);
    LeftmostAfter(AttrMatcher(tag, attr), pre, e, value);
  }

  /** No attribute match starts at a character other than '<'. */
  lemma {:induction false} NoAttrMatchAt(tag: string, attr: string, t: string)
    requires t != [] && t[0] != '<'
    ensures AttrMatch(tag, attr, t).None?
  {
    var open := "<" + tag;
    if |open| <= |t| {
      assert Lower(t[..|open|])[0] == LowerChar(t[0]) != '<';
      assert Lower(open)[0] == '<';
    }
  }

  lemma {:induction false} AttrMatchOfTag(tag: string, attr: string, before: string, value: string, after: string, post: string)
    requires IsName(attr)
    requires '>' !in before && '"' !in value && '>' !in value && '>' !in after
    requires !RecursIn(value + "\"" + after, attr)
    ensures AttrMatch(tag, attr, AttributedTag(tag, before, attr, value, after) + post) == Some(value)
  {
    var e := AttributedTag(tag, before, attr, value, after) + post;
    var rest := value + "\"" + after;
    var k := |"<" + tag| + |before|;
    var v0 := k + 1 + |attr| + 2;
    var g := v0 + |rest|;
    TagOpening(tag, attr, before, value, after, post);
    TagFacts(tag, attr, before, value, after, post, e, rest, k, v0, g);
    AttrMatchAt(tag, attr, e, value, k, v0, g, rest);
  }

  /** An attribute repeated in one tag: the greedy `[^>]*` settles on the
      later occurrence, so its value is the one read. */
  lemma {:induction false} AttrMatchLaterWins(tag: string, attr: string, before: string, first: string,
                                              between: string, value: string, after: string, post: string)
    requires IsName(attr)
    requires '>' !in before && '>' !in first && '>' !in between
    requires '"' !in value && '>' !in value && '>' !in after
    requires !RecursIn(value + "\"" + after, attr)
    ensures AttrMatch(tag, attr, AttributedTag(tag, before + " " + attr + "=\"" + first + "\"" + between, attr, value, after) + post)
         == Some(value)
  {
    var lead := before + " " + attr + "=\"" + first + "\"" + between;
    assert '>' !in lead by {
      NameLiteralHasNoAngle(attr);
      forall i | 0 <= i < |attr| ensures attr[i] != '>' {
        assert LowerChar((attr + "=\"")[i]) != '>';
      }
      LeadHasNoAngle(before, attr, first, between, lead);
    }
    AttrMatchOfTag(tag, attr, lead, value, after, post);
  }

  lemma {:induction false} LeadHasNoAngle(before: string, attr: string, first: string, between: string, lead: string)
    requires lead == before + " " + attr + "=\"" + first + "\"" + between
    requires '>' !in before && '>' !in attr && '>' !in first && '>' !in between
    ensures '>' !in lead
  {
  }

  /** Where the attribute's `="`, its value and the tag's '>' sit. */
  lemma {:induction false} TagFacts(tag: string, attr: string, before: string, value: string, after: string, post: string,
                                    e: string, rest: string, k: nat, v0: nat, g: nat)
    requires e == AttributedTag(tag, before, attr, value, after) + post && rest == value + "\"" + after
    requires k == |"<" + tag| + |before| && v0 == k + 1 + |attr| + 2 && g == v0 + |rest|
    ensures g < |e| && e[k + 1..v0] == attr + "=\"" && e[v0..g] == rest && e[g] == '>'
  {
    TagFromLiteral(tag, attr, before, value, after, post);
    TagLayout(e, "<" + tag + before + " ", attr + "=\"", rest, post, k + 1, v0, g);
  }

  /** The tag opens with `<tag`, its first '>' is its end, and the space
      before the attribute starts a candidate reading its value. */
  lemma {:induction false} TagOpening(tag: string, attr: string, before: string, value: string, after: string, post: string)
    requires IsName(attr)
    requires '>' !in before && '"' !in value && '>' !in value && '>' !in after
    ensures var e := AttributedTag(tag, before, attr, value, after) + post;
            var a := |"<" + tag|;
            StartsWithIgnoreCase(e, "<" + tag)
            && a + IndexOrEnd(e[a..], '>') == a + |before| + |attr| + |value| + 4 + |after|
            && AttrCandidate(e, attr, a + |before|) == Some(value)
  {
    var open := "<" + tag;
    var inner := before + " " + attr + "=\"" + value + "\"" + after;
    var e := AttributedTag(tag, before, attr, value, after) + post;
    assert StartsWithIgnoreCase(e, open) && |open| + IndexOrEnd(e[|open|..], '>') == |open| + |inner| by {
      TagPieces(tag, attr, before, value, after, post, inner);
      NameLiteralHasNoAngle(attr);
      assert '>' !in inner by {
        forall i | 0 <= i < |inner| ensures inner[i] != '>' {
          InnerChar(attr, before, value, after, inner, i);
        }
      }
      TagEndOf(e, open, inner, post);
    }
    assert AttrCandidate(e, attr, |open + before|) == Some(value) by {
      TagFromAttribute(tag, attr, before, value, after, post);
      CandidateAtAttribute(open + before, attr, value, after + (">" + post));
    }
  }

  /** The tag read as `<tag`, what lies between it and '>', and the rest. */
  lemma {:induction false} TagPieces(tag: string, attr: string, before: string, value: string, after: string, post: string, inner: string)
    requires inner == before + " " + attr + "=\"" + value + "\"" + after
    ensures AttributedTag(tag, before, attr, value, after) + post == ("<" + tag) + (inner + (">" + post))
  {
  }

  /** The tag read from the space before the attribute on. */
  lemma {:induction false} TagFromAttribute(tag: string, attr: string, before: string, value: string, after: string, post: string)
    ensures AttributedTag(tag, before, attr, value, after) + post
         == ("<" + tag + before) + (" " + (attr + "=\"" + (value + ("\"" + (after + (">" + post))))))
  {
  }

  /** The tag read from the attribute's `="` on. */
  lemma {:induction false} TagFromLiteral(tag: string, attr: string, before: string, value: string, after: string, post: string)
    ensures AttributedTag(tag, before, attr, value, after) + post
         == ("<" + tag + before + " ") + ((attr + "=\"") + ((value + "\"" + after) + (">" + post)))
  {
  }

  /** A character between `<tag` and '>' of an attributed tag. */
  lemma {:induction false} InnerChar(attr: string, before: string, value: string, after: string, inner: string, i: nat)
    requires inner == before + " " + attr + "=\"" + value + "\"" + after && i < |inner|
    requires '>' !in before && '>' !in value && '>' !in after
    requires forall j :: 0 <= j < |attr + "=\""| ==> LowerChar((attr + "=\"")[j]) != '>'
    ensures inner[i] != '>'
  {
    var lit := attr + "=\"";
    assert inner == before + (" " + (lit + (value + ("\"" + after))));
    if |before| + 1 <= i < |before| + 1 + |lit| {
      assert inner[i] == lit[i - |before| - 1];
      assert LowerChar(lit[i - |before| - 1]) != '>';
    }
  }

  /** A tag opened by `open` ends at the first '>' after it. */
  lemma {:induction false} TagEndOf(e: string, open: string, inner: string, post: string)
    requires e == open + (inner + (">" + post)) && '>' !in inner
    ensures StartsWithIgnoreCase(e, open)
    ensures |open| + IndexOrEnd(e[|open|..], '>') == |open| + |inner|
    ensures e[|open|..|open| + |inner|] == inner
  {
    assert e[..|open|] == open;
    assert e[|open|..] == inner + (">" + post);
    IndexOrEndAt(e[|open|..], '>', |inner|);
  }

  /** Where the pieces of the tag sit. */
  lemma {:induction false} TagLayout(e: string, head: string, lit: string, rest: string, post: string, h: nat, v0: nat, g: nat)
    requires e == head + (lit + (rest + (">" + post)))
    requires h == |head| && v0 == h + |lit| && g == v0 + |rest|
    ensures g < |e| && e[h..v0] == lit && e[v0..g] == rest && e[g] == '>'
  {
    assert e[|head|..] == lit + (rest + (">" + post));
    assert e[v0..] == rest + (">" + post);
  }

  /** The match at a tag whose last candidate reads `value`, stated over
      any text laid out as such a tag. */
  lemma {:induction false} AttrMatchAt(tag: string, attr: string, s: string, value: string, k: nat, v0: nat, g: nat, rest: string)
    requires IsName(attr) && StartsWithIgnoreCase(s, "<" + tag)
    requires |"<" + tag| + IndexOrEnd(s[|"<" + tag|..], '>') == g
    requires |"<" + tag| <= k && AttrCandidate(s, attr, k) == Some(value)
    requires v0 == k + 1 + |attr| + 2 && v0 <= g < |s|
    requires s[k + 1..v0] == attr + "=\"" && s[v0..g] == rest && s[g] == '>'
    requires !RecursIn(rest, attr)
    ensures AttrMatch(tag, attr, s) == Some(value)
  {
    forall k' | k < k' < g ensures AttrCandidate(s, attr, k').None? {
      if k' < v0 {
        NoCandidateInLiteral(s, attr, k, k');
      } else if AttrCandidate(s, attr, k').Some? {
        CandidateInRest(s, attr, v0, g, rest, k');
        assert false;
      }
    }
    LastCandidateIs(s, attr, |"<" + tag|, k, g);
    AttrMatchStep(tag, attr, s, |"<" + tag|, g, k);
  }

  lemma {:induction false} AttrMatchStep(tag: string, attr: string, s: string, a: nat, g: nat, k: nat)
    requires a == |"<" + tag| && a <= |s| && StartsWithIgnoreCase(s, "<" + tag)
    requires a + IndexOrEnd(s[a..], '>') == g
    requires LastCandidateAt(s, attr, a, g) == Some(k)
    ensures AttrMatch(tag, attr, s) == AttrCandidate(s, attr, k)
  {
    assert AttrMatch(tag, attr, s) == ValueOfHit(s, attr, Some(k));
  }

  /** The candidate with none after it is the one `LastCandidateAt` finds. */
  lemma {:induction false} LastCandidateIs(s: string, attr: string, lo: nat, k: nat, hi: nat)
    requires lo <= k < hi && AttrCandidate(s, attr, k).Some?
    requires forall k' :: k < k' < hi ==> AttrCandidate(s, attr, k').None?
    ensures LastCandidateAt(s, attr, lo, hi) == Some(k)
    decreases hi - k
  {
    if hi - 1 > k {
      LastCandidateIs(s, attr, lo, k, hi - 1);
    }
  }

  // ---------------------------------------------------------------------
  // extractAllAttributes: <tag([^>]*) then (\w+)="([^"]*)" within it

  /** One `name="value"` match and its length. */
  datatype AttrPair = AttrPair(name: string, value: string, length: nat)

  /** The length of the run of word characters `\w+` takes at the head of `s`. */
  function WordLength(s: string): (n: nat)
    ensures n <= |s|
    decreases |s|
  {
    if s == [] || !IsWordChar(s[0]) then 0 else 1 + WordLength(s[1..])
  }

  /** The run holds only word characters and stops before one that is not. */
  lemma {:induction false} WordLengthFacts(s: string)
    ensures forall i :: 0 <= i < WordLength(s) ==> IsWordChar(s[i])
    ensures WordLength(s) < |s| ==> !IsWordChar(s[WordLength(s)])
    decreases |s|
  {
    if s != [] && IsWordChar(s[0]) {
      WordLengthFacts(s[1..]);
    }
  }

  /** A match of `(\w+)="([^"]*)"` at the head of `s`. The word is the whole
      run of word characters, since '=' is not one. */
  function PairAt(s: string): (r: Option<AttrPair>)
    ensures r.Some? ==> 0 < r.value.length <= |s|
  {
    var w := WordLength(s);
    if w == 0 || !StartsWith(s[w..], "=\"") then None
    else
      var v0 := w + 2;
      var q := IndexOrEnd(s[v0..], '"');
      if v0 + q >= |s| then None else Some(AttrPair(s[..w], s[v0..v0 + q], v0 + q + 1))
  }

  /** The pairs the global attribute regex yields over a tag's text, in order. */
  function AttrPairs(s: string): seq<(string, string)>
    decreases |s|
  {
    match Leftmost(PairAt, s)
    case None => []
    case Some((i, m)) => [(m.name, m.value)] + AttrPairs(s[i + m.length..])
  }

  /** `attrs[name] = value` for each pair in turn: a later pair overrides. */
  function AttrMap(pairs: seq<(string, string)>): map<string, string>
    decreases |pairs|
  {
    if pairs == [] then map[]
    else
      var last := pairs[|pairs| - 1];
      AttrMap(pairs[..|pairs| - 1])[last.0 := last.1]
  }

  /** The attribute map has one key per name, holding the name's last value. */
  lemma {:induction false} AttrMapLookup(pairs: seq<(string, string)>, name: string)
    ensures name in AttrMap(pairs) <==> exists i :: 0 <= i < |pairs| && pairs[i].0 == name
    ensures name in AttrMap(pairs) ==> exists i :: 0 <= i < |pairs| && pairs[i].0 == name
                                                && AttrMap(pairs)[name] == pairs[i].1
                                                && forall j :: i < j < |pairs| ==> pairs[j].0 != name
    decreases |pairs|
  {
    if pairs != [] {
      var n := |pairs| - 1;
      var init := pairs[..n];
      AttrMapLookup(init, name);
      assert AttrMap(pairs) == AttrMap(init)[pairs[n].0 := pairs[n].1];
      if pairs[n].0 != name {
        if name in AttrMap(init) {
          var i :| 0 <= i < n && init[i].0 == name && AttrMap(init)[name] == init[i].1
                   && forall j :: i < j < n ==> init[j].0 != name;
          assert pairs[i] == init[i];
          forall j | i < j < |pairs| ensures pairs[j].0 != name {
            if j < n { assert pairs[j] == init[j]; }
          }
        } else {
          forall i | 0 <= i < |pairs| ensures pairs[i].0 != name {
            if i < n { assert pairs[i] == init[i]; }
          }
        }
      }
    }
  }

  /** The map is empty exactly when no pair was found: the `length > 0` test
      drops exactly the tags without attributes. */
  lemma {:induction false} AttrMapEmpty(pairs: seq<(string, string)>)
    ensures AttrMap(pairs) == map[] <==> pairs == []
  {
    if pairs != [] {
      AttrMapLookup(pairs, pairs[0].0);
    }
  }

  /** A match of `<tag([^>]*)` at the head of `s`: the text up to the first
      '>' and the match's length. */
  function OpenTagAt(tag: string, s: string): (r: Option<Capture>)
    ensures r.Some? ==> 0 < r.value.length <= |s|
  {
    var open := "<" + tag;
    if !StartsWithIgnoreCase(s, open) then None
    else
      var a := |open|;
      var g := IndexOrEnd(s[a..], '>');
      Some(Capture(s[a..a + g], a + g))
  }

  function OpenTagMatcher(tag: string): string -> Option<Capture> {
    s => OpenTagAt(tag, s)
  }

  /** The map one tag contributes: none when it carries no attribute (the
      test on the number of keys). */
  function TagAttributes(attrText: string): seq<map<string, string>> {
    var attrs := AttrMap(AttrPairs(attrText));
    if attrs != map[] then [attrs] else []
  }

  /** The text after `<tag` of every tag the outer `exec` loop visits, in order. */
  function TagTexts(xml: string, tag: string): seq<string> {
    AllTexts(OpenTagMatcher(tag), xml)
  }

  /** The maps of those texts that carry an attribute, in order. */
  function NonEmptyMaps(texts: seq<string>): seq<map<string, string>>
    decreases |texts|
  {
    if texts == [] then [] else TagAttributes(texts[0]) + NonEmptyMaps(texts[1..])
  }

  /** What `extractAllAttributes(xml, tag)` returns: one map per `<tag`
      occurrence carrying at least one attribute, in document order. */
  function AllAttributes(xml: string, tag: string): seq<map<string, string>> {
    NonEmptyMaps(TagTexts(xml, tag))
  }

  lemma {:induction false} NonEmptyMapsAppend(texts: seq<string>, t: string)
    ensures NonEmptyMaps(texts + [t]) == NonEmptyMaps(texts) + TagAttributes(t)
    decreases |texts|
  {
    if texts == [] {
      assert [t][1..] == [];
    } else {
      assert (texts + [t])[1..] == texts[1..] + [t];
      NonEmptyMapsAppend(texts[1..], t);
    }
  }

  /** A pair match lies inside the text and is not empty. */
  lemma {:induction false} PairFound(s: string, j: nat, p: AttrPair)
    requires Leftmost(PairAt, s) == Some((j, p))
    ensures 0 < p.length && j + p.length <= |s|
  {
  }

  /** One turn of the inner `exec` loop: the pair found and what follows it. */
  lemma {:induction false} AttrPairsStep(s: string, j: nat, p: AttrPair)
    requires Leftmost(PairAt, s) == Some((j, p)) && j + p.length <= |s|
    ensures AttrPairs(s) == [(p.name, p.value)] + AttrPairs(s[j + p.length..])
  {
  }

  /** A tag match lies inside the text and is not empty. */
  lemma {:induction false} TagFound(s: string, tag: string, i: nat, m: Capture)
    requires Leftmost(OpenTagMatcher(tag), s) == Some((i, m))
    ensures 0 < m.length && i + m.length <= |s|
  {
  }

  /** One turn of the outer `exec` loop. */
  lemma {:induction false} TagTextsStep(s: string, tag: string, i: nat, m: Capture)
    requires Leftmost(OpenTagMatcher(tag), s) == Some((i, m)) && i + m.length <= |s|
    ensures TagTexts(s, tag) == [m.text] + TagTexts(s[i + m.length..], tag)
  {
    TagFound(s, tag, i, m);
    AllTextsUnfold(OpenTagMatcher(tag), s, i, m);
  }

  /** Adding a pair sets its name in the map. */
  lemma {:induction false} AttrMapAppend(pairs: seq<(string, string)>, name: string, value: string)
    ensures AttrMap(pairs + [(name, value)]) == AttrMap(pairs)[name := value]
  {
    assert (pairs + [(name, value)])[..|pairs|] == pairs;
  }

  /** One turn of the inner loop: the pair found and the text after it. */
  lemma {:induction false} CollectStep(text: string, rest: string, j: nat, p: AttrPair,
                                       done: seq<(string, string)>)
    requires Leftmost(PairAt, rest) == Some((j, p))
    requires AttrPairs(text) == done + AttrPairs(rest)
    ensures j + p.length <= |rest|
    ensures |rest[j + p.length..]| < |rest|
    ensures AttrPairs(text) == (done + [(p.name, p.value)]) + AttrPairs(rest[j + p.length..])
  {
    PairFound(rest, j, p);
    AttrPairsStep(rest, j, p);
  }

  /** Where the inner loop stops: no pair is left. */
  lemma {:induction false} CollectDone(text: string, rest: string, done: seq<(string, string)>)
    requires Leftmost(PairAt, rest).None?
    requires AttrPairs(text) == done + AttrPairs(rest)
    ensures AttrPairs(text) == done
  {
    assert AttrPairs(rest) == [];
    assert done + [] == done;
  }

  /** The inner loop of `extractAllAttributes` over one tag's text. */
  method CollectAttributes(text: string) returns (attrs: map<string, string>)
    ensures attrs == AttrMap(AttrPairs(text))
  {
    attrs := map[];
    ghost var done: seq<(string, string)> := [];
    var rest := text;
    var pairMatch := Leftmost(PairAt, rest);
    while pairMatch.Some?
      invariant pairMatch == Leftmost(PairAt, rest)
      invariant AttrPairs(text) == done + AttrPairs(rest)
      invariant attrs == AttrMap(done)
      decreases |rest|
    {
      var j := pairMatch.value.0;
      var p := pairMatch.value.1;
      CollectStep(text, rest, j, p, done);
      AttrMapAppend(done, p.name, p.value);
      attrs := attrs[p.name := p.value];
      done := done + [(p.name, p.value)];
      rest := rest[j + p.length..];
      pairMatch := Leftmost(PairAt, rest);
    }
    CollectDone(text, rest, done);
  }

  /** One turn of the outer loop: the tag found and the text after it. */
  lemma {:induction false} ExtractStep(xml: string, tag: string, rest: string, i: nat, m: Capture,
                                       seen: seq<string>)
    requires Leftmost(OpenTagMatcher(tag), rest) == Some((i, m))
    requires TagTexts(xml, tag) == seen + TagTexts(rest, tag)
    ensures i + m.length <= |rest|
    ensures |rest[i + m.length..]| < |rest|
    ensures TagTexts(xml, tag) == (seen + [m.text]) + TagTexts(rest[i + m.length..], tag)
  {
    TagFound(rest, tag, i, m);
    TagTextsStep(rest, tag, i, m);
  }

  /** The outer loop keeps a tag's map exactly when it is not empty. */
  lemma {:induction false} MapsStep(seen: seq<string>, t: string, attrs: map<string, string>)
    requires attrs == AttrMap(AttrPairs(t))
    ensures NonEmptyMaps(seen + [t])
            == if attrs != map[] then NonEmptyMaps(seen) + [attrs] else NonEmptyMaps(seen)
  {
    NonEmptyMapsAppend(seen, t);
    if attrs == map[] {
      assert NonEmptyMaps(seen) + [] == NonEmptyMaps(seen);
    }
  }

  /** `extractAllAttributes`: the outer loop runs the tag regex and hands
      each tag's text to the attribute loop. */
  method ExtractAllAttributes(xml: string, tag: string) returns (results: seq<map<string, string>>)
    ensures results == AllAttributes(xml, tag)
  {
    results := [];
    ghost var seen: seq<string> := [];
    // The regex's `lastIndex` is modelled by the text it has not scanned yet.
    var rest := xml;
    var tagMatch := Leftmost(OpenTagMatcher(tag), rest);
    while tagMatch.Some?
      invariant tagMatch == Leftmost(OpenTagMatcher(tag), rest)
      invariant TagTexts(xml, tag) == seen + TagTexts(rest, tag)
      invariant results == NonEmptyMaps(seen)
      decreases |rest|
    {
      var (i, m) := tagMatch.value;
      ExtractStep(xml, tag, rest, i, m, seen);
      var attrs := CollectAttributes(m.text);
      if attrs != map[] {
        results := results + [attrs];
      }
      MapsStep(seen, m.text, attrs);
      seen := seen + [m.text];
      rest := rest[i + m.length..];
      tagMatch := Leftmost(OpenTagMatcher(tag), rest);
    }
    assert seen + [] == seen;
  }

  lemma {:induction false} NonEmptyMapsNonEmpty(texts: seq<string>, k: nat)
    requires k < |NonEmptyMaps(texts)|
    ensures NonEmptyMaps(texts)[k] != map[]
    decreases |texts|
  {
    var here := TagAttributes(texts[0]);
    if k >= |here| {
      NonEmptyMapsNonEmpty(texts[1..], k - |here|);
    }
  }

  /** Every map in the result carries at least one attribute. */
  lemma {:induction false} AllAttributesNonEmpty(xml: string, tag: string, k: nat)
    requires k < |AllAttributes(xml, tag)|
    ensures AllAttributes(xml, tag)[k] != map[]
  {
    NonEmptyMapsNonEmpty(TagTexts(xml, tag), k);
  }

  // Rendering a list of attributed elements, to state what the reader recovers.

  /** ` name="value"` for each pair. */
  function AttrText(pairs: seq<(string, string)>): string
    decreases |pairs|
  {
    if pairs == [] then "" else " " + pairs[0].0 + "=\"" + pairs[0].1 + "\"" + AttrText(pairs[1..])
  }

  /** Names are identifiers; values hold no quote and no '>'. */
  predicate WellFormedPairs(pairs: seq<(string, string)>) {
    forall i :: 0 <= i < |pairs| ==> IsName(pairs[i].0) && '"' !in pairs[i].1 && '>' !in pairs[i].1
  }

  lemma {:induction false} AttrTextHasNoAngle(pairs: seq<(string, string)>)
    requires WellFormedPairs(pairs)
    ensures '>' !in AttrText(pairs)
    decreases |pairs|
  {
    if pairs != [] {
      AttrTextHasNoAngle(pairs[1..]);
      var k := pairs[0].0;
      forall i | 0 <= i < |k| ensures k[i] != '>' { assert IsWordChar(k[i]); }
    }
  }

  /** A pair match, stated over any text. */
  lemma {:induction false} PairAtStep(t: string, w: nat, q: nat)
    requires 0 < w && WordLength(t) == w && w + 2 + q < |t|
    requires t[w..][..2] == "=\"" && IndexOrEnd(t[w + 2..], '"') == q
    ensures PairAt(t) == Some(AttrPair(t[..w], t[w + 2..w + 2 + q], w + 3 + q))
  {
  }

  lemma {:induction false} WordLengthOfName(k: string, rest: string)
    requires IsName(k) && (rest == [] || !IsWordChar(rest[0]))
    ensures WordLength(k + rest) == |k|
    decreases |k|
  {
    if |k| > 1 {
      assert (k + rest)[1..] == k[1..] + rest;
      WordLengthOfName(k[1..], rest);
    } else {
      assert (k + rest)[1..] == rest;
    }
  }

  /** The pair at the head of `name="value"…`. */
  lemma {:induction false} PairAtOfText(k: string, v: string, restText: string)
    requires IsName(k) && '"' !in v
    ensures PairAt(k + ("=\"" + (v + ("\"" + restText)))) == Some(AttrPair(k, v, |k| + 3 + |v|))
  {
    var tail := "=\"" + (v + ("\"" + restText));
    var t := k + tail;
    WordLengthOfName(k, tail);
    PairLayout(k, v, restText, t);
    IndexOrEndAt(t[|k| + 2..], '"', |v|);
    PairAtStep(t, |k|, |v|);
  }

  /** Where the name and the value of `name="value"…` sit. */
  lemma {:induction false} PairLayout(k: string, v: string, restText: string, t: string)
    requires t == k + ("=\"" + (v + ("\"" + restText)))
    ensures |k| + 2 + |v| < |t| && t[|k|..][..2] == "=\"" && t[..|k|] == k
    ensures t[|k| + 2..][..|v|] == v && t[|k| + 2..][|v|] == '"'
    ensures t[|k| + 2..|k| + 2 + |v|] == v
  {
    var tail := "=\"" + (v + ("\"" + restText));
    assert t[|k|..] == tail;
    assert t[|k| + 2..] == v + ("\"" + restText);
  }

  /** The first pair of a rendered attribute list is found one character in. */
  lemma {:induction false} LeftmostPairOfText(k: string, v: string, restText: string)
    requires IsName(k) && '"' !in v
    ensures Leftmost(PairAt, " " + (k + ("=\"" + (v + ("\"" + restText)))))
         == Some((1, AttrPair(k, v, |k| + 3 + |v|)))
  {
    var t := k + ("=\"" + (v + ("\"" + restText)));
    PairAtOfText(k, v, restText);
    assert (" " + t)[0..] == " " + t;
    assert WordLength(" " + t) == 0;
    LeftmostSkip(PairAt, " ", t);
    assert t[0..] == t;
  }

  /** The pairs of ` name="value"…` are that pair and those after it. */
  lemma {:induction false} AttrPairsHead(k: string, v: string, restText: string)
    requires IsName(k) && '"' !in v
    ensures AttrPairs(" " + (k + ("=\"" + (v + ("\"" + restText))))) == [(k, v)] + AttrPairs(restText)
  {
    var s := " " + (k + ("=\"" + (v + ("\"" + restText))));
    LeftmostPairOfText(k, v, restText);
    AfterPairText(k, v, restText);
    AttrPairsAfter(s, restText, AttrPair(k, v, |k| + 3 + |v|));
  }

  lemma {:induction false} AfterPairText(k: string, v: string, restText: string)
    ensures (" " + (k + ("=\"" + (v + ("\"" + restText)))))[1 + (|k| + 3 + |v|)..] == restText
  {
  }

  /** A pair found one character in, followed by `restText`. */
  lemma {:induction false} AttrPairsAfter(s: string, restText: string, p: AttrPair)
    requires Leftmost(PairAt, s) == Some((1, p)) && 1 + p.length <= |s|
    requires s[1 + p.length..] == restText
    ensures AttrPairs(s) == [(p.name, p.value)] + AttrPairs(restText)
  {
    AttrPairsStep(s, 1, p);
  }

  /** Pairs rendered in front of a text whose pairs are known. */
  lemma {:induction false} AttrPairsCons(k: string, v: string, restText: string,
                                         ps: seq<(string, string)>, r: seq<(string, string)>)
    requires IsName(k) && '"' !in v
    requires AttrPairs(restText) == ps + r
    ensures AttrPairs(" " + (k + ("=\"" + (v + ("\"" + restText))))) == ([(k, v)] + ps) + r
  {
    AttrPairsHead(k, v, restText);
    ConsAssoc((k, v), ps, r);
  }

  lemma ConsAssoc<T>(x: T, a: seq<T>, b: seq<T>)
    ensures [x] + (a + b) == ([x] + a) + b
  {
  }

  lemma {:induction false} AttrPairsOfText(pairs: seq<(string, string)>, tail: string)
    requires WellFormedPairs(pairs)
    ensures AttrPairs(AttrText(pairs) + tail) == pairs + AttrPairs(tail)
    decreases |pairs|
  {
    if pairs != [] {
      AttrPairsOfText(pairs[1..], tail);
      AttrPairsOfTextStep(pairs, tail, AttrText(pairs[1..]) + tail, AttrPairs(tail));
    } else {
      assert AttrText(pairs) + tail == tail;
      assert pairs + AttrPairs(tail) == AttrPairs(tail);
    }
  }

  /** The first pair of a rendered list, regrouped to the right. */
  lemma {:induction false} AttrTextCons(pairs: seq<(string, string)>, tail: string, restText: string)
    requires pairs != [] && restText == AttrText(pairs[1..]) + tail
    ensures AttrText(pairs) + tail == " " + (pairs[0].0 + ("=\"" + (pairs[0].1 + ("\"" + restText))))
  {
    var k, v, t := pairs[0].0, pairs[0].1, AttrText(pairs[1..]);
    assert AttrText(pairs) == " " + k + "=\"" + v + "\"" + t;
    ConcatRight(" ", k, "=\"", v, "\"", t, tail);
  }

  /** Seven strings concatenated, grouped to the left or to the right. */
  lemma ConcatRight(a: string, b: string, c: string, d: string, e: string, f: string, g: string)
    ensures a + b + c + d + e + f + g == a + (b + (c + (d + (e + (f + g)))))
  {
  }

  /** The inductive step: the first pair rendered in front of the rest. */
  lemma {:induction false} AttrPairsOfTextStep(pairs: seq<(string, string)>, tail: string, restText: string, r: seq<(string, string)>)
    requires pairs != [] && WellFormedPairs(pairs)
    requires restText == AttrText(pairs[1..]) + tail
    requires AttrPairs(restText) == pairs[1..] + r
    ensures AttrPairs(AttrText(pairs) + tail) == pairs + r
  {
    var k, v := pairs[0].0, pairs[0].1;
    AttrTextCons(pairs, tail, restText);
    AttrPairsCons(k, v, restText, pairs[1..], r);
    assert pairs == [(k, v)] + pairs[1..];
  }

  /** `AttrPairs` finds nothing where there is no word character. */
  lemma {:induction false} NoWordNoPairs(s: string)
    requires forall i :: 0 <= i < |s| ==> !IsWordChar(s[i])
    ensures AttrPairs(s) == []
  {
    forall j | 0 <= j <= |s| ensures PairAt(s[j..]).None? {
      assert WordLength(s[j..]) == 0;
    }
  }

  /** A rendered non-empty attribute list closed by `/` gives its map. */
  lemma {:induction false} TagAttributesOfText(pairs: seq<(string, string)>)
    requires pairs != [] && WellFormedPairs(pairs)
    ensures TagAttributes(AttrText(pairs) + "/") == [AttrMap(pairs)]
  {
    AttrPairsOfText(pairs, "/");
    NoWordNoPairs("/");
    AttrMapEmpty(pairs);
    assert pairs + [] == pairs;
  }

  /** The element `<tag name="value" …/>`. */
  function Element(tag: string, pairs: seq<(string, string)>): string {
    "<" + tag + AttrText(pairs) + "/>"
  }

  function Elements(tag: string, elems: seq<seq<(string, string)>>): string
    decreases |elems|
  {
    if elems == [] then "" else Element(tag, elems[0]) + Elements(tag, elems[1..])
  }

  /** What the tag regex captures of each rendered element. */
  function ElementTexts(elems: seq<seq<(string, string)>>): (r: seq<string>)
    ensures |r| == |elems|
  {
    seq(|elems|, i requires 0 <= i < |elems| => AttrText(elems[i]) + "/")
  }

  function AttrMaps(elems: seq<seq<(string, string)>>): (r: seq<map<string, string>>)
    ensures |r| == |elems|
  {
    seq(|elems|, i requires 0 <= i < |elems| => AttrMap(elems[i]))
  }

  /** No tag starts at a character other than '<'. */
  lemma {:induction false} NoTagAt(tag: string, t: string)
    requires t != [] && t[0] != '<'
    ensures OpenTagAt(tag, t).None?
  {
    var open := "<" + tag;
    if |open| <= |t| {
      assert Lower(t[..|open|])[0] == LowerChar(t[0]) != '<';
      assert Lower(open)[0] == '<';
    }
  }

  /** Text without '<' before or between elements is skipped. */
  lemma {:induction false} TagTextsSkip(pre: string, rest: string, tag: string)
    requires '<' !in pre
    ensures TagTexts(pre + rest, tag) == TagTexts(rest, tag)
  {
    var s := pre + rest;
    forall j | 0 <= j < |pre| ensures OpenTagMatcher(tag)(s[j..]).None? {
      assert s[j..][0] == pre[j];
      NoTagAt(tag, s[j..]);
    }
    LeftmostSkip(OpenTagMatcher(tag), pre, rest);
    assert s[|pre|..] == rest;
    AllTextsShift(OpenTagMatcher(tag), s, rest, |pre|);
  }

  /** The first element is the first tag match; its text runs to the '>'. */
  lemma {:induction false} LeftmostTagOfElement(tag: string, pairs: seq<(string, string)>, rest: string)
    requires WellFormedPairs(pairs)
    ensures Leftmost(OpenTagMatcher(tag), Element(tag, pairs) + rest)
         == Some((0, Capture(AttrText(pairs) + "/", |Element(tag, pairs)| - 1)))
  {
    var open := "<" + tag;
    var text := AttrText(pairs) + "/";
    var s := Element(tag, pairs) + rest;
    assert s == open + (text + (">" + rest));
    AttrTextHasNoAngle(pairs);
    TagEndOf(s, open, text, rest);
    var c := Capture(text, |open| + |text|);
    assert OpenTagMatcher(tag)(s) == Some(c);
    LeftmostAtHead(OpenTagMatcher(tag), s, c);
  }

  /** The tag regex takes the text of a leading element, then goes on after it. */
  lemma {:induction false} TagTextsOfElement(tag: string, pairs: seq<(string, string)>, rest: string)
    requires WellFormedPairs(pairs)
    ensures TagTexts(Element(tag, pairs) + rest, tag) == [AttrText(pairs) + "/"] + TagTexts(rest, tag)
  {
    var s := Element(tag, pairs) + rest;
    var n := |Element(tag, pairs)| - 1;
    LeftmostTagOfElement(tag, pairs, rest);
    assert s[n..] == ">" + rest;
    TagTextsAfter(s, tag, ">" + rest, Capture(AttrText(pairs) + "/", n));
    TagTextsSkip(">", rest, tag);
  }

  /** A tag found at the head of `s`, followed by `r`. */
  lemma {:induction false} TagTextsAfter(s: string, tag: string, r: string, c: Capture)
    requires Leftmost(OpenTagMatcher(tag), s) == Some((0, c)) && c.length <= |s| && s[c.length..] == r
    ensures TagTexts(s, tag) == [c.text] + TagTexts(r, tag)
  {
    TagTextsStep(s, tag, 0, c);
  }

  /** The tag regex visits each rendered element once, in order. */
  lemma {:induction false} TagTextsOfElements(tag: string, elems: seq<seq<(string, string)>>)
    requires forall i :: 0 <= i < |elems| ==> WellFormedPairs(elems[i])
    ensures TagTexts(Elements(tag, elems), tag) == ElementTexts(elems)
    decreases |elems|
  {
    if elems != [] {
      TagTextsOfElements(tag, elems[1..]);
      TagTextsOfElementsStep(tag, elems);
    }
  }

  /** The inductive step: the first element in front of the rest. */
  lemma {:induction false} TagTextsOfElementsStep(tag: string, elems: seq<seq<(string, string)>>)
    requires elems != [] && WellFormedPairs(elems[0])
    requires TagTexts(Elements(tag, elems[1..]), tag) == ElementTexts(elems[1..])
    ensures TagTexts(Elements(tag, elems), tag) == ElementTexts(elems)
  {
    assert Elements(tag, elems) == Element(tag, elems[0]) + Elements(tag, elems[1..]);
    TagTextsOfElement(tag, elems[0], Elements(tag, elems[1..]));
    ElementTextsCons(elems);
  }

  lemma {:induction false} ElementTextsCons(elems: seq<seq<(string, string)>>)
    requires elems != []
    ensures ElementTexts(elems) == [AttrText(elems[0]) + "/"] + ElementTexts(elems[1..])
  {
    var a, b := ElementTexts(elems), [AttrText(elems[0]) + "/"] + ElementTexts(elems[1..]);
    forall i | 0 <= i < |a| ensures a[i] == b[i] {
      if 0 < i {
        assert b[i] == ElementTexts(elems[1..])[i - 1];
      }
    }
  }

  /** Texts that each give one map give those maps, in order. */
  lemma {:induction false} NonEmptyMapsOfEach(texts: seq<string>, maps: seq<map<string, string>>)
    requires |texts| == |maps|
    requires forall i :: 0 <= i < |texts| ==> TagAttributes(texts[i]) == [maps[i]]
    ensures NonEmptyMaps(texts) == maps
    decreases |texts|
  {
    if texts != [] {
      assert TagAttributes(texts[0]) == [maps[0]];
      NonEmptyMapsOfEach(texts[1..], maps[1..]);
      assert maps == [maps[0]] + maps[1..];
    }
  }

  /** Each rendered element gives its own map. */
  lemma {:induction false} NonEmptyMapsOfTexts(elems: seq<seq<(string, string)>>)
    requires forall i :: 0 <= i < |elems| ==> elems[i] != [] && WellFormedPairs(elems[i])
    ensures NonEmptyMaps(ElementTexts(elems)) == AttrMaps(elems)
  {
    var texts, maps := ElementTexts(elems), AttrMaps(elems);
    forall i | 0 <= i < |texts| ensures TagAttributes(texts[i]) == [maps[i]] {
      TagAttributesOfText(elems[i]);
    }
    NonEmptyMapsOfEach(texts, maps);
  }

  /** Reading back a list of rendered elements gives one map per element:
      the round trip of the reader. */
  lemma {:induction false} AllAttributesOfElements(tag: string, elems: seq<seq<(string, string)>>)
    requires forall i :: 0 <= i < |elems| ==> elems[i] != [] && WellFormedPairs(elems[i])
    ensures AllAttributes(Elements(tag, elems), tag) == AttrMaps(elems)
  {
    TagTextsOfElements(tag, elems);
    NonEmptyMapsOfTexts(elems);
  }

  // ---------------------------------------------------------------------
  // The nameserver reader of get-nameservers: /<Nameserver>([^<]+)<\/Nameserver>/gi

  const NameserverPattern := TextPattern("Nameserver", true, false, true)

  /** A capture match lies inside the text and is not empty. */
  lemma {:induction false} TextFound(p: TextPattern, s: string, i: nat, c: Capture)
    requires Leftmost(TextMatcher(p), s) == Some((i, c))
    ensures 0 < c.length && i + c.length <= |s|
  {
  }

  /** One turn of the loop: the capture found and the text after it. */
  lemma {:induction false} AllTextsStep(p: TextPattern, xml: string, rest: string, i: nat, c: Capture,
                                        acc: seq<string>)
    requires Leftmost(TextMatcher(p), rest) == Some((i, c))
    requires AllTexts(TextMatcher(p), xml) == acc + AllTexts(TextMatcher(p), rest)
    ensures i + c.length <= |rest|
    ensures |rest[i + c.length..]| < |rest|
    ensures AllTexts(TextMatcher(p), xml) == (acc + [c.text]) + AllTexts(TextMatcher(p), rest[i + c.length..])
  {
    TextFound(p, rest, i, c);
    AllTextsUnfold(TextMatcher(p), rest, i, c);
  }

  /** The `while` loop of get-nameservers that pushes each capture. */
  method ExtractNameservers(xml: string) returns (nameservers: seq<string>)
    ensures nameservers == AllTexts(TextMatcher(NameserverPattern), xml)
  {
    nameservers := [];
    // The regex's `lastIndex` is modelled by the text it has not scanned yet.
    var rest := xml;
    var found := Leftmost(TextMatcher(NameserverPattern), rest);
    while found.Some?
      invariant found == Leftmost(TextMatcher(NameserverPattern), rest)
      invariant AllTexts(TextMatcher(NameserverPattern), xml)
                == nameservers + AllTexts(TextMatcher(NameserverPattern), rest)
      decreases |rest|
    {
      var (i, c) := found.value;
      AllTextsStep(NameserverPattern, xml, rest, i, c, nameservers);
      nameservers := nameservers + [c.text];
      rest := rest[i + c.length..];
      found := Leftmost(TextMatcher(NameserverPattern), rest);
    }
  }

  /** Each capture of a matcher whose captures are text is text. */
  lemma {:induction false} CapturesAreText(f: string -> Option<Capture>, xml: string, k: nat)
    requires forall s :: f(s).Some? ==> f(s).value.text != "" && '<' !in f(s).value.text
    requires k < |AllTexts(f, xml)|
    ensures AllTexts(f, xml)[k] != "" && '<' !in AllTexts(f, xml)[k]
    decreases |xml|
  {
    match Leftmost(f, xml)
    case Some((i, c)) =>
      if k > 0 {
        CapturesAreText(f, xml[i + c.length..], k - 1);
      }
  }

  /** Each text a non-empty pattern yields is non-empty and holds no '<'. */
  lemma {:induction false} AllTextsAreText(p: TextPattern, xml: string, k: nat)
    requires p.nonEmpty && k < |AllTexts(TextMatcher(p), xml)|
    ensures AllTexts(TextMatcher(p), xml)[k] != "" && '<' !in AllTexts(TextMatcher(p), xml)[k]
  {
    forall s | TextMatcher(p)(s).Some?
      ensures TextMatcher(p)(s).value.text != "" && '<' !in TextMatcher(p)(s).value.text
    {
      CaptureIsText(p, s);
    }
    CapturesAreText(TextMatcher(p), xml, k);
  }

  function NameserverList(names: seq<string>): string
    decreases |names|
  {
    if names == [] then ""
    else ElementText(NameserverPattern, "", names[0]) + NameserverList(names[1..])
  }

  /** A leading `<Nameserver>` element gives its name, then the scan goes on
      after it. */
  lemma {:induction false} NameserverOfElement(name: string, rest: string)
    requires name != "" && '<' !in name
    ensures AllTexts(TextMatcher(NameserverPattern), ElementText(NameserverPattern, "", name) + rest)
         == [name] + AllTexts(TextMatcher(NameserverPattern), rest)
  {
    var e := ElementText(NameserverPattern, "", name);
    assert Leftmost(TextMatcher(NameserverPattern), e + rest) == Some((0, Capture(name, |e|))) by {
      LeftmostElement(NameserverPattern, "", "", name, rest);
      assert "" + e + rest == e + rest;
    }
    AllTextsOfHead(TextMatcher(NameserverPattern), e, rest, Capture(name, |e|));
  }

  /** A list of `<Nameserver>` elements reads back as the list of names. */
  lemma {:induction false} NameserversOfList(names: seq<string>)
    requires forall k :: 0 <= k < |names| ==> names[k] != "" && '<' !in names[k]
    ensures AllTexts(TextMatcher(NameserverPattern), NameserverList(names)) == names
    decreases |names|
  {
    if names != [] {
      NameserverOfElement(names[0], NameserverList(names[1..]));
      NameserversOfList(names[1..]);
      assert names == [names[0]] + names[1..];
    }
  }

  // ---------------------------------------------------------------------
  // The error check of namecheapRequest, and the success markers

  /** The error pattern /<Error[^>]*>([^<]+)<\/Error>/, case-sensitive. */
  const ErrorPattern := TextPattern("Error", false, true, true)

  const ErrorMarker := "Status=\"ERROR\""
  const ErrorPrefix := "Namecheap API error: "
  const UnknownError := "Unknown API error"

  /** The check every reply passes: a reply carrying the error marker raises
      with the text of its first error element; any other reply is handed
      back unchanged. */
  function CheckResponse(xml: string): (r: Result<string, string>)
    ensures r.Ok? <==> !Contains(xml, ErrorMarker)
    ensures r.Ok? ==> r.value == xml
    ensures r.Err? ==> StartsWith(r.error, ErrorPrefix)
  {
    if Contains(xml, ErrorMarker) then
      var message := match FirstText(ErrorPattern, xml) case Some(t) => t case None => UnknownError;
      assert (ErrorPrefix + message)[..|ErrorPrefix|] == ErrorPrefix;
      Err(ErrorPrefix + message)
    else Ok(xml)
  }

  /** An error reply reports the text of its first `<Error>` element. */
  lemma {:induction false} CheckResponseReportsError(pre: string, attrs: string, message: string, post: string)
    requires '>' !in attrs && '<' !in message && message != ""
    requires forall j :: 0 <= j < |pre| ==>
               TextMatch(ErrorPattern, (pre + ElementText(ErrorPattern, attrs, message) + post)[j..]).None?
    requires Contains(pre + ElementText(ErrorPattern, attrs, message) + post, ErrorMarker)
    ensures CheckResponse(pre + ElementText(ErrorPattern, attrs, message) + post) == Err(ErrorPrefix + message)
  {
    FirstElement(ErrorPattern, pre, attrs, message, post);
  }

  /** An error reply without an error element reports the fallback message. */
  lemma {:induction false} CheckResponseUnknown(xml: string)
    requires Contains(xml, ErrorMarker)
    requires forall j {:trigger TextMatch(ErrorPattern, xml[j..])} ::
               0 <= j <= |xml| ==> TextMatch(ErrorPattern, xml[j..]).None?
    ensures CheckResponse(xml) == Err(ErrorPrefix + UnknownError)
  {
  }

  const HostsMarker := "IsSuccess=\"true\""
  const CustomMarker := "Update=\"true\""
  const DefaultMarker := "Updated=\"true\""

  /** set-dns-host and delete-dns-host: `IsSuccess="true"`. */
  predicate HostsUpdated(xml: string) {
    Contains(xml, HostsMarker)
  }

  /** set-nameservers: `Update="true"` or `IsSuccess="true"`. */
  predicate CustomNameserversSet(xml: string) {
    Contains(xml, CustomMarker) || Contains(xml, HostsMarker)
  }

  /** set-default-nameservers: `Updated="true"` or `IsSuccess="true"`. */
  predicate DefaultNameserversSet(xml: string) {
    Contains(xml, DefaultMarker) || Contains(xml, HostsMarker)
  }

  /** The shared `IsSuccess` marker satisfies all three checks, but the two
      nameserver checks each accept a reply the other rejects: `Updated` is
      not `Update` followed by `=`. */
  lemma {:induction false} SuccessMarkers(xml: string)
    ensures HostsUpdated(xml) ==> CustomNameserversSet(xml) && DefaultNameserversSet(xml)
    ensures !CustomNameserversSet(DefaultMarker) && DefaultNameserversSet(DefaultMarker)
    ensures CustomNameserversSet(CustomMarker) && !DefaultNameserversSet(CustomMarker)
  {
    ContainsItself(DefaultMarker);
    ContainsItself(CustomMarker);
    ContainsNotLonger(DefaultMarker, HostsMarker);
    ContainsNotLonger(CustomMarker, HostsMarker);
    ContainsNotLonger(CustomMarker, DefaultMarker);
    DefaultLacksCustom();
  }

  lemma {:induction false} ContainsItself(s: string)
    ensures Contains(s, s)
  {
    assert StartsWith(s[0..], s);
  }

  lemma {:induction false} ContainsNotLonger(s: string, p: string)
    requires |s| < |p|
    ensures !Contains(s, p)
  {
  }

  lemma {:induction false} DefaultLacksCustom()
    ensures !Contains(DefaultMarker, CustomMarker)
  {
    forall i | 0 <= i <= |DefaultMarker| ensures !StartsWith(DefaultMarker[i..], CustomMarker) {
      if i == 0 { assert DefaultMarker[6] != CustomMarker[6]; }
      else if i == 1 { assert DefaultMarker[1] != CustomMarker[0]; }
    }
  }
}
