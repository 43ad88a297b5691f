/** JSON values as both servers and the Karabiner helper see them after
    parsing: objects keep their members in insertion order, as JavaScript
    objects and Python dicts do. A parsed object has distinct keys
    (`JSON.parse` and `json.loads` keep the last of duplicate keys), so
    looking up the first member with a key finds the only one. The module gives property access,
    truthiness in JavaScript and in Python, `String(v)` of JavaScript, and
    the compact text `JSON.stringify(v)`, with its string escaping proved
    reversible. */
module Json {
  import opened Wrappers
  import opened Strings

  datatype Value =
    | Null
    | Bool(b: bool)
    | Num(n: int)
    | Str(s: string)
    | Arr(items: seq<Value>)
    | Obj(members: seq<Member>)

  datatype Member = Member(key: string, value: Value)

  // ---------------------------------------------------------------------
  // Objects as ordered dictionaries

  /** The value of the first member named `key` (`obj[key]`, `d.get(key)`). */
  function Get(members: seq<Member>, key: string): Option<Value>
    decreases |members|
  {
    if members == [] then None
    else if members[0].key == key then Some(members[0].value)
    else Get(members[1..], key)
  }

  /** `Get` finds a member exactly when one carries the key, and what it
      finds is the value of the first member that carries it. */
  lemma {:induction false} GetFound(members: seq<Member>, key: string)
    ensures Get(members, key).Some? <==> exists i :: 0 <= i < |members| && members[i].key == key
    ensures Get(members, key).Some? ==>
              exists i :: 0 <= i < |members| && members[i] == Member(key, Get(members, key).value)
                          && forall j :: 0 <= j < i ==> members[j].key != key
    decreases |members|
  {
    if members != [] && members[0].key != key {
      var tail := members[1..];
      GetFound(tail, key);
      assert forall i :: 1 <= i < |members| ==> members[i] == tail[i - 1];
      if Get(members, key).Some? {
        var i :| 0 <= i < |tail| && tail[i] == Member(key, Get(tail, key).value)
                 && forall j :: 0 <= j < i ==> tail[j].key != key;
        assert members[i + 1] == Member(key, Get(members, key).value);
        forall j | 0 <= j < i + 1 ensures members[j].key != key {
          if j > 0 {
            assert members[j] == tail[j - 1];
          }
        }
      }
    } else if members != [] {
      assert members[0] == Member(key, Get(members, key).value);
    }
  }

  function Keys(members: seq<Member>): (ks: seq<string>)
    ensures |ks| == |members|
    ensures forall i :: 0 <= i < |members| ==> ks[i] == members[i].key
  {
    seq(|members|, i requires 0 <= i < |members| => members[i].key)
  }

  /** The keys of two runs of members, one after the other. */
  lemma KeysAppend(a: seq<Member>, b: seq<Member>)
    ensures Keys(a + b) == Keys(a) + Keys(b)
  {
  }

  /** `d[key] = v` on a dict: the first member named `key` gets the new value
      where it stands; without one, the member is added last. */
  function Set(members: seq<Member>, key: string, v: Value): (r: seq<Member>)
    ensures |members| <= |r| <= |members| + 1
    decreases |members|
  {
    if members == [] then [Member(key, v)]
    else if members[0].key == key then [Member(key, v)] + members[1..]
    else [members[0]] + Set(members[1..], key, v)
  }

  /** After `d[key] = v`, `key` reads `v`. */
  lemma {:induction false} SetGetSame(members: seq<Member>, key: string, v: Value)
    ensures Get(Set(members, key, v), key) == Some(v)
    decreases |members|
  {
    if members != [] && members[0].key != key {
      SetGetSame(members[1..], key, v);
    }
  }

  /** `d[key] = v` leaves every other key reading as before. */
  lemma {:induction false} SetGetOther(members: seq<Member>, key: string, v: Value, other: string)
    requires other != key
    ensures Get(Set(members, key, v), other) == Get(members, other)
    decreases |members|
  {
    if members != [] && members[0].key != key && members[0].key != other {
      SetGetOther(members[1..], key, v, other);
    }
  }

  /** An existing key is updated where it stands, so no key moves; a new
      key is appended. */
  lemma {:induction false} SetKeys(members: seq<Member>, key: string, v: Value)
    ensures Get(members, key).Some? ==> Keys(Set(members, key, v)) == Keys(members)
    ensures Get(members, key).None? ==> Set(members, key, v) == members + [Member(key, v)]
    decreases |members|
  {
    if members != [] && members[0].key != key {
      SetKeys(members[1..], key, v);
      assert members == [members[0]] + members[1..];
    }
  }

  /** Assigning a key the value it already holds changes nothing. */
  lemma {:induction false} SetUnchanged(members: seq<Member>, key: string, v: Value)
    requires Get(members, key) == Some(v)
    ensures Set(members, key, v) == members
    decreases |members|
  {
    if members[0].key != key {
      SetUnchanged(members[1..], key, v);
    }
  }

  /** A second assignment to the same key overrides the first. */
  lemma {:induction false} SetTwice(members: seq<Member>, key: string, v: Value, w: Value)
    ensures Set(Set(members, key, v), key, w) == Set(members, key, w)
    decreases |members|
  {
    if members != [] && members[0].key != key {
      SetTwice(members[1..], key, v, w);
    }
  }

  /** `v[key]` on a value that is neither `null` nor `undefined`; `None` is
      `undefined`. Arrays and strings answer to their indices and `length`. */
  function Property(v: Value, key: string): Option<Value>
    requires !v.Null?
  {
    match v
    case Obj(members) => Get(members, key)
    case Arr(items) =>
      if key == "length" then Some(Num(|items|))
      else if IsIndex(key) && DigitsValue(key) < |items| then Some(items[DigitsValue(key)])
      else None
    case Str(s) =>
      if key == "length" then Some(Num(|s|))
      else if IsIndex(key) && DigitsValue(key) < |s| then Some(Str([s[DigitsValue(key)]]))
      else None
    case _ => None
  }

  /** A canonical array index: digits without a leading zero. */
  predicate IsIndex(key: string) {
    |key| >= 1 && AllDigits(key) && key == Digits(DigitsValue(key))
  }

  /** `v?.[key]`: `undefined` when `v` is `null` or `undefined`. */
  function OptionalProperty(v: Option<Value>, key: string): Option<Value> {
    if v.None? || v.value.Null? then None else Property(v.value, key)
  }

  // ---------------------------------------------------------------------
  // Truthiness

  /** JavaScript's truthiness of a value that may be `undefined`. */
  predicate JsTruthy(v: Option<Value>) {
    match v
    case None => false
    case Some(Null) => false
    case Some(Bool(b)) => b
    case Some(Num(n)) => n != 0
    case Some(Str(s)) => s != ""
    case Some(_) => true
  }

  /** Python's truthiness: `None`, `False`, `0`, and empty strings, lists and
      dicts are false. */
  predicate PyTruthy(v: Value) {
    match v
    case Null => false
    case Bool(b) => b
    case Num(n) => n != 0
    case Str(s) => s != ""
    case Arr(items) => items != []
    case Obj(members) => members != []
  }

  // ---------------------------------------------------------------------
  // String(v) and template literals

  /** `String(v)`, which is what `${v}` inserts into a template literal. */
  function JsString(v: Value): string
    decreases v, 1
  {
    match v
    case Null => "null"
    case Bool(b) => if b then "true" else "false"
    case Num(n) => Decimal(n)
    case Str(s) => s
    case Arr(items) => JoinItems(v, items)
    case Obj(_) => "[object Object]"
  }

  /** `items.join(",")` of an array: `null` elements give empty pieces. */
  function JoinItems(parent: Value, items: seq<Value>): string
    requires parent.Arr? && items <= parent.items
    decreases parent, 0, |items|
  {
    if items == [] then ""
    else
      var last := items[|items| - 1];
      assert last in parent.items;
      var piece := if last.Null? then "" else JsString(last);
      if |items| == 1 then piece else JoinItems(parent, items[..|items| - 1]) + "," + piece
  }

  // ---------------------------------------------------------------------
  // JSON.stringify(v), compact form

  function HexDigit(n: nat): char
    requires n < 16
  {
    if n < 10 then ('0' as int + n) as char else ('a' as int + n - 10) as char
  }

  /** The escape JSON.stringify writes for one character of a string. */
  function EscapeChar(c: char): string {
    if c == '"' then ['\\', '"']
    else if c == '\\' then ['\\', '\\']
    else if c == '\U{8}' then ['\\', 'b']
    else if c == '\t' then ['\\', 't']
    else if c == '\n' then ['\\', 'n']
    else if c == '\U{C}' then ['\\', 'f']
    else if c == '\r' then ['\\', 'r']
    else if c < ' ' then ['\\', 'u', '0', '0', HexDigit(c as int / 16), HexDigit(c as int % 16)]
    else [c]
  }

  function Escape(s: string): string
    decreases |s|
  {
    if s == [] then "" else EscapeChar(s[0]) + Escape(s[1..])
  }

  /** A JSON string literal. */
  function Quote(s: string): string {
    "\"" + Escape(s) + "\""
  }

  function Stringify(v: Value): string
    decreases v, 1
  {
    match v
    case Null => "null"
    case Bool(b) => if b then "true" else "false"
    case Num(n) => Decimal(n)
    case Str(s) => Quote(s)
    case Arr(items) => "[" + StringifyItems(v, items) + "]"
    case Obj(members) => "{" + StringifyMembers(v, members) + "}"
  }

  function StringifyItems(parent: Value, items: seq<Value>): string
    requires parent.Arr? && items <= parent.items
    decreases parent, 0, |items|
  {
    if items == [] then ""
    else
      var last := items[|items| - 1];
      assert last in parent.items;
      if |items| == 1 then Stringify(last)
      else StringifyItems(parent, items[..|items| - 1]) + "," + Stringify(last)
  }

  function StringifyMembers(parent: Value, members: seq<Member>): string
    requires parent.Obj? && members <= parent.members
    decreases parent, 0, |members|
  {
    if members == [] then ""
    else
      var last := members[|members| - 1];
      assert last in parent.members;
      var piece := Quote(last.key) + ":" + Stringify(last.value);
      if |members| == 1 then piece
      else StringifyMembers(parent, members[..|members| - 1]) + "," + piece
  }

  // ---------------------------------------------------------------------
  // Reading a string literal back (what JSON.parse does with escapes)

  function HexValue(c: char): Option<nat> {
    if '0' <= c <= '9' then Some(c as int - '0' as int)
    else if 'a' <= c <= 'f' then Some(c as int - 'a' as int + 10)
    else if 'A' <= c <= 'F' then Some(c as int - 'A' as int + 10)
    else None
  }

  /** Decodes the body of a JSON string literal; `None` for a malformed escape. */
  function Unescape(t: string): Option<string>
    decreases |t|
  {
    if t == [] then Some("")
    else if t[0] != '\\' then
      match Unescape(t[1..])
      case Some(rest) => Some([t[0]] + rest)
      case None => None
    else if |t| < 2 then None
    else
      var e := t[1];
      var simple :=
        if e == '"' then Some('"') else if e == '\\' then Some('\\')
        else if e == '/' then Some('/') else if e == 'b' then Some('\U{8}')
        else if e == 't' then Some('\t') else if e == 'n' then Some('\n')
        else if e == 'f' then Some('\U{C}') else if e == 'r' then Some('\r')
        else None;
      if simple.Some? then
        match Unescape(t[2..])
        case Some(rest) => Some([simple.value] + rest)
        case None => None
      else if e == 'u' && |t| >= 6
           && HexValue(t[2]) == Some(0) && HexValue(t[3]) == Some(0)
           && HexValue(t[4]).Some? && HexValue(t[5]).Some? then
        var code := HexValue(t[4]).value * 16 + HexValue(t[5]).value;
        match Unescape(t[6..])
        case Some(rest) => Some([code as char] + rest)
        case None => None
      else None
  }

  lemma UnescapeChar(c: char, rest: string)
    ensures Unescape(EscapeChar(c) + rest) ==
      match Unescape(rest) case Some(r) => Some([c] + r) case None => None
  {
    var t := EscapeChar(c) + rest;
    if c < ' ' && c != '\U{8}' && c != '\t' && c != '\n' && c != '\U{C}' && c != '\r' {
      var hi, lo := c as int / 16, c as int % 16;
      assert t[6..] == rest;
      assert HexValue(t[4]) == Some(hi) && HexValue(t[5]) == Some(lo);
      assert (hi * 16 + lo) as char == c;
    } else if |EscapeChar(c)| == 2 {
      assert t[2..] == rest;
    } else {
      assert t[1..] == rest;
    }
  }

  /** Decoding the escaped text gives back the string: escaping loses nothing. */
  lemma {:induction false} UnescapeEscape(s: string)
    ensures Unescape(Escape(s)) == Some(s)
    decreases |s|
  {
    if s != [] {
      UnescapeEscape(s[1..]);
      UnescapeChar(s[0], Escape(s[1..]));
      assert Escape(s) == EscapeChar(s[0]) + Escape(s[1..]);
      assert [s[0]] + s[1..] == s;
    }
  }

  /** Different strings have different JSON literals. */
  lemma QuoteInjective(s: string, t: string)
    requires Quote(s) == Quote(t)
    ensures s == t
  {
    assert Escape(s) == Quote(s)[1..|Quote(s)| - 1];
    assert Escape(t) == Quote(t)[1..|Quote(t)| - 1];
    UnescapeEscape(s);
    UnescapeEscape(t);
  }
}
