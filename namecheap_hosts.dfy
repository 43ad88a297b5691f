/** The host-record side of the Namecheap server. The registrar's only way
    to change DNS hosts is `setHosts`, which replaces the whole host set
    with the records passed as indexed query parameters `HostName1`,
    `RecordType1`, `Address1`, `TTL1`, `MXPref1`, `HostName2`, …
    `set-dns-host` writes the records it is given; `delete-dns-host` reads
    the current hosts, filters out the target and writes back the rest,
    unless nothing matched or nothing would remain. The HTTP exchanges are
    the parameters: the reply to `getHosts` comes in as text, the
    `setHosts` call goes out as its parameter map. */
module NamecheapHosts {
  import opened Wrappers
  import opened Strings
  import opened Json
  import opened NamecheapXml

  // ---------------------------------------------------------------------
  // Indexed parameter names

  /** The per-record fields of a `setHosts` call. */
  datatype Field = HostName | RecordType | Address | TTL | MXPref

  function FieldName(f: Field): (r: string)
    ensures r != [] && forall i :: 0 <= i < |r| ==> !IsDigit(r[i])
  {
    match f
    case HostName => "HostName"
    case RecordType => "RecordType"
    case Address => "Address"
    case TTL => "TTL"
    case MXPref => "MXPref"
  }

  /** The query parameter of field `f` of the record with 1-based index `idx`. */
  function Key(f: Field, idx: nat): string {
    FieldName(f) + Digits(idx)
  }

  /** The position of the first digit, or the length when there is none. */
  function FirstDigit(s: string): (n: nat)
    ensures n <= |s|
    decreases |s|
  {
    if s == [] || IsDigit(s[0]) then 0 else 1 + FirstDigit(s[1..])
  }

  lemma {:induction false} FirstDigitAfter(a: string, t: string)
    requires forall i :: 0 <= i < |a| ==> !IsDigit(a[i])
    requires t != [] && IsDigit(t[0])
    ensures FirstDigit(a + t) == |a|
    decreases |a|
  {
    if a != [] {
      assert (a + t)[1..] == a[1..] + t;
      FirstDigitAfter(a[1..], t);
    } else {
      assert a + t == t;
    }
  }

  /** A key splits where its digits begin into the field's name and the index. */
  lemma {:induction false} KeySplits(f: Field, idx: nat)
    ensures FirstDigit(Key(f, idx)) == |FieldName(f)|
    ensures Key(f, idx)[..|FieldName(f)|] == FieldName(f)
    ensures Key(f, idx)[|FieldName(f)|..] == Digits(idx)
    ensures DigitsValue(Digits(idx)) == idx
  {
    FirstDigitAfter(FieldName(f), Digits(idx));
    DigitsRoundTrip(idx);
  }

  /** Different fields or indices give different parameter names, so no
      record's parameter overwrites another's. */
  lemma {:induction false} KeyInjective(f: Field, i: nat, g: Field, j: nat)
    ensures Key(f, i) == Key(g, j) <==> f == g && i == j
  {
    KeySplits(f, i);
    KeySplits(g, j);
  }

  /** No record parameter is named `SLD` or `TLD`: record parameters end in a digit. */
  lemma {:induction false} KeyIsNotDomain(f: Field, idx: nat)
    ensures Key(f, idx) != "SLD" && Key(f, idx) != "TLD"
  {
    var k := Key(f, idx);
    assert k[|k| - 1] == Digits(idx)[|Digits(idx)| - 1];
  }

  // ---------------------------------------------------------------------
  // The parameters of a setHosts call

  /** One record as the handlers write it: every value already rendered as
      the query string will carry it; `mxPref` is written only when present. */
  datatype HostEntry = HostEntry(name: string, rtype: string, address: string, ttl: string, mxPref: Option<string>)

  /** What field `f` of an entry writes, if anything. */
  function EntryField(e: HostEntry, f: Field): Option<string> {
    match f
    case HostName => Some(e.name)
    case RecordType => Some(e.rtype)
    case Address => Some(e.address)
    case TTL => Some(e.ttl)
    case MXPref => e.mxPref
  }

  /** The assignments the loop body makes for the record with index `idx`. */
  function PutEntry(m: map<string, string>, idx: nat, e: HostEntry): map<string, string> {
    var m' := m[Key(HostName, idx) := e.name][Key(RecordType, idx) := e.rtype]
               [Key(Address, idx) := e.address][Key(TTL, idx) := e.ttl];
    if e.mxPref.Some? then m'[Key(MXPref, idx) := e.mxPref.value] else m'
  }

  /** The parameter map after the first `|es|` records were written. */
  function Params(d: Domain, es: seq<HostEntry>): map<string, string>
    decreases |es|
  {
    if es == [] then map["SLD" := d.sld, "TLD" := d.tld]
    else PutEntry(Params(d, es[..|es| - 1]), |es|, es[|es| - 1])
  }

  function Lookup(m: map<string, string>, k: string): Option<string> {
    if k in m then Some(m[k]) else None
  }

  /** The `forEach` of both handlers: record `i` (0-based) is written under
      index `i + 1`. */
  method BuildParams(d: Domain, es: seq<HostEntry>) returns (params: map<string, string>)
    ensures params == Params(d, es)
  {
    params := map["SLD" := d.sld, "TLD" := d.tld];
    for i := 0 to |es|
      invariant params == Params(d, es[..i])
    {
      var idx := i + 1;
      var e := es[i];
      params := params[Key(HostName, idx) := e.name];
      params := params[Key(RecordType, idx) := e.rtype];
      params := params[Key(Address, idx) := e.address];
      params := params[Key(TTL, idx) := e.ttl];
      if e.mxPref.Some? {
        params := params[Key(MXPref, idx) := e.mxPref.value];
      }
      assert es[..i + 1][..i] == es[..i];
    }
    assert es[..|es|] == es;
  }

  /** One record's assignments set each field it writes under its index… */
  lemma {:induction false} PutEntryAt(m: map<string, string>, idx: nat, e: HostEntry, f: Field)
    ensures Lookup(PutEntry(m, idx, e), Key(f, idx))
         == if EntryField(e, f).Some? then EntryField(e, f) else Lookup(m, Key(f, idx))
  {
    forall g ensures Key(g, idx) == Key(f, idx) <==> g == f {
      KeyInjective(g, idx, f, idx);
    }
  }

  /** …and leave every other parameter alone. */
  lemma {:induction false} PutEntryElse(m: map<string, string>, idx: nat, e: HostEntry, k: string)
    requires forall f :: k != Key(f, idx)
    ensures Lookup(PutEntry(m, idx, e), k) == Lookup(m, k)
  {
    assert k != Key(HostName, idx) && k != Key(RecordType, idx) && k != Key(Address, idx)
        && k != Key(TTL, idx) && k != Key(MXPref, idx);
  }

  /** No parameter is set but `SLD`, `TLD` and the record fields under
      indices 1 to `|es|`. */
  lemma {:induction false} ParamsOther(d: Domain, es: seq<HostEntry>, k: string)
    requires k != "SLD" && k != "TLD"
    requires forall idx, f :: 1 <= idx <= |es| ==> k != Key(f, idx)
    ensures k !in Params(d, es)
    decreases |es|
  {
    if es != [] {
      var n := |es|;
      ParamsOther(d, es[..n - 1], k);
      PutEntryElse(Params(d, es[..n - 1]), n, es[n - 1], k);
    }
  }

  /** Every parameter set is `SLD`, `TLD` or a record field under an index
      from 1 to `|es|`. */
  lemma {:induction false} ParamsKeys(d: Domain, es: seq<HostEntry>)
    ensures forall k :: k in Params(d, es) ==>
              k == "SLD" || k == "TLD" || exists idx, f :: 1 <= idx <= |es| && k == Key(f, idx)
    decreases |es|
  {
    if es != [] {
      var n := |es|;
      ParamsKeys(d, es[..n - 1]);
      PutEntryKeys(Params(d, es[..n - 1]), n, es[n - 1]);
    }
  }

  /** One record's assignments add only that record's fields. */
  lemma {:induction false} PutEntryKeys(m: map<string, string>, idx: nat, e: HostEntry)
    ensures forall k :: k in PutEntry(m, idx, e) ==> k in m || exists f :: k == Key(f, idx)
  {
    forall k | k in PutEntry(m, idx, e) && k !in m ensures exists f :: k == Key(f, idx) {
      if k == Key(HostName, idx) {
      } else if k == Key(RecordType, idx) {
      } else if k == Key(Address, idx) {
      } else if k == Key(TTL, idx) {
      } else {
        assert k == Key(MXPref, idx);
      }
    }
  }

  /** Field `f` of record `idx` reads what that record writes, present or
      absent: a later record's assignments never clobber an earlier one's. */
  lemma {:induction false} ParamsEntry(d: Domain, es: seq<HostEntry>, idx: nat, f: Field)
    requires 1 <= idx <= |es|
    ensures Lookup(Params(d, es), Key(f, idx)) == EntryField(es[idx - 1], f)
    decreases |es|
  {
    var n := |es|;
    var k := Key(f, idx);
    var prefix := es[..n - 1];
    if idx < n {
      forall g ensures k != Key(g, n) {
        KeyInjective(f, idx, g, n);
      }
      PutEntryElse(Params(d, prefix), n, es[n - 1], k);
      ParamsEntry(d, prefix, idx, f);
      assert prefix[idx - 1] == es[idx - 1];
    } else {
      PutEntryAt(Params(d, prefix), n, es[n - 1], f);
      if EntryField(es[n - 1], f).None? {
        KeyIsNotDomain(f, n);
        forall j, g | 1 <= j <= n - 1 ensures k != Key(g, j) {
          KeyInjective(f, n, g, j);
        }
        ParamsOther(d, prefix, k);
      }
    }
  }

  /** All five fields of record `idx`, as `ParamsEntry` gives each. */
  lemma {:induction false} EntryWritten(d: Domain, es: seq<HostEntry>, idx: nat)
    requires 1 <= idx <= |es|
    ensures var p := Params(d, es);
            var e := es[idx - 1];
            Lookup(p, Key(HostName, idx)) == Some(e.name)
            && Lookup(p, Key(RecordType, idx)) == Some(e.rtype)
            && Lookup(p, Key(Address, idx)) == Some(e.address)
            && Lookup(p, Key(TTL, idx)) == Some(e.ttl)
            && Lookup(p, Key(MXPref, idx)) == e.mxPref
  {
    ParamsEntry(d, es, idx, HostName);
    ParamsEntry(d, es, idx, RecordType);
    ParamsEntry(d, es, idx, Address);
    ParamsEntry(d, es, idx, TTL);
    ParamsEntry(d, es, idx, MXPref);
  }

  /** `SLD` and `TLD` carry the domain's parts. */
  lemma {:induction false} ParamsDomain(d: Domain, es: seq<HostEntry>)
    ensures Lookup(Params(d, es), "SLD") == Some(d.sld)
    ensures Lookup(Params(d, es), "TLD") == Some(d.tld)
    decreases |es|
  {
    if es != [] {
      var n := |es|;
      ParamsDomain(d, es[..n - 1]);
      forall f ensures Key(f, n) != "SLD" && Key(f, n) != "TLD" {
        KeyIsNotDomain(f, n);
      }
      PutEntryElse(Params(d, es[..n - 1]), n, es[n - 1], "SLD");
      PutEntryElse(Params(d, es[..n - 1]), n, es[n - 1], "TLD");
    }
  }

  // ---------------------------------------------------------------------
  // set-dns-host

  /** The record types the tools accept. */
  datatype RecordKind = A | AAAA | CNAME | MX | TXT | URL | URL301 | FRAME

  function KindName(t: RecordKind): string {
    match t
    case A => "A"
    case AAAA => "AAAA"
    case CNAME => "CNAME"
    case MX => "MX"
    case TXT => "TXT"
    case URL => "URL"
    case URL301 => "URL301"
    case FRAME => "FRAME"
  }

  /** A record passed to `set-dns-host`. */
  datatype HostRecord = HostRecord(name: string, kind: RecordKind, address: string, ttl: Option<int>, mxPref: Option<int>)

  const DefaultTtl := 1800

  /** `record.ttl || 1800`: a missing or zero TTL becomes 1800. */
  function RecordTtl(r: HostRecord): (ttl: int)
    ensures ttl != 0
    ensures ttl == DefaultTtl || r.ttl == Some(ttl)
  {
    match r.ttl
    case Some(t) => if t != 0 then t else DefaultTtl
    case None => DefaultTtl
  }

  /** What `set-dns-host` writes for a record: `MXPref` only for an MX record
      that carries one. */
  function RecordEntry(r: HostRecord): HostEntry {
    HostEntry(r.name, KindName(r.kind), r.address, Decimal(RecordTtl(r)),
              if r.kind == MX && r.mxPref.Some? then Some(Decimal(r.mxPref.value)) else None)
  }

  function RecordEntries(records: seq<HostRecord>): (es: seq<HostEntry>)
    ensures |es| == |records|
    ensures forall i :: 0 <= i < |records| ==> es[i] == RecordEntry(records[i])
  {
    seq(|records|, i requires 0 <= i < |records| => RecordEntry(records[i]))
  }

  const SetHostsCommand := "namecheap.domains.dns.setHosts"

  /** A request to the registrar: the command and its own parameters (the
      credentials and client address every request adds are not modelled). */
  datatype Request = Request(command: string, params: map<string, string>)

  /** The request `set-dns-host` sends, or the error `parseDomain` raises. */
  function SetDnsHostRequest(domain: string, records: seq<HostRecord>): Result<Request, string> {
    match ParseDomain(domain)
    case Err(e) => Err(e)
    case Ok(d) => Ok(Request(SetHostsCommand, Params(d, RecordEntries(records))))
  }

  /** `set-dns-host` fails exactly when the domain does not parse; otherwise
      it sends one `setHosts` call whose `SLD` and `TLD` are the domain's
      parts and which sets nothing else but the fields of records 1 to
      `|records|`: for an empty list, `SLD` and `TLD` alone. */
  lemma {:induction false} SetDnsHostRequestShape(domain: string, records: seq<HostRecord>)
    ensures SetDnsHostRequest(domain, records).Err? <==> ParseDomain(domain).Err?
    ensures SetDnsHostRequest(domain, records).Ok? ==>
              var req := SetDnsHostRequest(domain, records).value;
              var d := ParseDomain(domain).value;
              req.command == SetHostsCommand
              && Lookup(req.params, "SLD") == Some(d.sld)
              && Lookup(req.params, "TLD") == Some(d.tld)
              && (forall k :: k in req.params ==>
                    k == "SLD" || k == "TLD" || exists idx, f :: 1 <= idx <= |records| && k == Key(f, idx))
              && (records == [] ==> req.params == map["SLD" := d.sld, "TLD" := d.tld])
  {
    if ParseDomain(domain).Ok? {
      var d := ParseDomain(domain).value;
      var es := RecordEntries(records);
      ParamsDomain(d, es);
      ParamsKeys(d, es);
    }
  }

  /** Record `i` (1-based) of a `set-dns-host` request is written under
      index `i`, its TTL defaulting to 1800 and its MX preference present
      exactly for an MX record that gives one. */
  lemma {:induction false} SetDnsHostWritesRecord(domain: string, records: seq<HostRecord>, i: nat)
    requires 1 <= i <= |records|
    ensures SetDnsHostRequest(domain, records).Err? <==> ParseDomain(domain).Err?
    ensures SetDnsHostRequest(domain, records).Ok? ==>
              var req := SetDnsHostRequest(domain, records).value;
              var p := req.params;
              var r := records[i - 1];
              req.command == SetHostsCommand
              && Lookup(p, "SLD") == Some(ParseDomain(domain).value.sld)
              && Lookup(p, "TLD") == Some(ParseDomain(domain).value.tld)
              && Lookup(p, Key(HostName, i)) == Some(r.name)
              && Lookup(p, Key(RecordType, i)) == Some(KindName(r.kind))
              && Lookup(p, Key(Address, i)) == Some(r.address)
              && Lookup(p, Key(TTL, i)) == Some(Decimal(if r.ttl.None? || r.ttl.value == 0 then 1800 else r.ttl.value))
              && Lookup(p, Key(MXPref, i))
                 == (if r.kind == MX && r.mxPref.Some? then Some(Decimal(r.mxPref.value)) else None)
  {
    if ParseDomain(domain).Ok? {
      var d := ParseDomain(domain).value;
      var es := RecordEntries(records);
      ParamsDomain(d, es);
      EntryWritten(d, es, i);
      assert es[i - 1] == RecordEntry(records[i - 1]);
    }
  }

  /** The members of an answer object, in their order. */
  function Members(v: Value): seq<Member> {
    if v.Obj? then v.members else []
  }

  /** The tool's answer once the registrar replied `xml`. */
  function SetDnsHostReply(domain: string, records: seq<HostRecord>, xml: string): Result<Value, string> {
    match CheckResponse(xml)
    case Err(e) => Err(e)
    case Ok(_) =>
      var ok := HostsUpdated(xml);
      Ok(Obj([Member("success", Bool(ok)),
              Member("domain", Str(domain)),
              Member("recordsSet", Num(|records|)),
              Member("message", Str(if ok then "DNS records updated successfully" else "Failed to update DNS records"))]))
  }

  /** An error reply raises; otherwise success is the `IsSuccess="true"`
      marker and `recordsSet` is the number of records passed, whatever the
      registrar did with them. */
  lemma SetDnsHostReplies(domain: string, records: seq<HostRecord>, xml: string)
    ensures SetDnsHostReply(domain, records, xml).Err? <==> Contains(xml, ErrorMarker)
    ensures SetDnsHostReply(domain, records, xml).Ok? ==>
              var ms := Members(SetDnsHostReply(domain, records, xml).value);
              Get(ms, "success") == Some(Bool(Contains(xml, HostsMarker)))
              && Get(ms, "domain") == Some(Str(domain))
              && Get(ms, "recordsSet") == Some(Num(|records|))
  {
    if CheckResponse(xml).Ok? {
      var ms := Members(SetDnsHostReply(domain, records, xml).value);
      assert Get(ms, "recordsSet") == Get(ms[1..], "recordsSet") == Get(ms[2..], "recordsSet");
    }
  }

  // ---------------------------------------------------------------------
  // delete-dns-host

  /** A host as `extractAllAttributes` reads it from the `getHosts` reply. */
  type Host = map<string, string>

  /** A missing attribute reads as `undefined`, which the query string spells out. */
  function Attr(h: Host, key: string): string {
    if key in h then h[key] else "undefined"
  }

  /** What `h.Name.toLowerCase()` raises for a host without `Name`. */
  const NoNameError := "Cannot read properties of undefined (reading 'toLowerCase')"

  /** The filter's target test: the name ignoring case, the type exactly. */
  predicate Matches(h: Host, name: string, kind: RecordKind)
    requires "Name" in h
  {
    Lower(h["Name"]) == Lower(name) && "Type" in h && h["Type"] == KindName(kind)
  }

  predicate AllNamed(hosts: seq<Host>) {
    forall i :: 0 <= i < |hosts| ==> "Name" in hosts[i]
  }

  /** `currentHosts.filter(…)`: the hosts that are not the target, in their
      order; a host without a `Name` makes the filter raise. */
  function Kept(hosts: seq<Host>, name: string, kind: RecordKind): (r: Result<seq<Host>, string>)
    ensures r.Ok? ==> |r.value| <= |hosts|
    decreases |hosts|
  {
    if hosts == [] then Ok([])
    else if "Name" !in hosts[0] then Err(NoNameError)
    else
      match Kept(hosts[1..], name, kind)
      case Err(e) => Err(e)
      case Ok(rest) => Ok(if Matches(hosts[0], name, kind) then rest else [hosts[0]] + rest)
  }

  /** How many hosts the filter removes. */
  function MatchCount(hosts: seq<Host>, name: string, kind: RecordKind): nat
    requires AllNamed(hosts)
    decreases |hosts|
  {
    if hosts == [] then 0
    else (if Matches(hosts[0], name, kind) then 1 else 0) + MatchCount(hosts[1..], name, kind)
  }

  lemma AllNamedTail(hosts: seq<Host>)
    requires hosts != []
    ensures AllNamed(hosts) <==> "Name" in hosts[0] && AllNamed(hosts[1..])
  {
    if "Name" in hosts[0] && AllNamed(hosts[1..]) {
      forall i | 0 < i < |hosts| ensures "Name" in hosts[i] {
        assert hosts[i] == hosts[1..][i - 1];
      }
    }
  }

  /** The filter fails exactly when some host lacks a `Name`. */
  lemma {:induction false} KeptOk(hosts: seq<Host>, name: string, kind: RecordKind)
    ensures Kept(hosts, name, kind).Ok? <==> AllNamed(hosts)
    decreases |hosts|
  {
    if hosts != [] {
      KeptOk(hosts[1..], name, kind);
      AllNamedTail(hosts);
    }
  }

  /** The filter keeps all but the targets: its length falls by their number. */
  lemma {:induction false} KeptCount(hosts: seq<Host>, name: string, kind: RecordKind)
    requires AllNamed(hosts)
    ensures Kept(hosts, name, kind).Ok?
    ensures |Kept(hosts, name, kind).value| + MatchCount(hosts, name, kind) == |hosts|
    decreases |hosts|
  {
    KeptOk(hosts, name, kind);
    if hosts != [] {
      AllNamedTail(hosts);
      KeptCount(hosts[1..], name, kind);
    }
  }

  /** The filter removes exactly the targets: no kept host is one, and each
      host that is not one is kept as often as it occurs. */
  lemma {:induction false} KeptSpec(hosts: seq<Host>, name: string, kind: RecordKind)
    requires AllNamed(hosts)
    ensures Kept(hosts, name, kind).Ok?
    ensures var kept := Kept(hosts, name, kind).value;
            (forall h :: h in kept ==> "Name" in h && !Matches(h, name, kind))
            && (forall h :: "Name" in h && !Matches(h, name, kind) ==> multiset(kept)[h] == multiset(hosts)[h])
    decreases |hosts|
  {
    KeptOk(hosts, name, kind);
    if hosts != [] {
      AllNamedTail(hosts);
      KeptSpec(hosts[1..], name, kind);
      assert hosts == [hosts[0]] + hosts[1..];
    }
  }

  /** The filter keeps order: filtering two runs of hosts one after the
      other is filtering each and concatenating the results, and a single
      host is kept exactly when it is not a target. */
  lemma {:induction false} KeptAppend(a: seq<Host>, b: seq<Host>, name: string, kind: RecordKind)
    requires AllNamed(a) && AllNamed(b)
    ensures Kept(a, name, kind).Ok? && Kept(b, name, kind).Ok?
    ensures Kept(a + b, name, kind) == Ok(Kept(a, name, kind).value + Kept(b, name, kind).value)
    decreases |a|
  {
    KeptOk(a, name, kind);
    KeptOk(b, name, kind);
    if a == [] {
      assert a + b == b && [] + Kept(b, name, kind).value == Kept(b, name, kind).value;
    } else {
      AllNamedTail(a);
      KeptAppend(a[1..], b, name, kind);
      assert a == [a[0]] + a[1..] && a + b == [a[0]] + (a[1..] + b);
      KeptAppendStep(a[0], a[1..], b, name, kind);
    }
  }

  lemma KeptAppendStep(h: Host, t: seq<Host>, b: seq<Host>, name: string, kind: RecordKind)
    requires "Name" in h && Kept(t, name, kind).Ok? && Kept(b, name, kind).Ok?
    requires Kept(t + b, name, kind) == Ok(Kept(t, name, kind).value + Kept(b, name, kind).value)
    ensures Kept([h] + t, name, kind).Ok?
    ensures Kept([h] + (t + b), name, kind) == Ok(Kept([h] + t, name, kind).value + Kept(b, name, kind).value)
  {
    var kt, kb := Kept(t, name, kind).value, Kept(b, name, kind).value;
    var one := KeepOne(h, name, kind);
    KeptCons(h, t, name, kind);
    KeptCons(h, t + b, name, kind);
    assert one + (kt + kb) == (one + kt) + kb;
  }

  /** What the filter makes of one named host. */
  function KeepOne(h: Host, name: string, kind: RecordKind): seq<Host>
    requires "Name" in h
  {
    if Matches(h, name, kind) then [] else [h]
  }

  /** One step of the filter. */
  lemma KeptCons(h: Host, t: seq<Host>, name: string, kind: RecordKind)
    requires "Name" in h && Kept(t, name, kind).Ok?
    ensures Kept([h] + t, name, kind) == Ok(KeepOne(h, name, kind) + Kept(t, name, kind).value)
  {
    assert ([h] + t)[0] == h && ([h] + t)[1..] == t;
    assert [] + Kept(t, name, kind).value == Kept(t, name, kind).value;
  }

  lemma KeptSingle(h: Host, name: string, kind: RecordKind)
    requires "Name" in h
    ensures Kept([h], name, kind) == Ok(if Matches(h, name, kind) then [] else [h])
  {
    assert [h][1..] == [];
    assert Kept([], name, kind) == Ok([]);
    assert [h] + [] == [h];
  }

  /** What `delete-dns-host` writes for a remaining host: its `Address` and
      `TTL` (1800 when empty or missing), and its `MXPref` when it is an MX
      host with a non-empty preference. */
  function HostEntryOf(h: Host): HostEntry {
    HostEntry(Attr(h, "Name"), Attr(h, "Type"), Attr(h, "Address"),
              if "TTL" in h && h["TTL"] != "" then h["TTL"] else "1800",
              if Attr(h, "Type") == "MX" && "MXPref" in h && h["MXPref"] != "" then Some(h["MXPref"]) else None)
  }

  function HostEntries(hosts: seq<Host>): (es: seq<HostEntry>)
    ensures |es| == |hosts|
    ensures forall i :: 0 <= i < |hosts| ==> es[i] == HostEntryOf(hosts[i])
  {
    seq(|hosts|, i requires 0 <= i < |hosts| => HostEntryOf(hosts[i]))
  }

  const LastRecordMessage := "Cannot delete the last DNS record. At least one record must remain."

  /** The answer given without writing anything. */
  function Refusal(message: string): Value {
    Obj([Member("success", Bool(false)), Member("message", Str(message))])
  }

  function NotFoundMessage(name: string, kind: RecordKind): string {
    "Record not found: " + name + " (" + KindName(kind) + ")"
  }

  /** Where `delete-dns-host` stands once the hosts are read: it answers
      without writing, or it writes the remaining hosts with one `setHosts`. */
  datatype DeleteStep =
    | Answer(response: Value)
    | Write(request: Request, remaining: nat)

  /** The filter and the two guards, on the hosts read. */
  function DeleteFromHosts(d: Domain, hosts: seq<Host>, name: string, kind: RecordKind): Result<DeleteStep, string> {
    match Kept(hosts, name, kind)
    case Err(e) => Err(e)
    case Ok(kept) =>
      if |kept| == |hosts| then Ok(Answer(Refusal(NotFoundMessage(name, kind))))
      else if |kept| == 0 then Ok(Answer(Refusal(LastRecordMessage)))
      else Ok(Write(Request(SetHostsCommand, Params(d, HostEntries(kept))), |kept|))
  }

  /** `delete-dns-host` up to its write, given the `getHosts` reply. */
  function DeleteDnsHost(domain: string, name: string, kind: RecordKind, getXml: string): Result<DeleteStep, string> {
    match ParseDomain(domain)
    case Err(e) => Err(e)
    case Ok(d) =>
      match CheckResponse(getXml)
      case Err(e) => Err(e)
      case Ok(_) => DeleteFromHosts(d, AllAttributes(getXml, "host"), name, kind)
  }

  /** Nothing is written when no host is the target or when every host is;
      otherwise exactly one `setHosts` call writes the kept hosts, and their
      number is the number of hosts less the number of targets. */
  lemma {:induction false} DeleteGuards(d: Domain, hosts: seq<Host>, name: string, kind: RecordKind)
    requires AllNamed(hosts)
    ensures var matched := MatchCount(hosts, name, kind);
            var step := DeleteFromHosts(d, hosts, name, kind);
            step.Ok?
            && (matched == 0 ==> step.value == Answer(Refusal(NotFoundMessage(name, kind))))
            && (0 < matched == |hosts| ==> step.value == Answer(Refusal(LastRecordMessage)))
            && (0 < matched < |hosts| <==> step.value.Write?)
            && (step.value.Write? ==>
                  step.value.remaining == |hosts| - matched
                  && step.value.request == Request(SetHostsCommand, Params(d, HostEntries(Kept(hosts, name, kind).value))))
  {
    assert Kept(hosts, name, kind).Ok? && |Kept(hosts, name, kind).value| + MatchCount(hosts, name, kind) == |hosts| by {
      KeptCount(hosts, name, kind);
    }
  }

  /** The handler fails when the domain does not parse, when the `getHosts`
      reply is an error or when a host has no `Name`; otherwise it is the
      filter and the guards on the hosts of the reply. */
  lemma DeleteDnsHostReads(domain: string, name: string, kind: RecordKind, getXml: string)
    ensures DeleteDnsHost(domain, name, kind, getXml).Err? <==>
              ParseDomain(domain).Err? || Contains(getXml, ErrorMarker)
              || !AllNamed(AllAttributes(getXml, "host"))
    ensures ParseDomain(domain).Ok? && CheckResponse(getXml).Ok? ==>
              DeleteDnsHost(domain, name, kind, getXml)
              == DeleteFromHosts(ParseDomain(domain).value, AllAttributes(getXml, "host"), name, kind)
  {
    KeptOk(AllAttributes(getXml, "host"), name, kind);
  }

  /** A remaining host is written with its own address, its TTL or 1800,
      and its MX preference when it is an MX host that has one. */
  lemma {:induction false} DeleteWritesHost(d: Domain, kept: seq<Host>, i: nat)
    requires 1 <= i <= |kept|
    ensures var p := Params(d, HostEntries(kept));
            var h := kept[i - 1];
            Lookup(p, Key(HostName, i)) == Some(Attr(h, "Name"))
            && Lookup(p, Key(RecordType, i)) == Some(Attr(h, "Type"))
            && Lookup(p, Key(Address, i)) == Some(Attr(h, "Address"))
            && Lookup(p, Key(TTL, i)) == Some(if "TTL" in h && h["TTL"] != "" then h["TTL"] else "1800")
            && Lookup(p, Key(MXPref, i))
               == (if Attr(h, "Type") == "MX" && "MXPref" in h && h["MXPref"] != "" then Some(h["MXPref"]) else None)
  {
    var es := HostEntries(kept);
    EntryWritten(d, es, i);
  }

  /** The answer after the write. */
  function DeleteReply(name: string, kind: RecordKind, remaining: nat, xml: string): Result<Value, string> {
    match CheckResponse(xml)
    case Err(e) => Err(e)
    case Ok(_) =>
      var ok := HostsUpdated(xml);
      Ok(Obj([Member("success", Bool(ok)),
              Member("message", Str(if ok then "Deleted " + name + " (" + KindName(kind) + ") record"
                                    else "Failed to delete record")),
              Member("remainingRecords", Num(remaining))]))
  }

  /** An error reply raises; otherwise success is the `IsSuccess="true"`
      marker and `remainingRecords` is the number of hosts written. */
  lemma DeleteReplies(name: string, kind: RecordKind, remaining: nat, xml: string)
    ensures DeleteReply(name, kind, remaining, xml).Err? <==> Contains(xml, ErrorMarker)
    ensures DeleteReply(name, kind, remaining, xml).Ok? ==>
              var ms := Members(DeleteReply(name, kind, remaining, xml).value);
              Get(ms, "success") == Some(Bool(Contains(xml, HostsMarker)))
              && Get(ms, "remainingRecords") == Some(Num(remaining))
  {
    if CheckResponse(xml).Ok? {
      var ms := Members(DeleteReply(name, kind, remaining, xml).value);
      assert Get(ms, "remainingRecords") == Get(ms[1..], "remainingRecords") == Get(ms[2..], "remainingRecords");
    }
  }
}
