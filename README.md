# Namecheap, Cloudflare and Karabiner-Elements helpers in Dafny

This project models the logic inside three small tools of a plugin collection and proves properties about that logic.

- **The Namecheap MCP server.** It splits a domain into SLD and TLD and reads Namecheap's XML replies with three pattern readers. Every reply passes an error check. It turns a record list into the indexed `HostName1 … MXPref<n>` parameters of `namecheap.domains.dns.setHosts`. It deletes one DNS host by reading the host set, filtering it, applying two guards and writing the rest back.
- **The Cloudflare MCP server.** It unwraps the `{success, errors, result}` envelope and dispatches on the content type for raw replies. It wraps outcomes as tool results and builds the create and update bodies of DNS records, whose optional fields depend on the record type. It builds the list endpoints, clamping the page sizes, and projects the listed zones and records.
- **The Karabiner-Elements configuration manager.** It looks up profiles in a loaded configuration. It edits a profile in place: appending and removing complex-modification rules, and upserting simple key-to-key modifications. It also constructs rules and basic manipulators.

Remote calls are inputs: the server's HTTP replies are given as text (Namecheap) or as a parsed JSON value (Cloudflare). A request that would be sent is returned as a value: a command plus a parameter map, or an endpoint plus a body.

Modules:

- **Wrappers:** `Option` and `Result`.
- **Strings:** ASCII lower-casing, `includes`, `split`/`join`, and decimal rendering of numbers.
- **Json:** an ordered JSON value with JavaScript and Python property access, assignment and truthiness, and compact `JSON.stringify`.
- **Scan:** leftmost-match and global-match scans.
- **NamecheapXml:** `parseDomain`, the readers, the error check and the success markers.
- **NamecheapHosts:** the set-dns-host and delete-dns-host handlers.
- **Cloudflare.**
- **Karabiner:** the classes `Profile` and `Config`.

Each regular expression of the Namecheap server is modelled as a matcher. A matcher is a function saying what a match starting at the head of a text captures. It is scanned for the leftmost match (`String.match`) or for every match in turn (`RegExp.exec` with the `g` flag).

Where the code and its comments or documentation differ, the model follows the code:

- **`parseDomain`** (namecheap/mcp-server/index.js:62-65). The comment says multi-part TLDs such as `.co.uk` are handled, but the code takes only the last label as the TLD. `example.co.uk` becomes SLD `example.co` and TLD `uk`. `NamecheapXml.ParseDomainTakesLastLabel` states this.
- **set-dns-host.** The handler does not refuse an empty record list; it then sends a request with no hosts: `NamecheapHosts.SetDnsHostRequestShape` states that for an empty list only `SLD` and `TLD` are set.
- **delete-dns-host** reads `h.Name.toLowerCase()` for every host before filtering. A host without a `Name` attribute therefore makes the handler throw. The model returns an error in that case (`NamecheapHosts.Kept`).

## Model

| member | source | states |
|---|---|---|
| NamecheapXml.ParseDomain | namecheap/mcp-server/index.js:57-66 | fails exactly when the domain has no '.', with the message of the code; otherwise `sld + "." + tld` is the lower-cased domain and the TLD holds no '.' |
| NamecheapXml.ParseDomainTakesLastLabel | namecheap/mcp-server/index.js:62-65 | whatever precedes the last '.' is the SLD and the last label alone is the TLD, so `a.co.uk` gives TLD `uk` |
| NamecheapXml.SameLastLabel | namecheap/mcp-server/index.js:63-64 | splitting a text at its last '.' is unique: the SLD/TLD split of a domain is determined |
| Strings.JoinSplit | namecheap/mcp-server/index.js:58-64 | joining the pieces of `split('.')` with '.' gives back the text |
| Strings.SplitPiecesHaveNoSeparator | namecheap/mcp-server/index.js:58 | no piece of a split holds the separator |
| Strings.SplitSingleIffNoSeparator | namecheap/mcp-server/index.js:58-60 | a split has one piece exactly when the separator does not occur (the "fewer than two parts" guard) |
| Strings.LowerKeepsChar | namecheap/mcp-server/index.js:58 | lower-casing neither adds nor removes a non-letter such as '.' |
| NamecheapXml.ExtractValue | namecheap/mcp-server/index.js:69-72 | the text found holds no '<' |
| NamecheapXml.ExtractValueNone | namecheap/mcp-server/index.js:69-72 | the reader yields null exactly when the element pattern matches at no position |
| NamecheapXml.ExtractValueOfElement | namecheap/mcp-server/index.js:69-72 | a reply holding `<tag attrs>value</tag>` yields `value` whenever the element pattern matches at no earlier position of the reply, whatever that earlier text is |
| NamecheapXml.FirstTextNone | namecheap/mcp-server/index.js:70-71 | `match` yields null exactly when the pattern matches nowhere |
| NamecheapXml.ExtractAttribute | namecheap/mcp-server/index.js:74-77 | the value found holds no '"' |
| NamecheapXml.ExtractAttributeNone | namecheap/mcp-server/index.js:74-77 | the reader yields null exactly when no tag carries the attribute |
| NamecheapXml.ExtractAttributeOfElement | namecheap/mcp-server/index.js:74-77 | a tag carrying ` attr="value"` (attribute name in any case) yields `value` whenever the attribute pattern matches at no earlier position and no later ` attr="` follows inside that tag |
| NamecheapXml.AttrMatchOfTag | namecheap/mcp-server/index.js:75 | at a tag, the pattern captures the value of the ` attr="` occurrence that has no later one inside the tag, whatever text precedes it |
| NamecheapXml.AttrMatchLaterWins | namecheap/mcp-server/index.js:75 | with two occurrences of the attribute in one tag, the greedy `[^>]*` makes the later one win |
| NamecheapXml.CollectAttributes | namecheap/mcp-server/index.js:84-88 | the inner `while` loop builds the map of the `name="value"` pairs of the tag text, a later pair overriding an earlier one |
| NamecheapXml.AttrMapLookup | namecheap/mcp-server/index.js:86-88 | the map has a key exactly for each name found, holding the value of the last pair with that name |
| NamecheapXml.AttrMapEmpty | namecheap/mcp-server/index.js:89 | the map is empty exactly when no pair was found |
| NamecheapXml.ExtractAllAttributes | namecheap/mcp-server/index.js:79-95 | the outer `while` loop returns one map per `<tag` occurrence (any case) that carries a pair, in document order |
| NamecheapXml.AllAttributesNonEmpty | namecheap/mcp-server/index.js:89-91 | no map returned is empty |
| NamecheapXml.AllAttributesOfElements | namecheap/mcp-server/index.js:79-95 | a reply made of `<tag n1="v1" …/>` elements reads back as their attribute maps, one per element, in order |
| NamecheapXml.TagTextsOfElements | namecheap/mcp-server/index.js:80-84 | the tag pattern visits each element once, in order |
| NamecheapXml.AttrPairsOfText | namecheap/mcp-server/index.js:85-88 | rendered `name="value"` pairs are found again, in order |
| NamecheapXml.ExtractNameservers | namecheap/mcp-server/index.js:380-384 | the `while` loop collects every `<Nameserver>` capture, in order |
| NamecheapXml.AllTextsAreText | namecheap/mcp-server/index.js:380-384 | every nameserver collected is non-empty and holds no '<' |
| NamecheapXml.NameserversOfList | namecheap/mcp-server/index.js:380-384 | a list of `<Nameserver>name</Nameserver>` elements reads back as exactly the list of names |
| NamecheapXml.CheckResponse | namecheap/mcp-server/index.js:46-53 | a reply passes, unchanged, exactly when it lacks `Status="ERROR"`; otherwise the error starts with `Namecheap API error: ` |
| NamecheapXml.CheckResponseReportsError | namecheap/mcp-server/index.js:47-50 | a reply holding `Status="ERROR"` and an `<Error attrs>message</Error>` element reports `Namecheap API error: message` whenever the `<Error>` pattern matches at no earlier position |
| NamecheapXml.CheckResponseUnknown | namecheap/mcp-server/index.js:47-50 | an error reply without an `<Error>` element reports `Unknown API error` |
| NamecheapXml.SuccessMarkers | namecheap/mcp-server/index.js:261 | `IsSuccess="true"` satisfies all three success checks; `Updated="true"` satisfies only the set-default check and `Update="true"` only the set-custom check |
| NamecheapHosts.FieldName | namecheap/mcp-server/index.js:250-255 | every parameter prefix is non-empty and digit-free |
| NamecheapHosts.KeySplits | namecheap/mcp-server/index.js:250-255 | a key `HostName12` splits into its prefix and the decimal digits of its index |
| NamecheapHosts.KeyInjective | namecheap/mcp-server/index.js:250-255 | two indexed keys are equal exactly when prefix and index are equal, so no record overwrites another |
| NamecheapHosts.KeyIsNotDomain | namecheap/mcp-server/index.js:243-255 | no indexed key collides with `SLD` or `TLD` |
| NamecheapHosts.BuildParams | namecheap/mcp-server/index.js:243-257 | the `forEach` loop builds the parameter map of the entries |
| NamecheapHosts.ParamsEntry | namecheap/mcp-server/index.js:248-257 | the key with suffix idx holds the field of entry idx-1 |
| NamecheapHosts.ParamsOther | namecheap/mcp-server/index.js:243-257 | no key is written but `SLD`, `TLD` and the indexed keys 1..n |
| NamecheapHosts.ParamsDomain | namecheap/mcp-server/index.js:243-246 | `SLD` and `TLD` hold the parsed domain |
| NamecheapHosts.RecordEntries | namecheap/mcp-server/index.js:248-257 | one entry per record, in order |
| NamecheapHosts.SetDnsHostRequestShape | namecheap/mcp-server/index.js:240-259 | for any record list, the empty one included, the request fails exactly when the domain does not parse; otherwise it is `setHosts` with SLD/TLD and no other key but the indexed fields of records 1..n, and for no records exactly `SLD` and `TLD` |
| NamecheapHosts.SetDnsHostWritesRecord | namecheap/mcp-server/index.js:243-257 | for record i of a non-empty list: its name, type, address, TTL (1800 by default) under index i, and `MXPref` exactly when the type is MX and a preference is given |
| NamecheapHosts.SetDnsHostReplies | namecheap/mcp-server/index.js:259-272 | the tool fails exactly on an error reply; otherwise `success` is the `IsSuccess="true"` marker, `domain` is the argument and `recordsSet` is the number of records |
| NamecheapHosts.KeptOk | namecheap/mcp-server/index.js:298-301 | the filter succeeds exactly when every host has a `Name` |
| NamecheapHosts.KeptSpec | namecheap/mcp-server/index.js:298-301 | no kept host matches (name equal ignoring case, type exact); every non-matching host is kept, as often as it occurs |
| NamecheapHosts.KeptAppend | namecheap/mcp-server/index.js:299-301 | the filter keeps order: filtering two runs of hosts one after the other is filtering each and concatenating the results |
| NamecheapHosts.KeptSingle | namecheap/mcp-server/index.js:299-301 | one host is kept exactly when its name differs ignoring case or its type differs |
| NamecheapHosts.KeptCount | namecheap/mcp-server/index.js:298-303 | kept plus matched hosts make up all the hosts |
| NamecheapHosts.DeleteGuards | namecheap/mcp-server/index.js:303-356 | no match gives `Record not found` and no write; every host matching gives the last-record refusal and no write; a write happens exactly when some but not all hosts match, and it carries the kept hosts |
| NamecheapHosts.DeleteDnsHostReads | namecheap/mcp-server/index.js:289-301 | delete fails exactly when the domain does not parse, the read reply is an error or a host lacks a `Name`; otherwise it proceeds on the hosts read |
| NamecheapHosts.DeleteWritesHost | namecheap/mcp-server/index.js:329-344 | kept host i is written at index i with its name, type and address, its TTL (1800 when empty or missing) and its `MXPref` exactly when it is MX with a non-empty preference |
| NamecheapHosts.HostEntries | namecheap/mcp-server/index.js:334-342 | one entry per kept host, in order |
| NamecheapHosts.DeleteReplies | namecheap/mcp-server/index.js:344-356 | the tool fails exactly on an error reply; otherwise `success` is the success marker and `remainingRecords` the number of kept hosts |
| Strings.DecimalRoundTrip | namecheap/mcp-server/index.js:249-253 | the decimal text of a number sent in a parameter reads back as that number |
| Strings.DecimalInjective | namecheap/mcp-server/index.js:249-253 | distinct numbers render as distinct texts |
| Cloudflare.EnvelopeOutcome | cloudflare/mcp-server/index.js:34-39 | the envelope succeeds exactly when `success` is truthy, with `result`; a failure message starts with `Cloudflare API: ` |
| Cloudflare.EnvelopeFirstError | cloudflare/mcp-server/index.js:34-36 | a failure reports the first error's non-empty `message` |
| Cloudflare.EnvelopeListFallback | cloudflare/mcp-server/index.js:34-36 | a failure whose `errors` list is empty or has a first entry without a truthy `message` reports the list's JSON text, e.g. `[{"code":1003}]`; `Unknown error` is never reached while the list is present |
| Cloudflare.EnvelopeEmptyErrors | cloudflare/mcp-server/index.js:34-36 | a failure with an empty `errors` list reports the literal text `[]` |
| Cloudflare.EnvelopeNoErrors | cloudflare/mcp-server/index.js:34-36 | a failure without `errors` reports `Unknown error` |
| Cloudflare.FirstIndex | cloudflare/mcp-server/index.js:35 | `errors?.[0]` is the head of the list, or undefined on an empty list |
| Cloudflare.RawText | cloudflare/mcp-server/index.js:81-91 | a reply whose content type lacks `application/json` gives its text, whatever it holds |
| Cloudflare.RawLenient | cloudflare/mcp-server/index.js:81-88 | a JSON reply fails exactly when `success` is the boolean false; whatever the envelope accepts the raw reader accepts with the same result, and every raw failure is an envelope failure |
| Cloudflare.RawDiffers | cloudflare/mcp-server/index.js:81-88 | the raw reader accepts a reply without `success` that the envelope refuses, and reports `Unknown error` where the envelope reports `[]` |
| Cloudflare.ErrorReadsBack | cloudflare/mcp-server/index.js:104-111 | `error(m)` is one text that reads back as the object `{error: m}` |
| Cloudflare.ErrorText | cloudflare/mcp-server/index.js:104-111 | the text is `{"error":"` + the escaped message + `"}` |
| Cloudflare.ErrorInjective | cloudflare/mcp-server/index.js:104-111 | distinct messages give distinct error results |
| Cloudflare.EscapePlain | cloudflare/mcp-server/index.js:108 | a message without quotes, backslashes or control characters is written as it is |
| Cloudflare.SuccessCollides | cloudflare/mcp-server/index.js:94-101 | a string is passed through unquoted, so a string result equals the result of a non-string value exactly when the string is that value's JSON text |
| Cloudflare.SuccessStringLikeList | cloudflare/mcp-server/index.js:94-101 | the text `[]` and an empty list give the same tool result |
| Cloudflare.ErrorIsSuccessOfObject | cloudflare/mcp-server/index.js:94-110 | `error(m)` sets no failure flag: it is the same tool result as `success({error: m})` |
| Json.UnescapeEscape | cloudflare/mcp-server/index.js:98-108 | a JSON string literal written by `JSON.stringify` reads back as the string |
| Json.QuoteInjective | cloudflare/mcp-server/index.js:98-108 | distinct strings give distinct JSON literals |
| Cloudflare.CreateBody | cloudflare/mcp-server/index.js:224-233 | the body holds `type`, `name`, `content` and `ttl` (default 1); `proxied` (default false) exactly for A, AAAA and CNAME; `priority` exactly for MX and SRV when one is given |
| Cloudflare.UpdateBody | cloudflare/mcp-server/index.js:256-262 | the body holds `type`, `name`, `content` and `ttl`; `proxied` exactly when given and the type is A, AAAA or CNAME; never `priority` |
| Cloudflare.ZonesPageSize | cloudflare/mcp-server/index.js:134-136 | the page size is `min(per_page, 50)`: 20 by default, the requested size when that is at most 50, and exactly 50 above it |
| Cloudflare.RecordsPageSize | cloudflare/mcp-server/index.js:189-190 | the page size is `min(per_page, 100)`: 100 by default, the requested size when that is at most 100, and exactly 100 above it |
| Cloudflare.ZonesEndpoint | cloudflare/mcp-server/index.js:134-137 | `/zones` with `page` (default 1), the clamped `per_page`, and `name` only when given |
| Cloudflare.RecordsEndpoint | cloudflare/mcp-server/index.js:189-192 | `/zones/<id>/dns_records` with `page`, the clamped `per_page`, then `type` and `name` only when given |
| Cloudflare.ProjectAllSpec | cloudflare/mcp-server/index.js:139-146 | the projection succeeds exactly when no item is null, and then keeps length and order, each item projected |
| Cloudflare.ProjectKeys | cloudflare/mcp-server/index.js:139-146 | a projected item carries no key but the listed fields |
| Cloudflare.ProjectGet | cloudflare/mcp-server/index.js:139-146 | each listed field of a projected item holds the value read from the source item |
| Cloudflare.ZoneProjection | cloudflare/mcp-server/index.js:139-146 | a zone is projected onto `id`, `name`, `status`, `paused`, `nameServers` (from `name_servers`) and `plan` (the plan's `name`) |
| Cloudflare.ZonesListed | cloudflare/mcp-server/index.js:133-150 | a successful zones reply gives one success text holding the projected zones in order |
| Json.GetFound | karabiner-elements/skills/karabiner-elements/scripts/config_manager.py:39-53 | `d.get(key)` finds a value exactly when a member has that key, and it is the value of the first member with that key |
| Json.SetGetSame | karabiner-elements/skills/karabiner-elements/scripts/config_manager.py:60 | after `d[key] = v`, `d[key]` is `v` |
| Json.SetGetOther | karabiner-elements/skills/karabiner-elements/scripts/config_manager.py:60 | `d[key] = v` leaves every other key as it was |
| Json.SetKeys | karabiner-elements/skills/karabiner-elements/scripts/config_manager.py:60 | assignment keeps the key order, a new key going last |
| Json.SetUnchanged | karabiner-elements/skills/karabiner-elements/scripts/config_manager.py:82 | assigning the value already held changes nothing |
| Json.SetTwice | karabiner-elements/skills/karabiner-elements/scripts/config_manager.py:82 | the second of two assignments to one key wins |
| Karabiner.Config.SelectedProfile | karabiner-elements/skills/karabiner-elements/scripts/config_manager.py:38-43 | returns the first profile whose `selected` is truthy, or None when there is none |
| Karabiner.Config.ProfileByName | karabiner-elements/skills/karabiner-elements/scripts/config_manager.py:49-54 | returns the first profile whose `name` equals the argument, or None when there is none |
| Karabiner.Config.ProfileNames | karabiner-elements/skills/karabiner-elements/scripts/config_manager.py:45-47 | one name per profile, in order, `Unnamed` when a profile has none |
| Karabiner.NamesOf | karabiner-elements/skills/karabiner-elements/scripts/config_manager.py:47 | the list comprehension keeps length and order |
| Karabiner.Profile.AddComplexRule | karabiner-elements/skills/karabiner-elements/scripts/config_manager.py:57-63 | the stepwise in-place edit leaves the profile as specified by `WithRule` |
| Karabiner.WithRuleAppends | karabiner-elements/skills/karabiner-elements/scripts/config_manager.py:57-63 | the rules afterwards are the old rules (none if the containers were missing) with the new rule last |
| Karabiner.WithRuleKeeps | karabiner-elements/skills/karabiner-elements/scripts/config_manager.py:57-63 | every other profile key and every other `complex_modifications` key keep their values; a missing container is added last with empty `parameters` |
| Karabiner.Profile.RemoveComplexRule | karabiner-elements/skills/karabiner-elements/scripts/config_manager.py:65-72 | for every profile on which the Python does not raise (`RemoveReads`: `complex_modifications` absent or an object, and its `rules` absent, a list whose rules up to the first match are objects, or an empty dict or string), returns True exactly when some rule has that description, and leaves the profile as specified by `WithoutRule` |
| Karabiner.WithoutRuleRemovesFirst | karabiner-elements/skills/karabiner-elements/scripts/config_manager.py:65-72 | only the first rule so described is removed, the others keep their order; without a match (or without the containers) the profile is unchanged |
| Karabiner.WithoutRuleKeeps | karabiner-elements/skills/karabiner-elements/scripts/config_manager.py:65-72 | the profile keys, their order and every key but `rules` keep their values |
| Karabiner.WithoutRuleShaped | karabiner-elements/skills/karabiner-elements/scripts/config_manager.py:57-72 | removing a rule from a profile `add_complex_rule` accepts leaves one it still accepts |
| Karabiner.AddThenRemove | karabiner-elements/skills/karabiner-elements/scripts/config_manager.py:57-72 | on any profile `add_complex_rule` accepts with no rule of that description, adding a created rule and removing it by its description gives the profile with the containers `add_complex_rule` created, and the profile itself when they already existed |
| Karabiner.Profile.AddSimpleModification | karabiner-elements/skills/karabiner-elements/scripts/config_manager.py:74-89 | for every profile on which the Python does not raise (`SimpleShaped`: `simple_modifications` absent or a list whose entries up to the first one of `from_key` are objects with an object `from`, when present), the loop with early return leaves the profile as specified by `WithSimple` |
| Karabiner.UpsertSpec | karabiner-elements/skills/karabiner-elements/scripts/config_manager.py:79-89 | with an entry for `from_key`, only the first such entry changes, only in its `to`, and the length is kept; otherwise exactly the new entry is appended |
| Karabiner.UpsertFound | karabiner-elements/skills/karabiner-elements/scripts/config_manager.py:79-89 | afterwards `from_key` is first found at the old entry, or at the appended one |
| Karabiner.UpsertIdempotent | karabiner-elements/skills/karabiner-elements/scripts/config_manager.py:79-89 | upserting twice with the same keys is upserting once |
| Karabiner.WithSimpleIdempotent | karabiner-elements/skills/karabiner-elements/scripts/config_manager.py:74-89 | the same for the whole profile, and no key but `simple_modifications` changes |
| Karabiner.RetargetedSpec | karabiner-elements/skills/karabiner-elements/scripts/config_manager.py:82 | `mod['to'] = …` sets `to` and keeps every other key of the entry |
| Karabiner.Upserted | karabiner-elements/skills/karabiner-elements/scripts/config_manager.py:79-89 | the upserted list keeps the shape the operation relies on |
| Karabiner.First | karabiner-elements/skills/karabiner-elements/scripts/config_manager.py:68-71 | the index found is the leftmost satisfying the test; none is found only when no element satisfies it |
| Karabiner.CreateRule | karabiner-elements/skills/karabiner-elements/scripts/config_manager.py:91-96 | exactly the keys `description` and `manipulators`, holding the arguments |
| Karabiner.ManipulatorFields | karabiner-elements/skills/karabiner-elements/scripts/config_manager.py:98-121 | keys `type` ('basic'), `from`, `to` and `conditions` only when given; `from` is the from-key event and `to` a one-element list of the to-key event |
| Karabiner.KeyEventReadsBack | karabiner-elements/skills/karabiner-elements/scripts/config_manager.py:107-116 | an event holds its key code, and its `modifiers` exactly when the argument is truthy |
| Karabiner.ManipulatorRemaps | karabiner-elements/skills/karabiner-elements/scripts/config_manager.py:106-107 | the manipulator's `from` is recognised by the simple-modification match for its own key and for no other |

## Left out

- **HTTP and URL encoding.** The HTTP traffic (`fetch`, `getClientIp` and its IP-echo call, the credentials) is left out, and so is URL and query encoding (`URLSearchParams`, `encodeURIComponent`). Replies are inputs, and requests are outputs as a command plus a parameter map, or as an endpoint path plus query pairs before encoding.
- **The read/write race of delete-dns-host.** The model takes a single snapshot of the host set. The backend offers no atomic single-record delete.
- **Server plumbing.** Tool registration, the zod schemas (the record-type enums are datatypes), the stdio transport and the start-up checks are left out.
- **Pretty-printing.** `JSON.stringify(…, null, 2)` indentation is left out. The output text is modelled as compact `JSON.stringify`, which differs only in whitespace.
- **Other Namecheap handlers.** get-domain-info and get-dns-hosts build their replies from the readers and are left out. set-nameservers and set-default-nameservers are modelled only through their success markers.
- **Pass-through Cloudflare handlers.** Workers, KV, R2, D1, pages and routes only forward arguments, so they are left out. So is the `expiration_ttl` query suffix of kv-put.
- **Karabiner file I/O and CLI.** `backup_config`, `load_config`, `save_config`, `save_complex_mod_file` and the command line are left out. A `Config` holds only its profiles. A configuration without `profiles` is a `Config` with none, which the source treats the same way.
- **Case folding.** `toLowerCase` and the `i` regular-expression flag are modelled as ASCII case folding; non-ASCII letters are left as they are.
- **Regular-expression scope.** Nested same-name tags, namespaces and CDATA are left out.
- **Tag and attribute names.** The readers treat `tag` and `attr` as literal text. The source splices them into a `RegExp`, so a name holding a regular-expression metacharacter is not modelled. Every call site passes a plain identifier.
- **NamecheapXml.CollectAttributes** keeps a pair named `__proto__` in the map. A JavaScript object assigned `attrs["__proto__"] = v` gets no own key, so the source drops that pair; Namecheap's attribute names never take that name.
- **Numbers.** Numbers are integers. Fractional TTLs, priorities and page numbers are not modelled, and `Math.min` with a non-number is not modelled.
- **Regex progress.** The `while (exec)` loops are modelled on patterns that never match the empty text, which all of these patterns are. The JavaScript rule for advancing `lastIndex` after an empty match is not modelled.
- **Cloudflare.Success.** `success(undefined)` is not modelled: `JSON.stringify(undefined)` is not a string. The value given to `success` is always a JSON value.
- **Karabiner.Profile.RemoveComplexRule** requires `RemoveReads`, which holds exactly when the Python does not raise: the rules it reads before the first match are objects, and a `rules` that is not a list is an empty dict or string. The exception on other profiles is not reproduced.
- **Karabiner.Profile.AddSimpleModification** requires `SimpleShaped`, which holds exactly when the Python does not raise: the entries it reads before the first one of `from_key` are objects whose `from`, when present, is an object. The exception on other profiles is not reproduced.
- **Karabiner.Profile.AddComplexRule** requires `complex_modifications` to be an object and its `rules` a list when present, for the same reason.
- **Karabiner.Config.SelectedProfile, Karabiner.Config.ProfileByName and Karabiner.Config.ProfileNames** take `profiles` as a list of dicts: a `Config` holds `Profile` objects only. In the Python, `get_selected_profile` and `get_profile_by_name` raise on a non-dict entry read before the match, `list_profiles` raises on any non-dict entry, and all three raise when `profiles` is not iterable, such as `null`. Those exceptions are not reproduced.
- **Shared structure.** Python dicts and lists are shared by reference. A `Profile` is an object held by reference in `Config.profiles`, but the values inside a profile are JSON values, so aliasing inside one profile is not modelled. `add_complex_rule` appends the caller's rule object itself, so a later change to that object also shows in the profile. That later change is not modelled.
