/** The inspector: thirty checks over a rendered configuration, by reading the text again. */
module ConfInspect {
  import opened Prelude
  import opened Splitting
  import opened Text
  import opened ConfText
  import opened ConfRender
  import TenantFiles

  const MAX_BYTES: nat := 2097152  // 2 * 1024 * 1024

  type Files = map<string, string>

  // ----- reading text -----

  predicate StartsWith(s: string, prefix: string) { |prefix| <= |s| && s[..|prefix|] == prefix }

  predicate EndsWith(s: string, suffix: string) { |suffix| <= |s| && s[|s| - |suffix|..] == suffix }

  predicate Contains(s: string, part: string) { Find(s, part).Some? }

  /** len(s.encode("utf-8")) */
  function Utf8Length(s: string): nat
  {
    if s == "" then 0 else
    var c := s[|s| - 1];
    Utf8Length(s[..|s| - 1]) + if c < '\U{80}' then 1 else if c < '\U{800}' then 2 else if c < '\U{10000}' then 3 else 4
  }

  function KeepPrefixed(lines: seq<string>, prefix: string): seq<string>
  {
    if lines == [] then [] else
    KeepPrefixed(lines[..|lines| - 1], prefix)
      + if StartsWith(lines[|lines| - 1], prefix) then [lines[|lines| - 1]] else []
  }

  predicate IsMailbox(line: string) { Contains(line, " => ") && !StartsWith(line, ";") }

  function KeepMailboxes(lines: seq<string>): seq<string>
  {
    if lines == [] then [] else
    KeepMailboxes(lines[..|lines| - 1]) + if IsMailbox(lines[|lines| - 1]) then [lines[|lines| - 1]] else []
  }

  /** The number that a line `exten => NNNN,1,...` dials. */
  function DialedIn(line: string): Option<string>
  {
    if |line| >= 16 && StartsWith(line, "exten => ") && AllOf(line[9..13], IsDigit) && line[13..16] == ",1,"
    then Some(line[9..13])
    else None
  }

  function KeepDialed(lines: seq<string>): seq<string>
  {
    if lines == [] then [] else
    KeepDialed(lines[..|lines| - 1])
      + match DialedIn(lines[|lines| - 1]) { case None => [] case Some(number) => [number] }
  }

  /** re.findall(r"(?m)^exten => ([0-9]{4}),1,", text): a match never leaves its line. */
  function DialedNumbers(text: string): seq<string> { KeepDialed(Split(text, "\n")) }

  function EachLines(paragraphs: seq<string>): seq<seq<string>>
  {
    if paragraphs == [] then []
    else EachLines(paragraphs[..|paragraphs| - 1]) + [SplitLines(paragraphs[|paragraphs| - 1])]
  }

  /** _sections */
  function Sections(text: string): seq<seq<string>>
  {
    EachLines(KeepPrefixed(Paragraphs(text), "["))
  }

  predicate IsSection(lines: seq<string>, heading: string, kind: Option<string>)
  {
    lines != [] && lines[0] == heading && (kind.Some? ==> TypeLine(kind.value) in lines)
  }

  function Matching(sections: seq<seq<string>>, heading: string, kind: Option<string>): seq<seq<string>>
  {
    if sections == [] then [] else
    var last := sections[|sections| - 1];
    Matching(sections[..|sections| - 1], heading, kind) + if IsSection(last, heading, kind) then [last] else []
  }

  /** _one */
  function One(sections: seq<seq<string>>, heading: string, kind: Option<string>): seq<string>
  {
    var found := Matching(sections, heading, kind);
    if |found| == 1 then found[0] else []
  }

  /** _dial_chunk */
  function DialChunk(text: string, number: string): string
  {
    var found := KeepPrefixed(Paragraphs(text), DialPrefix(number));
    if |found| == 1 then found[0] else ""
  }

  /** The headings of the endpoint stanzas. */
  function EndpointHeadings(sections: seq<seq<string>>): seq<string>
  {
    if sections == [] then [] else
    var last := sections[|sections| - 1];
    EndpointHeadings(sections[..|sections| - 1])
    + if last != [] && EndsWith(last[0], "](endpoint-secure)") then [last[0]] else []
  }

  function CountOf(lines: seq<string>, line: string): nat
  {
    if lines == [] then 0 else CountOf(lines[..|lines| - 1], line) + if lines[|lines| - 1] == line then 1 else 0
  }

  function GetText(files: Files, name: string): string { if name in files then files[name] else "" }

  function PjsipName(): string { "pjsip_dynamic.conf" }

  function DialName(tenant: string): string { TenantFiles.GeneratedPath("extensions_dynamic_dial-", tenant).name }

  function HintsName(tenant: string): string { TenantFiles.GeneratedPath("extensions_dynamic_hints-", tenant).name }

  function VoicemailName(tenant: string): string { TenantFiles.GeneratedPath("voicemail_dynamic_", tenant).name }

  function ExpectedNames(tenants: seq<string>): set<string>
  {
    if tenants == [] then {PjsipName()} else
    var last := tenants[|tenants| - 1];
    ExpectedNames(tenants[..|tenants| - 1]) + {DialName(last), HintsName(last), VoicemailName(last)}
  }

  /** [e for e in rows if e.get("tenant") == tenant] */
  function OfTenant(rows: seq<Extension>, tenant: string): seq<Extension>
  {
    if rows == [] then [] else
    OfTenant(rows[..|rows| - 1], tenant) + if rows[|rows| - 1].tenant == Some(tenant) then [rows[|rows| - 1]] else []
  }

  function ShownNumber(e: Extension): string { NumberText(e.number) }

  // ----- the checks -----

  /** Every record names its tenant. */
  predicate RecordsAreWhole(rows: seq<Extension>) { forall i :: 0 <= i < |rows| ==> rows[i].tenant.Some? }

  predicate ValidTenants(tenants: seq<string>)
  {
    tenants != [] && forall i :: 0 <= i < |tenants| ==> IsTenantId(tenants[i])
  }

  /** DE-01 to DE-03 */
  function RecordChecks(rows: seq<Extension>, tenants: seq<string>): seq<bool>
  {
    [ValidTenants(tenants) && Distinct(tenants),
     RecordsAreWhole(rows) && forall i, j :: 0 <= i < j < |rows| ==> rows[i].name != rows[j].name,
     RecordsAreWhole(rows) && forall i, j :: 0 <= i < j < |rows| ==>
       rows[i].tenant != rows[j].tenant || ShownNumber(rows[i]) != ShownNumber(rows[j])]
  }

  /** DE-04 to DE-09; DE-06 holds by the type of `files`, and `scoped` are the tenants if they are valid. */
  function FileChecks(scoped: seq<string>, files: Files): seq<bool>
  {
    [ExactCount(scoped, files),
     ExactNames(scoped, files),
     true,
     NoControls(files),
     IsSmall(files),
     HaveBanner(files, Banner())]
  }

  predicate ExactCount(scoped: seq<string>, files: Files) { |files| == 1 + 3 * |scoped| }

  predicate ExactNames(scoped: seq<string>, files: Files) { files.Keys == ExpectedNames(scoped) }

  predicate NoControls(files: Files) { forall name :: name in files ==> '\r' !in files[name] && '\0' !in files[name] }

  predicate IsSmall(files: Files) { forall name :: name in files ==> Utf8Length(files[name]) <= MAX_BYTES }

  predicate HaveBanner(files: Files, banner: string)
  {
    forall name :: name in files ==> StartsWith(files[name], banner)
  }

  function Headings(rows: seq<Extension>): set<string>
  {
    if rows == [] then {} else Headings(rows[..|rows| - 1]) + {EndpointHeading(rows[|rows| - 1].name)}
  }

  predicate HasOne(lines: seq<string>, line: string) { CountOf(lines, line) == 1 }

  /** The endpoint stanza of a record. */
  function Endpoint(text: string, e: Extension): seq<string> { One(Sections(text), EndpointHeading(e.name), None) }

  function Auth(text: string, e: Extension): seq<string> { One(Sections(text), Heading(e.name), Some("auth")) }

  function Aor(text: string, e: Extension): seq<string> { One(Sections(text), Heading(e.name), Some("aor")) }

  /** sorted(list) == sorted(set): the list holds each member once and nothing else. */
  predicate SameMembers(list: seq<string>, members: set<string>)
  {
    Distinct(list) && (forall i :: 0 <= i < |list| ==> list[i] in members) && forall m :: m in members ==> m in list
  }

  function OwnContext(e: Extension): string { ContextLine(TenantOf(e)) }

  function OwnSubscription(e: Extension): string { SubscribeLine(TenantOf(e)) }

  function OwnAuth(e: Extension): string { AuthLine(e.name) }

  function OwnAor(e: Extension): string { AorsLine(e.name) }

  function OwnCallerId(e: Extension): string { CallerIdLine(e.display, ShownNumber(e)) }

  function OwnMailbox(e: Extension): string { MailboxLine(e.name, TenantOf(e)) }

  function OwnUsername(e: Extension): string { UsernameLine(e.name) }

  function OwnPassword(e: Extension): string { PasswordLine(e.password) }

  function OwnContacts(e: Extension): string { ContactsPrefix() + IntText(ContactsOf(e)) }

  function OwnRemoval(e: Extension): string { RemoveLine() }

  /** matches_field, on the endpoint stanzas: each has this line of its record once. */
  predicate EndpointsHave(rows: seq<Extension>, text: string, line: Extension -> string)
  {
    RecordsAreWhole(rows) && forall i :: 0 <= i < |rows| ==> HasOne(Endpoint(text, rows[i]), line(rows[i]))
  }

  predicate AuthsHave(rows: seq<Extension>, text: string, line: Extension -> string)
  {
    RecordsAreWhole(rows) && forall i :: 0 <= i < |rows| ==> HasOne(Auth(text, rows[i]), line(rows[i]))
  }

  predicate AorsHave(rows: seq<Extension>, text: string, line: Extension -> string)
  {
    RecordsAreWhole(rows) && forall i :: 0 <= i < |rows| ==> HasOne(Aor(text, rows[i]), line(rows[i]))
  }

  predicate AorsLimitContacts(rows: seq<Extension>, text: string)
  {
    forall i :: 0 <= i < |rows| ==>
      1 <= ContactsOf(rows[i]) <= 3 && |KeepPrefixed(Aor(text, rows[i]), ContactsPrefix())| == 1
  }

  predicate AllEndpoints(rows: seq<Extension>, text: string)
  {
    RecordsAreWhole(rows) && forall i :: 0 <= i < |rows| ==> Endpoint(text, rows[i]) != []
  }

  predicate AllAuths(rows: seq<Extension>, text: string)
  {
    RecordsAreWhole(rows) && forall i :: 0 <= i < |rows| ==> Auth(text, rows[i]) != []
  }

  predicate AllAors(rows: seq<Extension>, text: string)
  {
    RecordsAreWhole(rows) && forall i :: 0 <= i < |rows| ==> Aor(text, rows[i]) != []
  }

  predicate OnlyKnownEndpoints(rows: seq<Extension>, text: string)
  {
    RecordsAreWhole(rows) && SameMembers(EndpointHeadings(Sections(text)), Headings(rows))
  }

  /** DE-10 to DE-17 */
  function EndpointChecks(rows: seq<Extension>, text: string): seq<bool>
  {
    [AllEndpoints(rows, text),
     OnlyKnownEndpoints(rows, text),
     EndpointsHave(rows, text, OwnContext),
     EndpointsHave(rows, text, OwnSubscription),
     EndpointsHave(rows, text, OwnAuth),
     EndpointsHave(rows, text, OwnAor),
     EndpointsHave(rows, text, OwnCallerId),
     EndpointsHave(rows, text, OwnMailbox)]
  }

  /** DE-18 to DE-23 */
  function AccountChecks(rows: seq<Extension>, text: string): seq<bool>
  {
    [AllAuths(rows, text),
     AuthsHave(rows, text, OwnUsername),
     AuthsHave(rows, text, OwnPassword),
     AllAors(rows, text),
     AorsHave(rows, text, OwnContacts) && AorsLimitContacts(rows, text),
     AorsHave(rows, text, OwnRemoval)]
  }

  function Chunk(files: Files, e: Extension): string
  {
    DialChunk(GetText(files, DialName(TenantOf(e))), ShownNumber(e))
  }

  /** dial_matches of every chunk */
  predicate ChunksContain(rows: seq<Extension>, files: Files, token: Extension -> string)
  {
    RecordsAreWhole(rows) && forall i :: 0 <= i < |rows| ==> Contains(Chunk(files, rows[i]), token(rows[i]))
  }

  function MonitorToken(e: Extension): string { Monitor() }

  function AccountToken(e: Extension): string { AccountCode(TenantOf(e)) }

  function DialToken(e: Extension): string { DialEndpoint(e.name) }

  predicate ChunksHangUp(rows: seq<Extension>, files: Files)
  {
    RecordsAreWhole(rows) && forall i :: 0 <= i < |rows| ==>
      EndsWith(TrimEnd(Chunk(files, rows[i]), IsSpace), Hangup()[1..])
  }

  predicate DialsAreExact(rows: seq<Extension>, scoped: seq<string>, files: Files)
  {
    && RecordsAreWhole(rows)
    && forall i :: 0 <= i < |scoped| ==>
         SameInAnyOrder(DialedNumbers(GetText(files, DialName(scoped[i]))),
                        Each(OfTenant(rows, scoped[i]), ShownNumber))
  }

  /** DE-24 to DE-28 */
  function DialChecks(rows: seq<Extension>, scoped: seq<string>, files: Files): seq<bool>
  {
    [DialsAreExact(rows, scoped, files),
     ChunksContain(rows, files, MonitorToken),
     ChunksContain(rows, files, AccountToken),
     ChunksContain(rows, files, DialToken),
     ChunksHangUp(rows, files)]
  }

  /** sorted(a) == sorted(b) */
  predicate SameInAnyOrder(a: seq<string>, b: seq<string>) { multiset(a) == multiset(b) }

  predicate HintsAreExact(rows: seq<Extension>, scoped: seq<string>, files: Files)
  {
    && RecordsAreWhole(rows)
    && forall i :: 0 <= i < |scoped| ==>
         SameInAnyOrder(KeepPrefixed(SplitLines(GetText(files, HintsName(scoped[i]))), "exten => "),
                        Each(OfTenant(rows, scoped[i]), HintLine))
  }

  predicate MailboxesAreExact(rows: seq<Extension>, scoped: seq<string>, files: Files)
  {
    && RecordsAreWhole(rows)
    && forall i :: 0 <= i < |scoped| ==>
         SameInAnyOrder(KeepMailboxes(SplitLines(GetText(files, VoicemailName(scoped[i])))),
                        if AllHavePins(rows) then Each(OfTenant(rows, scoped[i]), VoicemailLine) else [])
  }

  /** DE-29 and DE-30 */
  function EntryChecks(rows: seq<Extension>, scoped: seq<string>, files: Files): seq<bool>
  {
    [HintsAreExact(rows, scoped, files), MailboxesAreExact(rows, scoped, files)]
  }

  predicate AllHavePins(rows: seq<Extension>) { forall i :: 0 <= i < |rows| ==> rows[i].pin.Some? }

  /** inspect_dynamic_extensions */
  function Inspect(rows: seq<Extension>, tenants: seq<string>, files: Files): (flags: seq<bool>)
    ensures |flags| == 30
  {
    var scoped, pjsip := if ValidTenants(tenants) then tenants else [], GetText(files, PjsipName());
    RecordChecks(rows, tenants) + FileChecks(scoped, files) + EndpointChecks(rows, pjsip) + AccountChecks(rows, pjsip)
    + DialChecks(rows, scoped, files) + EntryChecks(rows, scoped, files)
  }
}
