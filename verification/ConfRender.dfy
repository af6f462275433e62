/** The generator of the dynamic Asterisk files: which extension lists it accepts, and the text it
    writes for them. */
module ConfRender {
  import opened Prelude
  import opened Splitting
  import opened ConfText

  /** A number is stored as an integer or as text; str() of both is what the files show. */
  datatype Number = Whole(n: int) | Written(text: string)

  datatype Extension = Extension(name: string, tenant: Option<string>, number: Number, display: string,
                                 password: string, email: Option<string>, pin: Option<string>, contacts: Option<int>)

  function TenantOf(e: Extension): string { if e.tenant.Some? then e.tenant.value else "t1" }

  function EmailOf(e: Extension): string { if e.email.Some? then e.email.value else "" }

  function ContactsOf(e: Extension): int { if e.contacts.Some? then e.contacts.value else 1 }

  function PinOf(e: Extension): string { if e.pin.Some? then e.pin.value else "" }

  function NatText(n: nat): string
  {
    (if n < 10 then "" else NatText(n / 10)) + [('0' as int + n % 10) as char]
  }

  function IntText(n: int): string { if n < 0 then "-" + NatText(-n) else NatText(n) }

  function NumberText(number: Number): string
  {
    match number
    case Whole(n) => IntText(n)
    case Written(text) => text
  }

  // ----- what is accepted -----

  predicate IsName(name: string)
  {
    3 <= |name| <= 40 && forall i :: 0 <= i < |name| ==> 'a' <= name[i] <= 'z' || IsDigit(name[i]) || name[i] == '-'
  }

  /** The tenant that the name of an endpoint claims, as in t1-sales. */
  function ClaimedTenant(name: string): Option<string>
  {
    match Find(name, "-")
    case None => None
    case Some(i) => if IsTenantId(name[..i]) && i + 1 < |name| then Some(name[..i]) else None
  }

  predicate IsReserved(name: string, tenant: string)
  {
    || name in {"t1-1001", "t1-1002", "t1-recepcao", "t1-recepcao-2", "t2-1001", "t2-recepcao", "t2-recepcao-2"}
    || name == tenant + "-recepcao" || name == tenant + "-recepcao-2"
  }

  /** The value of a number, or -1 for text that is not four digits. */
  function Value(number: Number): int
  {
    match number
    case Whole(n) => n
    case Written(text) => if |text| == 4 && AllOf(text, IsDigit) then Decimal(text) else -1
  }

  predicate IsNumberOf(value: int, tenant: string)
  {
    || 1100 <= value <= 1199
    || (value == 1001 && tenant != "t1" && tenant != "t2")
    || (value == 1002 && tenant != "t1")
  }

  predicate IsDisplay(printable: char -> bool, display: string)
  {
    1 <= |display| <= 60 && forall i :: 0 <= i < |display| ==> printable(display[i]) && display[i] !in ";=,<>[]"
  }

  predicate IsPassword(password: string)
  {
    1 <= |password| <= 128
    && forall i :: 0 <= i < |password| ==> IsAlphanumeric(password[i]) || password[i] in "._~!@#$%^&*()+-="
  }

  predicate IsMailName(s: string) { s != "" && AllOf(s, c => IsAlphanumeric(c) || c in "._%+-") }

  predicate IsMailHost(s: string) { s != "" && AllOf(s, c => IsAlphanumeric(c) || c in ".-") }

  predicate IsMailSuffix(s: string) { 2 <= |s| <= 63 && AllOf(s, c => 'a' <= c <= 'z' || 'A' <= c <= 'Z') }

  predicate IsEmail(email: string)
  {
    && |email| <= 254
    && (email == "" || exists at, dot :: 0 <= at < dot < |email| && IsMailAt(email, at, dot))
  }

  predicate IsMailAt(email: string, at: nat, dot: nat)
    requires at < dot < |email|
  {
    && email[at] == '@' && email[dot] == '.'
    && IsMailName(email[..at]) && IsMailHost(email[at + 1..dot]) && IsMailSuffix(email[dot + 1..])
  }

  predicate IsPin(pin: Option<string>)
  {
    pin.Some? && |pin.value| == 8 && '1' <= pin.value[0] <= '9' && AllOf(pin.value[1..], IsDigit)
  }

  /** Everything validate_persisted_extensions asks of one record. */
  predicate IsAcceptable(printable: char -> bool, e: Extension, tenants: set<string>)
  {
    && TenantOf(e) in tenants
    && 1 <= ContactsOf(e) <= 3
    && IsName(e.name)
    && ClaimedTenant(e.name) in {None, Some(TenantOf(e))}
    && !IsReserved(e.name, TenantOf(e))
    && IsNumberOf(Value(e.number), TenantOf(e))
    && IsDisplay(printable, e.display)
    && IsPassword(e.password)
    && IsEmail(EmailOf(e))
    && IsPin(e.pin)
  }

  ghost predicate AreDistinct(es: seq<Extension>)
  {
    && (forall i, j :: 0 <= i < j < |es| ==> es[i].name != es[j].name)
    && (forall i, j :: 0 <= i < j < |es| ==>
          TenantOf(es[i]) != TenantOf(es[j]) || Value(es[i].number) != Value(es[j].number))
  }

  ghost predicate AreAcceptable(printable: char -> bool, es: seq<Extension>, tenants: set<string>)
  {
    AreDistinct(es) && forall i :: 0 <= i < |es| ==> IsAcceptable(printable, es[i], tenants)
  }

  function Names(es: seq<Extension>): set<string>
  {
    if es == [] then {} else Names(es[..|es| - 1]) + {es[|es| - 1].name}
  }

  function Numbers(es: seq<Extension>): set<(string, int)>
  {
    if es == [] then {} else
    var last := es[|es| - 1];
    Numbers(es[..|es| - 1]) + {(TenantOf(last), Value(last.number))}
  }

  lemma {:induction false} NamesAreThose(es: seq<Extension>, name: string)
    ensures name in Names(es) <==> exists k :: 0 <= k < |es| && es[k].name == name
  {
    if es != [] {
      NamesAreThose(es[..|es| - 1], name);
      assert es == es[..|es| - 1] + [es[|es| - 1]];
    }
  }

  lemma {:induction false} NumbersAreThose(es: seq<Extension>, tenant: string, value: int)
    ensures (tenant, value) in Numbers(es)
            <==> exists k :: 0 <= k < |es| && TenantOf(es[k]) == tenant && Value(es[k].number) == value
  {
    if es != [] {
      NumbersAreThose(es[..|es| - 1], tenant, value);
      assert es == es[..|es| - 1] + [es[|es| - 1]];
    }
  }

  lemma OneMoreDistinct(es: seq<Extension>, e: Extension)
    ensures (AreDistinct(es + [e]) <==>
             AreDistinct(es) && e.name !in Names(es) && (TenantOf(e), Value(e.number)) !in Numbers(es))
  {
    NamesAreThose(es, e.name);
    NumbersAreThose(es, TenantOf(e), Value(e.number));
    var more := es + [e];
    if AreDistinct(more) {
      forall i, j | 0 <= i < j < |es|
        ensures es[i].name != es[j].name
        ensures TenantOf(es[i]) != TenantOf(es[j]) || Value(es[i].number) != Value(es[j].number)
      {
        assert more[i] == es[i] && more[j] == es[j];
      }
      forall k | 0 <= k < |es|
        ensures es[k].name != e.name && (TenantOf(es[k]) != TenantOf(e) || Value(es[k].number) != Value(e.number))
      {
        assert more[k] == es[k] && more[|es|] == e;
      }
    }
  }

  predicate IsFresh(e: Extension, names: set<string>, numbers: set<(string, int)>)
  {
    e.name !in names && (TenantOf(e), Value(e.number)) !in numbers
  }

  lemma OneMoreAcceptable(printable: char -> bool, es: seq<Extension>, i: nat, tenants: set<string>)
    requires i < |es| && AreAcceptable(printable, es[..i], tenants)
    ensures (AreAcceptable(printable, es[..i + 1], tenants) <==>
             IsAcceptable(printable, es[i], tenants) && IsFresh(es[i], Names(es[..i]), Numbers(es[..i])))
    ensures Names(es[..i + 1]) == Names(es[..i]) + {es[i].name}
    ensures Numbers(es[..i + 1]) == Numbers(es[..i]) + {(TenantOf(es[i]), Value(es[i].number))}
  {
    var e, more := es[i], es[..i + 1];
    assert more == es[..i] + [e] && more[..i] == es[..i] && more[i] == e;
    OneMoreDistinct(es[..i], e);
    if IsAcceptable(printable, e, tenants) {
      forall k | 0 <= k < i + 1 ensures IsAcceptable(printable, more[k], tenants) {
        assert k < i ==> more[k] == es[..i][k];
      }
    }
  }

  lemma PrefixIsAcceptable(printable: char -> bool, es: seq<Extension>, i: nat, tenants: set<string>)
    requires i <= |es| && AreAcceptable(printable, es, tenants)
    ensures AreAcceptable(printable, es[..i], tenants)
  {
  }

  /** validate_persisted_extensions */
  method ValidatePersisted(printable: char -> bool, es: seq<Extension>, tenants: set<string>) returns (ok: bool)
    ensures ok <==> AreAcceptable(printable, es, tenants)
  {
    var names: set<string>, numbers: set<(string, int)> := {}, {};
    for i := 0 to |es|
      invariant AreAcceptable(printable, es[..i], tenants)
      invariant names == Names(es[..i]) && numbers == Numbers(es[..i])
    {
      var e := es[i];
      OneMoreAcceptable(printable, es, i, tenants);
      if !(IsAcceptable(printable, e, tenants) && IsFresh(e, names, numbers)) {
        if AreAcceptable(printable, es, tenants) { PrefixIsAcceptable(printable, es, i + 1, tenants); }
        return false;
      }
      names, numbers := names + {e.name}, numbers + {(TenantOf(e), Value(e.number))};
    }
    assert es[..|es|] == es;
    return true;
  }

  // ----- what is written -----

  // Long literals are written in short pieces: the solver looks through a literal one character at a time.

  function Banner(): string
  {
    "; ARQUIVO GERADO" + " AUTOMATICAMENTE" + " PELO PAINEL DE" + " ADMINISTRA\U{C7}\U{C3}O."
  }

  function Warning(): string
  {
    "; N\U{C3}O EDITE NA" + " M\U{C3}O - qualquer" + " altera\U{E7}\U{E3}o aqui" + " \U{E9} sobrescrita na"
  }

  function WarningEnd(): string { "; pr\U{F3}xima" + " mudan\U{E7}a feita" + " pelo painel." }

  function HeaderLines(): seq<string> { [Banner(), Warning(), WarningEnd()] }

  function Header(): string { Join(HeaderLines(), "\n") }

  function EndpointHeading(name: string): string { "[" + name + "](endpoint-secure)" }

  function Heading(name: string): string { "[" + name + "]" }

  function ContextLine(tenant: string): string { "context=" + tenant + "-internal" }

  function SubscribeLine(tenant: string): string { "subscribe_context=" + tenant + "-hints" }

  function AuthLine(name: string): string { "auth=" + name }

  function AorsLine(name: string): string { "aors=" + name }

  function CallerIdLine(display: string, number: string): string { "callerid=" + display + " <" + number + ">" }

  function MailboxLine(name: string, tenant: string): string { "mailboxes=" + name + "@" + tenant }

  function TypeLine(kind: string): string { "type=" + kind }

  function AuthTypeLine(): string { "auth_type=userpass" }

  function UsernameLine(name: string): string { "username=" + name }

  function PasswordLine(password: string): string { "password=" + password }

  function ContactsPrefix(): string { "max_contacts=" }

  function RemoveLine(): string { "remove_existing=yes" }

  function EndpointLines(e: Extension): seq<string>
  {
    [EndpointHeading(e.name), ContextLine(TenantOf(e)), SubscribeLine(TenantOf(e)), AuthLine(e.name), AorsLine(e.name),
     CallerIdLine(e.display, NumberText(e.number)), MailboxLine(e.name, TenantOf(e))]
  }

  function AuthLines(e: Extension): seq<string>
  {
    [Heading(e.name), TypeLine("auth"), AuthTypeLine(), UsernameLine(e.name), PasswordLine(e.password)]
  }

  function AorLines(e: Extension): seq<string>
  {
    [Heading(e.name), TypeLine("aor"), ContactsPrefix() + IntText(ContactsOf(e)), RemoveLine()]
  }

  function DialPrefix(number: string): string { "exten => " + number + ",1," }

  function Monitor(): string { "MixMonitor(/var/" + "spool/asterisk/" + "monitor/" }

  /** Date and caller in the name of a recording. */
  function Recording(): string { "${STRFTIME(${EPO" + "CH},,%Y%m%d-%H%" + "M%S)}-${CALLERID" + "(num)}-" }

  function Same(application: string): string { " same => n," + application }

  function AccountCode(tenant: string): string { Same("Set(CDR(account" + "code)=" + tenant + ")") }

  function DialEndpoint(name: string): string { Same("Dial(PJSIP/" + name + ",20)") }

  function Hangup(): string { Same("Hangup()") }

  function MonitorLine(number: string): string
  {
    DialPrefix(number) + Monitor() + Recording() + number + ".wav,b)"
  }

  function DialLines(e: Extension): seq<string>
  {
    [MonitorLine(NumberText(e.number)), AccountCode(TenantOf(e)), DialEndpoint(e.name), Hangup()]
  }

  function HintLine(e: Extension): string { "exten => " + NumberText(e.number) + ",hint,PJSIP/" + e.name }

  function VoicemailLine(e: Extension): string
  {
    e.name + " => " + PinOf(e) + "," + e.display + "," + EmailOf(e)
  }

  function PjsipBlock(e: Extension): string
  {
    Join(EndpointLines(e), "\n") + BLANK + Join(AuthLines(e), "\n") + BLANK + Join(AorLines(e), "\n") + "\n"
  }

  function DialBlock(e: Extension): string { Join(DialLines(e), "\n") + "\n" }

  /** [f(e) for e in es] */
  function Each(es: seq<Extension>, f: Extension -> string): (texts: seq<string>)
    ensures |texts| == |es| && forall k :: 0 <= k < |es| ==> texts[k] == f(es[k])
  {
    seq(|es|, k requires 0 <= k < |es| => f(es[k]))
  }

  /** The banner and what follows it. */
  function Report(parts: seq<string>): string
  {
    Join([Header() + BLANK] + parts, "\n")
  }

  function PjsipText(es: seq<Extension>): string { Report(Each(es, PjsipBlock)) }

  function DialText(es: seq<Extension>): string { Report(Each(es, DialBlock)) }

  function HintsText(es: seq<Extension>): string { Report(Each(es, HintLine)) + if es == [] then "" else "\n" }

  function VoicemailText(es: seq<Extension>): string { Report(Each(es, VoicemailLine)) + if es == [] then "" else "\n" }

  predicate HasContacts(e: Extension) { 1 <= ContactsOf(e) <= 3 }

  predicate HasPin(e: Extension) { IsPin(e.pin) }

  /** The loop of the four renderers: one text for each record, or None at the first record it must
      refuse. */
  method RenderEach(es: seq<Extension>, accept: Extension -> bool, f: Extension -> string)
    returns (texts: Option<seq<string>>)
    ensures texts.Some? <==> forall i :: 0 <= i < |es| ==> accept(es[i])
    ensures texts.Some? ==> texts.value == Each(es, f)
  {
    var parts: seq<string> := [];
    for i := 0 to |es|
      invariant forall k :: 0 <= k < i ==> accept(es[k])
      invariant |parts| == i && forall k :: 0 <= k < i ==> parts[k] == f(es[k])
    {
      if !accept(es[i]) {
        return None;
      }
      parts := parts + [f(es[i])];
    }
    assert parts == Each(es, f);
    return Some(parts);
  }

  /** render_pjsip_dynamic: None for a limit of contacts outside 1..3. */
  method RenderPjsip(es: seq<Extension>) returns (text: Option<string>)
    ensures text.Some? <==> forall i :: 0 <= i < |es| ==> HasContacts(es[i])
    ensures text.Some? ==> text.value == PjsipText(es)
  {
    var blocks := RenderEach(es, HasContacts, PjsipBlock);
    return if blocks.None? then None else Some(Report(blocks.value));
  }

  /** render_extensions_dynamic_dial */
  method RenderDial(es: seq<Extension>) returns (text: string)
    ensures text == DialText(es)
  {
    var blocks := RenderEach(es, e => true, DialBlock);
    return Report(blocks.value);
  }

  /** render_extensions_dynamic_hints */
  method RenderHints(es: seq<Extension>) returns (text: string)
    ensures text == HintsText(es)
  {
    var lines := RenderEach(es, e => true, HintLine);
    return Report(lines.value) + if es == [] then "" else "\n";
  }

  /** render_voicemail_dynamic: None for a missing or malformed PIN. */
  method RenderVoicemail(es: seq<Extension>) returns (text: Option<string>)
    ensures text.Some? <==> forall i :: 0 <= i < |es| ==> HasPin(es[i])
    ensures text.Some? ==> text.value == VoicemailText(es)
  {
    var lines := RenderEach(es, HasPin, VoicemailLine);
    return if lines.None? then None else Some(Report(lines.value) + if es == [] then "" else "\n");
  }
}
