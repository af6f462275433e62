/** The lines the generator writes for an acceptable extension: plain text, told apart by their beginnings. */
module ConfLines {
  import opened Prelude
  import opened Splitting
  import opened ConfText
  import opened ConfRender

  /** What str.isprintable guarantees of a character. */
  ghost predicate ExcludesControls(printable: char -> bool)
  {
    forall c :: printable(c) ==> !IsLineBreak(c) && c != '\0'
  }

  // ----- plain fields -----

  lemma AllOfIsLine(s: string, p: char -> bool)
    requires AllOf(s, p) && forall c :: p(c) ==> !IsLineBreak(c) && c != '\0'
    ensures IsLine(s)
  {
    forall c | c in s ensures !IsLineBreak(c) && c != '\0' {
      var i :| 0 <= i < |s| && s[i] == c;
      assert p(s[i]);
    }
  }

  lemma TenantIsLine(tenant: string)
    requires IsTenantId(tenant)
    ensures IsLine(tenant)
  {
    AllOfIsLine(tenant[2..], IsDigit);
    assert tenant == [tenant[0], tenant[1]] + tenant[2..];
  }

  lemma NameIsLine(name: string)
    requires IsName(name)
    ensures IsLine(name)
  {
    forall c | c in name ensures !IsLineBreak(c) && c != '\0' {
      var i :| 0 <= i < |name| && name[i] == c;
    }
  }

  lemma DisplayIsLine(printable: char -> bool, display: string)
    requires ExcludesControls(printable) && IsDisplay(printable, display)
    ensures IsLine(display)
  {
    forall c | c in display ensures !IsLineBreak(c) && c != '\0' {
      var i :| 0 <= i < |display| && display[i] == c;
      assert printable(display[i]);
    }
  }

  lemma PasswordIsLine(password: string)
    requires IsPassword(password)
    ensures IsLine(password)
  {
    forall c | c in password ensures !IsLineBreak(c) && c != '\0' {
      var i :| 0 <= i < |password| && password[i] == c;
    }
  }

  lemma EmailIsLine(email: string)
    requires IsEmail(email)
    ensures IsLine(email)
  {
    if email != "" {
      var at, dot :| 0 <= at < dot < |email| && IsMailAt(email, at, dot);
      AllOfIsLine(email[..at], c => IsAlphanumeric(c) || c in "._%+-");
      AllOfIsLine(email[at + 1..dot], c => IsAlphanumeric(c) || c in ".-");
      AllOfIsLine(email[dot + 1..], c => 'a' <= c <= 'z' || 'A' <= c <= 'Z');
      assert email == email[..at] + "@" + email[at + 1..dot] + "." + email[dot + 1..];
    }
  }

  lemma PinIsLine(pin: Option<string>)
    requires IsPin(pin)
    ensures IsLine(pin.value)
  {
    AllOfIsLine(pin.value[1..], IsDigit);
    assert pin.value == [pin.value[0]] + pin.value[1..];
  }

  // ----- numbers -----

  lemma {:induction false} NatTextReadsBack(n: nat)
    ensures AllOf(NatText(n), IsDigit) && NatText(n) != "" && Decimal(NatText(n)) == n
  {
    if n >= 10 {
      NatTextReadsBack(n / 10);
      assert NatText(n)[..|NatText(n)| - 1] == NatText(n / 10);
    } else {
      assert NatText(n) == [('0' as int + n) as char];
      assert NatText(n)[..0] == "";
    }
  }

  lemma FourDigits(n: nat)
    requires 1000 <= n < 10000
    ensures |NatText(n)| == 4
  {
    assert |NatText(n / 1000)| == 1;
    assert n / 100 / 10 == n / 1000 && n / 10 / 10 == n / 100;
    assert |NatText(n / 100)| == 2;
    assert |NatText(n / 10)| == 3;
  }

  /** An accepted number is shown with four digits, which give back its value. */
  lemma NumberIsShown(number: Number, tenant: string)
    requires IsNumberOf(Value(number), tenant)
    ensures var shown := NumberText(number);
            |shown| == 4 && AllOf(shown, IsDigit) && Decimal(shown) == Value(number) && IsLine(shown)
  {
    if number.Whole? {
      FourDigits(number.n);
      NatTextReadsBack(number.n);
    }
    AllOfIsLine(NumberText(number), IsDigit);
  }

  // ----- whole lines -----

  lemma PlainFields(printable: char -> bool, e: Extension, tenants: set<string>)
    requires ExcludesControls(printable) && IsAcceptable(printable, e, tenants)
    requires forall t :: t in tenants ==> IsTenantId(t)
    ensures IsLine(TenantOf(e)) && IsLine(e.name) && IsLine(NumberText(e.number)) && IsLine(e.display)
    ensures IsLine(e.password) && IsLine(EmailOf(e)) && IsLine(PinOf(e))
    ensures e.name != "" && |NumberText(e.number)| == 4
  {
    TenantIsLine(TenantOf(e));
    NameIsLine(e.name);
    NumberIsShown(e.number, TenantOf(e));
    DisplayIsLine(printable, e.display);
    PasswordIsLine(e.password);
    EmailIsLine(EmailOf(e));
    PinIsLine(e.pin);
  }

  /** Fields that can stand in a line of a file. */
  ghost predicate IsPlain(e: Extension)
  {
    && IsLine(TenantOf(e)) && IsLine(e.name) && IsLine(NumberText(e.number)) && IsLine(e.display)
    && IsLine(e.password) && IsLine(EmailOf(e)) && IsLine(PinOf(e))
    && 1 <= ContactsOf(e) <= 3 && 3 <= |e.name| && |NumberText(e.number)| == 4 && AllOf(NumberText(e.number), IsDigit)
    && e.name[0] != ';'
  }

  lemma AcceptableIsPlain(printable: char -> bool, e: Extension, tenants: set<string>)
    requires ExcludesControls(printable) && IsAcceptable(printable, e, tenants)
    requires forall t :: t in tenants ==> IsTenantId(t)
    ensures IsPlain(e)
  {
    PlainFields(printable, e, tenants);
    NumberIsShown(e.number, TenantOf(e));
  }

  ghost predicate ArePlainLines(lines: seq<string>)
  {
    lines != [] && forall k :: 0 <= k < |lines| ==> lines[k] != "" && IsLine(lines[k])
  }

  lemma HeadingsArePlain(name: string)
    requires IsLine(name)
    ensures IsLine(EndpointHeading(name)) && IsLine(Heading(name))
  {
  }

  lemma ContextLinesArePlain(tenant: string)
    requires IsLine(tenant)
    ensures IsLine(ContextLine(tenant))
  {
  }

  lemma SubscribeLineIsPlain(tenant: string)
    requires IsLine(tenant)
    ensures IsLine(SubscribeLine(tenant))
  {
  }

  lemma ReferencesArePlain(name: string)
    requires IsLine(name)
    ensures IsLine(AuthLine(name)) && IsLine(AorsLine(name))
  {
  }

  lemma CallerIdIsPlain(display: string, number: string)
    requires IsLine(display) && IsLine(number)
    ensures IsLine(CallerIdLine(display, number))
  {
  }

  lemma MailboxIsPlain(name: string, tenant: string)
    requires IsLine(name) && IsLine(tenant)
    ensures IsLine(MailboxLine(name, tenant))
  {
  }

  lemma EndpointLinesArePlain(e: Extension)
    requires IsPlain(e)
    ensures ArePlainLines(EndpointLines(e))
  {
    HeadingsArePlain(e.name);
    ContextLinesArePlain(TenantOf(e));
    SubscribeLineIsPlain(TenantOf(e));
    ReferencesArePlain(e.name);
    CallerIdIsPlain(e.display, NumberText(e.number));
    MailboxIsPlain(e.name, TenantOf(e));
  }

  lemma TypesArePlain()
    ensures IsLine(TypeLine("auth")) && IsLine(TypeLine("aor"))
  {
  }

  lemma AuthTypeIsPlain()
    ensures IsLine(AuthTypeLine())
  {
  }

  lemma CredentialsArePlain(name: string, password: string)
    requires IsLine(name) && IsLine(password)
    ensures IsLine(UsernameLine(name)) && IsLine(PasswordLine(password))
  {
  }

  lemma AuthLinesArePlain(e: Extension)
    requires IsPlain(e)
    ensures ArePlainLines(AuthLines(e))
  {
    HeadingsArePlain(e.name);
    TypesArePlain();
    AuthTypeIsPlain();
    CredentialsArePlain(e.name, e.password);
  }

  lemma ContactsAreShown(e: Extension)
    requires 1 <= ContactsOf(e) <= 3
    ensures |IntText(ContactsOf(e))| == 1 && IsDigit(IntText(ContactsOf(e))[0]) && IsLine(IntText(ContactsOf(e)))
  {
    NatTextReadsBack(ContactsOf(e));
    AllOfIsLine(IntText(ContactsOf(e)), IsDigit);
  }

  lemma ContactsLineIsPlain(contacts: string)
    requires IsLine(contacts)
    ensures IsLine(ContactsPrefix() + contacts)
  {
  }

  lemma RemoveLineIsPlain()
    ensures IsLine(RemoveLine())
  {
  }

  lemma AorLinesArePlain(e: Extension)
    requires IsPlain(e)
    ensures ArePlainLines(AorLines(e))
  {
    HeadingsArePlain(e.name);
    TypesArePlain();
    ContactsAreShown(e);
    ContactsLineIsPlain(IntText(ContactsOf(e)));
    RemoveLineIsPlain();
  }

  lemma DialPrefixIsPlain(number: string)
    requires IsLine(number)
    ensures IsLine(DialPrefix(number))
  {
  }

  lemma MonitorIsPlain()
    ensures IsLine(Monitor())
  {
  }

  lemma RecordingIsPlain()
    ensures IsLine(Recording())
  {
  }

  lemma FourPieces(a: string, b: string, c: string, d: string, e: string)
    requires IsLine(a) && IsLine(b) && IsLine(c) && IsLine(d) && IsLine(e)
    ensures IsLine(a + b + c + d + e)
  {
  }

  lemma MonitorLineIsPlain(number: string)
    requires IsLine(number)
    ensures IsLine(MonitorLine(number))
  {
    DialPrefixIsPlain(number);
    MonitorIsPlain();
    RecordingIsPlain();
    FourPieces(DialPrefix(number), Monitor(), Recording(), number, ".wav,b)");
  }

  lemma AccountCodeIsPlain(tenant: string)
    requires IsLine(tenant)
    ensures IsLine(AccountCode(tenant))
  {
  }

  lemma DialEndpointIsPlain(name: string)
    requires IsLine(name)
    ensures IsLine(DialEndpoint(name))
  {
  }

  lemma HangupIsPlain()
    ensures IsLine(Hangup())
  {
  }

  lemma DialLinesArePlain(e: Extension)
    requires IsPlain(e)
    ensures ArePlainLines(DialLines(e))
  {
    MonitorLineIsPlain(NumberText(e.number));
    AccountCodeIsPlain(TenantOf(e));
    DialEndpointIsPlain(e.name);
    HangupIsPlain();
  }

  lemma HintLineIsPlain(e: Extension)
    requires IsPlain(e)
    ensures HintLine(e) != "" && IsLine(HintLine(e))
  {
  }

  lemma VoicemailLineIsPlain(e: Extension)
    requires IsPlain(e)
    ensures VoicemailLine(e) != "" && IsLine(VoicemailLine(e))
  {
  }

  ghost predicate IsComment(line: string)
  {
    line != "" && line[0] == ';' && IsLine(line)
  }

  lemma BannerIsPlain()
    ensures IsComment(Banner())
  {
  }

  lemma WarningIsPlain()
    ensures IsComment(Warning())
  {
  }

  lemma WarningEndIsPlain()
    ensures IsComment(WarningEnd())
  {
  }

  lemma HeaderLinesArePlain()
    ensures |HeaderLines()| == 3 && forall k :: 0 <= k < 3 ==> IsComment(HeaderLines()[k])
  {
    BannerIsPlain();
    WarningIsPlain();
    WarningEndIsPlain();
  }
}
