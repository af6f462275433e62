/** render_all and its promise: what the generator accepts and renders, its own inspector accepts, unless
    a file is too large. */
module ConfGenerator {
  import opened Prelude
  import opened Splitting
  import opened Text
  import opened ConfText
  import opened ConfRender
  import opened ConfLines
  import opened ConfInspect
  import opened ConfReading
  import opened ConfGate
  import opened ConfGateTenant
  import Hosting
  import TenantFiles

  /** A record with its tenant written out. */
  function Ready(e: Extension): Extension { e.(tenant := Some(TenantOf(e))) }

  function Normalized(es: seq<Extension>): (rows: seq<Extension>)
    ensures |rows| == |es| && forall k :: 0 <= k < |es| ==> rows[k] == Ready(es[k])
  {
    seq(|es|, k requires 0 <= k < |es| => Ready(es[k]))
  }

  /** Three files: names and texts. */
  datatype Trio = Trio(dial: string, dialText: string, hints: string, hintsText: string, mail: string, mailText: string)

  function TrioFor(mine: seq<Extension>, tenant: string): Trio
  {
    Trio(DialName(tenant), DialText(mine), HintsName(tenant), HintsText(mine), VoicemailName(tenant),
         VoicemailText(mine))
  }

  function TrioOf(rows: seq<Extension>, tenant: string): Trio { TrioFor(OfTenant(rows, tenant), tenant) }

  function Triples(rows: seq<Extension>, tenants: seq<string>): (trios: seq<Trio>)
    ensures |trios| == |tenants| && forall k :: 0 <= k < |tenants| ==> trios[k] == TrioOf(rows, tenants[k])
  {
    seq(|tenants|, k requires 0 <= k < |tenants| => TrioOf(rows, tenants[k]))
  }

  function Put(files: Files, t: Trio): Files
  {
    files[t.dial := t.dialText][t.hints := t.hintsText][t.mail := t.mailText]
  }

  function PutAll(files: Files, trios: seq<Trio>): Files
  {
    if trios == [] then files else Put(PutAll(files, trios[..|trios| - 1]), trios[|trios| - 1])
  }

  /** The files of a list of tenants. */
  function Rendering(rows: seq<Extension>, tenants: seq<string>): Files
  {
    PutAll(map[PjsipName() := PjsipText(rows)], Triples(rows, tenants))
  }

  /** Provisioned tenants, in the order in which they are rendered. */
  ghost predicate AreTenants(tenants: seq<string>)
  {
    ValidTenants(tenants) && Distinct(tenants)
  }

  // ----- the names of the files -----

  lemma NameOwner(tenant: string)
    ensures TenantFiles.OwnerOf(Hosting.Conf("generated", DialName(tenant))) == Some(tenant)
    ensures TenantFiles.OwnerOf(Hosting.Conf("generated", HintsName(tenant))) == Some(tenant)
    ensures TenantFiles.OwnerOf(Hosting.Conf("generated", VoicemailName(tenant))) == Some(tenant)
  {
    TenantFiles.OwnerOfGenerated("extensions_dynamic_dial-", tenant);
    TenantFiles.OwnerOfGenerated("extensions_dynamic_hints-", tenant);
    TenantFiles.OwnerOfGenerated("voicemail_dynamic_", tenant);
  }

  lemma PjsipHasNoOwner()
    ensures TenantFiles.OwnerOf(Hosting.Conf("generated", PjsipName())) == None
  {
    TenantFiles.PathsNameTheirTenant("t1");
    assert PjsipName()[0] == 'p';
  }

  lemma NamesDiffer(tenant: string)
    ensures DialName(tenant) != HintsName(tenant) && DialName(tenant) != VoicemailName(tenant)
    ensures HintsName(tenant) != VoicemailName(tenant)
  {
    TenantFiles.PathsAreDistinct(tenant);
    var paths := TenantFiles.TenantConfigPaths(tenant);
    assert paths[5].name == DialName(tenant) && paths[6].name == HintsName(tenant)
           && paths[7].name == VoicemailName(tenant);
    assert paths[5] != paths[6] && paths[5] != paths[7] && paths[6] != paths[7];
  }

  /** Every expected name is the common file or one of a listed tenant. */
  lemma {:induction false} ExpectedAreOwned(tenants: seq<string>, name: string)
    requires name in ExpectedNames(tenants)
    ensures name == PjsipName()
            || exists k :: 0 <= k < |tenants|
                           && name in {DialName(tenants[k]), HintsName(tenants[k]), VoicemailName(tenants[k])}
  {
    if tenants != [] {
      var last := |tenants| - 1;
      if name in ExpectedNames(tenants[..last]) {
        ExpectedAreOwned(tenants[..last], name);
        if name != PjsipName() {
          var k :| 0 <= k < last && name in {DialName(tenants[k]), HintsName(tenants[k]), VoicemailName(tenants[k])};
        }
      } else {
        assert name in {DialName(tenants[last]), HintsName(tenants[last]), VoicemailName(tenants[last])};
      }
    }
  }

  lemma NewTenantNewNames(tenants: seq<string>, tenant: string)
    requires tenant !in tenants
    ensures DialName(tenant) !in ExpectedNames(tenants) && HintsName(tenant) !in ExpectedNames(tenants)
    ensures VoicemailName(tenant) !in ExpectedNames(tenants)
  {
    NameOwner(tenant);
    PjsipHasNoOwner();
    forall name | name in ExpectedNames(tenants)
      ensures TenantFiles.OwnerOf(Hosting.Conf("generated", name)) != Some(tenant)
    {
      ExpectedAreOwned(tenants, name);
      if name != PjsipName() {
        var k :| 0 <= k < |tenants| && name in {DialName(tenants[k]), HintsName(tenants[k]), VoicemailName(tenants[k])};
        NameOwner(tenants[k]);
      }
    }
  }

  lemma {:induction false} CountOfNames(tenants: seq<string>)
    requires Distinct(tenants)
    ensures |ExpectedNames(tenants)| == 1 + 3 * |tenants|
  {
    if tenants != [] {
      var last := |tenants| - 1;
      var names, tenant := ExpectedNames(tenants[..last]), tenants[last];
      CountOfNames(tenants[..last]);
      assert tenant !in tenants[..last];
      NewTenantNewNames(tenants[..last], tenant);
      NamesDiffer(tenant);
      ThreeMore(names, DialName(tenant), HintsName(tenant), VoicemailName(tenant));
    }
  }

  lemma ThreeMore(names: set<string>, a: string, b: string, c: string)
    requires a !in names && b !in names && c !in names && a != b && a != c && b != c
    ensures |names + {a, b, c}| == |names| + 3
  {
    assert names + {a, b, c} == names + {a} + {b} + {c};
  }

  function NamesIn(t: Trio): set<string> { {t.dial, t.hints, t.mail} }

  lemma {:induction false} PutAllNames(files: Files, trios: seq<Trio>, name: string)
    ensures name in PutAll(files, trios) <==> name in files || exists k :: 0 <= k < |trios| && name in NamesIn(trios[k])
  {
    if trios != [] {
      PutAllNames(files, trios[..|trios| - 1], name);
      assert trios == trios[..|trios| - 1] + [trios[|trios| - 1]];
    }
  }

  lemma {:induction false} TenantsAreExpected(tenants: seq<string>, k: nat)
    requires k < |tenants|
    ensures NamesOf(tenants[k]) <= ExpectedNames(tenants) && PjsipName() in ExpectedNames(tenants)
  {
    if k < |tenants| - 1 {
      TenantsAreExpected(tenants[..|tenants| - 1], k);
    } else {
      PjsipIsExpected(tenants);
    }
  }

  lemma {:induction false} PjsipIsExpected(tenants: seq<string>)
    ensures PjsipName() in ExpectedNames(tenants)
  {
    if tenants != [] {
      PjsipIsExpected(tenants[..|tenants| - 1]);
    }
  }

  function NamesOf(tenant: string): set<string> { {DialName(tenant), HintsName(tenant), VoicemailName(tenant)} }

  lemma RenderingNames(rows: seq<Extension>, tenants: seq<string>)
    ensures Rendering(rows, tenants).Keys == ExpectedNames(tenants)
  {
    forall name ensures name in Rendering(rows, tenants) <==> name in ExpectedNames(tenants) {
      NameIsRendered(rows, tenants, name);
    }
  }

  lemma NameIsRendered(rows: seq<Extension>, tenants: seq<string>, name: string)
    ensures name in Rendering(rows, tenants) <==> name in ExpectedNames(tenants)
  {
    var trios := Triples(rows, tenants);
    PutAllNames(map[PjsipName() := PjsipText(rows)], trios, name);
    PjsipIsExpected(tenants);
    forall k | 0 <= k < |tenants| && name in NamesIn(trios[k]) ensures name in ExpectedNames(tenants) {
      TenantsAreExpected(tenants, k);
    }
    if name in ExpectedNames(tenants) {
      ExpectedAreOwned(tenants, name);
      if name != PjsipName() {
        var k :| 0 <= k < |tenants| && name in {DialName(tenants[k]), HintsName(tenants[k]), VoicemailName(tenants[k])};
        assert name in NamesIn(trios[k]);
      }
    }
  }

  /** Trios put later leave other names alone. */
  lemma {:induction false} LaterTriosKeep(files: Files, trios: seq<Trio>, i: nat, name: string)
    requires i <= |trios| && forall k :: i <= k < |trios| ==> name !in NamesIn(trios[k])
    ensures GetText(PutAll(files, trios), name) == GetText(PutAll(files, trios[..i]), name)
  {
    if i < |trios| {
      LaterTriosKeep(files, trios[..|trios| - 1], i, name);
      assert trios[..|trios| - 1][..i] == trios[..i];
    } else {
      assert trios[..i] == trios;
    }
  }

  /** Names that occur in one trio only lead to its texts. */
  lemma TrioAt(files: Files, trios: seq<Trio>, i: nat)
    requires i < |trios| && var t := trios[i]; t.dial != t.hints && t.dial != t.mail && t.hints != t.mail
    requires forall k :: i < k < |trios| ==> NamesIn(trios[k]) !! NamesIn(trios[i])
    ensures var t, all := trios[i], PutAll(files, trios);
            GetText(all, t.dial) == t.dialText && GetText(all, t.hints) == t.hintsText
              && GetText(all, t.mail) == t.mailText
  {
    var t := trios[i];
    assert trios[..i + 1][..i] == trios[..i] && trios[..i + 1][i] == t;
    assert PutAll(files, trios[..i + 1]) == Put(PutAll(files, trios[..i]), t);
    LaterTriosKeep(files, trios, i + 1, t.dial);
    LaterTriosKeep(files, trios, i + 1, t.hints);
    LaterTriosKeep(files, trios, i + 1, t.mail);
  }

  /** Two tenants share no file name. */
  lemma TenantsShareNoName(rows: seq<Extension>, a: string, b: string)
    requires a != b
    ensures NamesIn(TrioOf(rows, a)) !! NamesIn(TrioOf(rows, b))
  {
    NameOwner(a);
    NameOwner(b);
  }

  /** The three files of one tenant. */
  ghost predicate HasTenant(files: Files, rows: seq<Extension>, tenant: string)
  {
    && GetText(files, DialName(tenant)) == DialText(OfTenant(rows, tenant))
    && GetText(files, HintsName(tenant)) == HintsText(OfTenant(rows, tenant))
    && GetText(files, VoicemailName(tenant)) == VoicemailText(OfTenant(rows, tenant))
  }

  /** Each file has the text rendered for its tenant. */
  lemma RenderingAt(rows: seq<Extension>, tenants: seq<string>, i: nat)
    requires Distinct(tenants) && i < |tenants|
    ensures HasTenant(Rendering(rows, tenants), rows, tenants[i])
  {
    var trios := Triples(rows, tenants);
    NamesDiffer(tenants[i]);
    forall k | i < k < |trios| ensures NamesIn(trios[k]) !! NamesIn(trios[i]) {
      TenantsShareNoName(rows, tenants[k], tenants[i]);
    }
    TrioAt(map[PjsipName() := PjsipText(rows)], trios, i);
  }

  lemma PjsipIsNobodys(rows: seq<Extension>, tenant: string)
    ensures PjsipName() !in NamesIn(TrioOf(rows, tenant))
  {
    NameOwner(tenant);
    PjsipHasNoOwner();
  }

  lemma PjsipIsRendered(rows: seq<Extension>, tenants: seq<string>)
    ensures GetText(Rendering(rows, tenants), PjsipName()) == PjsipText(rows)
  {
    var first, trios := map[PjsipName() := PjsipText(rows)], Triples(rows, tenants);
    forall k | 0 <= k < |trios| ensures PjsipName() !in NamesIn(trios[k]) {
      PjsipIsNobodys(rows, tenants[k]);
    }
    LaterTriosKeep(first, trios, 0, PjsipName());
    assert PutAll(first, trios[..0]) == first;
  }

  // ----- the records of a tenant -----

  lemma {:induction false} OfTenantComesFrom(rows: seq<Extension>, tenant: string, i: nat)
    requires i < |OfTenant(rows, tenant)|
    ensures exists k :: 0 <= k < |rows| && rows[k] == OfTenant(rows, tenant)[i] && rows[k].tenant == Some(tenant)
  {
    var last := |rows| - 1;
    var front := OfTenant(rows[..last], tenant);
    if i < |front| {
      OfTenantComesFrom(rows[..last], tenant, i);
      var k :| 0 <= k < last && rows[..last][k] == front[i] && rows[k].tenant == Some(tenant);
      assert rows[k] == OfTenant(rows, tenant)[i];
    } else {
      assert rows[last] == OfTenant(rows, tenant)[i];
    }
  }

  lemma {:induction false} OfTenantHas(rows: seq<Extension>, tenant: string, k: nat) returns (i: nat)
    requires k < |rows| && rows[k].tenant == Some(tenant)
    ensures i < |OfTenant(rows, tenant)| && OfTenant(rows, tenant)[i] == rows[k]
  {
    var last := |rows| - 1;
    if k < last {
      i := OfTenantHas(rows[..last], tenant, k);
    } else {
      i := |OfTenant(rows[..last], tenant)|;
    }
  }

  /** Normalized records that were accepted. */
  ghost predicate AreAccepted(printable: char -> bool, rows: seq<Extension>, tenants: seq<string>)
  {
    && AreDistinct(rows)
    && forall k :: 0 <= k < |rows| ==> rows[k].tenant.Some? && IsAcceptable(printable, rows[k], set t | t in tenants)
  }

  lemma AcceptedArePlain(printable: char -> bool, rows: seq<Extension>, tenants: seq<string>)
    requires ExcludesControls(printable) && AreTenants(tenants) && AreAccepted(printable, rows, tenants)
    ensures AreReady(rows) && forall k :: 0 <= k < |rows| ==> TenantOf(rows[k]) in tenants && rows[k].pin.Some?
  {
    forall k | 0 <= k < |rows| ensures IsPlain(rows[k]) {
      AcceptableIsPlain(printable, rows[k], set t | t in tenants);
    }
  }

  /** Two records of a tenant show different numbers. */
  lemma ShownNumbersDiffer(printable: char -> bool, rows: seq<Extension>, tenants: seq<string>, j: nat, k: nat)
    requires AreAccepted(printable, rows, tenants) && j < k < |rows| && TenantOf(rows[j]) == TenantOf(rows[k])
    ensures ShownNumber(rows[j]) != ShownNumber(rows[k])
  {
    NumberIsShown(rows[j].number, TenantOf(rows[j]));
    NumberIsShown(rows[k].number, TenantOf(rows[k]));
  }

  lemma LastShowsAnother(printable: char -> bool, rows: seq<Extension>, tenants: seq<string>, i: nat)
    requires rows != [] && AreAccepted(printable, rows, tenants) && rows[|rows| - 1].tenant.Some?
    requires i < |OfTenant(rows[..|rows| - 1], rows[|rows| - 1].tenant.value)|
    ensures ShownNumber(OfTenant(rows[..|rows| - 1], rows[|rows| - 1].tenant.value)[i]) != ShownNumber(rows[|rows| - 1])
  {
    var last, tenant := |rows| - 1, rows[|rows| - 1].tenant.value;
    OfTenantComesFrom(rows[..last], tenant, i);
    var k :| 0 <= k < last && rows[..last][k] == OfTenant(rows[..last], tenant)[i] && rows[k].tenant == Some(tenant);
    ShownNumbersDiffer(printable, rows, tenants, k, last);
  }

  lemma {:induction false} OfTenantIsPlain(printable: char -> bool, rows: seq<Extension>, tenants: seq<string>,
                                           tenant: string)
    requires ExcludesControls(printable) && AreTenants(tenants) && AreAccepted(printable, rows, tenants)
    ensures ArePlainRows(OfTenant(rows, tenant))
  {
    if rows != [] {
      var last := |rows| - 1;
      var front := OfTenant(rows[..last], tenant);
      PrefixIsAccepted(printable, rows, tenants, last);
      OfTenantIsPlain(printable, rows[..last], tenants, tenant);
      if rows[last].tenant == Some(tenant) {
        AcceptedArePlain(printable, rows, tenants);
        forall i | 0 <= i < |front| ensures ShownNumber(front[i]) != ShownNumber(rows[last]) {
          LastShowsAnother(printable, rows, tenants, i);
        }
        OneMorePlain(front, rows[last]);
      }
    }
  }

  lemma PrefixIsAccepted(printable: char -> bool, rows: seq<Extension>, tenants: seq<string>, i: nat)
    requires i <= |rows| && AreAccepted(printable, rows, tenants)
    ensures AreAccepted(printable, rows[..i], tenants)
  {
    PrefixIsDistinct(rows, i);
  }

  lemma PrefixIsDistinct(rows: seq<Extension>, i: nat)
    requires i <= |rows| && AreDistinct(rows)
    ensures AreDistinct(rows[..i])
  {
  }

  lemma OneMorePlain(front: seq<Extension>, e: Extension)
    requires ArePlainRows(front) && IsPlain(e)
    requires forall i :: 0 <= i < |front| ==> ShownNumber(front[i]) != ShownNumber(e)
    ensures ArePlainRows(front + [e])
  {
  }

  // ----- the gate -----

  /** DE-01 to DE-03 */
  lemma RecordsPass(printable: char -> bool, rows: seq<Extension>, tenants: seq<string>)
    requires AreTenants(tenants) && AreAccepted(printable, rows, tenants)
    ensures AllHold(RecordChecks(rows, tenants))
  {
    forall j, k | 0 <= j < k < |rows|
      ensures rows[j].tenant != rows[k].tenant || ShownNumber(rows[j]) != ShownNumber(rows[k])
    {
      if rows[j].tenant == rows[k].tenant {
        ShownNumbersDiffer(printable, rows, tenants, j, k);
      }
    }
  }

  /** A record finds its chunk in the file of its tenant. */
  lemma ChunkOfRecord(printable: char -> bool, rows: seq<Extension>, tenants: seq<string>, k: nat)
    requires ExcludesControls(printable) && AreTenants(tenants) && AreAccepted(printable, rows, tenants) && k < |rows|
    ensures Chunk(Rendering(rows, tenants), rows[k]) == DialParagraph(rows[k])
  {
    var tenant := TenantOf(rows[k]);
    AcceptedArePlain(printable, rows, tenants);
    var t :| 0 <= t < |tenants| && tenants[t] == tenant;
    RenderingAt(rows, tenants, t);
    OfTenantIsPlain(printable, rows, tenants, tenant);
    ChunkInItsFile(rows, tenant, k, Rendering(rows, tenants));
  }

  lemma ChunkInItsFile(rows: seq<Extension>, tenant: string, k: nat, files: Files)
    requires k < |rows| && rows[k].tenant == Some(tenant) && HasTenant(files, rows, tenant)
    requires ArePlainRows(OfTenant(rows, tenant))
    ensures Chunk(files, rows[k]) == DialParagraph(rows[k])
  {
    var i := OfTenantHas(rows, tenant, k);
    ChunkIsFound(OfTenant(rows, tenant), i);
  }

  lemma ChunksPass(rows: seq<Extension>, files: Files)
    requires RecordsAreWhole(rows) && forall k :: 0 <= k < |rows| ==> Chunk(files, rows[k]) == DialParagraph(rows[k])
    ensures ChunksContain(rows, files, MonitorToken) && ChunksContain(rows, files, AccountToken)
    ensures ChunksContain(rows, files, DialToken)
    ensures ChunksHangUp(rows, files)
  {
    forall k | 0 <= k < |rows|
      ensures Contains(Chunk(files, rows[k]), MonitorToken(rows[k]))
      ensures Contains(Chunk(files, rows[k]), AccountToken(rows[k]))
      ensures Contains(Chunk(files, rows[k]), DialToken(rows[k]))
      ensures EndsWith(TrimEnd(Chunk(files, rows[k]), IsSpace), Hangup()[1..])
    {
      ChunkHasItsTokens(rows[k]);
      HangupEnds(DialParagraph(rows[k]));
    }
  }

  lemma AcceptedAreWhole(printable: char -> bool, rows: seq<Extension>, tenants: seq<string>)
    requires AreAccepted(printable, rows, tenants)
    ensures RecordsAreWhole(rows) && AllHavePins(rows)
  {
  }

  lemma DialsOfTenant(printable: char -> bool, rows: seq<Extension>, tenants: seq<string>, i: nat)
    requires ExcludesControls(printable) && AreTenants(tenants) && AreAccepted(printable, rows, tenants)
    requires i < |tenants|
    ensures DialedNumbers(GetText(Rendering(rows, tenants), DialName(tenants[i]))) ==
            Each(OfTenant(rows, tenants[i]), ShownNumber)
  {
    RenderingAt(rows, tenants, i);
    OfTenantIsPlain(printable, rows, tenants, tenants[i]);
    DialsAreThose(OfTenant(rows, tenants[i]));
  }

  lemma DialChecksHold(rows: seq<Extension>, tenants: seq<string>, files: Files)
    requires DialsAreExact(rows, tenants, files) && ChunksContain(rows, files, MonitorToken)
    requires ChunksContain(rows, files, AccountToken) && ChunksContain(rows, files, DialToken)
    requires ChunksHangUp(rows, files)
    ensures AllHold(DialChecks(rows, tenants, files))
  {
  }

  lemma DialsHold(rows: seq<Extension>, tenants: seq<string>, files: Files)
    requires RecordsAreWhole(rows)
    requires forall i :: 0 <= i < |tenants| ==>
               DialedNumbers(GetText(files, DialName(tenants[i]))) == Each(OfTenant(rows, tenants[i]), ShownNumber)
    ensures DialsAreExact(rows, tenants, files)
  {
  }

  /** DE-24 to DE-28 */
  lemma DialsPass(printable: char -> bool, rows: seq<Extension>, tenants: seq<string>)
    requires ExcludesControls(printable) && AreTenants(tenants) && AreAccepted(printable, rows, tenants)
    ensures AllHold(DialChecks(rows, tenants, Rendering(rows, tenants)))
  {
    var files := Rendering(rows, tenants);
    AcceptedAreWhole(printable, rows, tenants);
    forall i | 0 <= i < |tenants|
      ensures DialedNumbers(GetText(files, DialName(tenants[i]))) == Each(OfTenant(rows, tenants[i]), ShownNumber)
    {
      DialsOfTenant(printable, rows, tenants, i);
    }
    DialsHold(rows, tenants, files);
    forall k | 0 <= k < |rows| ensures Chunk(files, rows[k]) == DialParagraph(rows[k]) {
      ChunkOfRecord(printable, rows, tenants, k);
    }
    ChunksPass(rows, files);
    DialChecksHold(rows, tenants, files);
  }

  lemma HintsOfTenant(printable: char -> bool, rows: seq<Extension>, tenants: seq<string>, i: nat)
    requires ExcludesControls(printable) && AreTenants(tenants) && AreAccepted(printable, rows, tenants)
    requires i < |tenants|
    ensures KeepPrefixed(SplitLines(GetText(Rendering(rows, tenants), HintsName(tenants[i]))), "exten => ") ==
            Each(OfTenant(rows, tenants[i]), HintLine)
  {
    RenderingAt(rows, tenants, i);
    OfTenantIsPlain(printable, rows, tenants, tenants[i]);
    HintsAreThose(OfTenant(rows, tenants[i]));
  }

  lemma MailboxesOfTenant(printable: char -> bool, rows: seq<Extension>, tenants: seq<string>, i: nat)
    requires ExcludesControls(printable) && AreTenants(tenants) && AreAccepted(printable, rows, tenants)
    requires i < |tenants|
    ensures KeepMailboxes(SplitLines(GetText(Rendering(rows, tenants), VoicemailName(tenants[i])))) ==
            Each(OfTenant(rows, tenants[i]), VoicemailLine)
  {
    RenderingAt(rows, tenants, i);
    OfTenantIsPlain(printable, rows, tenants, tenants[i]);
    MailboxesAreThose(OfTenant(rows, tenants[i]));
  }

  lemma EntriesHold(rows: seq<Extension>, tenants: seq<string>, files: Files)
    requires RecordsAreWhole(rows) && AllHavePins(rows)
    requires forall i :: 0 <= i < |tenants| ==>
               KeepPrefixed(SplitLines(GetText(files, HintsName(tenants[i]))), "exten => ") ==
                 Each(OfTenant(rows, tenants[i]), HintLine)
    requires forall i :: 0 <= i < |tenants| ==>
               KeepMailboxes(SplitLines(GetText(files, VoicemailName(tenants[i])))) ==
                 Each(OfTenant(rows, tenants[i]), VoicemailLine)
    ensures AllHold(EntryChecks(rows, tenants, files))
  {
  }

  /** DE-29 and DE-30 */
  lemma EntriesPass(printable: char -> bool, rows: seq<Extension>, tenants: seq<string>)
    requires ExcludesControls(printable) && AreTenants(tenants) && AreAccepted(printable, rows, tenants)
    ensures AllHold(EntryChecks(rows, tenants, Rendering(rows, tenants)))
  {
    var files := Rendering(rows, tenants);
    AcceptedAreWhole(printable, rows, tenants);
    forall i | 0 <= i < |tenants|
      ensures KeepPrefixed(SplitLines(GetText(files, HintsName(tenants[i]))), "exten => ") ==
              Each(OfTenant(rows, tenants[i]), HintLine)
    {
      HintsOfTenant(printable, rows, tenants, i);
    }
    forall i | 0 <= i < |tenants|
      ensures KeepMailboxes(SplitLines(GetText(files, VoicemailName(tenants[i])))) ==
              Each(OfTenant(rows, tenants[i]), VoicemailLine)
    {
      MailboxesOfTenant(printable, rows, tenants, i);
    }
    EntriesHold(rows, tenants, files);
  }

  // ----- DE-04 to DE-09: the files as such -----

  ghost predicate IsClean(s: string)
  {
    '\r' !in s && '\0' !in s
  }

  lemma {:induction false} JoinIsClean(parts: seq<string>, sep: string)
    requires IsClean(sep) && forall k :: 0 <= k < |parts| ==> IsClean(parts[k])
    ensures IsClean(Join(parts, sep))
  {
    if |parts| > 1 {
      JoinIsClean(parts[1..], sep);
    }
  }

  lemma LineIsClean(line: string)
    requires IsLine(line)
    ensures IsClean(line)
  {
    assert IsLineBreak('\r');
  }

  lemma ParagraphIsClean(lines: seq<string>)
    requires forall k :: 0 <= k < |lines| ==> IsLine(lines[k])
    ensures IsClean(Join(lines, "\n"))
  {
    forall k | 0 <= k < |lines| ensures IsClean(lines[k]) { LineIsClean(lines[k]); }
    JoinIsClean(lines, "\n");
  }

  /** A file that starts with the banner and holds no control characters. */
  ghost predicate IsProper(text: string, banner: string)
  {
    IsClean(text) && StartsWith(text, banner)
  }

  lemma StartsWithMore(text: string, more: string, prefix: string)
    requires StartsWith(text, prefix)
    ensures StartsWith(text + more, prefix)
  {
    assert (text + more)[..|prefix|] == text[..|prefix|];
  }

  lemma HeaderIsProper()
    ensures IsProper(Header() + BLANK, Banner())
  {
    HeaderLinesArePlain();
    ParagraphIsClean(HeaderLines());
    assert Banner()[..|Banner()|] == Banner();
    JoinStartsWithItsFirstLine(HeaderLines(), Banner());
    StartsWithMore(Header(), BLANK, Banner());
  }

  lemma ReportIsProper(parts: seq<string>, more: string)
    requires IsClean(more) && forall k :: 0 <= k < |parts| ==> IsClean(parts[k])
    ensures IsProper(Report(parts) + more, Banner())
  {
    HeaderIsProper();
    BehindProperHeader(Header() + BLANK, parts, more, Banner());
  }

  lemma BehindProperHeader(header: string, parts: seq<string>, more: string, banner: string)
    requires IsProper(header, banner) && IsClean(more) && forall k :: 0 <= k < |parts| ==> IsClean(parts[k])
    ensures IsProper(Join([header] + parts, "\n") + more, banner)
  {
    HeaderThenParts(header, parts, banner);
    StartsWithMore(Join([header] + parts, "\n"), more, banner);
  }

  lemma HeaderThenParts(header: string, parts: seq<string>, banner: string)
    requires IsProper(header, banner) && forall k :: 0 <= k < |parts| ==> IsClean(parts[k])
    ensures IsProper(Join([header] + parts, "\n"), banner)
  {
    var lines := [header] + parts;
    JoinStartsWithItsFirstLine(lines, banner);
    forall k | 0 <= k < |lines| ensures IsClean(lines[k]) {
      assert k > 0 ==> lines[k] == parts[k - 1];
    }
    NewlineIsClean();
    JoinIsClean(lines, "\n");
  }

  lemma NewlineIsClean()
    ensures IsClean("\n") && IsClean(BLANK) && IsClean("")
  {
  }
}
