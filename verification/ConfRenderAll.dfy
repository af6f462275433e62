/** render_all: validate, render, inspect. The thirty checks over its own output never fail, except the
    limit on the size of a file. */
module ConfRenderAll {
  import opened Prelude
  import opened Splitting
  import opened ConfText
  import opened ConfRender
  import opened ConfLines
  import opened ConfInspect
  import opened ConfReading
  import opened ConfGate
  import opened ConfGateTenant
  import opened ConfGenerator

  // ----- every rendered text is proper -----

  lemma TailIsClean(ps: seq<string>)
    requires forall k :: 0 <= k < |ps| ==> IsClean(ps[k])
    ensures IsClean(Tail(ps))
  {
    NewlineIsClean();
    JoinIsClean(ps, BLANK);
  }

  lemma StanzasAreClean(e: Extension)
    requires IsPlain(e)
    ensures IsClean(PjsipBlock(e))
  {
    EndpointLinesArePlain(e);
    AuthLinesArePlain(e);
    AorLinesArePlain(e);
    ParagraphIsClean(EndpointLines(e));
    ParagraphIsClean(AuthLines(e));
    ParagraphIsClean(AorLines(e));
    TailIsClean(StanzaTexts(e));
    BlockIsTail(e);
  }

  lemma DialBlockIsClean(e: Extension)
    requires IsPlain(e)
    ensures IsClean(DialBlock(e))
  {
    DialLinesArePlain(e);
    ParagraphIsClean(DialLines(e));
    TailIsClean([DialParagraph(e)]);
  }

  lemma PjsipIsProper(rows: seq<Extension>)
    requires forall k :: 0 <= k < |rows| ==> IsPlain(rows[k])
    ensures IsProper(PjsipText(rows), Banner())
  {
    forall k | 0 <= k < |rows| ensures IsClean(Each(rows, PjsipBlock)[k]) { StanzasAreClean(rows[k]); }
    NewlineIsClean();
    ReportIsProper(Each(rows, PjsipBlock), "");
    assert Report(Each(rows, PjsipBlock)) + "" == PjsipText(rows);
  }

  lemma DialIsProper(rows: seq<Extension>)
    requires forall k :: 0 <= k < |rows| ==> IsPlain(rows[k])
    ensures IsProper(DialText(rows), Banner())
  {
    forall k | 0 <= k < |rows| ensures IsClean(Each(rows, DialBlock)[k]) { DialBlockIsClean(rows[k]); }
    NewlineIsClean();
    ReportIsProper(Each(rows, DialBlock), "");
    assert Report(Each(rows, DialBlock)) + "" == DialText(rows);
  }

  lemma HintsAreProper(rows: seq<Extension>)
    requires forall k :: 0 <= k < |rows| ==> IsPlain(rows[k])
    ensures IsProper(HintsText(rows), Banner())
  {
    forall k | 0 <= k < |rows| ensures IsClean(Each(rows, HintLine)[k]) {
      HintLineIsPlain(rows[k]);
      LineIsClean(HintLine(rows[k]));
    }
    NewlineIsClean();
    ReportIsProper(Each(rows, HintLine), if rows == [] then "" else "\n");
  }

  lemma VoicemailIsProper(rows: seq<Extension>)
    requires forall k :: 0 <= k < |rows| ==> IsPlain(rows[k])
    ensures IsProper(VoicemailText(rows), Banner())
  {
    forall k | 0 <= k < |rows| ensures IsClean(Each(rows, VoicemailLine)[k]) {
      VoicemailLineIsPlain(rows[k]);
      LineIsClean(VoicemailLine(rows[k]));
    }
    NewlineIsClean();
    ReportIsProper(Each(rows, VoicemailLine), if rows == [] then "" else "\n");
  }

  lemma TrioIsProper(rows: seq<Extension>, tenant: string)
    requires ArePlainRows(OfTenant(rows, tenant))
    ensures ProperTrio(TrioOf(rows, tenant), Banner())
  {
    var mine := OfTenant(rows, tenant);
    DialIsProper(mine);
    HintsAreProper(mine);
    VoicemailIsProper(mine);
  }

  ghost predicate ProperTrio(t: Trio, banner: string)
  {
    IsProper(t.dialText, banner) && IsProper(t.hintsText, banner) && IsProper(t.mailText, banner)
  }

  ghost predicate AreProper(files: Files, banner: string)
  {
    forall name :: name in files ==> IsProper(files[name], banner)
  }

  lemma PutIsProper(files: Files, t: Trio, banner: string)
    requires AreProper(files, banner) && ProperTrio(t, banner)
    ensures AreProper(Put(files, t), banner)
  {
  }

  lemma {:induction false} PutAllIsProper(files: Files, trios: seq<Trio>, banner: string)
    requires AreProper(files, banner) && forall k :: 0 <= k < |trios| ==> ProperTrio(trios[k], banner)
    ensures AreProper(PutAll(files, trios), banner)
  {
    if trios != [] {
      var last := |trios| - 1;
      PutAllIsProper(files, trios[..last], banner);
      PutIsProper(PutAll(files, trios[..last]), trios[last], banner);
    }
  }

  lemma AllFromOne(name: string, text: string, trios: seq<Trio>, banner: string)
    requires IsProper(text, banner) && forall k :: 0 <= k < |trios| ==> ProperTrio(trios[k], banner)
    ensures AreProper(PutAll(map[name := text], trios), banner)
  {
    PutAllIsProper(map[name := text], trios, banner);
  }

  lemma EveryTrioIsProper(printable: char -> bool, rows: seq<Extension>, tenants: seq<string>, k: nat)
    requires ExcludesControls(printable) && AreTenants(tenants) && AreAccepted(printable, rows, tenants)
    requires k < |tenants|
    ensures ProperTrio(Triples(rows, tenants)[k], Banner())
  {
    OfTenantIsPlain(printable, rows, tenants, tenants[k]);
    TrioIsProper(rows, tenants[k]);
  }

  lemma EveryFileIsProper(printable: char -> bool, rows: seq<Extension>, tenants: seq<string>)
    requires ExcludesControls(printable) && AreTenants(tenants) && AreAccepted(printable, rows, tenants)
    ensures AreProper(Rendering(rows, tenants), Banner())
  {
    AcceptedArePlain(printable, rows, tenants);
    PjsipIsProper(rows);
    forall k | 0 <= k < |tenants| ensures ProperTrio(Triples(rows, tenants)[k], Banner()) {
      EveryTrioIsProper(printable, rows, tenants, k);
    }
    AllFromOne(PjsipName(), PjsipText(rows), Triples(rows, tenants), Banner());
  }

  lemma ProperFilesPass(files: Files, banner: string)
    requires AreProper(files, banner)
    ensures NoControls(files) && HaveBanner(files, banner)
  {
  }

  /** DE-04 to DE-09, of which DE-08 is the size. */
  lemma FilesPass(tenants: seq<string>, files: Files)
    requires ExactCount(tenants, files) && ExactNames(tenants, files) && AreProper(files, Banner())
    ensures var flags := FileChecks(tenants, files);
            flags[0] && flags[1] && flags[2] && flags[3] && flags[5] && (flags[4] <==> IsSmall(files))
  {
    ProperFilesPass(files, Banner());
  }

  lemma SizeOfRendering(rows: seq<Extension>, tenants: seq<string>)
    requires Distinct(tenants)
    ensures |Rendering(rows, tenants)| == 1 + 3 * |tenants|
  {
    RenderingNames(rows, tenants);
    CountOfNames(tenants);
    KeysCount(Rendering(rows, tenants));
  }

  lemma KeysCount(files: Files)
    ensures |files| == |files.Keys|
  {
  }

  /** The generator satisfies its own gate: of the thirty checks over what it renders for any accepted list
      of extensions, all hold but DE-08, which holds exactly when no file is too large. */
  lemma GeneratorPassesItsGate(printable: char -> bool, rows: seq<Extension>, tenants: seq<string>)
    requires ExcludesControls(printable) && AreTenants(tenants) && AreAccepted(printable, rows, tenants)
    ensures var files := Rendering(rows, tenants);
            var flags := Inspect(rows, tenants, files);
            && (forall i :: 0 <= i < 30 && i != 7 ==> flags[i])
            && (flags[7] <==> IsSmall(files))
  {
    var files := Rendering(rows, tenants);
    RecordsPass(printable, rows, tenants);
    SizeOfRendering(rows, tenants);
    RenderingNames(rows, tenants);
    EveryFileIsProper(printable, rows, tenants);
    FilesPass(tenants, files);
    AcceptedArePlain(printable, rows, tenants);
    PjsipIsRendered(rows, tenants);
    EndpointsPass(rows);
    AccountsPass(rows);
    DialsPass(printable, rows, tenants);
    EntriesPass(printable, rows, tenants);
    ThirtyFlags(rows, tenants, files, PjsipText(rows));
  }

  lemma ThirtyFlags(rows: seq<Extension>, tenants: seq<string>, files: Files, pjsip: string)
    requires ValidTenants(tenants) && GetText(files, PjsipName()) == pjsip
    requires AllHold(RecordChecks(rows, tenants)) && AllHold(EndpointChecks(rows, pjsip))
    requires AllHold(AccountChecks(rows, pjsip))
    requires AllHold(DialChecks(rows, tenants, files)) && AllHold(EntryChecks(rows, tenants, files))
    requires var f := FileChecks(tenants, files); f[0] && f[1] && f[2] && f[3] && f[5]
    ensures forall i :: 0 <= i < 30 && i != 7 ==> Inspect(rows, tenants, files)[i]
    ensures Inspect(rows, tenants, files)[7] == FileChecks(tenants, files)[4]
  {
    SixGroups(RecordChecks(rows, tenants), FileChecks(tenants, files), EndpointChecks(rows, pjsip),
              AccountChecks(rows, pjsip),
              DialChecks(rows, tenants, files), EntryChecks(rows, tenants, files));
  }

  lemma SixGroups(a: seq<bool>, b: seq<bool>, c: seq<bool>, d: seq<bool>, e: seq<bool>, f: seq<bool>)
    requires |a| == 3 && |b| == 6 && AllHold(a) && AllHold(c) && AllHold(d) && AllHold(e) && AllHold(f)
    requires b[0] && b[1] && b[2] && b[3] && b[5]
    ensures forall i :: 0 <= i < |a + b + c + d + e + f| && i != 7 ==> (a + b + c + d + e + f)[i]
    ensures (a + b + c + d + e + f)[7] == b[4]
  {
  }

  // ----- render_all -----

  predicate Provisioned(tenants: set<string>)
  {
    tenants != {} && forall t :: t in tenants ==> IsTenantId(t)
  }

  /** One way to list a set of tenants. */
  ghost predicate Lists(order: seq<string>, tenants: set<string>)
  {
    Distinct(order) && forall t :: t in order <==> t in tenants
  }

  method ListTenants(tenants: set<string>) returns (order: seq<string>)
    ensures Lists(order, tenants)
  {
    order := [];
    var rest := tenants;
    while rest != {}
      invariant rest <= tenants && Distinct(order)
      invariant forall t :: t in order <==> t in tenants && t !in rest
      decreases |rest|
    {
      var t :| t in rest;
      order, rest := order + [t], rest - {t};
    }
  }

  lemma ListedAreTenants(order: seq<string>, tenants: set<string>)
    requires Lists(order, tenants) && Provisioned(tenants)
    ensures AreTenants(order) && (set t | t in order) == tenants
  {
    var some :| some in tenants;
    assert some in order;
  }

  lemma ReadyAreAccepted(printable: char -> bool, es: seq<Extension>, order: seq<string>)
    requires AreAcceptable(printable, es, set t | t in order)
    ensures AreAccepted(printable, Normalized(es), order)
  {
    forall k | 0 <= k < |es| ensures IsAcceptable(printable, Ready(es[k]), set t | t in order) {
      assert IsAcceptable(printable, es[k], set t | t in order);
    }
  }

  /** by_tenant: the records of each tenant, in their order. */
  method GroupByTenant(rows: seq<Extension>, order: seq<string>) returns (groups: map<string, seq<Extension>>)
    requires forall k :: 0 <= k < |rows| ==> rows[k].tenant.Some? && rows[k].tenant.value in order
    ensures forall t :: t in order ==> t in groups && groups[t] == OfTenant(rows, t)
  {
    groups := map t | t in order :: [];
    for i := 0 to |rows|
      invariant forall t :: t in order ==> t in groups && groups[t] == OfTenant(rows[..i], t)
    {
      assert rows[..i + 1][..i] == rows[..i];
      var tenant := rows[i].tenant.value;
      groups := groups[tenant := groups[tenant] + [rows[i]]];
    }
    assert rows[..|rows|] == rows;
  }

  /** The three files of one tenant. */
  method RenderTenant(mine: seq<Extension>, tenant: string) returns (trio: Option<Trio>)
    ensures trio.Some? <==> forall k :: 0 <= k < |mine| ==> HasPin(mine[k])
    ensures trio.Some? ==> trio.value == TrioFor(mine, tenant)
  {
    var dial := RenderDial(mine);
    var hints := RenderHints(mine);
    var mail := RenderVoicemail(mine);
    return if mail.None? then None
           else Some(Trio(DialName(tenant), dial, HintsName(tenant), hints, VoicemailName(tenant), mail.value));
  }

  lemma TenantPinsAreThere(printable: char -> bool, rows: seq<Extension>, order: seq<string>, tenant: string)
    requires AreAccepted(printable, rows, order)
    ensures forall k :: 0 <= k < |OfTenant(rows, tenant)| ==> HasPin(OfTenant(rows, tenant)[k])
  {
    forall k | 0 <= k < |OfTenant(rows, tenant)| ensures HasPin(OfTenant(rows, tenant)[k]) {
      OfTenantComesFrom(rows, tenant, k);
    }
  }

  ghost predicate GroupsHavePins(groups: map<string, seq<Extension>>, order: seq<string>)
  {
    forall i :: 0 <= i < |order| ==>
      order[i] in groups && forall k :: 0 <= k < |groups[order[i]]| ==> HasPin(groups[order[i]][k])
  }

  /** The loop over the tenants. */
  method RenderGroups(groups: map<string, seq<Extension>>, order: seq<string>) returns (trios: seq<Trio>)
    requires GroupsHavePins(groups, order)
    ensures |trios| == |order| && forall k :: 0 <= k < |order| ==> trios[k] == TrioFor(groups[order[k]], order[k])
  {
    trios := [];
    for i := 0 to |order|
      invariant |trios| == i && forall k :: 0 <= k < i ==> trios[k] == TrioFor(groups[order[k]], order[k])
    {
      var trio := RenderTenant(groups[order[i]], order[i]);
      trios := trios + [trio.value];
    }
  }

  lemma GroupsHaveTheirPins(printable: char -> bool, rows: seq<Extension>, order: seq<string>,
                            groups: map<string, seq<Extension>>)
    requires AreAccepted(printable, rows, order)
    requires forall t :: t in order ==> t in groups && groups[t] == OfTenant(rows, t)
    ensures GroupsHavePins(groups, order)
  {
    forall i | 0 <= i < |order|
      ensures order[i] in groups && forall k :: 0 <= k < |groups[order[i]]| ==> HasPin(groups[order[i]][k])
    {
      TenantPinsAreThere(printable, rows, order, order[i]);
    }
  }

  lemma GroupsAreTriples(rows: seq<Extension>, order: seq<string>, groups: map<string, seq<Extension>>,
                         trios: seq<Trio>)
    requires forall t :: t in order ==> t in groups && groups[t] == OfTenant(rows, t)
    requires |trios| == |order| && forall k :: 0 <= k < |order| ==> trios[k] == TrioFor(groups[order[k]], order[k])
    ensures trios == Triples(rows, order)
  {
    forall k | 0 <= k < |order| ensures trios[k] == Triples(rows, order)[k] {
      assert order[k] in order;
    }
  }

  method RenderTenants(printable: char -> bool, rows: seq<Extension>, order: seq<string>) returns (trios: seq<Trio>)
    requires AreAccepted(printable, rows, order)
    ensures trios == Triples(rows, order)
  {
    TenantsAreListed(printable, rows, order);
    var groups := GroupByTenant(rows, order);
    GroupsHaveTheirPins(printable, rows, order, groups);
    trios := RenderGroups(groups, order);
    GroupsAreTriples(rows, order, groups, trios);
  }

  lemma TenantsAreListed(printable: char -> bool, rows: seq<Extension>, order: seq<string>)
    requires AreAccepted(printable, rows, order)
    ensures forall k :: 0 <= k < |rows| ==>
              rows[k].tenant.Some? && rows[k].tenant.value in order && HasContacts(rows[k])
  {
  }

  method RenderFiles(printable: char -> bool, rows: seq<Extension>, order: seq<string>) returns (files: Files)
    requires AreAccepted(printable, rows, order)
    ensures files == Rendering(rows, order)
  {
    TenantsAreListed(printable, rows, order);
    var pjsip := RenderPjsip(rows);
    var trios := RenderTenants(printable, rows, order);
    files := PutAll(map[PjsipName() := pjsip.value], trios);
  }

  /** render_all. None is its ValueError: a tenant that is no tenant, a record that is not acceptable, or a
      file beyond the limit, and nothing else. `order` is the order in which the tenants were rendered. */
  method RenderAll(printable: char -> bool, es: seq<Extension>, tenants: set<string>)
    returns (files: Option<Files>, order: seq<string>)
    requires ExcludesControls(printable)
    ensures Lists(order, tenants)
    ensures (files.Some? <==>
             Provisioned(tenants) && AreAcceptable(printable, es, tenants) && IsSmall(Rendering(Normalized(es), order)))
    ensures files.Some? ==> files.value == Rendering(Normalized(es), order)
  {
    order := ListTenants(tenants);
    if !Provisioned(tenants) {
      return None, order;
    }
    var ok := ValidatePersisted(printable, es, tenants);
    if !ok {
      return None, order;
    }
    ListedAreTenants(order, tenants);
    ReadyAreAccepted(printable, es, order);
    var rows := Normalized(es);
    var rendered := RenderFiles(printable, rows, order);
    GeneratorPassesItsGate(printable, rows, order);
    var flags := Inspect(rows, order, rendered);
    if forall i :: 0 <= i < 30 ==> flags[i] {
      return Some(rendered), order;
    }
    return None, order;
  }
}
