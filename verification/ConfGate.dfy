/** The generator satisfies its own gate: the checks of each group hold of what it writes. */
module ConfGate {
  import opened Prelude
  import opened Splitting
  import opened Text
  import opened ConfText
  import opened ConfRender
  import opened ConfLines
  import opened ConfInspect
  import opened ConfReading

  // ----- the lines of a stanza occur once -----

  lemma {:induction false} CountsNever(lines: seq<string>, line: string)
    requires forall k :: 0 <= k < |lines| ==> lines[k] != line
    ensures CountOf(lines, line) == 0
  {
    if lines != [] {
      CountsNever(lines[..|lines| - 1], line);
    }
  }

  lemma {:induction false} CountsOnce(lines: seq<string>, i: nat)
    requires i < |lines| && forall k :: 0 <= k < |lines| && k != i ==> lines[k] != lines[i]
    ensures HasOne(lines, lines[i])
  {
    var last := |lines| - 1;
    if i == last {
      CountsNever(lines[..last], lines[i]);
    } else {
      CountsOnce(lines[..last], i);
    }
  }

  lemma EndpointBeginnings(e: Extension)
    ensures var l := EndpointLines(e);
            && l[0][0] == '[' && |l[0]| >= 2 && l[1][0] == 'c' && l[1][1] == 'o' && l[2][0] == 's' && l[2][1] == 'u'
            && l[3][0] == 'a' && l[3][1] == 'u' && l[4][0] == 'a' && l[4][1] == 'o' && l[5][0] == 'c' && l[5][1] == 'a'
            && l[6][0] == 'm' && l[6][1] == 'a'
  {
  }

  lemma EndpointLinesOccurOnce(e: Extension)
    ensures forall i :: 0 <= i < 7 ==> HasOne(EndpointLines(e), EndpointLines(e)[i])
  {
    var lines := EndpointLines(e);
    EndpointBeginnings(e);
    forall i | 0 <= i < 7 ensures HasOne(lines, lines[i]) {
      CountsOnce(lines, i);
    }
  }

  lemma AuthLinesOccurOnce(e: Extension)
    ensures forall i :: 0 <= i < 5 ==> HasOne(AuthLines(e), AuthLines(e)[i])
  {
    var l := AuthLines(e);
    assert l[0][0] == '[' && l[1][0] == 't' && l[2][0] == 'a' && l[3][0] == 'u' && l[4][0] == 'p';
    forall i | 0 <= i < 5 ensures HasOne(l, l[i]) {
      CountsOnce(l, i);
    }
  }

  lemma AorLinesOccurOnce(e: Extension)
    ensures forall i :: 0 <= i < 4 ==> HasOne(AorLines(e), AorLines(e)[i])
    ensures KeepPrefixed(AorLines(e), ContactsPrefix()) == [AorLines(e)[2]]
  {
    var l := AorLines(e);
    assert l[0][0] == '[' && l[1][0] == 't' && l[2][0] == 'm' && l[3][0] == 'r' && ContactsPrefix()[0] == 'm';
    forall i | 0 <= i < 4 ensures HasOne(l, l[i]) {
      CountsOnce(l, i);
    }
    StartsOtherwise(l[0], ContactsPrefix());
    StartsOtherwise(l[1], ContactsPrefix());
    StartsOtherwise(l[3], ContactsPrefix());
    assert l[2][..|ContactsPrefix()|] == ContactsPrefix();
    KeepOnePrefixed(l, ContactsPrefix(), 2);
  }

  // ----- DE-10 to DE-23: pjsip_dynamic.conf -----

  /** Records the theorem speaks of: normalized, plain, and told apart by name. */
  ghost predicate AreReady(rows: seq<Extension>)
  {
    && (forall k :: 0 <= k < |rows| ==> rows[k].tenant.Some? && IsPlain(rows[k]))
    && (forall j, k :: 0 <= j < k < |rows| ==> rows[j].name != rows[k].name)
  }

  lemma {:induction false} HeadingsConcat(a: seq<seq<string>>, b: seq<seq<string>>)
    ensures EndpointHeadings(a + b) == EndpointHeadings(a) + EndpointHeadings(b)
  {
    if b == [] {
      assert a + b == a;
    } else {
      assert (a + b)[..|a + b| - 1] == a + b[..|b| - 1];
      HeadingsConcat(a, b[..|b| - 1]);
    }
  }

  lemma HeadingEndings(name: string)
    ensures EndsWith(EndpointHeading(name), "](endpoint-secure)") && !EndsWith(Heading(name), "](endpoint-secure)")
  {
    var x, y, suffix := EndpointHeading(name), Heading(name), "](endpoint-secure)";
    assert x[|x| - |suffix|..] == suffix;
    assert y[|y| - 1] == ']' && suffix[|suffix| - 1] == ')';
    if |suffix| <= |y| {
      assert y[|y| - |suffix|..][|suffix| - 1] == y[|y| - 1];
    }
  }

  lemma HeadingsOfThree(a: seq<string>, b: seq<string>, c: seq<string>)
    requires a != [] && b != [] && c != [] && EndsWith(a[0], "](endpoint-secure)")
    requires !EndsWith(b[0], "](endpoint-secure)") && !EndsWith(c[0], "](endpoint-secure)")
    ensures EndpointHeadings([a, b, c]) == [a[0]]
  {
    assert [a, b, c] == [a] + [b] + [c];
    HeadingsConcat([a] + [b], [c]);
    HeadingsConcat([a], [b]);
    HeadingsOfOne(a);
    HeadingsOfOne(b);
    HeadingsOfOne(c);
  }

  lemma HeadingsOfOne(a: seq<string>)
    requires a != []
    ensures EndpointHeadings([a]) == if EndsWith(a[0], "](endpoint-secure)") then [a[0]] else []
  {
    assert [a][..0] == [];
  }

  function OwnHeading(e: Extension): string { EndpointHeading(e.name) }

  lemma {:induction false} HeadingsInGroups(groups: seq<seq<seq<string>>>, headings: seq<string>)
    requires |groups| == |headings| && forall k :: 0 <= k < |groups| ==> EndpointHeadings(groups[k]) == [headings[k]]
    ensures EndpointHeadings(Flat(groups)) == headings
  {
    if groups != [] {
      var last := |groups| - 1;
      var front := Flat(groups[..last]);
      HeadingsInGroups(groups[..last], headings[..last]);
      HeadingsConcat(front, groups[last]);
      assert Flat(groups) == front + groups[last];
      assert headings == headings[..last] + [headings[last]];
    }
  }

  lemma HeadingsOfRecord(e: Extension)
    ensures EndpointHeadings(StanzaLines(e)) == [EndpointHeading(e.name)]
  {
    HeadingEndings(e.name);
    HeadingsOfThree(EndpointLines(e), AuthLines(e), AorLines(e));
  }

  lemma HeadingsOfRecords(rows: seq<Extension>)
    ensures EndpointHeadings(AllStanzaLines(rows)) == Each(rows, OwnHeading)
  {
    forall k | 0 <= k < |rows| ensures EndpointHeadings(StanzaLineGroups(rows)[k]) == [Each(rows, OwnHeading)[k]] {
      HeadingsOfRecord(rows[k]);
    }
    HeadingsInGroups(StanzaLineGroups(rows), Each(rows, OwnHeading));
    LineGroupsAreAllStanzas(rows);
  }

  lemma {:induction false} HeadingsSet(rows: seq<Extension>, heading: string)
    ensures heading in Headings(rows) <==> exists k :: 0 <= k < |rows| && EndpointHeading(rows[k].name) == heading
  {
    if rows != [] {
      HeadingsSet(rows[..|rows| - 1], heading);
      assert rows == rows[..|rows| - 1] + [rows[|rows| - 1]];
    }
  }

  lemma OwnHeadingsAreThose(rows: seq<Extension>)
    requires forall j, k :: 0 <= j < k < |rows| ==> rows[j].name != rows[k].name
    ensures SameMembers(Each(rows, OwnHeading), Headings(rows))
  {
    var list := Each(rows, OwnHeading);
    forall j, k | 0 <= j < k < |rows| ensures list[j] != list[k] {
      HeadingsDiffer(rows[j].name, rows[k].name);
    }
    forall k | 0 <= k < |rows| ensures list[k] in Headings(rows) {
      HeadingsSet(rows, list[k]);
    }
    forall m | m in Headings(rows) ensures m in list {
      HeadingIsListed(rows, m);
    }
  }

  lemma HeadingIsListed(rows: seq<Extension>, m: string)
    requires m in Headings(rows)
    ensures m in Each(rows, OwnHeading)
  {
    HeadingsSet(rows, m);
    var k :| 0 <= k < |rows| && EndpointHeading(rows[k].name) == m;
    assert Each(rows, OwnHeading)[k] == m;
  }

  /** The endpoint stanzas of the file are those of the records, each once. */
  lemma HeadingsAreThose(rows: seq<Extension>)
    requires AreReady(rows)
    ensures SameMembers(EndpointHeadings(Sections(PjsipText(rows))), Headings(rows))
  {
    SectionsOfPjsip(rows);
    HeadingsOfRecords(rows);
    OwnHeadingsAreThose(rows);
  }

  ghost predicate AllHold(flags: seq<bool>)
  {
    forall i :: 0 <= i < |flags| ==> flags[i]
  }

  lemma EndpointPasses(rows: seq<Extension>, k: nat, line: Extension -> string)
    requires AreReady(rows) && 1 <= k < 7 && forall e: Extension :: line(e) == EndpointLines(e)[k]
    ensures EndpointsHave(rows, PjsipText(rows), line)
  {
    forall i | 0 <= i < |rows| ensures HasOne(Endpoint(PjsipText(rows), rows[i]), line(rows[i])) {
      StanzasAreFound(rows, i);
      EndpointLinesOccurOnce(rows[i]);
    }
  }

  lemma AuthPasses(rows: seq<Extension>, k: nat, line: Extension -> string)
    requires AreReady(rows) && k < 5 && forall e: Extension :: line(e) == AuthLines(e)[k]
    ensures AuthsHave(rows, PjsipText(rows), line)
  {
    forall i | 0 <= i < |rows| ensures HasOne(Auth(PjsipText(rows), rows[i]), line(rows[i])) {
      StanzasAreFound(rows, i);
      AuthLinesOccurOnce(rows[i]);
    }
  }

  lemma AorPasses(rows: seq<Extension>, k: nat, line: Extension -> string)
    requires AreReady(rows) && k < 4 && forall e: Extension :: line(e) == AorLines(e)[k]
    ensures AorsHave(rows, PjsipText(rows), line)
  {
    forall i | 0 <= i < |rows| ensures HasOne(Aor(PjsipText(rows), rows[i]), line(rows[i])) {
      StanzasAreFound(rows, i);
      AorLinesOccurOnce(rows[i]);
    }
  }

  lemma StanzasPass(rows: seq<Extension>)
    requires AreReady(rows)
    ensures AllEndpoints(rows, PjsipText(rows)) && AllAuths(rows, PjsipText(rows)) && AllAors(rows, PjsipText(rows))
    ensures AorsLimitContacts(rows, PjsipText(rows))
  {
    forall i | 0 <= i < |rows|
      ensures Endpoint(PjsipText(rows), rows[i]) != [] && Auth(PjsipText(rows), rows[i]) != []
      ensures Aor(PjsipText(rows), rows[i]) != []
      ensures |KeepPrefixed(Aor(PjsipText(rows), rows[i]), ContactsPrefix())| == 1
    {
      StanzasAreFound(rows, i);
      AorLinesOccurOnce(rows[i]);
    }
  }

  lemma ContextsPass(rows: seq<Extension>)
    requires AreReady(rows)
    ensures EndpointsHave(rows, PjsipText(rows), OwnContext) && EndpointsHave(rows, PjsipText(rows), OwnSubscription)
  {
    EndpointPasses(rows, 1, OwnContext);
    EndpointPasses(rows, 2, OwnSubscription);
  }

  lemma ReferencesPass(rows: seq<Extension>)
    requires AreReady(rows)
    ensures EndpointsHave(rows, PjsipText(rows), OwnAuth) && EndpointsHave(rows, PjsipText(rows), OwnAor)
  {
    EndpointPasses(rows, 3, OwnAuth);
    EndpointPasses(rows, 4, OwnAor);
  }

  lemma IdentitiesPass(rows: seq<Extension>)
    requires AreReady(rows)
    ensures EndpointsHave(rows, PjsipText(rows), OwnCallerId) && EndpointsHave(rows, PjsipText(rows), OwnMailbox)
  {
    EndpointPasses(rows, 5, OwnCallerId);
    EndpointPasses(rows, 6, OwnMailbox);
  }

  lemma EndpointChecksHold(rows: seq<Extension>, text: string)
    requires AllEndpoints(rows, text) && OnlyKnownEndpoints(rows, text)
    requires EndpointsHave(rows, text, OwnContext) && EndpointsHave(rows, text, OwnSubscription)
    requires EndpointsHave(rows, text, OwnAuth) && EndpointsHave(rows, text, OwnAor)
    requires EndpointsHave(rows, text, OwnCallerId) && EndpointsHave(rows, text, OwnMailbox)
    ensures AllHold(EndpointChecks(rows, text))
  {
  }

  /** DE-10 to DE-17 hold of the written file. */
  lemma EndpointsPass(rows: seq<Extension>)
    requires AreReady(rows)
    ensures AllHold(EndpointChecks(rows, PjsipText(rows)))
  {
    StanzasPass(rows);
    HeadingsAreThose(rows);
    ContextsPass(rows);
    ReferencesPass(rows);
    IdentitiesPass(rows);
    EndpointChecksHold(rows, PjsipText(rows));
  }

  /** DE-18 to DE-23 hold of the written file. */
  lemma AccountsPass(rows: seq<Extension>)
    requires AreReady(rows)
    ensures AllHold(AccountChecks(rows, PjsipText(rows)))
  {
    StanzasPass(rows);
    AuthPasses(rows, 3, OwnUsername);
    AuthPasses(rows, 4, OwnPassword);
    AorPasses(rows, 2, OwnContacts);
    AorPasses(rows, 3, OwnRemoval);
  }
}
