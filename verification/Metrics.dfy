/** The call metrics of the day, from CDR events: one record for everything and one for each tenant. */
module Metrics {
  import opened Prelude
  import opened Dedupe

  const MAX_BILLABLE_SECONDS: nat := 2592000  // 30 * 24 * 3600
  const MAX_CDR_DEDUPE_IDS: nat := 10000
  const MAX_DAILY_TENANTS: nat := 256

  /** Uniqueid, start, destination and disposition of a leg. */
  datatype Leg = Leg(uniqueid: string, start: string, destination: string, disposition: string)

  datatype Daily = Daily(day: int, total: nat, answered: nat, missed: nat, talk: nat, memory: Memory<Leg>)

  function GetOr(event: Event, key: string, default: string): string
  {
    if key in event then event[key] else default
  }

  predicate IsDisposition(value: string)
  {
    value in {"ANSWERED", "NO ANSWER", "BUSY", "FAILED", "CONGESTION"}
  }

  /** _billable_seconds of a text; what is not a plain number of seconds adds nothing. */
  function BillableSeconds(value: Option<string>): nat
  {
    if value.None? || !(1 <= |value.value| <= 10) || !AllOf(value.value, IsDigit) then 0
    else if Decimal(value.value) <= MAX_BILLABLE_SECONDS then Decimal(value.value) else 0
  }

  predicate IsShort(printable: char -> bool, text: string, length: nat)
  {
    |text| <= length && AllOf(text, printable)
  }

  // ----- one record -----

  function Fresh(day: int): Daily
  {
    Daily(day, 0, 0, 0, 0, Empty())
  }

  function Reset(m: Daily, today: int): Daily
  {
    if today == m.day then m else Fresh(today)
  }

  function Counted(m: Daily, event: Event, disposition: string): Daily
  {
    if disposition == "ANSWERED"
    then m.(total := m.total + 1, answered := m.answered + 1,
            talk := m.talk + BillableSeconds(Get(event, "BillableSeconds")))
    else m.(total := m.total + 1, missed := m.missed + 1)
  }

  function LegOf(event: Event, uniqueid: string, disposition: string): Leg
  {
    Leg(uniqueid, GetOr(event, "StartTime", ""), GetOr(event, "Destination", ""), disposition)
  }

  predicate IsLeg(printable: char -> bool, leg: Leg)
  {
    IsUniqueId(leg.uniqueid) && IsShort(printable, leg.start, 40) && IsShort(printable, leg.destination, 96)
  }

  /** apply_cdr_event */
  function Apply(printable: char -> bool, m: Daily, event: Event, today: int): Daily
  {
    if Get(event, "Event") != Some("Cdr") then m else
    var reset, disposition, uniqueid := Reset(m, today), Get(event, "Disposition"), Get(event, "Uniqueid");
    if disposition.None? || !IsDisposition(disposition.value) then reset
    else if uniqueid.None? then Counted(reset, event, disposition.value)
    else
      var leg := LegOf(event, uniqueid.value, disposition.value);
      if !IsLeg(printable, leg) || leg in reset.memory.seen then reset
      else Counted(reset.(memory := Remember(reset.memory, leg, MAX_CDR_DEDUPE_IDS)), event, disposition.value)
  }

  class DailyMetrics {
    const printable: char -> bool
    var day: int
    var total: nat
    var answered: nat
    var missed: nat
    var talk: nat
    var seen: set<Leg>
    var order: seq<Leg>

    constructor (printable: char -> bool, today: int)
      ensures this.printable == printable && Value() == Fresh(today)
    {
      this.printable := printable;
      day, total, answered, missed, talk, seen, order := today, 0, 0, 0, 0, {}, [];
    }

    function Value(): Daily
      reads this
    {
      Daily(day, total, answered, missed, talk, Memory(seen, order))
    }

    method ResetIfNewDay(today: int)
      modifies this
      ensures Value() == Reset(old(Value()), today)
    {
      if today != day {
        day, total, answered, missed, talk, seen, order := today, 0, 0, 0, 0, {}, [];
      }
    }

    method ApplyCdrEvent(event: Event, today: int)
      modifies this
      ensures Value() == Apply(printable, old(Value()), event, today)
    {
      if Get(event, "Event") != Some("Cdr") {
        return;
      }
      ResetIfNewDay(today);
      var disposition := Get(event, "Disposition");
      if disposition.None? || !IsDisposition(disposition.value) {
        return;
      }
      var uniqueid := Get(event, "Uniqueid");
      if uniqueid.Some? {
        var leg := LegOf(event, uniqueid.value, disposition.value);
        if !IsLeg(printable, leg) || leg in seen {
          return;
        }
        seen, order := seen + {leg}, order + [leg];
        if |order| > MAX_CDR_DEDUPE_IDS {
          seen, order := seen - {order[0]}, order[1..];
        }
      }
      total := total + 1;
      if disposition.value == "ANSWERED" {
        answered := answered + 1;
        talk := talk + BillableSeconds(Get(event, "BillableSeconds"));
      } else {
        missed := missed + 1;
      }
    }
  }

  // ----- one record for each tenant -----

  /** The account code of a CDR, under whichever of its two spellings it comes, is `tenant` and nothing else. */
  predicate Names(event: Event, tenant: string)
  {
    && Get(event, "Event") == Some("Cdr") && ("AccountCode" in event || "Accountcode" in event)
    && forall key :: key in {"AccountCode", "Accountcode"} && key in event ==> event[key] == tenant
  }

  /** tenant_from_cdr: the tenant that every spelling of the field names, and at least one does. */
  function TenantFromCdr(event: Event): (tenant: Option<string>)
    ensures forall t :: tenant == Some(t) <==> IsTenantId(t) && Names(event, t)
  {
    var first, second := Get(event, "AccountCode"), Get(event, "Accountcode");
    if Get(event, "Event") != Some("Cdr") || (first.None? && second.None?) then None
    else if first.Some? && second.Some? && first != second then None
    else
      var tenant := if first.Some? then first.value else second.value;
      if IsTenantId(tenant) then Some(tenant) else None
  }

  datatype ByTenant = ByTenant(day: int, records: map<string, Daily>)

  /** The readings of the clock within one event: to roll the day, to create a record, to count. */
  datatype Readings = Readings(rolled: int, created: int, counted: int)

  function Roll(st: ByTenant, today: int): ByTenant
  {
    if today == st.day then st else ByTenant(today, map[])
  }

  /** The tenant whose record an event goes to. */
  function Addressee(event: Event): Option<string>
  {
    if GetOr(event, "Disposition", "") == "" then None else TenantFromCdr(event)
  }

  /** TenantDailyMetrics.apply_cdr_event */
  function ApplyByTenant(printable: char -> bool, st: ByTenant, event: Event, clock: Readings): ByTenant
  {
    var rolled, tenant := Roll(st, clock.rolled), Addressee(event);
    if tenant.None? then rolled
    else if tenant.value !in rolled.records && |rolled.records| >= MAX_DAILY_TENANTS then rolled
    else
      var record := if tenant.value in rolled.records then rolled.records[tenant.value] else Fresh(clock.created);
      rolled.(records := rolled.records[tenant.value := Apply(printable, record, event, clock.counted)])
  }

  /** What a snapshot of a record shows; averages and rates are derived from it. */
  datatype Shown = Shown(day: int, total: nat, answered: nat, missed: nat, talk: nat)

  function Show(m: Daily): Shown
  {
    Shown(m.day, m.total, m.answered, m.missed, m.talk)
  }

  /** TenantDailyMetrics.snapshot of a well-formed tenant, at one reading of the clock. */
  function Snapshot(st: ByTenant, tenant: string, today: int): Shown
  {
    var rolled := Roll(st, today);
    Show(if tenant in rolled.records then Reset(rolled.records[tenant], today) else Fresh(today))
  }

  class TenantDailyMetrics {
    const printable: char -> bool
    var day: int
    var records: map<string, Daily>

    constructor (printable: char -> bool, today: int)
      ensures this.printable == printable && Value() == ByTenant(today, map[])
    {
      this.printable, day, records := printable, today, map[];
    }

    function Value(): ByTenant
      reads this
    {
      ByTenant(day, records)
    }

    method RollDay(today: int)
      modifies this
      ensures Value() == Roll(old(Value()), today)
    {
      if today != day {
        day, records := today, map[];
      }
    }

    method ApplyCdrEvent(event: Event, clock: Readings)
      modifies this
      ensures Value() == ApplyByTenant(printable, old(Value()), event, clock)
    {
      RollDay(clock.rolled);
      var tenant := TenantFromCdr(event);
      if tenant.None? || GetOr(event, "Disposition", "") == "" {
        return;
      }
      if tenant.value !in records {
        if |records| >= MAX_DAILY_TENANTS {
          return;
        }
        records := records[tenant.value := Fresh(clock.created)];
      }
      records := records[tenant.value := Apply(printable, records[tenant.value], event, clock.counted)];
    }

    method TakeSnapshot(tenant: string, today: int) returns (shown: Option<Shown>)
      modifies this
      ensures Value().day == today && IsTenantId(tenant) == shown.Some?
      ensures shown.Some? ==> shown.value == Snapshot(old(Value()), tenant, today)
    {
      RollDay(today);
      if !IsTenantId(tenant) {
        return None;
      }
      if tenant !in records {
        return Some(Show(Fresh(day)));
      }
      records := records[tenant := Reset(records[tenant], today)];
      return Some(Show(records[tenant]));
    }
  }
}
