/** Admission control of click-to-call: a sliding-window rate limiter, an idempotency table and
    the tickets in flight. */
module OutboundAdmission {
  import opened Prelude

  const WINDOW: real := 60.0
  const MAX_TENANT_WINDOWS: nat := 1000
  const MAX_EXTENSION_WINDOWS: nat := 5000
  const MAX_REQUESTS: nat := 10000

  /** (tenant, request id) */
  type Key = (string, string)

  datatype RequestState = Pending | Accepted | Uncertain

  /** The digest is taken to be as good as what it digests. */
  datatype Entry = Entry(fingerprint: (string, string, string), state: RequestState, when: real)

  datatype Row = Row(when: real, key: Option<Key>)

  datatype Limits = Limits(perTenant: nat, perExtension: nat, maxInflight: nat, ttl: nat)

  datatype State = State(
    tenantWindow: map<string, seq<real>>,
    extensionWindow: map<(string, string), seq<real>>,
    requests: map<Key, Entry>,
    inflight: map<nat, Row>,
    sequence: nat,
    lastTime: Option<real>)

  datatype Status = Reserved(ticket: nat) | Duplicate | StillPending | Conflict | Limited | Unavailable

  datatype Outcome = WasAccepted | WasRejected | WasUncertain

  predicate ValidLimits(l: Limits)
  {
    && 1 <= l.perTenant <= 10000 && 1 <= l.perExtension <= 10000
    && 1 <= l.maxInflight <= 10000 && 1 <= l.ttl <= 10000
    && l.perExtension <= l.perTenant
  }

  type AdmittedLimits = l: Limits | ValidLimits(l) witness Limits(30, 10, 50, 180)

  datatype Call = Call(tenant: string, extension: string, number: string, requestId: Option<string>)

  predicate IsRequestIdChar(c: char) { IsAlphanumeric(c) || c == '_' || c == '-' }

  predicate IsExtensionChar(c: char) { IsDigit(c) || 'a' <= c <= 'z' || c == '_' || c == '-' }

  /** The patterns of the arguments; the extension belongs to the tenant by its prefix. */
  predicate WellFormed(call: Call)
  {
    && IsTenantId(call.tenant)
    && call.tenant + "-" <= call.extension
    && (var rest := call.extension[|call.tenant| + 1..];
        1 <= |rest| <= 80 && AllOf(rest, IsExtensionChar) && rest[0] != '_' && rest[0] != '-')
    && (var digits := if call.number != "" && call.number[0] == '+' then call.number[1..] else call.number;
        8 <= |digits| <= 15 && AllOf(digits, IsDigit))
    && (call.requestId.Some? ==> 12 <= |call.requestId.value| <= 96 && AllOf(call.requestId.value, IsRequestIdChar))
  }

  function KeyOf(call: Call): Option<Key>
  {
    if call.requestId.Some? then Some((call.tenant, call.requestId.value)) else None
  }

  function FingerprintOf(call: Call): (string, string, string)
  {
    (call.tenant, call.extension, call.number)
  }

  /** Entries leave a window from the left while they lie in the future or are a minute old. */
  function Trim(q: seq<real>, now: real): seq<real>
  {
    if q != [] && (q[0] > now || now - q[0] >= WINDOW) then Trim(q[1..], now) else q
  }

  function TrimAll<K>(windows: map<K, seq<real>>, now: real): map<K, seq<real>>
  {
    map k | k in windows && Trim(windows[k], now) != [] :: Trim(windows[k], now)
  }

  predicate Alive(when: real, now: real, ttl: nat)
  {
    when <= now && now - when < ttl as real
  }

  function Cleaned(s: State, now: real, ttl: nat): State
  {
    s.(tenantWindow := TrimAll(s.tenantWindow, now),
       extensionWindow := TrimAll(s.extensionWindow, now),
       requests := map k | k in s.requests && Alive(s.requests[k].when, now, ttl) :: s.requests[k],
       inflight := map t | t in s.inflight && Alive(s.inflight[t].when, now, ttl) :: s.inflight[t])
  }

  function WindowOf<K>(windows: map<K, seq<real>>, k: K): seq<real>
  {
    if k in windows then windows[k] else []
  }

  /** The verdict on a cleaned state. */
  function Decide(s: State, limits: Limits, call: Call): Status
  {
    var key := KeyOf(call);
    var line := (call.tenant, call.extension);
    if key.Some? && key.value in s.requests then
      var entry := s.requests[key.value];
      if entry.fingerprint != FingerprintOf(call) then Conflict
      else if entry.state.Accepted? then Duplicate
      else StillPending
    else if |s.inflight| >= limits.maxInflight then Limited
    else if |WindowOf(s.tenantWindow, call.tenant)| >= limits.perTenant then Limited
    else if |WindowOf(s.extensionWindow, line)| >= limits.perExtension then Limited
    else if |s.tenantWindow| >= MAX_TENANT_WINDOWS && call.tenant !in s.tenantWindow then Limited
    else if |s.extensionWindow| >= MAX_EXTENSION_WINDOWS && line !in s.extensionWindow then Limited
    else if key.Some? && |s.requests| >= MAX_REQUESTS then Limited
    else Reserved(s.sequence + 1)
  }

  function Grant(s: State, call: Call, now: real): State
  {
    var key := KeyOf(call);
    var line := (call.tenant, call.extension);
    var ticket := s.sequence + 1;
    s.(sequence := ticket,
       tenantWindow := s.tenantWindow[call.tenant := WindowOf(s.tenantWindow, call.tenant) + [now]],
       extensionWindow := s.extensionWindow[line := WindowOf(s.extensionWindow, line) + [now]],
       inflight := s.inflight[ticket := Row(now, key)],
       requests := if key.Some? then s.requests[key.value := Entry(FingerprintOf(call), Pending, now)] else s.requests)
  }

  /** A clock reading counts when it is finite (Some) and not negative. */
  predicate Usable(now: Option<real>) { now.Some? && now.value >= 0.0 }

  predicate Runs(s: State, call: Call, now: Option<real>)
  {
    WellFormed(call) && Usable(now) && (s.lastTime.Some? ==> now.value >= s.lastTime.value)
  }

  function Reserve(s: State, limits: Limits, call: Call, now: Option<real>): (State, Status)
  {
    if !Runs(s, call, now) then (s, Unavailable) else
    var cleaned := Cleaned(s, now.value, limits.ttl).(lastTime := now);
    var status := Decide(cleaned, limits, call);
    (if status.Reserved? then Grant(cleaned, call, now.value) else cleaned, status)
  }

  function Finish(s: State, ticket: nat, outcome: Outcome): (State, bool)
  {
    if ticket !in s.inflight then (s, false) else
    var key := s.inflight[ticket].key;
    var s' := s.(inflight := s.inflight - {ticket});
    if key.None? || key.value !in s.requests then (s', true)
    else if outcome.WasRejected? then (s'.(requests := s.requests - {key.value}), true)
    else
      var entry := s.requests[key.value].(state := if outcome.WasAccepted? then Accepted else Uncertain);
      (s'.(requests := s.requests[key.value := entry]), true)
  }

  function Look(s: State, limits: Limits, now: Option<real>): State
  {
    if Usable(now) then Cleaned(s, now.value, limits.ttl) else s
  }

  datatype Counts = Counts(inflight: nat, idempotencyEntries: nat, tenantWindows: nat, extensionWindows: nat)

  /** The object the HTTP handlers share; every method runs under its lock. */
  class OriginateAdmission {
    const limits: AdmittedLimits
    var tenantWindow: map<string, seq<real>>
    var extensionWindow: map<(string, string), seq<real>>
    var requests: map<Key, Entry>
    var inflight: map<nat, Row>
    var sequence: nat
    var lastTime: Option<real>

    constructor (limits: AdmittedLimits)
      ensures this.limits == limits && Value() == State(map[], map[], map[], map[], 0, None)
    {
      this.limits := limits;
      tenantWindow, extensionWindow, requests, inflight := map[], map[], map[], map[];
      sequence, lastTime := 0, None;
    }

    ghost function Value(): State
      reads this
    {
      State(tenantWindow, extensionWindow, requests, inflight, sequence, lastTime)
    }

    method CleanUp(now: real)
      modifies this
      ensures Value() == Cleaned(old(Value()), now, limits.ttl)
    {
      tenantWindow := TrimWindows(tenantWindow, now);
      extensionWindow := TrimWindows(extensionWindow, now);
      requests := DropStaleRequests(requests, now, limits.ttl);
      inflight := DropStaleTickets(inflight, now, limits.ttl);
    }

    /** reserve: the verdict, and the new state. */
    method TryReserve(call: Call, now: Option<real>) returns (status: Status)
      modifies this
      ensures (Value(), status) == Reserve(old(Value()), limits, call, now)
    {
      if !WellFormed(call) || !Usable(now) {
        return Unavailable;
      }
      if lastTime.Some? && now.value < lastTime.value {
        return Unavailable;
      }
      lastTime := now;
      CleanUp(now.value);
      assert Value() == Cleaned(old(Value()), now.value, limits.ttl).(lastTime := now);
      status := Admit(call, now.value);
    }

    /** reserve once the tables are clean. */
    method Admit(call: Call, now: real) returns (status: Status)
      modifies this
      ensures status == Decide(old(Value()), limits, call)
      ensures Value() == if status.Reserved? then Grant(old(Value()), call, now) else old(Value())
    {
      var key := KeyOf(call);
      if key.Some? && key.value in requests {
        var entry := requests[key.value];
        if entry.fingerprint != FingerprintOf(call) {
          return Conflict;
        }
        return if entry.state.Accepted? then Duplicate else StillPending;
      }
      var line := (call.tenant, call.extension);
      if |inflight| >= limits.maxInflight {
        return Limited;
      }
      if (call.tenant in tenantWindow && |tenantWindow[call.tenant]| >= limits.perTenant)
         || (line in extensionWindow && |extensionWindow[line]| >= limits.perExtension) {
        assert limits.perTenant >= 1 && limits.perExtension >= 1;
        return Limited;
      }
      if |tenantWindow| >= MAX_TENANT_WINDOWS && call.tenant !in tenantWindow {
        return Limited;
      }
      if |extensionWindow| >= MAX_EXTENSION_WINDOWS && line !in extensionWindow {
        return Limited;
      }
      if key.Some? && |requests| >= MAX_REQUESTS {
        return Limited;
      }
      var ticket := Book(call, now);
      status := Reserved(ticket);
    }

    /** The entries of a granted reservation. */
    method Book(call: Call, now: real) returns (ticket: nat)
      modifies this
      ensures ticket == old(sequence) + 1 && Value() == Grant(old(Value()), call, now)
    {
      var key, line := KeyOf(call), (call.tenant, call.extension);
      sequence := sequence + 1;
      tenantWindow := tenantWindow[call.tenant := WindowOf(tenantWindow, call.tenant) + [now]];
      extensionWindow := extensionWindow[line := WindowOf(extensionWindow, line) + [now]];
      inflight := inflight[sequence := Row(now, key)];
      if key.Some? {
        requests := requests[key.value := Entry(FingerprintOf(call), Pending, now)];
      }
      ticket := sequence;
    }

    /** finish: the ticket leaves, and its request is closed or forgotten. */
    method Close(ticket: nat, outcome: Outcome) returns (known: bool)
      modifies this
      ensures (Value(), known) == Finish(old(Value()), ticket, outcome)
    {
      if ticket !in inflight {
        return false;
      }
      var key := inflight[ticket].key;
      inflight := inflight - {ticket};
      if key.Some? && key.value in requests {
        if outcome.WasRejected? {
          requests := requests - {key.value};
        } else {
          var state := if outcome.WasAccepted? then Accepted else Uncertain;
          requests := requests[key.value := requests[key.value].(state := state)];
        }
      }
      known := true;
    }

    /** snapshot: cleans without looking at the time of the last reservation. */
    method Count(now: Option<real>) returns (counts: Counts)
      modifies this
      ensures Value() == Look(old(Value()), limits, now)
      ensures counts == Counts(|inflight|, |requests|, |tenantWindow|, |extensionWindow|)
    {
      if Usable(now) {
        CleanUp(now.value);
      }
      counts := Counts(|inflight|, |requests|, |tenantWindow|, |extensionWindow|);
    }
  }

  /** The popleft loop over every window of one table. */
  method TrimWindows<K>(windows: map<K, seq<real>>, now: real) returns (trimmed: map<K, seq<real>>)
    ensures trimmed == TrimAll(windows, now)
  {
    trimmed := windows;
    var keys := windows.Keys;
    while keys != {}
      invariant keys <= windows.Keys
      invariant trimmed == map k | k in windows && (k in keys || Trim(windows[k], now) != []) ::
                             if k in keys then windows[k] else Trim(windows[k], now)
    {
      var key :| key in keys;
      var q := windows[key];
      while q != [] && (q[0] > now || now - q[0] >= WINDOW)
        invariant Trim(q, now) == Trim(windows[key], now)
        decreases |q|
      {
        q := q[1..];
      }
      if q == [] {
        trimmed := trimmed - {key};
      } else {
        trimmed := trimmed[key := q];
      }
      keys := keys - {key};
    }
  }

  method DropStaleRequests(requests: map<Key, Entry>, now: real, ttl: nat) returns (kept: map<Key, Entry>)
    ensures kept == map k | k in requests && Alive(requests[k].when, now, ttl) :: requests[k]
  {
    kept := requests;
    var keys := requests.Keys;
    while keys != {}
      invariant keys <= requests.Keys
      invariant kept == map k | k in requests && (k in keys || Alive(requests[k].when, now, ttl)) :: requests[k]
    {
      var key :| key in keys;
      if now < requests[key].when || now - requests[key].when >= ttl as real {
        kept := kept - {key};
      }
      keys := keys - {key};
    }
  }

  method DropStaleTickets(inflight: map<nat, Row>, now: real, ttl: nat) returns (kept: map<nat, Row>)
    ensures kept == map t | t in inflight && Alive(inflight[t].when, now, ttl) :: inflight[t]
  {
    kept := inflight;
    var tickets := inflight.Keys;
    while tickets != {}
      invariant tickets <= inflight.Keys
      invariant kept == map t | t in inflight && (t in tickets || Alive(inflight[t].when, now, ttl)) :: inflight[t]
    {
      var ticket :| ticket in tickets;
      if now < inflight[ticket].when || now - inflight[ticket].when >= ttl as real {
        kept := kept - {ticket};
      }
      tickets := tickets - {ticket};
    }
  }
}
