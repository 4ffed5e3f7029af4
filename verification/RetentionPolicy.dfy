/** Retention eligibility (scripts/checkpoints/policy.py): which refusal codes an evaluation
    collects, and when it collects none. */
module RetentionPolicy {
  import opened Options
  import opened Records

  /******* Facts *******/

  // A UTC instant in whole seconds, or a value that is not one.
  datatype Instant = Exact(seconds: int) | Inexact

  // A boolean fact, or a value of another type.
  datatype Flag = Yes | No | NotBoolean

  datatype State = Active | Stopped | Completed | Retired | Successful | OtherState | NotText

  datatype Durability = DurableStream | GenerationReproducibility | DisposableAcceptance

  datatype Entry = Entry(durability: Durability, retired: bool, retentionSeconds: int,
                         retiredAt: Instant, retirementReview: Option<string>)

  datatype Matched = Matched(checkpointId: string, generation: map<string, string>)

  datatype LeaseFacts = LeaseFacts(checkpointId: string, prefix: string, state: State, acquiredAt: Instant,
                                   heartbeatAt: Instant, expiresAt: Instant, etag: string, conflicting: Flag, malformed: Flag)

  datatype TerminalFacts = TerminalFacts(state: State, occurredAt: Instant, recoveryApproved: Flag, sourceAvailable: Flag,
                                         sinkDispositionApproved: Flag, retirementReview: Option<string>,
                                         generation: map<string, string>, exclusiveRun: Flag, successful: Flag)

  datatype InventoryFacts = InventoryFacts(objectCount: int, totalBytes: int, newest: Instant, digestWellFormed: bool,
                                           changedSincePlan: Flag, partialRetryConfined: Flag)

  datatype Facts = Facts(prefix: string, evaluatedAt: Instant, lease: Option<LeaseFacts>,
                         terminal: Option<TerminalFacts>, inventory: InventoryFacts)

  datatype Code =
    | InvalidUtcTimestamp | LeaseMissing | InvalidFactType | LeaseMalformed | LeaseConflicting | LeaseIdentityMismatch
    | LeaseEtagInvalid | FutureClock | LeaseClockInvalid | LeaseActive | LeaseExpiredActiveUncertain | LeaseStateInvalid
    | InvalidLeaseTerminalState | LeaseTerminalClockConflict | InventoryInvalid | InventoryChanged | PartialRetryBroadened
    | TerminalMissing | InvalidTerminalState | RecoveryNotApproved | SourceUnavailable | SinkDispositionNotApproved
    | RetirementReviewMissing | RetirementClockMissing | RegistryRetirementReviewMissing | RegistryRetirementReviewInvalid
    | RetirementReviewMismatch | GenerationIdentityMismatch | ExclusiveRunRequired | SuccessfulRunRequired
    | ObjectAfterTerminal | ClockOverflow | RegistryActiveDurable | RetentionQuarantine

  const TTL_SECONDS := 600
  const MAX_OBJECTS := 100_000
  const MAX_BYTES := 10_737_418_240

  // 9999-12-31T23:59:59Z, the last instant that can be represented.
  const LATEST := 253_402_300_799

  // The retention periods of the closed registry.
  predicate Registered(entry: Entry)
  {
    && entry.retentionSeconds == (if entry.durability == DurableStream then 2_592_000
                                  else if entry.durability == GenerationReproducibility then 1_209_600 else 86_400)
    && (entry.retired ==> entry.durability == DurableStream)
  }

  function TerminalStates(d: Durability): set<State>
  {
    match d
    case DurableStream => {Stopped, Retired}
    case GenerationReproducibility => {Completed, Stopped}
    case DisposableAcceptance => {Successful, Stopped}
  }

  function LeaseTerminalStates(d: Durability): set<State>
  {
    match d
    case DurableStream => {Stopped, Retired}
    case GenerationReproducibility => {Completed, Stopped}
    case DisposableAcceptance => {Stopped}
  }

  predicate SafeReview(s: string)
  {
    1 <= |s| <= 128 && AlphaNumeric(s[0]) && forall i :: 0 <= i < |s| ==> AlphaNumeric(s[i]) || s[i] in "._/-"
  }

  predicate AlphaNumeric(c: char)
  {
    'a' <= c <= 'z' || 'A' <= c <= 'Z' || '0' <= c <= '9'
  }

  /******* Evaluation *******/

  function When(condition: bool, code: Code): seq<Code>
  {
    if condition then [code] else []
  }

  predicate IsFutureClock(value: Instant, evaluatedAt: Instant, tolerance: int)
  {
    value.Exact? && evaluatedAt.Exact? && value.seconds - evaluatedAt.seconds > tolerance
  }

  function ClockCodes(value: Instant, evaluatedAt: Instant, tolerance: int): seq<Code>
  {
    When(value.Inexact?, InvalidUtcTimestamp) + When(IsFutureClock(value, evaluatedAt, tolerance), FutureClock)
  }

  function After(later: Instant, earlier: Instant): bool
  {
    later.Exact? && earlier.Exact? && later.seconds > earlier.seconds
  }

  predicate LeaseClockOk(l: LeaseFacts)
  {
    && l.acquiredAt.Exact? && l.heartbeatAt.Exact? && l.expiresAt.Exact?
    && l.acquiredAt.seconds <= l.heartbeatAt.seconds <= l.expiresAt.seconds
    && l.expiresAt.seconds - l.heartbeatAt.seconds == TTL_SECONDS
  }

  function LeaseStateCodes(l: LeaseFacts, evaluatedAt: Instant): seq<Code>
  {
    When(l.state == NotText, InvalidFactType)
    + (if l.state == Active then
         if evaluatedAt.Exact? && l.expiresAt.Exact? && l.expiresAt.seconds < evaluatedAt.seconds
         then [LeaseExpiredActiveUncertain] else [LeaseActive]
       else When(l.state !in {Stopped, Completed, Retired}, LeaseStateInvalid))
  }

  function LeaseIdentityCodes(matched: Matched, f: Facts, l: LeaseFacts): seq<Code>
  {
    When(l.malformed == NotBoolean || l.conflicting == NotBoolean, InvalidFactType)
    + When(l.malformed == Yes, LeaseMalformed)
    + When(l.conflicting == Yes, LeaseConflicting)
    + When(l.checkpointId != matched.checkpointId || l.prefix != f.prefix, LeaseIdentityMismatch)
    + When(|l.etag| == 0 || |l.etag| > 128, LeaseEtagInvalid)
  }

  function LeaseClockCodes(f: Facts, l: LeaseFacts, tolerance: int): seq<Code>
  {
    ClockCodes(l.acquiredAt, f.evaluatedAt, tolerance)
    + ClockCodes(l.heartbeatAt, f.evaluatedAt, tolerance)
    + ClockCodes(l.expiresAt, f.evaluatedAt, tolerance)
    + When(l.acquiredAt.Exact? && l.heartbeatAt.Exact? && l.expiresAt.Exact? && !LeaseClockOk(l), LeaseClockInvalid)
  }

  function LeaseEndCodes(entry: Entry, f: Facts, l: LeaseFacts): seq<Code>
  {
    var states := LeaseTerminalStates(entry.durability);
    LeaseStateCodes(l, f.evaluatedAt)
    + When(l.state !in states || f.terminal == None || f.terminal.value.state !in states || l.state != f.terminal.value.state,
           InvalidLeaseTerminalState)
    + When(f.terminal.Some? && After(l.heartbeatAt, f.terminal.value.occurredAt), LeaseTerminalClockConflict)
  }

  /** `_evaluate_lease`. */
  function LeaseCodes(entry: Entry, matched: Matched, f: Facts, l: LeaseFacts, tolerance: int): seq<Code>
  {
    LeaseIdentityCodes(matched, f, l) + LeaseClockCodes(f, l, tolerance) + LeaseEndCodes(entry, f, l)
  }

  /** `_evaluate_inventory`. */
  function InventoryCodes(f: Facts, tolerance: int): seq<Code>
  {
    var i := f.inventory;
    When(!(1 <= i.objectCount <= MAX_OBJECTS && 1 <= i.totalBytes <= MAX_BYTES && i.digestWellFormed), InventoryInvalid)
    + ClockCodes(i.newest, f.evaluatedAt, tolerance)
    + When(i.changedSincePlan == NotBoolean || i.partialRetryConfined == NotBoolean, InvalidFactType)
    + When(i.changedSincePlan == Yes, InventoryChanged)
    + When(i.partialRetryConfined != Yes, PartialRetryBroadened)
  }

  function RetirementCodes(entry: Entry, f: Facts, t: TerminalFacts, tolerance: int): seq<Code>
  {
    When(t.retirementReview == None || t.retirementReview.value == "", RetirementReviewMissing)
    + When(entry.retiredAt.Inexact?, RetirementClockMissing)
    + When(IsFutureClock(entry.retiredAt, f.evaluatedAt, tolerance), FutureClock)
    + (if entry.retirementReview == None || entry.retirementReview.value == "" then [RegistryRetirementReviewMissing]
       else if !SafeReview(entry.retirementReview.value) then [RegistryRetirementReviewInvalid]
       else When(t.retirementReview != entry.retirementReview, RetirementReviewMismatch))
  }

  function TerminalTypeCodes(entry: Entry, f: Facts, t: TerminalFacts, tolerance: int): seq<Code>
  {
    ClockCodes(t.occurredAt, f.evaluatedAt, tolerance)
    + When(t.state == NotText, InvalidFactType)
    + When(t.state !in TerminalStates(entry.durability), InvalidTerminalState)
    + When(t.recoveryApproved == NotBoolean, InvalidFactType)
    + When(t.sourceAvailable == NotBoolean, InvalidFactType)
    + When(t.sinkDispositionApproved == NotBoolean, InvalidFactType)
    + When(t.exclusiveRun == NotBoolean, InvalidFactType)
    + When(t.successful == NotBoolean, InvalidFactType)
  }

  function ApprovalCodes(entry: Entry, matched: Matched, f: Facts, t: TerminalFacts, tolerance: int): seq<Code>
  {
    When(t.recoveryApproved != Yes, RecoveryNotApproved)
    + When(t.sourceAvailable != Yes, SourceUnavailable)
    + When(t.sinkDispositionApproved != Yes, SinkDispositionNotApproved)
    + DurabilityCodes(entry, matched, f, t, tolerance)
  }

  function DurabilityCodes(entry: Entry, matched: Matched, f: Facts, t: TerminalFacts, tolerance: int): seq<Code>
  {
    match entry.durability
    case DurableStream => if entry.retired then RetirementCodes(entry, f, t, tolerance) else []
    case GenerationReproducibility => When(t.generation != matched.generation, GenerationIdentityMismatch)
    case DisposableAcceptance =>
      When(t.generation != matched.generation, GenerationIdentityMismatch)
      + When(t.exclusiveRun != Yes, ExclusiveRunRequired)
      + When(t.successful != Yes, SuccessfulRunRequired)
  }

  /** `_evaluate_terminal`. */
  function TerminalCodes(entry: Entry, matched: Matched, f: Facts, t: TerminalFacts, tolerance: int): seq<Code>
  {
    TerminalTypeCodes(entry, f, t, tolerance) + ApprovalCodes(entry, matched, f, t, tolerance)
  }

  function LaterOf(a: Instant, b: Instant): Instant
  {
    if a.Inexact? || b.Inexact? then Inexact else if a.seconds >= b.seconds then a else b
  }

  /** `_retention_anchor`: the newest of the instants that count. */
  function Anchor(entry: Entry, f: Facts): Instant
  {
    var newest := f.inventory.newest;
    var heartbeat := if f.lease.Some? then LaterOf(newest, f.lease.value.heartbeatAt) else newest;
    var terminal := if f.terminal.Some? then LaterOf(heartbeat, f.terminal.value.occurredAt) else heartbeat;
    if entry.durability == DurableStream && entry.retired then LaterOf(terminal, entry.retiredAt) else terminal
  }

  /** `_safe_add_seconds`. */
  function EligibleAfter(entry: Entry, f: Facts): Option<int>
  {
    var anchor := Anchor(entry, f);
    if anchor.Exact? && anchor.seconds + entry.retentionSeconds <= LATEST then Some(anchor.seconds + entry.retentionSeconds) else None
  }

  /** `evaluate_retention`: the collected codes, before repetitions are dropped. */
  function RefusalCodes(entry: Entry, matched: Matched, f: Facts, tolerance: int): seq<Code>
  {
    When(f.evaluatedAt.Inexact?, InvalidUtcTimestamp)
    + (if f.lease == None then [LeaseMissing] else LeaseCodes(entry, matched, f, f.lease.value, tolerance))
    + InventoryCodes(f, tolerance)
    + (if f.terminal == None then [TerminalMissing]
       else TerminalCodes(entry, matched, f, f.terminal.value, tolerance)
            + When(After(f.inventory.newest, f.terminal.value.occurredAt), ObjectAfterTerminal))
    + PeriodCodes(entry, f)
  }

  function PeriodCodes(entry: Entry, f: Facts): seq<Code>
  {
    When(Anchor(entry, f).Exact? && EligibleAfter(entry, f) == None, ClockOverflow)
    + (if entry.durability == DurableStream && !entry.retired then [RegistryActiveDurable]
       else When(f.evaluatedAt.Exact? && EligibleAfter(entry, f).Some? && f.evaluatedAt.seconds < EligibleAfter(entry, f).value,
                 RetentionQuarantine))
  }

  predicate Eligible(entry: Entry, matched: Matched, f: Facts, tolerance: int)
  {
    RefusalCodes(entry, matched, f, tolerance) == []
  }

  /******* What each code means *******/

  // The instants that count for the retention period.
  function Instants(entry: Entry, f: Facts): seq<Instant>
  {
    [f.inventory.newest] + (if f.lease.Some? then [f.lease.value.heartbeatAt] else [])
    + (if f.terminal.Some? then [f.terminal.value.occurredAt] else [])
    + (if entry.durability == DurableStream && entry.retired then [entry.retiredAt] else [])
  }

  predicate AllKnown(ts: seq<Instant>)
  {
    forall t :: t in ts ==> t.Exact?
  }

  /** The retention period starts at the newest of the instants that count, if all are known. */
  lemma AnchorIsNewest(entry: Entry, f: Facts)
    ensures Anchor(entry, f).Exact? <==> AllKnown(Instants(entry, f))
    ensures Anchor(entry, f).Exact? ==>
              Anchor(entry, f) in Instants(entry, f) && forall t :: t in Instants(entry, f) ==> t.seconds <= Anchor(entry, f).seconds
  {
    var ts := Instants(entry, f);
    assert f.inventory.newest in ts;
    assert f.lease.Some? ==> f.lease.value.heartbeatAt in ts;
    assert f.terminal.Some? ==> f.terminal.value.occurredAt in ts;
    assert entry.durability == DurableStream && entry.retired ==> entry.retiredAt in ts;
  }

  // The instants of the facts that are checked against the time of evaluation.
  function Clocks(f: Facts): seq<Instant>
  {
    [f.inventory.newest]
    + (if f.lease.Some? then [f.lease.value.acquiredAt, f.lease.value.heartbeatAt, f.lease.value.expiresAt] else [])
    + (if f.terminal.Some? then [f.terminal.value.occurredAt] else [])
  }

  predicate Ahead(ts: seq<Instant>, evaluatedAt: Instant, tolerance: int)
  {
    evaluatedAt.Exact? && exists t :: t in ts && t.Exact? && t.seconds > evaluatedAt.seconds + tolerance
  }

  // The codes that more than one part of the facts can raise, and those of the inventory.
  predicate IsShared(code: Code)
  {
    code in {InvalidUtcTimestamp, FutureClock, InvalidFactType, InventoryInvalid, InventoryChanged, PartialRetryBroadened,
             LeaseMissing, TerminalMissing}
  }

  predicate SharedReason(code: Code, entry: Entry, f: Facts, tolerance: int)
    requires IsShared(code)
  {
    match code
    case InvalidUtcTimestamp => f.evaluatedAt.Inexact? || !AllKnown(Clocks(f))
    case FutureClock =>
      || Ahead(Clocks(f), f.evaluatedAt, tolerance)
      || (Retiring(entry, f) && Ahead([entry.retiredAt], f.evaluatedAt, tolerance))
    case InvalidFactType =>
      || f.inventory.changedSincePlan == NotBoolean || f.inventory.partialRetryConfined == NotBoolean
      || (f.lease.Some? && (f.lease.value.malformed == NotBoolean || f.lease.value.conflicting == NotBoolean || f.lease.value.state == NotText))
      || (f.terminal.Some? && (f.terminal.value.state == NotText || NotBoolean in TerminalFlags(f.terminal.value)))
    case InventoryInvalid =>
      !(1 <= f.inventory.objectCount <= MAX_OBJECTS && 1 <= f.inventory.totalBytes <= MAX_BYTES && f.inventory.digestWellFormed)
    case InventoryChanged => f.inventory.changedSincePlan == Yes
    case PartialRetryBroadened => f.inventory.partialRetryConfined != Yes
    case LeaseMissing => f.lease == None
    case TerminalMissing => f.terminal == None
  }

  /** Why each code is among the refusals. */
  predicate Reason(code: Code, entry: Entry, matched: Matched, f: Facts, tolerance: int)
  {
    if IsShared(code) then SharedReason(code, entry, f, tolerance)
    else
      || PeriodReason(code, entry, f)
      || (f.lease.Some? && LeaseReason(code, entry, matched, f, f.lease.value))
      || (f.terminal.Some? && TerminalReason(code, entry, matched, f, f.terminal.value))
      || (Retiring(entry, f) && RetirementReason(code, entry, f.terminal.value))
  }

  predicate PeriodReason(code: Code, entry: Entry, f: Facts)
  {
    var ts := Instants(entry, f);
    match code
    case ClockOverflow => AllKnown(ts) && exists t :: t in ts && t.seconds + entry.retentionSeconds > LATEST
    case RegistryActiveDurable => entry.durability == DurableStream && !entry.retired
    case RetentionQuarantine =>
      && !(entry.durability == DurableStream && !entry.retired) && f.evaluatedAt.Exact? && AllKnown(ts)
      && (forall t :: t in ts ==> t.seconds + entry.retentionSeconds <= LATEST)
      && (exists t :: t in ts && f.evaluatedAt.seconds < t.seconds + entry.retentionSeconds)
    case _ => false
  }

  predicate Retiring(entry: Entry, f: Facts)
  {
    f.terminal.Some? && entry.durability == DurableStream && entry.retired
  }

  function TerminalFlags(t: TerminalFacts): seq<Flag>
  {
    [t.recoveryApproved, t.sourceAvailable, t.sinkDispositionApproved, t.exclusiveRun, t.successful]
  }

  predicate LeaseReason(code: Code, entry: Entry, matched: Matched, f: Facts, l: LeaseFacts)
  {
    var expired := f.evaluatedAt.Exact? && l.expiresAt.Exact? && l.expiresAt.seconds < f.evaluatedAt.seconds;
    match code
    case LeaseMalformed => l.malformed == Yes
    case LeaseConflicting => l.conflicting == Yes
    case LeaseIdentityMismatch => l.checkpointId != matched.checkpointId || l.prefix != f.prefix
    case LeaseEtagInvalid => !(1 <= |l.etag| <= 128)
    case LeaseClockInvalid =>
      && l.acquiredAt.Exact? && l.heartbeatAt.Exact? && l.expiresAt.Exact?
      && !(l.acquiredAt.seconds <= l.heartbeatAt.seconds && l.expiresAt.seconds == l.heartbeatAt.seconds + TTL_SECONDS)
    case LeaseActive => l.state == Active && !expired
    case LeaseExpiredActiveUncertain => l.state == Active && expired
    case LeaseStateInvalid => l.state in {Successful, OtherState, NotText}
    case InvalidLeaseTerminalState =>
      !(f.terminal.Some? && l.state == f.terminal.value.state && l.state in LeaseTerminalStates(entry.durability))
    case LeaseTerminalClockConflict =>
      && f.terminal.Some? && l.heartbeatAt.Exact? && f.terminal.value.occurredAt.Exact?
      && l.heartbeatAt.seconds > f.terminal.value.occurredAt.seconds
    case _ => false
  }

  predicate TerminalReason(code: Code, entry: Entry, matched: Matched, f: Facts, t: TerminalFacts)
  {
    match code
    case InvalidTerminalState => t.state !in TerminalStates(entry.durability)
    case RecoveryNotApproved => t.recoveryApproved != Yes
    case SourceUnavailable => t.sourceAvailable != Yes
    case SinkDispositionNotApproved => t.sinkDispositionApproved != Yes
    case GenerationIdentityMismatch => entry.durability != DurableStream && t.generation != matched.generation
    case ExclusiveRunRequired => entry.durability == DisposableAcceptance && t.exclusiveRun != Yes
    case SuccessfulRunRequired => entry.durability == DisposableAcceptance && t.successful != Yes
    case ObjectAfterTerminal =>
      f.inventory.newest.Exact? && t.occurredAt.Exact? && f.inventory.newest.seconds > t.occurredAt.seconds
    case _ => false
  }

  predicate RetirementReason(code: Code, entry: Entry, t: TerminalFacts)
  {
    var registered := entry.retirementReview;
    match code
    case RetirementReviewMissing => t.retirementReview in {None, Some("")}
    case RetirementClockMissing => entry.retiredAt.Inexact?
    case RegistryRetirementReviewMissing => registered in {None, Some("")}
    case RegistryRetirementReviewInvalid => registered.Some? && registered.value != "" && !SafeReview(registered.value)
    case RetirementReviewMismatch => registered.Some? && SafeReview(registered.value) && t.retirementReview != registered
    case _ => false
  }

  lemma LeaseIdentityCodesExactly(code: Code, entry: Entry, matched: Matched, f: Facts, l: LeaseFacts)
    ensures code in LeaseIdentityCodes(matched, f, l) <==>
              || (&& code in {LeaseMalformed, LeaseConflicting, LeaseIdentityMismatch, LeaseEtagInvalid}
                  && LeaseReason(code, entry, matched, f, l))
              || (code == InvalidFactType && (l.malformed == NotBoolean || l.conflicting == NotBoolean))
  {
  }

  lemma LeaseClockCodesExactly(code: Code, entry: Entry, matched: Matched, f: Facts, l: LeaseFacts, tolerance: int)
    ensures code in LeaseClockCodes(f, l, tolerance) <==>
              || (code == LeaseClockInvalid && LeaseReason(code, entry, matched, f, l))
              || (code == InvalidUtcTimestamp && (l.acquiredAt.Inexact? || l.heartbeatAt.Inexact? || l.expiresAt.Inexact?))
              || (code == FutureClock && (|| IsFutureClock(l.acquiredAt, f.evaluatedAt, tolerance)
                                          || IsFutureClock(l.heartbeatAt, f.evaluatedAt, tolerance)
                                          || IsFutureClock(l.expiresAt, f.evaluatedAt, tolerance)))
  {
  }

  lemma LeaseEndCodesExactly(code: Code, entry: Entry, matched: Matched, f: Facts, l: LeaseFacts)
    ensures code in LeaseEndCodes(entry, f, l) <==>
              || (&& code in {LeaseActive, LeaseExpiredActiveUncertain, LeaseStateInvalid, InvalidLeaseTerminalState,
                              LeaseTerminalClockConflict}
                  && LeaseReason(code, entry, matched, f, l))
              || (code == InvalidFactType && l.state == NotText)
  {
  }

  lemma LeaseCodesExactly(code: Code, entry: Entry, matched: Matched, f: Facts, l: LeaseFacts, tolerance: int)
    ensures code in LeaseCodes(entry, matched, f, l, tolerance) <==>
              || LeaseReason(code, entry, matched, f, l)
              || (code == InvalidFactType && (l.malformed == NotBoolean || l.conflicting == NotBoolean || l.state == NotText))
              || (code == InvalidUtcTimestamp && (l.acquiredAt.Inexact? || l.heartbeatAt.Inexact? || l.expiresAt.Inexact?))
              || (code == FutureClock && (|| IsFutureClock(l.acquiredAt, f.evaluatedAt, tolerance)
                                          || IsFutureClock(l.heartbeatAt, f.evaluatedAt, tolerance)
                                          || IsFutureClock(l.expiresAt, f.evaluatedAt, tolerance)))
  {
    hide LeaseIdentityCodes, LeaseClockCodes, LeaseEndCodes, IsFutureClock;
    LeaseIdentityCodesExactly(code, entry, matched, f, l);
    LeaseClockCodesExactly(code, entry, matched, f, l, tolerance);
    LeaseEndCodesExactly(code, entry, matched, f, l);
  }

  lemma InventoryCodesExactly(code: Code, f: Facts, tolerance: int)
    ensures var i := f.inventory;
            code in InventoryCodes(f, tolerance) <==>
              || (code == InventoryInvalid
                  && !(1 <= i.objectCount <= MAX_OBJECTS && 1 <= i.totalBytes <= MAX_BYTES && i.digestWellFormed))
              || (code == InventoryChanged && i.changedSincePlan == Yes)
              || (code == PartialRetryBroadened && i.partialRetryConfined != Yes)
              || (code == InvalidFactType && (i.changedSincePlan == NotBoolean || i.partialRetryConfined == NotBoolean))
              || (code == InvalidUtcTimestamp && i.newest.Inexact?)
              || (code == FutureClock && IsFutureClock(i.newest, f.evaluatedAt, tolerance))
  {
  }

  lemma TerminalTypeCodesExactly(code: Code, entry: Entry, f: Facts, t: TerminalFacts, tolerance: int)
    ensures code in TerminalTypeCodes(entry, f, t, tolerance) <==>
              || (code == InvalidTerminalState && t.state !in TerminalStates(entry.durability))
              || (code == InvalidFactType && (t.state == NotText || NotBoolean in TerminalFlags(t)))
              || (code == InvalidUtcTimestamp && t.occurredAt.Inexact?)
              || (code == FutureClock && IsFutureClock(t.occurredAt, f.evaluatedAt, tolerance))
  {
  }

  lemma DurabilityCodesExactly(code: Code, entry: Entry, matched: Matched, f: Facts, t: TerminalFacts, tolerance: int)
    requires f.terminal == Some(t)
    ensures code in DurabilityCodes(entry, matched, f, t, tolerance) <==>
              || (&& code in {GenerationIdentityMismatch, ExclusiveRunRequired, SuccessfulRunRequired}
                  && TerminalReason(code, entry, matched, f, t))
              || (Retiring(entry, f) && RetirementReason(code, entry, t))
              || (code == FutureClock && Retiring(entry, f) && IsFutureClock(entry.retiredAt, f.evaluatedAt, tolerance))
  {
    hide RetirementCodes, RetirementReason, IsFutureClock;
    RetirementCodesExactly(code, entry, f, t, tolerance);
  }

  lemma ApprovalCodesExactly(code: Code, entry: Entry, matched: Matched, f: Facts, t: TerminalFacts, tolerance: int)
    requires f.terminal == Some(t)
    ensures code in ApprovalCodes(entry, matched, f, t, tolerance) <==>
              || (code !in {InvalidTerminalState, ObjectAfterTerminal} && TerminalReason(code, entry, matched, f, t))
              || (Retiring(entry, f) && RetirementReason(code, entry, t))
              || (code == FutureClock && Retiring(entry, f) && IsFutureClock(entry.retiredAt, f.evaluatedAt, tolerance))
  {
    hide DurabilityCodes, RetirementReason, IsFutureClock;
    DurabilityCodesExactly(code, entry, matched, f, t, tolerance);
  }

  lemma TerminalCodesExactly(code: Code, entry: Entry, matched: Matched, f: Facts, t: TerminalFacts, tolerance: int)
    requires f.terminal == Some(t)
    ensures code in TerminalCodes(entry, matched, f, t, tolerance) <==>
              || (code != ObjectAfterTerminal && TerminalReason(code, entry, matched, f, t))
              || (Retiring(entry, f) && RetirementReason(code, entry, t))
              || (code == InvalidFactType && (t.state == NotText || NotBoolean in TerminalFlags(t)))
              || (code == InvalidUtcTimestamp && t.occurredAt.Inexact?)
              || (code == FutureClock && (|| IsFutureClock(t.occurredAt, f.evaluatedAt, tolerance)
                                          || (Retiring(entry, f) && IsFutureClock(entry.retiredAt, f.evaluatedAt, tolerance))))
  {
    hide TerminalTypeCodes, ApprovalCodes, RetirementReason, IsFutureClock, TerminalStates, TerminalFlags;
    TerminalTypeCodesExactly(code, entry, f, t, tolerance);
    ApprovalCodesExactly(code, entry, matched, f, t, tolerance);
  }

  lemma RetirementCodesExactly(code: Code, entry: Entry, f: Facts, t: TerminalFacts, tolerance: int)
    ensures code in RetirementCodes(entry, f, t, tolerance) <==>
              || RetirementReason(code, entry, t)
              || (code == FutureClock && IsFutureClock(entry.retiredAt, f.evaluatedAt, tolerance))
  {
  }

  lemma PeriodCodesExactly(code: Code, entry: Entry, f: Facts)
    ensures code in PeriodCodes(entry, f) <==> PeriodReason(code, entry, f)
  {
    hide Anchor, Instants;
    AnchorIsNewest(entry, f);
  }

  // The clocks, one by one.
  lemma ClocksListed(entry: Entry, f: Facts, tolerance: int)
    ensures AllKnown(Clocks(f)) <==>
              && f.inventory.newest.Exact? && (f.terminal.Some? ==> f.terminal.value.occurredAt.Exact?)
              && (f.lease.Some? ==> f.lease.value.acquiredAt.Exact? && f.lease.value.heartbeatAt.Exact? && f.lease.value.expiresAt.Exact?)
    ensures Ahead([entry.retiredAt], f.evaluatedAt, tolerance) <==> IsFutureClock(entry.retiredAt, f.evaluatedAt, tolerance)
    ensures Ahead(Clocks(f), f.evaluatedAt, tolerance) <==>
              || IsFutureClock(f.inventory.newest, f.evaluatedAt, tolerance)
              || (f.terminal.Some? && IsFutureClock(f.terminal.value.occurredAt, f.evaluatedAt, tolerance))
              || (f.lease.Some? && (|| IsFutureClock(f.lease.value.acquiredAt, f.evaluatedAt, tolerance)
                                    || IsFutureClock(f.lease.value.heartbeatAt, f.evaluatedAt, tolerance)
                                    || IsFutureClock(f.lease.value.expiresAt, f.evaluatedAt, tolerance)))
  {
    var ts := Clocks(f);
    assert entry.retiredAt in [entry.retiredAt];
    assert f.inventory.newest in ts;
    assert f.terminal.Some? ==> f.terminal.value.occurredAt in ts;
    assert f.lease.Some? ==> f.lease.value.acquiredAt in ts && f.lease.value.heartbeatAt in ts && f.lease.value.expiresAt in ts;
  }

  lemma CodesCollected(code: Code, entry: Entry, matched: Matched, f: Facts, tolerance: int)
    ensures code in RefusalCodes(entry, matched, f, tolerance) <==>
              || (code == InvalidUtcTimestamp && f.evaluatedAt.Inexact?)
              || (code == LeaseMissing && f.lease == None)
              || (code == TerminalMissing && f.terminal == None)
              || (f.lease.Some? && code in LeaseCodes(entry, matched, f, f.lease.value, tolerance))
              || code in InventoryCodes(f, tolerance)
              || (f.terminal.Some? && code in TerminalCodes(entry, matched, f, f.terminal.value, tolerance))
              || (code == ObjectAfterTerminal && f.terminal.Some? && After(f.inventory.newest, f.terminal.value.occurredAt))
              || code in PeriodCodes(entry, f)
  {
    hide LeaseCodes, InventoryCodes, TerminalCodes, PeriodCodes;
  }

  lemma SharedHaveNoOwnReason(code: Code, entry: Entry, matched: Matched, f: Facts)
    requires IsShared(code)
    ensures !PeriodReason(code, entry, f)
    ensures f.lease.Some? ==> !LeaseReason(code, entry, matched, f, f.lease.value)
    ensures f.terminal.Some? ==> !TerminalReason(code, entry, matched, f, f.terminal.value) && !RetirementReason(code, entry, f.terminal.value)
  {
  }

  lemma ObjectAfterTerminalReason(entry: Entry, matched: Matched, f: Facts)
    requires f.terminal.Some?
    ensures TerminalReason(ObjectAfterTerminal, entry, matched, f, f.terminal.value) <==>
              After(f.inventory.newest, f.terminal.value.occurredAt)
  {
  }

  // The codes by the parts of the facts that raise them.
  lemma CodesByPart(code: Code, entry: Entry, matched: Matched, f: Facts, tolerance: int)
    ensures !IsShared(code) ==>
              (code in RefusalCodes(entry, matched, f, tolerance) <==> Reason(code, entry, matched, f, tolerance))
    ensures IsShared(code) ==>
              (code in RefusalCodes(entry, matched, f, tolerance) <==>
                 || (code == InvalidUtcTimestamp && f.evaluatedAt.Inexact?)
                 || (code == LeaseMissing && f.lease == None)
                 || (code == TerminalMissing && f.terminal == None)
                 || (f.lease.Some? && code in LeaseCodes(entry, matched, f, f.lease.value, tolerance))
                 || code in InventoryCodes(f, tolerance)
                 || (f.terminal.Some? && code in TerminalCodes(entry, matched, f, f.terminal.value, tolerance)))
  {
    hide RefusalCodes, LeaseCodes, InventoryCodes, TerminalCodes, PeriodCodes, LeaseReason, TerminalReason, RetirementReason,
      PeriodReason, After, IsFutureClock, TerminalFlags;
    CodesCollected(code, entry, matched, f, tolerance);
    PeriodCodesExactly(code, entry, f);
    if IsShared(code) {
      SharedHaveNoOwnReason(code, entry, matched, f);
    } else {
      if f.lease.Some? { LeaseCodesExactly(code, entry, matched, f, f.lease.value, tolerance); }
      InventoryCodesExactly(code, f, tolerance);
      if f.terminal.Some? {
        TerminalCodesExactly(code, entry, matched, f, f.terminal.value, tolerance);
        ObjectAfterTerminalReason(entry, matched, f);
      }
    }
  }

  /** A code is among the refusals exactly for its reason. */
  lemma CodesHaveReasons(code: Code, entry: Entry, matched: Matched, f: Facts, tolerance: int)
    ensures code in RefusalCodes(entry, matched, f, tolerance) <==> Reason(code, entry, matched, f, tolerance)
  {
    hide RefusalCodes, LeaseCodes, InventoryCodes, TerminalCodes, PeriodCodes, Clocks, Ahead, AllKnown, Instants, TerminalFlags,
      IsFutureClock, LeaseReason, TerminalReason, RetirementReason, PeriodReason, After;
    CodesByPart(code, entry, matched, f, tolerance);
    if IsShared(code) {
      SharedHaveNoOwnReason(code, entry, matched, f);
      if f.lease.Some? { LeaseCodesExactly(code, entry, matched, f, f.lease.value, tolerance); }
      InventoryCodesExactly(code, f, tolerance);
      if f.terminal.Some? { TerminalCodesExactly(code, entry, matched, f, f.terminal.value, tolerance); }
      ClocksListed(entry, f, tolerance);
    }
  }

  /******* What eligibility means *******/

  predicate LeaseSettled(entry: Entry, matched: Matched, f: Facts)
  {
    && f.lease.Some? && f.terminal.Some?
    && var l, t := f.lease.value, f.terminal.value;
    && l.malformed == No && l.conflicting == No
    && l.checkpointId == matched.checkpointId && l.prefix == f.prefix && 1 <= |l.etag| <= 128
    && LeaseClockOk(l)
    && l.state == t.state && l.state in LeaseTerminalStates(entry.durability)
    && t.occurredAt.Exact? && l.heartbeatAt.seconds <= t.occurredAt.seconds
  }

  predicate TerminalApproved(entry: Entry, matched: Matched, t: TerminalFacts)
  {
    && t.recoveryApproved == Yes && t.sourceAvailable == Yes && t.sinkDispositionApproved == Yes
    && t.exclusiveRun != NotBoolean && t.successful != NotBoolean
    && (entry.durability != DurableStream ==> t.generation == matched.generation)
    && (entry.durability == DisposableAcceptance ==> t.exclusiveRun == Yes && t.successful == Yes)
  }

  predicate RetirementApproved(entry: Entry, t: TerminalFacts)
  {
    && entry.retired && entry.retiredAt.Exact?
    && entry.retirementReview.Some? && SafeReview(entry.retirementReview.value)
    && t.retirementReview == entry.retirementReview
  }

  /** Everything that does not depend on when the evaluation happens. */
  predicate Settled(entry: Entry, matched: Matched, f: Facts)
  {
    && LeaseSettled(entry, matched, f)
    && TerminalApproved(entry, matched, f.terminal.value)
    && (entry.durability == DurableStream ==> RetirementApproved(entry, f.terminal.value))
    && var i := f.inventory;
    && 1 <= i.objectCount <= MAX_OBJECTS && 1 <= i.totalBytes <= MAX_BYTES && i.digestWellFormed
    && i.newest.Exact? && i.changedSincePlan == No && i.partialRetryConfined == Yes
    && i.newest.seconds <= f.terminal.value.occurredAt.seconds
  }

  // The later of the terminal instant and, for a durable stream, the retirement instant.
  function QuarantineStart(entry: Entry, f: Facts): int
    requires f.terminal.Some? && f.terminal.value.occurredAt.Exact?
    requires entry.durability == DurableStream ==> entry.retiredAt.Exact?
  {
    var t := f.terminal.value.occurredAt.seconds;
    if entry.durability == DurableStream && entry.retiredAt.seconds > t then entry.retiredAt.seconds else t
  }

  /** Eligibility is a threshold in time: exactly the settled facts, from the retention period
      after the last of the instants that count.  The tolerance for future clocks does not
      occur in the condition: it never decides. */
  lemma EligibilityIsAThreshold(entry: Entry, matched: Matched, f: Facts, tolerance: nat)
    requires Registered(entry)
    ensures Eligible(entry, matched, f, tolerance) <==>
            && f.evaluatedAt.Exact? && Settled(entry, matched, f)
            && QuarantineStart(entry, f) + entry.retentionSeconds <= LATEST
            && QuarantineStart(entry, f) + entry.retentionSeconds <= f.evaluatedAt.seconds
  {
    if Eligible(entry, matched, f, tolerance) { EligibleIsSettled(entry, matched, f, tolerance); }
  }

  lemma EligibleIsSettled(entry: Entry, matched: Matched, f: Facts, tolerance: nat)
    requires Registered(entry) && Eligible(entry, matched, f, tolerance)
    ensures f.evaluatedAt.Exact? && Settled(entry, matched, f)
  {
  }

  /** Once eligible, always eligible, and whatever the tolerance. */
  lemma EligibilityNeverReverts(entry: Entry, matched: Matched, f: Facts, later: int, tolerance: nat, other: nat)
    requires Registered(entry) && Eligible(entry, matched, f, tolerance) && f.evaluatedAt.seconds <= later
    ensures Eligible(entry, matched, f.(evaluatedAt := Exact(later)), other)
  {
    EligibilityIsAThreshold(entry, matched, f, tolerance);
    EligibilityIsAThreshold(entry, matched, f.(evaluatedAt := Exact(later)), other);
  }

  /** An eligible checkpoint has a terminal lease for exactly this prefix. */
  lemma EligibleMeansTerminal(entry: Entry, matched: Matched, f: Facts, tolerance: nat)
    requires Registered(entry) && Eligible(entry, matched, f, tolerance)
    ensures f.lease.Some? && f.lease.value.prefix == f.prefix && f.lease.value.checkpointId == matched.checkpointId
    ensures f.lease.value.state in {Stopped, Completed, Retired}
  {
    EligibilityIsAThreshold(entry, matched, f, tolerance);
  }
}
