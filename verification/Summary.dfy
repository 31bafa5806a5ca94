/** What one invocation reports against what it did: the calls it made, the bearers it
    used, its status fields and its warnings. */
module Summary {
  import opened Text
  import opened Inventory
  import opened World
  import opened Agent
  import opened Runs
  import Identifiers
  import CoreClient
  import Endpoints
  import StateCodec

  /** The client calls of a trace, with their answers, in order. */
  function Calls(trace: seq<Action>): seq<Action> {
    if trace == [] then []
    else
      var n := |trace| - 1;
      Calls(trace[..n]) + (if trace[n].op.Call? then [trace[n]] else [])
  }

  function Removals(trace: seq<Action>): seq<Action> {
    if trace == [] then []
    else
      var n := |trace| - 1;
      Removals(trace[..n]) + (if trace[n].op.Remove? then [trace[n]] else [])
  }

  lemma TraceSnoc(trace: seq<Action>, x: Action)
    ensures Calls(trace + [x]) == Calls(trace) + (if x.op.Call? then [x] else [])
    ensures Removals(trace + [x]) == Removals(trace) + (if x.op.Remove? then [x] else [])
  {
    assert (trace + [x])[..|trace|] == trace;
  }

  /** An operation that is neither leaves both as they are. */
  lemma QuietSnoc(trace: seq<Action>, x: Action)
    requires !x.op.Call? && !x.op.Remove?
    ensures Calls(trace + [x]) == Calls(trace) && Removals(trace + [x]) == Removals(trace)
  {
    TraceSnoc(trace, x);
  }

  lemma RemovalSnoc(trace: seq<Action>, x: Action)
    requires x.op.Remove?
    ensures Calls(trace + [x]) == Calls(trace) && Removals(trace + [x]) == Removals(trace) + [x]
  {
    TraceSnoc(trace, x);
  }

  lemma CallSnoc(trace: seq<Action>, x: Action)
    requires x.op.Call?
    ensures Calls(trace + [x]) == Calls(trace) + [x] && Removals(trace + [x]) == Removals(trace)
  {
    TraceSnoc(trace, x);
  }

  /** A registration that was answered with the identity in `doc`. */
  predicate RegisteredAs(c: Action, doc: StateDocument) {
    c.op.Call? && c.op.request.body.Registration? && c.answer.Granted? && ParseGrant(c.answer.grant) == Ok(doc)
  }

  predicate IsRegistration(c: Action) {
    c.op.Call? && c.op.request.body.Registration?
    && c.op.request.verb == POST && c.op.request.endpoint == Endpoints.REGISTRATION
  }

  /** What every body tells: schema 1, the version the caller named, and of its report
      only what it found out itself. */
  predicate TellsLocal(input: Input, body: Body) {
    && !body.NoBody? && body.schemaVersion == 1 && body.agentVersion == input.agentVersion
    && body.inventory == Report(input.report.local, None, None)
  }

  /** The fingerprint that the invocation made of the machine ID it read. */
  predicate FingerprintRead(o: Options, trace: seq<Action>, fingerprint: Bytes) {
    && |trace| >= 2 && trace[1].op == ReadFile(o.machineIdFile)
    && trace[1].answer.Data? && Fingerprint(o, trace[1].answer.data) == Ok(fingerprint)
  }

  /** The token that it read. */
  predicate TokenRead(o: Options, trace: seq<Action>, token: Bytes) {
    && |trace| >= 4 && trace[3].op == ReadFile(o.tokenFile)
    && trace[3].answer.Data? && ParseToken(trace[3].answer.data) == Ok(token)
  }

  /** A registration with what the invocation had read. */
  predicate IsEnrollment(o: Options, p: Proc, c: Action) {
    && IsRegistration(c)
    && FingerprintRead(o, p.trace, c.op.request.body.fingerprint)
    && TokenRead(o, p.trace, c.op.request.bearer)
    && TellsLocal(p.input, c.op.request.body)
  }

  /** A heartbeat of the node, sent at the time that the invocation read off its clock. */
  predicate IsHeartbeat(p: Proc, c: Action, doc: StateDocument) {
    && c.op.Call? && c.op.request.body.Heartbeat? && Addressed(c.op.request, doc)
    && TellsLocal(p.input, c.op.request.body)
    && Action(Now, Time(c.op.request.body.sentAt)) in p.trace
  }

  predicate IsFetch(c: Action, doc: StateDocument) {
    c.op.Call? && c.op.request.body.NoBody? && Addressed(c.op.request, doc)
  }

  /** The status a stage reports for the answer its call got. */
  function StatusOf(c: Action): string {
    if c.answer.Rejected? then "failed" else "succeeded"
  }

  /** The warning that a stage makes of its call: of an HTTP error only the status. */
  function CallWarnings(source: string, c: Action): seq<Warning> {
    match c.answer
    case Rejected(Http(status, _), _) => [Warning(source, HttpStatus(status))]
    case Rejected(Other(text), _) => [Warning(source, Plain(text))]
    case _ => []
  }

  /** The identity in `doc` is what the invocation read from the state file. */
  predicate LoadedFrom(o: Options, trace: seq<Action>, doc: StateDocument) {
    && |trace| >= 2 && trace[1].op == ReadFile(o.stateFile)
    && trace[1].answer.Data? && ParseState(trace[1].answer.data) == Ok(doc)
  }

  /** How the identity was found, and what that left in the calls and removals: by a
      registration that was granted and whose token was then removed or not, or from the
      state file without either. */
  predicate FoundIdentity(o: Options, p: Proc, doc: StateDocument, before: seq<Action>) {
    && p.core.enabled && p.core.registered && p.core.nodeId == doc.nodeId
    && if before == [] then
         && LoadedFrom(o, p.trace, doc)
         && p.core.registration == Operation(false, "not_needed") && Removals(p.trace) == []
       else
         && |before| == 1 && IsEnrollment(o, p, before[0]) && RegisteredAs(before[0], doc)
         && p.core.registration == Operation(true, "succeeded")
         && |Removals(p.trace)| == 1 && Removals(p.trace)[0].op == Remove(o.tokenFile)
  }

  /** The warning if the token could not be removed. */
  function TokenWarnings(p: Proc): seq<Warning> {
    if p.core.registered && Removals(p.trace) != [] && Removals(p.trace)[0].answer.Failed? then
      [Warning("core.enrollment",
               Plain("remove consumed enrollment token: " + Removals(p.trace)[0].answer.text))]
    else []
  }

  /** The calls before the heartbeat. */
  function Prelude(calls: seq<Action>): seq<Action> {
    if calls != [] && IsRegistration(calls[0]) then calls[..1] else []
  }

  /** What is returned: the desired state as Core sent it, if it came. */
  function Returned(answer: Answer): DesiredState {
    match answer
    case Desired(d) => DesiredState(true, d.schemaVersion, d.revision, d.roles, d.capabilities)
    case _ => DesiredState(false, 0, [], [], [])
  }

  /** Disabled: nothing is done and nothing said. */
  predicate StayedOff(p: Proc) {
    var off := Operation(false, "disabled");
    && p.trace == [] && p.warnings == []
    && p.core == Core(false, false, [], off, off, off)
    && p.pc == Finished(DesiredState(false, 0, [], [], []))
  }

  predicate TokenSpared(o: Options, p: Proc) {
    forall r :: r in Removals(p.trace) ==> r.op != Remove(o.tokenFile)
  }

  /** Without an identity: no call, or a registration that was of no use; and the token is
      not removed. */
  predicate GaveUp(o: Options, p: Proc) {
    var calls := Calls(p.trace);
    && (calls == [] || (|calls| == 1 && IsEnrollment(o, p, calls[0])))
    && TokenSpared(o, p)
    && p.core.registration.status == "failed"
    && p.core == Core(true, false, [], p.core.registration, Operation(false, "skipped"), Operation(false, "skipped"))
    && (calls != [] ==> p.core.registration.attempted)
    && |p.warnings| == 1
    && p.warnings[0].source == (if p.core.registration.attempted then "core.registration" else "core.state")
    && (calls != [] && calls[0].answer.Rejected? ==> p.warnings == CallWarnings("core.registration", calls[0]))
    && p.pc == Finished(DesiredState(false, 0, [], [], []))
  }

  /** With an identity: a heartbeat, and a fetch unless the caller cancelled, possibly
      after a registration that was granted. */
  predicate Completed(o: Options, p: Proc) {
    var calls := Calls(p.trace);
    var before := Prelude(calls);
    var k := |before|;
    && p.pc.Finished?
    && (|calls| == k + 1 || |calls| == k + 2)
    && ValidDocument(UsedBy(p))
    && FoundIdentity(o, p, UsedBy(p), before)
    && IsHeartbeat(p, calls[k], UsedBy(p))
    && p.core.heartbeat == Operation(true, StatusOf(calls[k]))
    && (|calls| == k + 2 ==> IsFetch(calls[k + 1], UsedBy(p)))
    && p.core.desiredState == (if |calls| == k + 2 then Operation(true, StatusOf(calls[k + 1]))
                               else Operation(false, "skipped"))
    && p.pc.desired == (if |calls| == k + 2 then Returned(calls[k + 1].answer)
                        else DesiredState(false, 0, [], [], []))
    && p.warnings ==
         TokenWarnings(p) + CallWarnings("core.heartbeat", calls[k])
         + (if |calls| == k + 2 then CallWarnings("core.desired_state", calls[k + 1]) else [])
  }

  /** The report of a finished invocation, read off its trace. Its calls are one of
      none, a registration, a heartbeat, a heartbeat and a fetch, each of the last two
      possibly after a registration that was granted. */
  predicate Faithful(o: Options, p: Proc) {
    if !p.input.enabled then StayedOff(p)
    else if !p.core.registered then GaveUp(o, p)
    else Completed(o, p)
  }

  /** The identity a registered invocation used: node ID and bearer of its heartbeat. */
  function UsedBy(p: Proc): StateDocument {
    var calls := Calls(p.trace);
    var k := |Prelude(calls)|;
    var bearer := if k < |calls| && calls[k].op.Call? then calls[k].op.request.bearer else [];
    StateCodec.StateDocument(1, p.core.nodeId, bearer)
  }

  // ---- the invariant of one invocation ----

  const REGISTERING_CORE := INITIAL_CORE.(registration := Operation(true, "failed"))

  function RegisteredCore(doc: StateDocument): Core {
    INITIAL_CORE.(registration := Operation(true, "succeeded"), registered := true, nodeId := doc.nodeId)
  }

  /** The identity is known and `sent` calls have followed: no more than the heartbeat. */
  predicate Onward(o: Options, p: Proc, doc: StateDocument, sent: nat) {
    var calls := Calls(p.trace);
    var before := Prelude(calls);
    var k := |before|;
    && p.input.enabled
    && ValidDocument(doc)
    && FoundIdentity(o, p, doc, before)
    && |calls| == k + sent && sent <= 1
    && (sent == 1 ==> IsHeartbeat(p, calls[k], doc) && p.core.heartbeat == Operation(true, StatusOf(calls[k])))
    && p.warnings == TokenWarnings(p) + (if sent == 1 then CallWarnings("core.heartbeat", calls[k]) else [])
  }

  predicate LocalOk(o: Options, p: Proc) {
    var calls := Calls(p.trace);
    match p.pc
    case InspectState => Fresh(p, INITIAL_CORE) && p.trace == []
    case ReadState => Fresh(p, INITIAL_CORE) && |p.trace| == 1
    case ReadMachineId => Fresh(p, REGISTERING_CORE) && |p.trace| == 1
    case InspectToken(mark) =>
      Fresh(p, REGISTERING_CORE) && |p.trace| == 2 && FingerprintRead(o, p.trace, mark)
    case ReadToken(mark) =>
      Fresh(p, REGISTERING_CORE) && |p.trace| == 3 && FingerprintRead(o, p.trace, mark)
    case Register(mark, token) =>
      && Fresh(p, REGISTERING_CORE) && |p.trace| == 4
      && FingerprintRead(o, p.trace, mark) && TokenRead(o, p.trace, token)
    case AbandonClose(_, _) => Called(o, p) && p.core == REGISTERING_CORE
    case AbandonRemove(_, _) => Called(o, p) && p.core == REGISTERING_CORE
    case RemoveToken(doc) => Called(o, p) && RegisteredAs(calls[0], doc) && p.core == RegisteredCore(doc)
    case ReadClock(doc) =>
      Onward(o, p, doc, 0) && p.core.heartbeat == Operation(false, "skipped")
      && p.core.desiredState == Operation(false, "skipped")
    case SendHeartbeat(doc, at) =>
      Onward(o, p, doc, 0) && Action(Now, Time(at)) in p.trace && p.core.heartbeat == Operation(true, "skipped")
      && p.core.desiredState == Operation(false, "skipped")
    case CheckContext(doc) => Onward(o, p, doc, 1) && p.core.desiredState == Operation(false, "skipped")
    case FetchDesired(doc) => Onward(o, p, doc, 1) && p.core.desiredState == Operation(true, "skipped")
    case Finished(_) => Faithful(o, p)
    case _ => Called(o, p) && RegisteredAs(calls[0], p.pc.doc) && p.core == REGISTERING_CORE
  }

  /** Nothing has been sent or removed yet. */
  predicate Fresh(p: Proc, core: Core) {
    p.input.enabled && Calls(p.trace) == [] && Removals(p.trace) == [] && p.core == core && p.warnings == []
  }

  /** Exactly the registration has been sent, nothing has been removed, and the temporary
      file, if there is one, is not the token. */
  predicate Called(o: Options, p: Proc) {
    && p.input.enabled && p.warnings == []
    && |Calls(p.trace)| == 1 && IsEnrollment(o, p, Calls(p.trace)[0]) && Calls(p.trace)[0].answer.Granted?
    && Removals(p.trace) == []
    && Held(p.pc) != Some(o.tokenFile)
  }

  /** An invocation about to perform `op`, and an answer it can get in some world. */
  predicate Proceeds(o: Options, w: World, p: Proc, op: Op, a: Answer) {
    Wants(o, p) == Some(op) && Possible(Reserved(o), w, op, a)
  }

  /** What was read stays read. */
  lemma ReadStays(o: Options, trace: seq<Action>, x: Action)
    ensures forall doc :: LoadedFrom(o, trace, doc) ==> LoadedFrom(o, trace + [x], doc)
    ensures forall mark :: FingerprintRead(o, trace, mark) ==> FingerprintRead(o, trace + [x], mark)
    ensures forall token :: TokenRead(o, trace, token) ==> TokenRead(o, trace + [x], token)
  {
    hide ParseState, ParseToken, Fingerprint;
  }

  lemma HeartbeatStays(p: Proc, next: Proc, x: Action, c: Action, doc: StateDocument)
    requires IsHeartbeat(p, c, doc) && next.trace == p.trace + [x] && next.input == p.input
    ensures IsHeartbeat(next, c, doc)
  {
    hide Addressed;
  }

  lemma EnrollmentStays(o: Options, p: Proc, next: Proc, x: Action, c: Action)
    requires IsEnrollment(o, p, c) && next.trace == p.trace + [x] && next.input == p.input
    ensures IsEnrollment(o, next, c)
  {
    hide FingerprintRead, TokenRead;
    ReadStays(o, p.trace, x);
  }

  lemma LoadingLocal(o: Options, w: World, p: Proc, op: Op, a: Answer)
    requires LocalOk(o, p) && Proceeds(o, w, p, op, a) && (p.pc.InspectState? || p.pc.ReadState?)
    ensures LocalOk(o, Advance(o, p, a))
  {
    hide NextEnrolling, NextStoring, NextReporting, ParseToken, Fingerprint, ErrorText;
    hide HeartbeatRequest, DesiredRequest, StateCodec.Encode, Calls, Removals, Completed, StayedOff;
    hide IsEnrollment, ParseState, SecretFileError, Possible, ValidDocument;
    QuietSnoc(p.trace, Action(op, a));
    if a.Data? && ParseState(a.data).Ok? {
      ParsedIsValid(a.data);
    }
  }

  lemma ParsedIsValid(data: Bytes)
    requires ParseState(data).Ok?
    ensures ValidDocument(ParseState(data).value)
  {
    hide StateCodec.Decode;
  }

  lemma EnrollingLocal(o: Options, w: World, p: Proc, op: Op, a: Answer)
    requires LocalOk(o, p) && Proceeds(o, w, p, op, a)
    requires p.pc.ReadMachineId? || p.pc.InspectToken? || p.pc.ReadToken?
    ensures LocalOk(o, Advance(o, p, a))
  {
    hide NextLoading, NextStoring, NextReporting, ParseState, ParseGrant, ErrorText;
    hide RegistrationRequest, HeartbeatRequest, DesiredRequest, StateCodec.Encode, Calls, Removals;
    hide Completed, StayedOff, Onward, IsEnrollment, Possible, ValidDocument, ParseToken, Fingerprint;
    hide SecretFileError;
    QuietSnoc(p.trace, Action(op, a));
  }

  lemma RegisterLocal(o: Options, w: World, p: Proc, op: Op, a: Answer)
    requires LocalOk(o, p) && Proceeds(o, w, p, op, a) && p.pc.Register?
    ensures LocalOk(o, Advance(o, p, a))
  {
    hide NextLoading, NextStoring, NextReporting, ParseToken, Fingerprint, ErrorText, HeartbeatRequest;
    hide DesiredRequest, StateCodec.Encode, Calls, Removals, Completed, StayedOff, Onward, ParseGrant;
    hide ValidDocument, FingerprintRead, TokenRead;
    CallSnoc(p.trace, Action(op, a));
    ReadStays(o, p.trace, Action(op, a));
  }

  /** What is left of a registration when an operation of storing is added. */
  lemma CalledStays(o: Options, p: Proc, next: Proc, x: Action)
    requires Called(o, p) && !x.op.Call? && !x.op.Remove?
    requires next.trace == p.trace + [x] && next.input == p.input && next.warnings == []
    requires Held(next.pc) != Some(o.tokenFile)
    ensures Called(o, next) && Calls(next.trace) == Calls(p.trace)
  {
    hide IsEnrollment, Calls, Removals;
    QuietSnoc(p.trace, x);
    EnrollmentStays(o, p, next, x, Calls(p.trace)[0]);
  }

  /** It is over as soon as an operation fails, and has not removed the token. */
  lemma CalledEnds(o: Options, p: Proc, next: Proc, x: Action, m: Message)
    requires Called(o, p) && p.core == REGISTERING_CORE && !x.op.Call? && x.op != Remove(o.tokenFile)
    requires next.trace == p.trace + [x] && next.input == p.input && next.core == p.core
    requires next.pc == Finished(NO_DESIRED_STATE) && next.warnings == [Warning("core.registration", m)]
    ensures LocalOk(o, next)
  {
    hide IsEnrollment, Calls, Removals, Completed;
    TraceSnoc(p.trace, x);
    assert Calls(p.trace) + [] == Calls(p.trace);
    EnrollmentStays(o, p, next, x, Calls(p.trace)[0]);
  }

  predicate FailsTo(p: Proc, next: Proc) {
    && next.core == p.core && next.pc == Finished(NO_DESIRED_STATE)
    && |next.warnings| == 1 && next.warnings[0].source == "core.registration"
  }

  lemma PrepareOutcome(o: Options, w: World, p: Proc, op: Op, a: Answer)
    requires Proceeds(o, w, p, op, a) && (p.pc.MakeDirectory? || p.pc.InspectDirectory? || p.pc.MakeTemp?)
    ensures var next := Advance(o, p, a);
            && next.trace == p.trace + [Action(op, a)] && next.input == p.input && !op.Call? && !op.Remove?
            && (FailsTo(p, next)
                || (&& next.core == p.core && next.warnings == p.warnings
                    && (next.pc.InspectDirectory? || next.pc.MakeTemp? || next.pc.ChmodTemp?)
                    && next.pc.doc == p.pc.doc && Held(next.pc) != Some(o.tokenFile)))
  {
    hide NextLoading, NextEnrolling, NextReporting, ParseState, ParseToken, ParseGrant, Fingerprint;
    hide DirectoryError, ErrorText;
  }

  lemma WriteOutcome(o: Options, w: World, p: Proc, op: Op, a: Answer)
    requires Proceeds(o, w, p, op, a) && Held(p.pc) != Some(o.tokenFile)
    requires p.pc.ChmodTemp? || p.pc.EncodeTemp? || p.pc.SyncTemp? || p.pc.CloseTemp? || p.pc.RenameTemp?
    ensures var next := Advance(o, p, a);
            && next.trace == p.trace + [Action(op, a)] && next.input == p.input && !op.Call? && !op.Remove?
            && next.warnings == p.warnings && Held(next.pc) != Some(o.tokenFile)
            && (|| (next.pc.AbandonClose? && next.core == p.core)
                || (&& next.pc == RemoveToken(p.pc.doc)
                    && (p.core == REGISTERING_CORE ==> next.core == RegisteredCore(p.pc.doc)))
                || (&& (next.pc.EncodeTemp? || next.pc.SyncTemp? || next.pc.CloseTemp? || next.pc.RenameTemp?)
                    && next.pc.doc == p.pc.doc && next.core == p.core))
  {
    hide NextLoading, NextEnrolling, NextReporting, ParseState, ParseToken, ParseGrant, Fingerprint;
    hide ErrorText, StateCodec.Encode, Possible;
  }

  lemma AbandonOutcome(o: Options, w: World, p: Proc, op: Op, a: Answer)
    requires Proceeds(o, w, p, op, a) && (p.pc.AbandonClose? || p.pc.AbandonRemove?)
    requires Held(p.pc) != Some(o.tokenFile)
    ensures var next := Advance(o, p, a);
            && next.trace == p.trace + [Action(op, a)] && next.input == p.input
            && if p.pc.AbandonRemove? then FailsTo(p, next) && !op.Call? && op != Remove(o.tokenFile)
               else
                 && next.core == p.core && next.warnings == p.warnings && !op.Call? && !op.Remove?
                 && next.pc.AbandonRemove? && Held(next.pc) != Some(o.tokenFile)
  {
    hide NextLoading, NextEnrolling, NextReporting, ParseState, ParseToken, ParseGrant, Fingerprint;
    hide Possible;
  }

  /** One operation of storing or abandoning. */
  lemma PersistLocal(o: Options, w: World, p: Proc, op: Op, a: Answer)
    requires LocalOk(o, p) && Proceeds(o, w, p, op, a)
    requires Storing(p.pc) || p.pc.AbandonClose? || p.pc.AbandonRemove?
    ensures LocalOk(o, Advance(o, p, a))
  {
    hide Called, Calls, Removals, IsEnrollment, RegisteredAs, Faithful, Onward, Advance, Wants;
    hide Possible;
    var next, x := Advance(o, p, a), Action(op, a);
    PersistKnown(o, p);
    if p.pc.AbandonClose? || p.pc.AbandonRemove? {
      AbandonOutcome(o, w, p, op, a);
    } else if p.pc.MakeDirectory? || p.pc.InspectDirectory? || p.pc.MakeTemp? {
      PrepareOutcome(o, w, p, op, a);
    } else {
      WriteOutcome(o, w, p, op, a);
    }
    if next.pc.Finished? {
      CalledEnds(o, p, next, x, next.warnings[0].message);
    } else {
      CalledStays(o, p, next, x);
    }
  }

  lemma PersistKnown(o: Options, p: Proc)
    requires LocalOk(o, p) && (Storing(p.pc) || p.pc.AbandonClose? || p.pc.AbandonRemove?)
    ensures Called(o, p) && Held(p.pc) != Some(o.tokenFile) && p.warnings == [] && p.core == REGISTERING_CORE
  {
    hide Calls, Removals, IsEnrollment, RegisteredAs, Faithful, Onward;
  }

  lemma RemoveTokenOutcome(o: Options, w: World, p: Proc, op: Op, a: Answer)
    requires Proceeds(o, w, p, op, a) && p.pc.RemoveToken? && p.warnings == []
    ensures var next := Advance(o, p, a);
            && next.trace == p.trace + [Action(op, a)] && next.input == p.input
            && next.core == p.core && next.pc == ReadClock(p.pc.doc) && op == Remove(o.tokenFile)
            && next.warnings ==
                 if !a.Failed? then []
                 else [Warning("core.enrollment", Plain("remove consumed enrollment token: " + a.text))]
  {
    hide NextLoading, NextEnrolling, NextStoring, ParseState, ParseToken, ParseGrant, Fingerprint;
  }

  lemma RemoveTokenLocal(o: Options, w: World, p: Proc, op: Op, a: Answer)
    requires LocalOk(o, p) && Proceeds(o, w, p, op, a) && p.pc.RemoveToken?
    ensures LocalOk(o, Advance(o, p, a))
  {
    hide Calls, Removals, Faithful, IsEnrollment, ValidDocument, Advance, Wants, Possible;
    var next, x := Advance(o, p, a), Action(op, a);
    var c := Calls(p.trace)[0];
    RemoveTokenOutcome(o, w, p, op, a);
    RemovalSnoc(p.trace, x);
    assert Removals(next.trace) == [x];
    EnrollmentStays(o, p, next, x, c);
    assert IsRegistration(c) by { EnrollmentRegisters(o, p, c); }
    RegisteredIsValid(c, p.pc.doc);
  }

  lemma EnrollmentRegisters(o: Options, p: Proc, c: Action)
    requires IsEnrollment(o, p, c)
    ensures IsRegistration(c)
  {
  }

  lemma RegisteredIsValid(c: Action, doc: StateDocument)
    requires RegisteredAs(c, doc)
    ensures ValidDocument(doc)
  {
    GrantIsValid(c.answer.grant);
  }

  lemma ClockOutcome(o: Options, w: World, p: Proc, op: Op, a: Answer)
    requires Proceeds(o, w, p, op, a) && p.pc.ReadClock? && p.core.heartbeat == Operation(false, "skipped")
    ensures var next := Advance(o, p, a);
            && next.trace == p.trace + [Action(op, a)] && next.input == p.input && next.warnings == p.warnings
            && !op.Call? && !op.Remove?
            && next.pc.SendHeartbeat? && next.pc.doc == p.pc.doc
            && Action(Now, Time(next.pc.sentAt)) in next.trace
            && next.core == p.core.(heartbeat := Operation(true, "skipped"))
  {
    hide NextLoading, NextEnrolling, NextStoring, ParseState, ParseToken, ParseGrant, Fingerprint;
  }

  lemma ClockLocal(o: Options, w: World, p: Proc, op: Op, a: Answer)
    requires LocalOk(o, p) && Proceeds(o, w, p, op, a) && p.pc.ReadClock?
    ensures LocalOk(o, Advance(o, p, a))
  {
    hide FoundIdentity, TokenWarnings, Faithful, ValidDocument, Advance, Possible, Prelude, Calls, Removals;
    var next := Advance(o, p, a);
    ClockOutcome(o, w, p, op, a);
    QuietSnoc(p.trace, Action(op, a));
    FoundKept(o, p, next, Action(op, a), p.pc.doc, Prelude(Calls(p.trace)));
  }

  lemma PreludeSnoc(calls: seq<Action>, c: Action)
    requires !IsRegistration(c)
    ensures Prelude(calls + [c]) == Prelude(calls)
  {
    if calls != [] {
      assert (calls + [c])[0] == calls[0] && (calls + [c])[..1] == calls[..1];
    }
  }

  /** Adding a call that is not a registration. */
  lemma CallAdded(p: Proc, op: Op, a: Answer)
    requires op.Call? && !op.request.body.Registration?
    ensures var (trace, c) := (p.trace + [Action(op, a)], Action(op, a));
            && Calls(trace) == Calls(p.trace) + [c] && Removals(trace) == Removals(p.trace)
            && Prelude(Calls(trace)) == Prelude(Calls(p.trace))
  {
    CallSnoc(p.trace, Action(op, a));
    PreludeSnoc(Calls(p.trace), Action(op, a));
  }

  lemma HeartbeatAddressed(o: Options, p: Proc, a: Answer)
    requires p.pc.SendHeartbeat? && Action(Now, Time(p.pc.sentAt)) in p.trace
    ensures Wants(o, p).Some? && IsHeartbeat(p, Action(Wants(o, p).value, a), p.pc.doc)
  {
    hide Endpoints.NodeEndpoint;
  }

  lemma FetchAddressed(o: Options, p: Proc, a: Answer)
    requires p.pc.FetchDesired?
    ensures Wants(o, p).Some? && IsFetch(Action(Wants(o, p).value, a), p.pc.doc)
  {
    hide Endpoints.NodeEndpoint;
  }

  /** Nothing that follows changes how the identity was found. */
  lemma FoundKept(o: Options, p: Proc, next: Proc, x: Action, doc: StateDocument, before: seq<Action>)
    requires next.trace == p.trace + [x] && next.input == p.input && Removals(next.trace) == Removals(p.trace)
    requires next.core.(heartbeat := p.core.heartbeat, desiredState := p.core.desiredState) == p.core
    ensures FoundIdentity(o, p, doc, before) ==> FoundIdentity(o, next, doc, before)
    ensures TokenWarnings(next) == TokenWarnings(p)
  {
    hide LoadedFrom, IsEnrollment, RegisteredAs, Removals;
    ReadStays(o, p.trace, x);
    if FoundIdentity(o, p, doc, before) && before != [] {
      EnrollmentStays(o, p, next, x, before[0]);
    }
  }

  lemma HeartbeatOutcome(o: Options, w: World, p: Proc, op: Op, a: Answer)
    requires Proceeds(o, w, p, op, a) && p.pc.SendHeartbeat?
    requires p.core.heartbeat == Operation(true, "skipped")
    ensures var next := Advance(o, p, a);
            && next.trace == p.trace + [Action(op, a)] && next.input == p.input
            && next.pc == CheckContext(p.pc.doc)
            && next.core == p.core.(heartbeat := Operation(true, StatusOf(Action(op, a))))
            && next.warnings == p.warnings + CallWarnings("core.heartbeat", Action(op, a))
            && op.Call? && op.request.body.Heartbeat?
  {
    hide NextLoading, NextEnrolling, NextStoring, ParseState, ParseToken, ParseGrant, Fingerprint;
    hide Endpoints.NodeEndpoint;
  }

  lemma HeartbeatLocal(o: Options, w: World, p: Proc, op: Op, a: Answer)
    requires LocalOk(o, p) && Proceeds(o, w, p, op, a) && p.pc.SendHeartbeat?
    ensures LocalOk(o, Advance(o, p, a))
  {
    hide FoundIdentity, TokenWarnings, Faithful, ValidDocument, Advance, Possible, IsHeartbeat, Prelude;
    hide Calls, Removals;
    var next := Advance(o, p, a);
    HeartbeatAddressed(o, p, a);
    HeartbeatOutcome(o, w, p, op, a);
    HeartbeatStays(p, next, Action(op, a), Action(op, a), p.pc.doc);
    CallAdded(p, op, a);
    FoundKept(o, p, next, Action(op, a), p.pc.doc, Prelude(Calls(p.trace)));
  }

  /** Which identity a run that sent its heartbeat used. */
  lemma UsedByIs(o: Options, p: Proc, doc: StateDocument)
    requires ValidDocument(doc) && p.core.nodeId == doc.nodeId
    requires var calls := Calls(p.trace);
             |Prelude(calls)| < |calls| && IsHeartbeat(p, calls[|Prelude(calls)|], doc)
    ensures UsedBy(p) == doc
  {
    hide CoreClient.ValidNodeId, CoreClient.ValidBearer;
  }

  lemma ContextOutcome(o: Options, w: World, p: Proc, op: Op, a: Answer)
    requires Proceeds(o, w, p, op, a) && p.pc.CheckContext?
    ensures var next := Advance(o, p, a);
            && next.trace == p.trace + [Action(op, a)] && next.input == p.input && next.warnings == p.warnings
            && !op.Call? && !op.Remove?
            && (|| (next.pc == Finished(NO_DESIRED_STATE) && next.core == p.core)
                || (next.pc == FetchDesired(p.pc.doc)
                    && next.core == p.core.(desiredState := p.core.desiredState.(attempted := true))))
  {
    hide NextLoading, NextEnrolling, NextStoring, ParseState, ParseToken, ParseGrant, Fingerprint;
  }

  lemma ContextLocal(o: Options, w: World, p: Proc, op: Op, a: Answer)
    requires LocalOk(o, p) && Proceeds(o, w, p, op, a) && p.pc.CheckContext?
    ensures LocalOk(o, Advance(o, p, a))
  {
    hide FoundIdentity, TokenWarnings, GaveUp, StayedOff, ValidDocument, UsedBy, Advance, Possible;
    hide IsHeartbeat, IsFetch, Prelude, Calls, Removals;
    var next := Advance(o, p, a);
    ContextOutcome(o, w, p, op, a);
    QuietSnoc(p.trace, Action(op, a));
    HeartbeatStays(p, next, Action(op, a), Calls(p.trace)[|Prelude(Calls(p.trace))|], p.pc.doc);
    FoundKept(o, p, next, Action(op, a), p.pc.doc, Prelude(Calls(p.trace)));
    FoundRegistered(o, p, p.pc.doc, Prelude(Calls(p.trace)));
    UsedByIs(o, next, p.pc.doc);
    assert next.warnings + [] == next.warnings;
  }

  lemma FoundRegistered(o: Options, p: Proc, doc: StateDocument, before: seq<Action>)
    requires FoundIdentity(o, p, doc, before)
    ensures p.core.registered && p.core.nodeId == doc.nodeId
  {
    hide LoadedFrom, IsEnrollment, RegisteredAs, Removals;
  }

  /** What the answer to the fetch makes of the report. */
  lemma FetchOutcome(o: Options, w: World, p: Proc, op: Op, a: Answer)
    requires Proceeds(o, w, p, op, a) && p.pc.FetchDesired?
    requires p.core.desiredState == Operation(true, "skipped")
    ensures var next := Advance(o, p, a);
            && next.trace == p.trace + [Action(op, a)] && next.input == p.input
            && next.pc == Finished(Returned(a))
            && next.core == p.core.(desiredState := Operation(true, StatusOf(Action(op, a))))
            && next.warnings == p.warnings + CallWarnings("core.desired_state", Action(op, a))
  {
    hide NextLoading, NextEnrolling, NextStoring, ParseState, ParseToken, ParseGrant, Fingerprint;
    hide Endpoints.NodeEndpoint;
  }

  lemma FetchLocal(o: Options, w: World, p: Proc, op: Op, a: Answer)
    requires LocalOk(o, p) && Proceeds(o, w, p, op, a) && p.pc.FetchDesired?
    ensures LocalOk(o, Advance(o, p, a))
  {
    hide FoundIdentity, TokenWarnings, GaveUp, StayedOff, ValidDocument, UsedBy, Advance, Possible;
    hide IsHeartbeat, IsFetch, Prelude, Calls, Removals, Returned;
    var next := Advance(o, p, a);
    FetchAddressed(o, p, a);
    FetchOutcome(o, w, p, op, a);
    CallAdded(p, op, a);
    HeartbeatStays(p, next, Action(op, a), Calls(p.trace)[|Prelude(Calls(p.trace))|], p.pc.doc);
    FoundKept(o, p, next, Action(op, a), p.pc.doc, Prelude(Calls(p.trace)));
    FoundRegistered(o, p, p.pc.doc, Prelude(Calls(p.trace)));
    UsedByIs(o, next, p.pc.doc);
  }

  lemma StepLocal(o: Options, w: World, p: Proc, op: Op, a: Answer)
    requires LocalOk(o, p) && Proceeds(o, w, p, op, a)
    ensures LocalOk(o, Advance(o, p, a))
  {
    hide LocalOk, Advance, Possible;
    match p.pc
    case InspectState => LoadingLocal(o, w, p, op, a);
    case ReadState => LoadingLocal(o, w, p, op, a);
    case ReadMachineId => EnrollingLocal(o, w, p, op, a);
    case InspectToken(_) => EnrollingLocal(o, w, p, op, a);
    case ReadToken(_) => EnrollingLocal(o, w, p, op, a);
    case Register(_, _) => RegisterLocal(o, w, p, op, a);
    case MakeDirectory(_) => PersistLocal(o, w, p, op, a);
    case InspectDirectory(_) => PersistLocal(o, w, p, op, a);
    case MakeTemp(_) => PersistLocal(o, w, p, op, a);
    case ChmodTemp(_, _) => PersistLocal(o, w, p, op, a);
    case EncodeTemp(_, _) => PersistLocal(o, w, p, op, a);
    case SyncTemp(_, _) => PersistLocal(o, w, p, op, a);
    case CloseTemp(_, _) => PersistLocal(o, w, p, op, a);
    case RenameTemp(_, _) => PersistLocal(o, w, p, op, a);
    case AbandonClose(_, _) => PersistLocal(o, w, p, op, a);
    case AbandonRemove(_, _) => PersistLocal(o, w, p, op, a);
    case RemoveToken(_) => RemoveTokenLocal(o, w, p, op, a);
    case ReadClock(_) => ClockLocal(o, w, p, op, a);
    case SendHeartbeat(_, _) => HeartbeatLocal(o, w, p, op, a);
    case CheckContext(_) => ContextLocal(o, w, p, op, a);
    case FetchDesired(_) => FetchLocal(o, w, p, op, a);
    case Finished(_) =>
  }

  predicate AllLocal(o: Options, s: Sys) {
    forall pid :: pid in s.procs ==> LocalOk(o, s.procs[pid])
  }

  lemma EventLocal(o: Options, s: Sys, e: Event)
    requires AllLocal(o, s) && Enabled(o, s, e)
    ensures AllLocal(o, After(o, s, e))
  {
    hide LocalOk, Advance, Possible, Apply, Wants;
    match e
    case Spawn(_, input) => StartLocal(o, input);
    case Act(pid, a) => StepLocal(o, s.world, s.procs[pid], Wants(o, s.procs[pid]).value, a);
    case End(_) =>
  }

  /** Every invocation in every reachable state is where its trace says it is. */
  lemma {:induction false} EveryInvocation(o: Options, s0: Sys, events: seq<Event>)
    requires s0.procs == map[] && Legal(o, s0, events)
    ensures AllLocal(o, Run(o, s0, events))
    decreases |events|
  {
    hide AllLocal, Enabled, After;
    if events == [] {
      EmptyLocal(o, s0);
    } else {
      var n := |events| - 1;
      EveryInvocation(o, s0, events[..n]);
      EventLocal(o, Run(o, s0, events[..n]), events[n]);
    }
  }

  lemma EmptyLocal(o: Options, s: Sys)
    requires s.procs == map[]
    ensures AllLocal(o, s)
  {
  }

  lemma StartLocal(o: Options, input: Input)
    ensures LocalOk(o, Start(input))
  {
  }

  /** The summary is faithful to the trace: in any overlapping, failing and crashing
      invocations, every one that finishes reports exactly what it did. */
  lemma SummaryFaithful(o: Options, s0: Sys, events: seq<Event>, pid: nat)
    requires s0.procs == map[] && Legal(o, s0, events)
    requires pid in Run(o, s0, events).procs && Run(o, s0, events).procs[pid].pc.Finished?
    ensures Faithful(o, Run(o, s0, events).procs[pid])
  {
    hide LocalOk, Faithful, Legal, Run;
    EveryInvocation(o, s0, events);
    FinishedLocal(o, Run(o, s0, events).procs[pid]);
  }

  lemma FinishedLocal(o: Options, p: Proc)
    requires LocalOk(o, p) && p.pc.Finished?
    ensures Faithful(o, p)
  {
    hide Faithful;
  }
}
