/** One invocation of `Synchronizer.Sync` as the sequence of operations it performs: after
    each answer it is known what it will do next. */
module Agent {
  import opened Text
  import opened Inventory
  import opened World
  import Utf8
  import Identifiers
  import StateCodec
  import CoreClient
  import Endpoints
  import Trimming

  type StateDocument = StateCodec.StateDocument

  const STATE_SCHEMA_VERSION := 1
  const WIRE_SCHEMA_VERSION := 1

  /** The configured paths. `sha256Hex` stands for SHA-256 in hexadecimal. */
  datatype Options = Options(
    stateFile: Path,
    stateDirectory: Path,
    tokenFile: Path,
    machineIdFile: Path,
    sha256Hex: Bytes -> Bytes)

  function Reserved(o: Options): set<Path> {
    {o.stateFile, o.stateDirectory, o.tokenFile, o.machineIdFile}
  }

  /** The configured paths name different things. */
  predicate WellConfigured(o: Options) {
    && o.stateFile != o.stateDirectory && o.stateFile != o.tokenFile && o.stateFile != o.machineIdFile
    && o.stateDirectory != o.tokenFile && o.stateDirectory != o.machineIdFile
    && o.tokenFile != o.machineIdFile
  }

  /** What may differ from one invocation to the next. */
  datatype Input = Input(enabled: bool, agentVersion: string, report: Report)

  /** What is done next, with the data it needs. */
  datatype Pc =
    | InspectState
    | ReadState
    | ReadMachineId
    | InspectToken(fingerprint: Bytes)
    | ReadToken(fingerprint: Bytes)
    | Register(fingerprint: Bytes, token: Bytes)
    | MakeDirectory(doc: StateDocument)
    | InspectDirectory(doc: StateDocument)
    | MakeTemp(doc: StateDocument)
    | ChmodTemp(doc: StateDocument, temp: Path)
    | EncodeTemp(doc: StateDocument, temp: Path)
    | SyncTemp(doc: StateDocument, temp: Path)
    | CloseTemp(doc: StateDocument, temp: Path)
    | RenameTemp(doc: StateDocument, temp: Path)
    | AbandonClose(temp: Path, cause: string)
    | AbandonRemove(temp: Path, cause: string)
    | RemoveToken(doc: StateDocument)
    | ReadClock(doc: StateDocument)
    | SendHeartbeat(doc: StateDocument, sentAt: int)
    | CheckContext(doc: StateDocument)
    | FetchDesired(doc: StateDocument)
    | Finished(desired: DesiredState)

  datatype Action = Action(op: Op, answer: Answer)

  /** A running invocation. `trace` is what it did so far. */
  datatype Proc = Proc(pc: Pc, input: Input, core: Core, warnings: seq<Warning>, trace: seq<Action>)

  // ---- the checks made on the way ----

  /** `validateSecretFile` */
  function SecretFileError(info: FileInfo, name: string): Option<string> {
    if info.kind != RegularFile then Some(name + " must be a regular non-symlink file")
    else if Shared(info) then Some(name + " permissions must not grant group or world access")
    else None
  }

  /** What `loadState` makes of the bytes of the state file. */
  function ParseState(data: Bytes): Result<StateDocument, string> {
    match StateCodec.Decode(data)
    case None => Err("parse Core state")
    case Some(doc) =>
      if doc.schemaVersion != STATE_SCHEMA_VERSION then Err("Core state has unsupported schema_version")
      else if !CoreClient.ValidNodeId(doc.nodeId) then Err("Core state contains an invalid node_id")
      else if !CoreClient.ValidBearer(doc.agentToken) then Err("Core state contains an invalid agent_token")
      else Ok(doc)
  }

  /** `loadState` on an undisturbed file. */
  function LoadNode(n: Node): Result<StateDocument, string> {
    match SecretFileError(InfoOf(n), "Core state")
    case Some(text) => Err(text)
    case None =>
      match Contents(n)
      case None => Err("read Core state")
      case Some(data) => ParseState(data)
  }

  predicate AllHex(s: Bytes) { forall i :: 0 <= i < |s| ==> IsHex(s[i]) }

  /** `fingerprint` on the bytes of the machine ID file. */
  function Fingerprint(o: Options, data: Bytes): Result<Bytes, string> {
    var id := Utf8.TrimSpace(data);
    if |id| != 32 || !AllHex(id) then Err("machine ID must contain 32 hexadecimal characters")
    else Ok(o.sha256Hex(Ascii("lts-agent-registration-v1:") + ToLower(id)))
  }

  /** `readSecret` on the bytes of the token file. */
  function ParseToken(data: Bytes): Result<Bytes, string> {
    var token := Utf8.TrimSpace(data);
    if CoreClient.ValidBearer(token) then Ok(token) else Err("enrollment token is invalid")
  }

  /** The document to be stored for a registration response. */
  function ParseGrant(g: Grant): Result<StateDocument, string> {
    if g.schemaVersion != WIRE_SCHEMA_VERSION then Err("registration response has unsupported schema_version")
    else if !CoreClient.ValidNodeId(g.nodeId) then Err("registration response contains an invalid node_id")
    else if !CoreClient.ValidBearer(g.agentToken) then Err("registration response contains an invalid agent_token")
    else Ok(StateCodec.StateDocument(STATE_SCHEMA_VERSION, g.nodeId, g.agentToken))
  }

  function DirectoryError(info: FileInfo): Option<string> {
    if info.kind != ADirectory then Some("state directory must be a non-symlink directory")
    else if Shared(info) then Some("state directory permissions must not grant group or world access")
    else None
  }

  /** `sanitizeError`: of an HTTP error only the status is told. */
  function Sanitize(e: ClientError): Message {
    match e
    case Http(status, _) => HttpStatus(status)
    case Other(text) => Plain(text)
  }

  /** The report as it is sent: without the results of synchronization. */
  function Snapshot(r: Report): Report {
    r.(core := None, desiredState := None)
  }

  // ---- requests ----

  function RegistrationRequest(p: Proc, fingerprint: Bytes, token: Bytes): Request {
    Request(POST, Endpoints.REGISTRATION, token,
            Registration(WIRE_SCHEMA_VERSION, fingerprint, p.input.agentVersion, Snapshot(p.input.report)))
  }

  function HeartbeatRequest(p: Proc, doc: StateDocument, sentAt: int): Request {
    Request(POST, Endpoints.NodeEndpoint(doc.nodeId, Endpoints.HEARTBEAT), doc.agentToken,
            Heartbeat(WIRE_SCHEMA_VERSION, sentAt, p.input.agentVersion, Snapshot(p.input.report)))
  }

  function DesiredRequest(doc: StateDocument): Request {
    Request(GET, Endpoints.NodeEndpoint(doc.nodeId, Endpoints.DESIRED_STATE), doc.agentToken, NoBody)
  }

  // ---- the workflow ----

  const DISABLED_CORE :=
    Core(false, false, [], Operation(false, "disabled"), Operation(false, "disabled"), Operation(false, "disabled"))

  const INITIAL_CORE :=
    Core(true, false, [], Operation(false, "not_needed"), Operation(false, "skipped"), Operation(false, "skipped"))

  function Start(input: Input): Proc {
    if input.enabled then Proc(InspectState, input, INITIAL_CORE, [], [])
    else Proc(Finished(NO_DESIRED_STATE), input, DISABLED_CORE, [], [])
  }

  /** The operation a running invocation performs next; none once it has finished. */
  function Wants(o: Options, p: Proc): Option<Op> {
    match p.pc
    case InspectState => Some(Lstat(o.stateFile))
    case ReadState => Some(ReadFile(o.stateFile))
    case ReadMachineId => Some(ReadFile(o.machineIdFile))
    case InspectToken(_) => Some(Lstat(o.tokenFile))
    case ReadToken(_) => Some(ReadFile(o.tokenFile))
    case Register(fingerprint, token) => Some(Call(RegistrationRequest(p, fingerprint, token)))
    case MakeDirectory(_) => Some(MkdirAll(o.stateDirectory))
    case InspectDirectory(_) => Some(Lstat(o.stateDirectory))
    case MakeTemp(_) => Some(CreateTemp(o.stateDirectory))
    case ChmodTemp(_, temp) => Some(Chmod(temp))
    case EncodeTemp(doc, temp) => Some(Encode(temp, StateCodec.Encode(doc)))
    case SyncTemp(_, temp) => Some(Fsync(temp))
    case CloseTemp(_, temp) => Some(Close(temp))
    case RenameTemp(_, temp) => Some(Rename(temp, o.stateFile))
    case AbandonClose(temp, _) => Some(Close(temp))
    case AbandonRemove(temp, _) => Some(Remove(temp))
    case RemoveToken(_) => Some(Remove(o.tokenFile))
    case ReadClock(_) => Some(Now)
    case SendHeartbeat(doc, sentAt) => Some(Call(HeartbeatRequest(p, doc, sentAt)))
    case CheckContext(_) => Some(ContextErr)
    case FetchDesired(doc) => Some(Call(DesiredRequest(doc)))
    case Finished(_) => None
  }

  /** The text of an answer that is an error. */
  function ErrorText(a: Answer): string {
    match a
    case Failed(text) => text
    case PartlyWritten(_, text) => text
    case NotExist => "file does not exist"
    case _ => ""
  }

  function FailState(p: Proc, text: string): Proc {
    p.(pc := Finished(NO_DESIRED_STATE),
       core := p.core.(registration := p.core.registration.(status := "failed")),
       warnings := [Warning("core.state", Plain(text))])
  }

  function FailRegistration(p: Proc, m: Message): Proc {
    p.(pc := Finished(NO_DESIRED_STATE), warnings := [Warning("core.registration", m)])
  }

  function FailPersist(p: Proc, text: string): Proc {
    FailRegistration(p, Plain("persist Core state: " + text))
  }

  function BeginRegistration(p: Proc): Proc {
    p.(pc := ReadMachineId, core := p.core.(registration := Operation(true, "failed")))
  }

  /** The identity is known, from the state file or from a stored registration. */
  function Identify(p: Proc, doc: StateDocument, pc: Pc): Proc {
    p.(pc := pc, core := p.core.(registered := true, nodeId := doc.nodeId))
  }

  function Persisted(p: Proc, doc: StateDocument): Proc {
    Identify(p.(core := p.core.(registration := p.core.registration.(status := "succeeded"))), doc, RemoveToken(doc))
  }

  function EndHeartbeat(p: Proc, doc: StateDocument, a: Answer): Proc {
    match a
    case Rejected(e, _) =>
      p.(pc := CheckContext(doc), core := p.core.(heartbeat := p.core.heartbeat.(status := "failed")),
         warnings := p.warnings + [Warning("core.heartbeat", Sanitize(e))])
    case _ =>
      p.(pc := CheckContext(doc), core := p.core.(heartbeat := p.core.heartbeat.(status := "succeeded")))
  }

  function EndDesired(p: Proc, a: Answer): Proc {
    match a
    case Desired(document) =>
      p.(pc := Finished(Identifiers.Reported(document)),
         core := p.core.(desiredState := p.core.desiredState.(status := "succeeded")))
    case Rejected(e, _) =>
      p.(pc := Finished(NO_DESIRED_STATE), core := p.core.(desiredState := p.core.desiredState.(status := "failed")),
         warnings := p.warnings + [Warning("core.desired_state", Sanitize(e))])
    case _ => p
  }

  /** `loadState` */
  predicate InLoading(pc: Pc) { pc.InspectState? || pc.ReadState? }

  /** `register`, up to the answer of Core */
  predicate InEnrolling(pc: Pc) {
    pc.ReadMachineId? || pc.InspectToken? || pc.ReadToken? || pc.Register?
  }

  /** `writeState` */
  predicate InStoring(pc: Pc) {
    || pc.MakeDirectory? || pc.InspectDirectory? || pc.MakeTemp?
    || pc.ChmodTemp? || pc.EncodeTemp? || pc.SyncTemp? || pc.CloseTemp? || pc.RenameTemp?
    || pc.AbandonClose? || pc.AbandonRemove?
  }

  /** The effect of an answer on the workflow. */
  function Next(o: Options, p: Proc, a: Answer): Proc {
    if InLoading(p.pc) then NextLoading(p, a)
    else if InEnrolling(p.pc) then NextEnrolling(o, p, a)
    else if InStoring(p.pc) then NextStoring(p, a)
    else NextReporting(p, a)
  }

  function NextLoading(p: Proc, a: Answer): Proc
    requires InLoading(p.pc)
  {
    match p.pc
    case InspectState =>
      (match a
       case NotExist => BeginRegistration(p)
       case Info(info) =>
         (match SecretFileError(info, "Core state")
          case Some(text) => FailState(p, text)
          case None => p.(pc := ReadState))
       case _ => FailState(p, "inspect Core state: " + ErrorText(a)))
    case ReadState =>
      (match a
       case Data(data) =>
         (match ParseState(data)
          case Ok(doc) => Identify(p, doc, ReadClock(doc))
          case Err(text) => FailState(p, text))
       case _ => FailState(p, "read Core state: " + ErrorText(a)))
  }

  function NextEnrolling(o: Options, p: Proc, a: Answer): Proc
    requires InEnrolling(p.pc)
  {
    match p.pc
    case ReadMachineId =>
      (match a
       case Data(data) =>
         (match Fingerprint(o, data)
          case Ok(fingerprint) => p.(pc := InspectToken(fingerprint))
          case Err(text) => FailRegistration(p, Plain(text)))
       case _ => FailRegistration(p, Plain("read machine ID: " + ErrorText(a))))
    case InspectToken(fingerprint) =>
      (match a
       case Info(info) =>
         (match SecretFileError(info, "enrollment token")
          case Some(text) => FailRegistration(p, Plain(text))
          case None => p.(pc := ReadToken(fingerprint)))
       case _ => FailRegistration(p, Plain("inspect enrollment token: " + ErrorText(a))))
    case ReadToken(fingerprint) =>
      (match a
       case Data(data) =>
         (match ParseToken(data)
          case Ok(token) => p.(pc := Register(fingerprint, token))
          case Err(text) => FailRegistration(p, Plain(text)))
       case _ => FailRegistration(p, Plain("read enrollment token: " + ErrorText(a))))
    case Register(_, _) =>
      (match a
       case Granted(grant) =>
         (match ParseGrant(grant)
          case Ok(doc) => p.(pc := MakeDirectory(doc))
          case Err(text) => FailRegistration(p, Plain(text)))
       case Rejected(e, _) => FailRegistration(p, Sanitize(e))
       case _ => p)
  }

  function NextStoring(p: Proc, a: Answer): Proc
    requires InStoring(p.pc)
  {
    match p.pc
    case MakeDirectory(doc) =>
      if a.Done? || a.Made? then p.(pc := InspectDirectory(doc)) else FailPersist(p, ErrorText(a))
    case InspectDirectory(doc) =>
      (match a
       case Info(info) =>
         (match DirectoryError(info)
          case Some(text) => FailPersist(p, text)
          case None => p.(pc := MakeTemp(doc)))
       case _ => FailPersist(p, ErrorText(a)))
    case MakeTemp(doc) =>
      if a.Temp? then p.(pc := ChmodTemp(doc, a.path)) else FailPersist(p, ErrorText(a))
    case ChmodTemp(doc, temp) =>
      p.(pc := if a.Done? then EncodeTemp(doc, temp) else AbandonClose(temp, ErrorText(a)))
    case EncodeTemp(doc, temp) =>
      p.(pc := if a.Done? then SyncTemp(doc, temp) else AbandonClose(temp, ErrorText(a)))
    case SyncTemp(doc, temp) =>
      p.(pc := if a.Done? then CloseTemp(doc, temp) else AbandonClose(temp, ErrorText(a)))
    case CloseTemp(doc, temp) =>
      p.(pc := if a.Done? then RenameTemp(doc, temp) else AbandonClose(temp, ErrorText(a)))
    case RenameTemp(doc, temp) =>
      if a.Done? then Persisted(p, doc) else p.(pc := AbandonClose(temp, ErrorText(a)))
    case AbandonClose(temp, cause) => p.(pc := AbandonRemove(temp, cause))
    case AbandonRemove(_, cause) => FailPersist(p, cause)
  }

  /** Once the identity is known, and after the end. */
  function NextReporting(p: Proc, a: Answer): Proc
    requires !InLoading(p.pc) && !InEnrolling(p.pc) && !InStoring(p.pc)
  {
    match p.pc
    case RemoveToken(doc) =>
      if a.Failed? then
        p.(pc := ReadClock(doc),
           warnings := p.warnings + [Warning("core.enrollment", Plain("remove consumed enrollment token: " + a.text))])
      else p.(pc := ReadClock(doc))
    case ReadClock(doc) =>
      (match a
       case Time(at) =>
         p.(pc := SendHeartbeat(doc, at), core := p.core.(heartbeat := p.core.heartbeat.(attempted := true)))
       case _ => p)
    case SendHeartbeat(doc, _) => EndHeartbeat(p, doc, a)
    case CheckContext(doc) =>
      (match a
       case Cancelled(cancelled) =>
         if cancelled then p.(pc := Finished(NO_DESIRED_STATE))
         else p.(pc := FetchDesired(doc), core := p.core.(desiredState := p.core.desiredState.(attempted := true)))
       case _ => p)
    case FetchDesired(_) => EndDesired(p, a)
    case Finished(_) => p
  }

  /** One operation of a running invocation, recorded. */
  function Advance(o: Options, p: Proc, a: Answer): Proc {
    match Wants(o, p)
    case None => p
    case Some(op) => Next(o, p, a).(trace := p.trace + [Action(op, a)])
  }

  // ---- what a registration leaves for the next run ----

  predicate ValidDocument(doc: StateDocument) {
    && doc.schemaVersion == STATE_SCHEMA_VERSION
    && CoreClient.ValidNodeId(doc.nodeId)
    && CoreClient.ValidBearer(doc.agentToken)
  }

  /** The file that storing `doc` makes. */
  function StateFile(doc: StateDocument): Node {
    File(OWNER_ONLY, StateCodec.Encode(doc))
  }

  /** What registration stores, the next run's `loadState` reads back: the permission,
      schema, node ID and token checks all pass and the document is the same, for every
      node ID of the grammar and every acceptable token, quotes and backslashes included. */
  lemma StoredStateLoads(doc: StateDocument)
    requires ValidDocument(doc)
    ensures LoadNode(StateFile(doc)) == Ok(doc)
  {
    hide ParseState, StateCodec.Encode;
    StoredStateParses(doc);
    LoadFile(OWNER_ONLY, StateCodec.Encode(doc));
  }

  lemma LoadFile(perm: nat, data: Bytes)
    requires perm % 64 == 0
    ensures LoadNode(File(perm, data)) == ParseState(data)
  {
  }

  lemma StoredStateParses(doc: StateDocument)
    requires ValidDocument(doc)
    ensures ParseState(StateCodec.Encode(doc)) == Ok(doc)
  {
    Utf8.AsciiValid(doc.nodeId);
    Utf8.AsciiValid(doc.agentToken);
    StateCodec.DocumentRoundTrip(doc);
  }

  lemma GrantIsValid(g: Grant)
    ensures ParseGrant(g).Ok? <==> ValidDocument(StateCodec.StateDocument(g.schemaVersion, g.nodeId, g.agentToken))
    ensures ParseGrant(g).Ok? ==>
              ParseGrant(g).value == StateCodec.StateDocument(g.schemaVersion, g.nodeId, g.agentToken)
  {
  }

  /** The state file decides: only a valid document identifies the node. */
  lemma LoadedIsValid(n: Node)
    ensures LoadNode(n).Ok? <==>
              && n.File? && n.perm % 64 == 0
              && StateCodec.Decode(n.data).Some? && ValidDocument(StateCodec.Decode(n.data).value)
    ensures LoadNode(n).Ok? ==> Some(LoadNode(n).value) == StateCodec.Decode(n.data)
  {
  }

  /** The fingerprint ignores the letter case of the machine ID and the space around it. */
  lemma FingerprintIgnoresCase(o: Options, before: Bytes, id: Bytes, after: Bytes,
                               before': Bytes, id': Bytes, after': Bytes)
    requires Trimming.Blank(before) && Trimming.Blank(after)
    requires Trimming.Blank(before') && Trimming.Blank(after')
    requires ToLower(id) == ToLower(id')
    ensures Fingerprint(o, before + id + after) == Fingerprint(o, before' + id' + after')
  {
    hide Utf8.TrimSpace;
    Trimming.TrimAround(before, id, after);
    Trimming.TrimAround(before', id', after');
    Trimming.TrimLower(id);
    Trimming.TrimLower(id');
    LowerHex(Utf8.TrimSpace(id));
    LowerHex(Utf8.TrimSpace(id'));
  }

  lemma LowerHex(id: Bytes)
    ensures |ToLower(id)| == |id| && (AllHex(ToLower(id)) <==> AllHex(id))
  {
    var low := ToLower(id);
    forall i | 0 <= i < |id| ensures IsHex(id[i]) <==> IsHex(low[i]) {
      assert low[i] == Lower(id[i]);
    }
  }
}
