/** What the promises do not say: histories in which they need their conditions. */
module Witnesses {
  import opened Text
  import opened World
  import opened Agent
  import opened Runs
  import CoreClient
  import StateCodec

  /** Some legal history leads from `s` to `s'`. */
  ghost predicate Leads(o: Options, s: Sys, s': Sys) {
    exists events :: Legal(o, s, events) && Run(o, s, events) == s'
  }

  lemma LeadsNowhere(o: Options, s: Sys)
    ensures Leads(o, s, s)
  {
    assert Legal(o, s, []) && Run(o, s, []) == s;
  }

  lemma LeadsOn(o: Options, s0: Sys, s: Sys, e: Event)
    requires Leads(o, s0, s) && Enabled(o, s, e)
    ensures Leads(o, s0, After(o, s, e))
  {
    hide Enabled, After;
    var events :| Legal(o, s0, events) && Run(o, s0, events) == s;
    var more := events + [e];
    assert more[..|events|] == events && more[|events|] == e;
    assert Legal(o, s0, more) && Run(o, s0, more) == After(o, s, e);
  }

  /** A machine on which registration can succeed. */
  predicate Ready(o: Options, fs: map<Path, Node>) {
    && WellConfigured(o)
    && o.stateFile !in fs
    && o.stateDirectory in fs && fs[o.stateDirectory].Directory? && fs[o.stateDirectory].perm % 64 == 0
    && o.tokenFile in fs && fs[o.tokenFile].File? && fs[o.tokenFile].perm % 64 == 0
    && ParseToken(fs[o.tokenFile].data).Ok?
    && o.machineIdFile in fs && fs[o.machineIdFile].File?
    && Fingerprint(o, fs[o.machineIdFile].data).Ok?
  }

  /** Invocation `pid` of `s`, reached from `s0`, stands at `pc`. */
  ghost predicate Stands(o: Options, s0: Sys, s: Sys, pid: nat, pc: Pc) {
    Leads(o, s0, s) && pid in s.procs && s.procs[pid].pc == pc
  }

  /** One operation of one invocation. */
  lemma Moves(o: Options, s0: Sys, s: Sys, pid: nat, pc: Pc, op: Op, a: Answer) returns (s': Sys)
    requires Stands(o, s0, s, pid, pc)
    requires Wants(o, s.procs[pid]) == Some(op) && Possible(Reserved(o), s.world, op, a)
    ensures Stands(o, s0, s', pid, Next(o, s.procs[pid], a).pc)
    ensures s'.world == Apply(s.world, op, a)
    ensures s'.procs - {pid} == s.procs - {pid}
  {
    hide Next, Wants, Possible, Apply, Leads;
    s' := After(o, s, Act(pid, a));
    LeadsOn(o, s0, s, Act(pid, a));
  }

  /** An invocation that finds no state, but a token and a machine ID, can come to the
      point of registering. */
  lemma Enrolls(o: Options, s0: Sys, s: Sys, pid: nat, input: Input) returns (s': Sys)
    requires Leads(o, s0, s) && pid !in s.procs && input.enabled && Ready(o, s.world.fs)
    ensures Leads(o, s0, s') && pid in s'.procs && s'.procs[pid].pc.Register?
    ensures s'.world == s.world && s'.procs - {pid} == s.procs - {pid}
  {
    hide Leads, Ready;
    s' := FindsNothing(o, s0, s, pid, input);
    s' := FindsToken(o, s0, s', pid);
  }

  lemma FindsNothing(o: Options, s0: Sys, s: Sys, pid: nat, input: Input) returns (s': Sys)
    requires Leads(o, s0, s) && pid !in s.procs && input.enabled && Ready(o, s.world.fs)
    ensures Stands(o, s0, s', pid, ReadMachineId)
    ensures s'.world == s.world && s'.procs - {pid} == s.procs - {pid}
  {
    hide NextEnrolling, NextStoring, NextReporting, RegistrationRequest, HeartbeatRequest, DesiredRequest;
    hide ErrorText, StateCodec.Encode, Leads, ParseToken, Fingerprint, ParseState, SecretFileError;
    s' := After(o, s, Spawn(pid, input));
    LeadsOn(o, s0, s, Spawn(pid, input));
    s' := Moves(o, s0, s', pid, InspectState, Lstat(o.stateFile), NotExist);
  }

  lemma FindsToken(o: Options, s0: Sys, s: Sys, pid: nat) returns (s': Sys)
    requires Stands(o, s0, s, pid, ReadMachineId) && Ready(o, s.world.fs)
    ensures Leads(o, s0, s') && pid in s'.procs && s'.procs[pid].pc.Register?
    ensures s'.world == s.world && s'.procs - {pid} == s.procs - {pid}
  {
    hide NextLoading, NextStoring, NextReporting, RegistrationRequest, HeartbeatRequest, DesiredRequest;
    hide ParseGrant, Sanitize, ErrorText, StateCodec.Encode, Leads, ParseToken, Fingerprint;
    var fs := s.world.fs;
    var id := fs[o.machineIdFile].data;
    s' := Moves(o, s0, s, pid, ReadMachineId, ReadFile(o.machineIdFile), Data(id));
    var fingerprint := Fingerprint(o, id).value;
    s' := Moves(o, s0, s', pid, InspectToken(fingerprint), Lstat(o.tokenFile), Info(InfoOf(fs[o.tokenFile])));
    s' := Moves(o, s0, s', pid, ReadToken(fingerprint), ReadFile(o.tokenFile), Data(fs[o.tokenFile].data));
  }

  /** Core can then grant any valid identity, and everything can be made ready for it. */
  lemma Stores(o: Options, s0: Sys, s: Sys, pid: nat, doc: StateDocument, temp: Path) returns (s': Sys)
    requires Leads(o, s0, s) && pid in s.procs && s.procs[pid].pc.Register? && Ready(o, s.world.fs)
    requires ValidDocument(doc) && temp !in s.world.fs && temp !in Reserved(o)
    ensures Stands(o, s0, s', pid, RenameTemp(doc, temp))
    ensures s'.world.fs == s.world.fs[temp := StateFile(doc)] && s'.procs - {pid} == s.procs - {pid}
  {
    hide Leads, Ready, ValidDocument, StateFile;
    s' := IsGranted(o, s0, s, pid, doc);
    s' := Prepares(o, s0, s', pid, doc, temp);
    s' := Writes(o, s0, s', pid, doc, temp);
    s' := Closes(o, s0, s', pid, doc, temp);
  }

  lemma IsGranted(o: Options, s0: Sys, s: Sys, pid: nat, doc: StateDocument) returns (s': Sys)
    requires Leads(o, s0, s) && pid in s.procs && s.procs[pid].pc.Register? && ValidDocument(doc)
    ensures Stands(o, s0, s', pid, MakeDirectory(doc))
    ensures s'.world.fs == s.world.fs && s'.procs - {pid} == s.procs - {pid}
  {
    hide NextLoading, NextStoring, NextReporting, ParseToken, Fingerprint, SecretFileError, ErrorText;
    hide HeartbeatRequest, DesiredRequest, Leads, ValidDocument, StateCodec.Encode, ParseGrant;
    var pc := s.procs[pid].pc;
    var grant := Grant(WIRE_SCHEMA_VERSION, doc.nodeId, doc.agentToken);
    GrantOf(doc);
    s' := Moves(o, s0, s, pid, pc, Call(RegistrationRequest(s.procs[pid], pc.fingerprint, pc.token)), Granted(grant));
  }

  lemma GrantOf(doc: StateDocument)
    requires ValidDocument(doc)
    ensures ParseGrant(Grant(WIRE_SCHEMA_VERSION, doc.nodeId, doc.agentToken)) == Ok(doc)
  {
    hide CoreClient.ValidNodeId, CoreClient.ValidBearer;
  }

  lemma Prepares(o: Options, s0: Sys, s: Sys, pid: nat, doc: StateDocument, temp: Path) returns (s': Sys)
    requires Stands(o, s0, s, pid, MakeDirectory(doc)) && Ready(o, s.world.fs)
    requires temp !in s.world.fs && temp !in Reserved(o)
    ensures Stands(o, s0, s', pid, ChmodTemp(doc, temp))
    ensures s'.world.fs == s.world.fs[temp := File(OWNER_ONLY, [])] && s'.procs - {pid} == s.procs - {pid}
  {
    hide NextLoading, NextEnrolling, NextReporting, ErrorText, RegistrationRequest, HeartbeatRequest;
    hide DesiredRequest, StateCodec.Encode, Leads, ParseToken, Fingerprint;
    s' := Moves(o, s0, s, pid, MakeDirectory(doc), MkdirAll(o.stateDirectory), Done);
    var info := Info(InfoOf(s.world.fs[o.stateDirectory]));
    s' := Moves(o, s0, s', pid, InspectDirectory(doc), Lstat(o.stateDirectory), info);
    s' := Moves(o, s0, s', pid, MakeTemp(doc), CreateTemp(o.stateDirectory), Temp(temp, OWNER_ONLY));
  }

  lemma Writes(o: Options, s0: Sys, s: Sys, pid: nat, doc: StateDocument, temp: Path) returns (s': Sys)
    requires Stands(o, s0, s, pid, ChmodTemp(doc, temp))
    requires temp in s.world.fs && s.world.fs[temp] == File(OWNER_ONLY, [])
    ensures Stands(o, s0, s', pid, SyncTemp(doc, temp))
    ensures s'.world.fs == s.world.fs[temp := StateFile(doc)] && s'.procs - {pid} == s.procs - {pid}
  {
    hide NextLoading, NextEnrolling, NextReporting, ParseToken, Fingerprint, DirectoryError, ErrorText;
    hide RegistrationRequest, HeartbeatRequest, DesiredRequest, Leads, StateCodec.Encode;
    s' := Moves(o, s0, s, pid, ChmodTemp(doc, temp), Chmod(temp), Done);
    s' := Moves(o, s0, s', pid, EncodeTemp(doc, temp), Encode(temp, StateCodec.Encode(doc)), Done);
    assert [] + StateCodec.Encode(doc) == StateCodec.Encode(doc);
  }

  lemma Closes(o: Options, s0: Sys, s: Sys, pid: nat, doc: StateDocument, temp: Path) returns (s': Sys)
    requires Stands(o, s0, s, pid, SyncTemp(doc, temp))
    ensures Stands(o, s0, s', pid, RenameTemp(doc, temp))
    ensures s'.world == s.world && s'.procs - {pid} == s.procs - {pid}
  {
    hide NextLoading, NextEnrolling, NextReporting, ParseToken, Fingerprint, DirectoryError, ErrorText;
    hide RegistrationRequest, HeartbeatRequest, DesiredRequest, Leads;
    s' := Moves(o, s0, s, pid, SyncTemp(doc, temp), Fsync(temp), Done);
    s' := Moves(o, s0, s', pid, CloseTemp(doc, temp), Close(temp), Done);
  }

  lemma Installs(o: Options, s0: Sys, s: Sys, pid: nat, doc: StateDocument, temp: Path) returns (s': Sys)
    requires Stands(o, s0, s, pid, RenameTemp(doc, temp)) && temp !in Reserved(o)
    requires temp in s.world.fs && s.world.fs[temp] == StateFile(doc)
    requires o.stateFile in s.world.fs ==> s.world.fs[o.stateFile].File?
    ensures Stands(o, s0, s', pid, RemoveToken(doc))
    ensures s'.world.fs == (s.world.fs - {temp})[o.stateFile := StateFile(doc)] && s'.procs - {pid} == s.procs - {pid}
  {
    hide NextLoading, NextEnrolling, NextReporting, ErrorText, RegistrationRequest, HeartbeatRequest;
    hide DesiredRequest, StateCodec.Encode, Leads, StateFile;
    assert s.world.fs[temp].File? by { StoredIsFile(doc); }
    s' := Moves(o, s0, s, pid, RenameTemp(doc, temp), Rename(temp, o.stateFile), Done);
  }

  lemma StoredIsFile(doc: StateDocument)
    ensures StateFile(doc).File?
  {
  }

  /** Two runs that overlap can both be about to store an identity. */
  lemma BothAboutToStore(o: Options, w0: World, input: Input,
                         first: StateDocument, second: StateDocument, t1: Path, t2: Path) returns (s: Sys)
    requires Ready(o, w0.fs) && input.enabled && ValidDocument(first) && ValidDocument(second)
    requires t1 !in w0.fs && t2 !in w0.fs && t1 != t2 && t1 !in Reserved(o) && t2 !in Reserved(o)
    ensures Stands(o, Sys(w0, map[]), s, 0, RenameTemp(first, t1))
    ensures Stands(o, Sys(w0, map[]), s, 1, RenameTemp(second, t2))
    ensures s.world.fs == w0.fs[t1 := StateFile(first)][t2 := StateFile(second)]
  {
    hide Leads, StateFile, ValidDocument, ParseToken, Fingerprint;
    var s0 := Sys(w0, map[]);
    LeadsNowhere(o, s0);
    var one := Enrolls(o, s0, s0, 0, input);
    assert 1 !in one.procs by { assert 1 !in one.procs - {0}; }
    var both := Enrolls(o, s0, one, 1, input);
    assert both.procs[0] == one.procs[0] by { assert 0 in both.procs - {1}; }
    var a := Stores(o, s0, both, 0, first, t1);
    assert a.procs[1] == both.procs[1] by { assert 1 in a.procs - {0}; }
    s := Stores(o, s0, a, 1, second, t2);
    assert s.procs[0] == a.procs[0] by { assert 0 in s.procs - {1}; }
  }

  /** Identity stability needs runs that do not overlap: of two that do, the one that
      renames last replaces the identity the other has stored. */
  lemma OverlapReplacesIdentity(o: Options, w0: World, input: Input,
                                first: StateDocument, second: StateDocument, t1: Path, t2: Path)
    requires Ready(o, w0.fs) && input.enabled && ValidDocument(first) && ValidDocument(second)
    requires t1 !in w0.fs && t2 !in w0.fs && t1 != t2 && t1 !in Reserved(o) && t2 !in Reserved(o)
    ensures exists s1, s2 ::
              && Leads(o, Sys(w0, map[]), s1) && Leads(o, s1, s2)
              && o.stateFile in s1.world.fs && LoadNode(s1.world.fs[o.stateFile]) == Ok(first)
              && o.stateFile in s2.world.fs && LoadNode(s2.world.fs[o.stateFile]) == Ok(second)
  {
    hide Leads, StateFile, LoadNode, ValidDocument, ParseToken, Fingerprint;
    var s0 := Sys(w0, map[]);
    var s := BothAboutToStore(o, w0, input, first, second, t1, t2);
    var s1 := Installs(o, s0, s, 0, first, t1);
    assert s1.procs[1] == s.procs[1] by { assert 1 in s1.procs - {0}; }
    LeadsNowhere(o, s1);
    StoredIsFile(first);
    var s2 := Installs(o, s1, s1, 1, second, t2);
    StoredStateLoads(first);
    StoredStateLoads(second);
    assert LoadNode(s1.world.fs[o.stateFile]) == Ok(first);
    assert LoadNode(s2.world.fs[o.stateFile]) == Ok(second);
  }

  lemma ReadyConfigured(o: Options, fs: map<Path, Node>)
    requires Ready(o, fs)
    ensures WellConfigured(o) && o.tokenFile in fs && o.stateFile !in fs
  {
  }

  /** A run that is killed between storing the identity and removing the token. */
  lemma DiesHoldingToken(o: Options, w0: World, input: Input, doc: StateDocument, temp: Path) returns (s1: Sys)
    requires Ready(o, w0.fs) && input.enabled && ValidDocument(doc)
    requires temp !in w0.fs && temp !in Reserved(o)
    ensures Leads(o, Sys(w0, map[]), s1) && s1.procs == map[]
    ensures o.stateFile in s1.world.fs && s1.world.fs[o.stateFile] == StateFile(doc)
    ensures o.tokenFile in s1.world.fs && s1.world.fs[o.tokenFile] == w0.fs[o.tokenFile]
  {
    hide Leads, StateFile, ValidDocument, ParseToken, Fingerprint;
    var s0 := Sys(w0, map[]);
    LeadsNowhere(o, s0);
    var s := Enrolls(o, s0, s0, 0, input);
    s := Stores(o, s0, s, 0, doc, temp);
    s := Installs(o, s0, s, 0, doc, temp);
    s1 := After(o, s, End(0));
    LeadsOn(o, s0, s, End(0));
    assert s1.procs == map[] by { assert s.procs - {0} == s0.procs - {0} == map[]; }
  }

  /** A removed token is not promised. A run killed between storing the identity and
      removing the token leaves it, and no later run ever removes it. */
  lemma TokenMayStayForever(o: Options, w0: World, input: Input, doc: StateDocument, temp: Path)
    requires Ready(o, w0.fs) && input.enabled && ValidDocument(doc)
    requires temp !in w0.fs && temp !in Reserved(o)
    ensures exists s1 ::
              && Leads(o, Sys(w0, map[]), s1) && s1.procs == map[]
              && o.stateFile in s1.world.fs && LoadNode(s1.world.fs[o.stateFile]) == Ok(doc)
              && forall events :: Legal(o, s1, events) ==>
                   var fs := Run(o, s1, events).world.fs;
                   o.tokenFile in fs && fs[o.tokenFile] == w0.fs[o.tokenFile]
  {
    hide Leads, StateFile, LoadNode, ValidDocument, Ready, Legal, Run, Addressed;
    var s1 := DiesHoldingToken(o, w0, input, doc, temp);
    StoredStateLoads(doc);
    ReadyConfigured(o, w0.fs);
    forall events | Legal(o, s1, events)
      ensures var fs := Run(o, s1, events).world.fs; o.tokenFile in fs && fs[o.tokenFile] == w0.fs[o.tokenFile]
    {
      IdentityStable(o, s1, events);
    }
    assert LoadNode(s1.world.fs[o.stateFile]) == Ok(doc);
  }
}
