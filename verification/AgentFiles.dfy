/** What the agent takes from its files, over their bytes: the identity in the state file,
    the fingerprint of the machine ID file and the bearer in the token file. */
module AgentFiles {
  import opened Text
  import opened World
  import opened Agent
  import opened Runs
  import opened Trimming
  import Utf8
  import CoreClient
  import StateCodec
  import StateTexts

  predicate MachineId(id: Bytes) { |id| == 32 && AllHex(id) }

  /** `low` is `id` with its capital letters made small. */
  predicate LowerForm(low: Bytes, id: Bytes) {
    && |low| == |id|
    && forall i :: 0 <= i < |id| ==> low[i] == if 0x41 <= id[i] <= 0x5a then id[i] + 0x20 else id[i]
  }

  /** The file holds `id` and blank text around it. */
  ghost predicate HoldsId(data: Bytes, id: Bytes) { MachineId(id) && Within(data, id) }

  lemma HexTrimmed(id: Bytes)
    requires id != [] && AllHex(id)
    ensures Trimmed(id)
  {
    assert IsHex(id[0]) && IsHex(id[|id| - 1]);
  }

  lemma LowerForms(low: Bytes, id: Bytes)
    ensures LowerForm(low, id) <==> low == ToLower(id)
  {
  }

  /** The fingerprint is the hash of the prefix and the ID in small letters. */
  lemma FingerprintOf(o: Options, data: Bytes, id: Bytes, low: Bytes)
    requires HoldsId(data, id) && LowerForm(low, id)
    ensures Fingerprint(o, data) == Ok(o.sha256Hex(Ascii("lts-agent-registration-v1:") + low))
  {
    hide Trimmed, Within, Utf8.TrimSpace;
    HexTrimmed(id);
    TrimSpaceIff(data, id);
    LowerForms(low, id);
  }

  /** There is one exactly if the file holds 32 hexadecimal digits and otherwise space. */
  lemma FingerprintIff(o: Options, data: Bytes)
    ensures Fingerprint(o, data).Ok? <==> exists id :: HoldsId(data, id)
  {
    hide Trimmed, Within, Utf8.TrimSpace;
    TrimSpaceIff(data, Utf8.TrimSpace(data));
    if Fingerprint(o, data).Ok? {
      assert HoldsId(data, Utf8.TrimSpace(data));
    }
    if id :| HoldsId(data, id) {
      FingerprintOf(o, data, id, ToLower(id));
    }
  }

  predicate SameButCase(a: Bytes, b: Bytes) {
    && |a| == |b|
    && forall i :: 0 <= i < |a| ==>
         || a[i] == b[i]
         || (0x41 <= a[i] <= 0x5a && b[i] == a[i] + 0x20)
         || (0x41 <= b[i] <= 0x5a && a[i] == b[i] + 0x20)
  }

  lemma SameLower(a: Bytes, b: Bytes)
    ensures ToLower(a) == ToLower(b) <==> SameButCase(a, b)
  {
    var x, y := ToLower(a), ToLower(b);
    if x == y {
      forall i | 0 <= i < |a|
        ensures || a[i] == b[i]
                || (0x41 <= a[i] <= 0x5a && b[i] == a[i] + 0x20)
                || (0x41 <= b[i] <= 0x5a && a[i] == b[i] + 0x20)
      {
        assert x[i] == Lower(a[i]) && y[i] == Lower(b[i]);
      }
    }
    if SameButCase(a, b) {
      assert forall i :: 0 <= i < |a| ==> x[i] == y[i];
    }
  }

  ghost predicate Injective(f: Bytes -> Bytes) {
    forall x, y :: f(x) == f(y) ==> x == y
  }

  /** With a hash that keeps different inputs apart, two machines have the same fingerprint
      exactly if their IDs are the same up to letter case. */
  lemma FingerprintIdentifies(o: Options, data: Bytes, id: Bytes, data': Bytes, id': Bytes)
    requires HoldsId(data, id) && HoldsId(data', id')
    requires Injective(o.sha256Hex)
    ensures Fingerprint(o, data) == Fingerprint(o, data') <==> SameButCase(id, id')
  {
    hide HoldsId, Fingerprint;
    var low, low' := ToLower(id), ToLower(id');
    var prefix := Ascii("lts-agent-registration-v1:");
    LowerForms(low, id);
    LowerForms(low', id');
    FingerprintOf(o, data, id, low);
    FingerprintOf(o, data', id', low');
    SameLower(id, id');
    assert prefix + low == prefix + low' ==> low == (prefix + low)[|prefix|..] == low';
  }

  /** The token is what the file holds between blank text, if a bearer can be that. */
  lemma TokenIff(data: Bytes, token: Bytes)
    ensures ParseToken(data) == Ok(token) <==> CoreClient.ValidBearer(token) && Within(data, token)
  {
    hide Within, Utf8.TrimSpace;
    TrimSpaceIff(data, token);
    if CoreClient.ValidBearer(token) {
      BearerTrimmed(token);
    }
  }

  lemma BearerTrimmed(token: Bytes)
    requires CoreClient.ValidBearer(token)
    ensures Trimmed(token)
  {
    assert 0x21 <= token[0] <= 0x7e && 0x21 <= token[|token| - 1] <= 0x7e;
  }

  /** What a registration says of the machine and what it is authorised with. */
  ghost predicate MadeOf(o: Options, idFile: Bytes, tokenFile: Bytes, r: Request) {
    && r.body.Registration? && CoreClient.ValidBearer(r.bearer) && Within(tokenFile, r.bearer)
    && exists id, low ::
         && HoldsId(idFile, id) && LowerForm(low, id)
         && r.body.fingerprint == o.sha256Hex(Ascii("lts-agent-registration-v1:") + low)
  }

  lemma KnownMadeOf(o: Options, w0: World, r: Request)
    requires r.body.Registration? && TokenKnown(o, w0, r.bearer) && MachineKnown(o, w0, r.body.fingerprint)
    ensures MadeOf(o, Contents(w0.fs[o.machineIdFile]).value, Contents(w0.fs[o.tokenFile]).value, r)
  {
    hide Within, Fingerprint, ParseToken, MachineId;
    var idFile, tokenFile := Contents(w0.fs[o.machineIdFile]).value, Contents(w0.fs[o.tokenFile]).value;
    TokenIff(tokenFile, r.bearer);
    FingerprintIff(o, idFile);
    var id :| HoldsId(idFile, id);
    LowerForms(ToLower(id), id);
    FingerprintOf(o, idFile, id, ToLower(id));
  }

  /** In any history every registration is made of the two files as they were to begin
      with: its bearer is the text of the token file, its fingerprint the hash of the
      prefix and the lower-case ID of the machine ID file. */
  lemma RegistrationsMadeOf(o: Options, s0: Sys, events: seq<Event>)
    requires WellConfigured(o) && s0.procs == map[] && Legal(o, s0, events)
    ensures var (w0, w) := (s0.world, Run(o, s0, events).world);
            forall x :: x in Since(w0, w) && x.request.body.Registration? ==>
              && o.machineIdFile in w0.fs && Contents(w0.fs[o.machineIdFile]).Some?
              && o.tokenFile in w0.fs && Contents(w0.fs[o.tokenFile]).Some?
              && MadeOf(o, Contents(w0.fs[o.machineIdFile]).value, Contents(w0.fs[o.tokenFile]).value, x.request)
  {
    hide MadeOf, ParseToken, Fingerprint, Legal, Run, Since, SameAt, EnrollmentToken, MachineFingerprint;
    RegistrationsRepeat(o, s0, events);
    var w0, w := s0.world, Run(o, s0, events).world;
    forall x | x in Since(w0, w) && x.request.body.Registration?
      ensures && o.machineIdFile in w0.fs && Contents(w0.fs[o.machineIdFile]).Some?
              && o.tokenFile in w0.fs && Contents(w0.fs[o.tokenFile]).Some?
              && MadeOf(o, Contents(w0.fs[o.machineIdFile]).value, Contents(w0.fs[o.tokenFile]).value, x.request)
    {
      KnownMadeOf(o, w0, x.request);
    }
  }

  // ---- the state file ----

  /** A file is loaded as `doc` exactly if it is a regular one that is its owner's alone,
      its text means `doc`, and `doc` is of schema 1 with a node ID and a bearer. */
  lemma LoadedIff(n: Node, doc: StateDocument)
    ensures LoadNode(n) == Ok(doc) <==>
              && n.File? && n.perm % 64 == 0 && StateTexts.Denotes(n.data, doc)
              && doc.schemaVersion == 1
              && CoreClient.ValidNodeId(doc.nodeId) && CoreClient.ValidBearer(doc.agentToken)
  {
    hide StateCodec.Decode, StateTexts.Denotes, LoadNode, CoreClient.ValidNodeId, CoreClient.ValidBearer;
    LoadedIsValid(n);
    if n.File? {
      StateTexts.DecodeIff(n.data, doc);
    }
  }
}
