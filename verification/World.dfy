/** What the agent acts on: a filesystem and the requests that reach Core. Each operation
    is answered; an answer says both what the agent sees and what the operation did. */
module World {
  import opened Text
  import opened Inventory
  import Identifiers

  type Path = string

  // ---- the filesystem ----

  /** Permission bits are a number, 0600 being 384. A symbolic link carries the bytes it
      leads to, if any; they lie outside the files modelled here. */
  datatype Node =
    | File(perm: nat, data: Bytes)
    | Directory(perm: nat)
    | Symlink(perm: nat, target: Option<Bytes>)
    | Special(perm: nat)

  datatype Kind = RegularFile | ADirectory | ASymlink | AnotherKind

  datatype FileInfo = FileInfo(kind: Kind, perm: nat)

  const OWNER_ONLY: nat := 384
  const OWNER_DIRECTORY: nat := 448

  function InfoOf(n: Node): FileInfo {
    match n
    case File(perm, _) => FileInfo(RegularFile, perm)
    case Directory(perm) => FileInfo(ADirectory, perm)
    case Symlink(perm, _) => FileInfo(ASymlink, perm)
    case Special(perm) => FileInfo(AnotherKind, perm)
  }

  /** Whether any group or world bit is set (a mask of 0077). */
  predicate Shared(info: FileInfo) { info.perm % 64 != 0 }

  /** What reading a path yields; links are followed. */
  function Contents(n: Node): Option<Bytes> {
    match n
    case File(_, data) => Some(data)
    case Symlink(_, target) => target
    case Directory(_) => None
    case Special(_) => None
  }

  // ---- requests ----

  datatype Verb = POST | GET

  datatype Body =
    | NoBody
    | Registration(schemaVersion: int, fingerprint: Bytes, agentVersion: string, inventory: Report)
    | Heartbeat(schemaVersion: int, sentAt: int, agentVersion: string, inventory: Report)

  datatype Request = Request(verb: Verb, endpoint: Bytes, bearer: Bytes, body: Body)

  /** A registration response. */
  datatype Grant = Grant(schemaVersion: int, nodeId: Bytes, agentToken: Bytes)

  /** An error of the Core client. */
  datatype ClientError = Http(status: int, body: Bytes) | Other(text: string)

  /** A request that was made, and the identity Core issued in answer to it, whether or
      not the reply arrived. */
  datatype Exchange = Exchange(request: Request, issued: Option<Grant>)

  // ---- operations and their answers ----

  datatype Op =
    | Lstat(path: Path)
    | ReadFile(path: Path)
    | MkdirAll(path: Path)
    | CreateTemp(directory: Path)
    | Chmod(path: Path)
    | Encode(path: Path, data: Bytes)
    | Fsync(path: Path)
    | Close(path: Path)
    | Rename(source: Path, target: Path)
    | Remove(path: Path)
    | Call(request: Request)
    | Now
    | ContextErr

  datatype Answer =
    | Failed(text: string)
    | NotExist
    | Info(info: FileInfo)
    | Data(data: Bytes)
    | Done
    | Made(perm: nat)
    | Temp(path: Path, perm: nat)
    | PartlyWritten(count: nat, text: string)
    | Granted(grant: Grant)
    | Accepted
    | Desired(document: Identifiers.Document)
    | Rejected(error: ClientError, lost: Option<Grant>)
    | Time(at: int)
    | Cancelled(cancelled: bool)

  datatype World = World(fs: map<Path, Node>, wire: seq<Exchange>)

  /** Which answers `op` can get. `reserved` are the configured paths, which are never
      chosen for a temporary file. An operation may fail at any time; "does not exist" is
      only said of what does not exist. */
  predicate Possible(reserved: set<Path>, w: World, op: Op, a: Answer) {
    match op
    case Lstat(p) =>
      a.Failed? || (a.NotExist? && p !in w.fs) || (a.Info? && p in w.fs && a.info == InfoOf(w.fs[p]))
    case ReadFile(p) =>
      a.Failed? || (a.Data? && p in w.fs && Contents(w.fs[p]) == Some(a.data))
    case MkdirAll(p) =>
      || a.Failed?
      || (a.Done? && p in w.fs && (w.fs[p].Directory? || w.fs[p].Symlink?))
      || (a.Made? && p !in w.fs && a.perm <= OWNER_DIRECTORY && a.perm % 64 == 0)
    case CreateTemp(_) =>
      a.Failed? || (a.Temp? && a.path !in w.fs && a.path !in reserved && a.perm <= OWNER_ONLY && a.perm % 64 == 0)
    case Chmod(p) =>
      a.Failed? || (a.Done? && p in w.fs && w.fs[p].File?)
    case Encode(p, data) =>
      && p in w.fs && w.fs[p].File?
      && (a.Done? || (a.PartlyWritten? && a.count <= |data|))
    case Fsync(_) => a.Failed? || a.Done?
    case Close(_) => a.Failed? || a.Done?
    case Rename(source, target) =>
      a.Failed? || (a.Done? && source in w.fs && w.fs[source].File? && (target in w.fs ==> !w.fs[target].Directory?))
    case Remove(p) =>
      a.Failed? || (a.NotExist? && p !in w.fs) || (a.Done? && p in w.fs)
    case Call(request) =>
      (match request.body
       case Registration(_, _, _, _) => a.Granted? || a.Rejected?
       case Heartbeat(_, _, _, _) => a.Accepted? || (a.Rejected? && a.lost.None?)
       case NoBody => a.Desired? || (a.Rejected? && a.lost.None?))
    case Now => a.Time?
    case ContextErr => a.Cancelled?
  }

  /** What the operation leaves behind. A failed one changes nothing, except that a
      failed write may have written any prefix. */
  function Apply(w: World, op: Op, a: Answer): World {
    match op
    case MkdirAll(p) => if a.Made? then w.(fs := w.fs[p := Directory(a.perm)]) else w
    case CreateTemp(_) => if a.Temp? then w.(fs := w.fs[a.path := File(a.perm, [])]) else w
    case Chmod(p) =>
      if a.Done? && p in w.fs && w.fs[p].File? then w.(fs := w.fs[p := File(OWNER_ONLY, w.fs[p].data)]) else w
    case Encode(p, data) =>
      if p in w.fs && w.fs[p].File? then
        var written := if a.PartlyWritten? && a.count <= |data| then data[..a.count] else data;
        w.(fs := w.fs[p := File(w.fs[p].perm, w.fs[p].data + written)])
      else w
    case Rename(source, target) =>
      if a.Done? && source in w.fs then w.(fs := (w.fs - {source})[target := w.fs[source]]) else w
    case Remove(p) => if a.Done? then w.(fs := w.fs - {p}) else w
    case Call(request) =>
      var issued := match a
        case Granted(g) => Some(g)
        case Rejected(_, lost) => lost
        case _ => None;
      w.(wire := w.wire + [Exchange(request, issued)])
    case _ => w
  }

  /** The paths an operation may change. */
  function Touched(op: Op, a: Answer): set<Path> {
    match op
    case MkdirAll(p) => if a.Made? then {p} else {}
    case CreateTemp(_) => if a.Temp? then {a.path} else {}
    case Chmod(p) => {p}
    case Encode(p, _) => {p}
    case Rename(source, target) => if a.Done? then {source, target} else {}
    case Remove(p) => {p}
    case _ => {}
  }

  predicate SameAt(w: World, w': World, p: Path) {
    (p in w.fs <==> p in w'.fs) && (p in w.fs ==> w'.fs[p] == w.fs[p])
  }

  /** Everything an operation does not touch stays as it is, and requests accumulate. */
  lemma ApplyFrame(w: World, op: Op, a: Answer)
    ensures forall p :: p !in Touched(op, a) ==> SameAt(w, Apply(w, op, a), p)
    ensures w.wire <= Apply(w, op, a).wire
    ensures !op.Call? ==> Apply(w, op, a).wire == w.wire
  {
  }
}
