/** The parts of the emitted inventory document that the modelled code reads or fills. */
module Inventory {
  import opened Text

  /** Warning texts that carry data are kept as data. */
  datatype Message =
    | Plain(text: string)
    | InvalidIdentifier(value: Bytes)
    | HttpStatus(code: int)

  datatype Warning = Warning(source: string, message: Message)

  datatype Operation = Operation(attempted: bool, status: string)

  datatype Core = Core(
    enabled: bool,
    registered: bool,
    nodeId: Bytes,
    registration: Operation,
    heartbeat: Operation,
    desiredState: Operation)

  datatype DesiredState = DesiredState(
    available: bool,
    schemaVersion: int,
    revision: Bytes,
    roles: seq<Bytes>,
    capabilities: seq<Bytes>)

  /** `local` stands for every other section of the report. */
  datatype Report = Report(local: Bytes, desiredState: Option<DesiredState>, core: Option<Core>)

  const NO_DESIRED_STATE := DesiredState(false, 0, [], [], [])
}
