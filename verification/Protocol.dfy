/** The wire contract shared by the Manager and the Node. */
module Protocol {
  type Id = string
  type NodeId = string

  datatype Option<+T> = None | Some(value: T)

  /** How many frames a connection buffers before a Send has to wait. */
  const SEND_BUFFER: nat := 64

  const KIND_SHELL := "shell"
  const KIND_PREDEFINED := "predefined"

  /** Manager to Node: one command. Times are unix milliseconds; a deadline of 0 means none. */
  datatype Instruction = Instruction(
    kind: string,
    name: string,
    argsJson: string,
    command: string,
    timeoutSec: int,
    deadline: int)

  /** The fields a Node reports for one instruction. */
  datatype Result = Result(
    refId: Id,
    exitCode: int,
    stdout: string,
    stderr: string,
    durationMs: int,
    truncated: bool,
    timedOut: bool)

  /** Node to Manager. `Other` is a kind the Manager does not know. */
  datatype Notification =
    | Register
    | Heartbeat
    | Report(result: Result)
    | Event(event: string)
    | Other(kind: string)

  /** `Opaque` is a payload that does not decode as its type says. */
  datatype Payload =
    | Instruct(instruction: Instruction)
    | Notify(notification: Notification)
    | Ack(refId: Id)
    | Opaque(typ: string)

  datatype Envelope = Envelope(id: Id, payload: Payload)
}
