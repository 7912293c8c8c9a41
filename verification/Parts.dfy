/** Message parts and transcript entries. */
module Parts {
  import opened Wrappers

  type Byte = b: int | 0 <= b < 256

  /** UTF-8 bytes: lengths, prefixes and slices of Rust strings are byte-wise. */
  type Text = seq<Byte>

  /** JSON values ride as their serialized bytes. */
  type Json = seq<Byte>

  datatype Part =
    | TextPart(id: string, text: Text)
    | ToolPart(id: string, call: Json, isError: bool, resolved: bool, output: Option<Text>, diff: Option<Json>,
               outputRef: Option<string>, outputBytes: Option<nat>, diffRef: Option<string>, diffStats: Option<Json>)
    | InputPart(id: string, requestId: string, questions: Json, resolved: bool)
    | ErrorPart(id: string, message: Text)
    | DecisionPart(id: string, event: Json)
  {
    function ByteLen(): nat {
      match this
      case TextPart(_, text) => |text|
      case ToolPart(_, call, _, _, output, diff, _, _, _, diffStats) =>
        |call| + |output.GetOr([])| + |diff.GetOr([])| + |diffStats.GetOr([])|
      case InputPart(_, _, questions, _) => |questions|
      case ErrorPart(_, message) => |message|
      case DecisionPart(_, event) => |event|
    }
  }

  datatype Role = User | Assistant | System

  datatype Status = Streaming | Complete | Aborted

  datatype Entry = Entry(
    id: string,
    role: Role,
    parts: seq<Part>,
    createdAt: int,
    deviceId: string,
    status: Option<Status>,
    continuationOf: Option<string>)
}
