/** The messages exchanged over the zoo's WebSocket, as structured values
    (JSON encoding and parsing are not modelled). */
module Protocol {

  datatype Option<T> = None | Some(value: T) {
    function GetOr(default: T): T {
      match this
      case Some(v) => v
      case None => default
    }
  }

  /** A rabbit as the server stores it and sends it to viewers. */
  datatype Rabbit = Rabbit(
    id: int,
    name: string,
    imgData: string,
    x: real,
    y: real,
    scale: real,
    createdAt: int)

  /** The `imgData` property of an `add_rabbit` request as JavaScript sees
      it: missing (or null), some value that is not a string, or a string. */
  datatype ImgField = Absent | NotAString | Text(s: string)

  /** Client-to-server messages. `w` and `h` are JSON numbers or missing;
      `id` is a JSON integer or missing. `Unrecognized` stands for an unknown
      `type` and for a frame that does not parse. */
  datatype ClientMsg =
    | AddRabbitReq(name: Option<string>, imgData: ImgField, w: Option<real>, h: Option<real>)
    | ClearAllReq
    | RemoveRabbitReq(id: Option<int>)
    | ClientPing(ts: int, role: string)
    | Unrecognized

  /** Server-to-client messages; `OtherEvent` is any type a viewer does not know. */
  datatype ServerEvent =
    | SyncState(rabbits: seq<Rabbit>)
    | NewRabbit(rabbit: Rabbit)
    | ClearedAll
    | RemovedRabbit(id: int)
    | OtherEvent

  /** `WebSocket.readyState`: 0 CONNECTING, 1 OPEN, 2 CLOSING, 3 CLOSED. */
  datatype ReadyState = Connecting | Open | Closing | Closed
}
