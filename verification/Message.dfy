/** Protocol messages, as the controller and the routers hold them. */
module Message {
  import opened Wrappers

  datatype Kind =
    | Load | Save | Show | AddLink | UpdateLink | DelLink | Disconnect
    | Text | Route | RouteTable
    | Login | Logout | Greeting | Bye | Poll | Neighborhood
    | Link | Vector | Packet | Ping | Pong
    | NoKind | NetworkDebug | Quit

  datatype Acceptance = Not | Accepted | TooFar | TtlZero

  /** Absent strings are the source's null pointers; -1 is its default for both numbers. */
  datatype Message = Message(
    kind: Kind, text: Option<string>, node1: Option<string>, node2: Option<string>,
    number: int, seqnum: int, accept: Acceptance)

  const EMPTY := Message(NoKind, None, None, None, -1, -1, Not)

  /**
   What is left of a message that another host receives: the fields its printed form does not
   carry are back at their defaults.
   */
  function OnWire(m: Message): Message {
    match m.kind
    case Packet =>
      if m.accept == Accepted || m.accept == TooFar then m.(text := None, number := -1) else m.(accept := Not)
    case Ping => m.(text := None, accept := Not)
    case Pong => if m.accept == TtlZero then m.(text := None, number := -1) else m.(text := None, accept := Not)
    case Login => EMPTY.(kind := Login, node1 := m.node1, number := m.number)
    case Greeting => EMPTY.(kind := Greeting, node1 := m.node1)
    case Neighborhood =>
      if m.accept == Accepted then EMPTY.(kind := Neighborhood, accept := Accepted)
      else EMPTY.(kind := Neighborhood, text := if m.text == Some("[]") then Some("") else m.text)
    case Link =>
      if m.accept == Accepted then EMPTY.(kind := Link, accept := Accepted) else EMPTY.(kind := Link, node1 := m.node1)
    case Vector =>
      if m.accept == Accepted then EMPTY.(kind := Vector, accept := Accepted) else EMPTY.(kind := Vector, text := m.text)
    case _ => EMPTY.(kind := m.kind)
  }

  /**
   Whether a receiver can read the printed form of m: negative numbers and empty packet data do not
   fit the patterns of the parser.
   */
  predicate Readable(m: Message) {
    match m.kind
    case Login => m.number >= 0
    case Packet =>
      m.seqnum >= 0 && (m.accept == Accepted || m.accept == TooFar || (m.number >= 0 && m.text.Some? && m.text.value != ""))
    case Ping => m.seqnum >= 0 && m.number >= 0
    case Pong => m.seqnum >= 0 && (m.accept == TtlZero || m.number >= 0)
    case _ => true
  }
}
