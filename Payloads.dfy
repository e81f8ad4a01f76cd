/**
 * The records a ServerThread sends to its client and the dispatch of the
 * records it receives. Payload, ReadyPayload, ConnectionPayload and
 * PointsPayload are plain beans; here they are one datatype whose `kind` is
 * None while the record still holds the type its class gives it by default.
 */
module Payloads {
  import opened Common
  import opened JavaStrings
  import RoomLogic

  /** The payload types the server thread and the game room use. */
  datatype PayloadType =
    | ClientConnect | ClientId | SyncClient | Disconnect
    | RoomCreate | RoomJoin | RoomLeave | RoomList
    | Message | Reverse | Ready | SyncReady | ResetReady
    | Phase | Turn | SyncTurn | ResetTurn | TurnConfirmed
    | Time | Points | PointsUpdate | GameEvent | PendingPick | Eliminated
    | HostStatus | ExtraOptionsEnabled | ExtraOptionsToggle | ChoiceCooldownToggle | AwayUpdate

  /** RoomAction */
  datatype RoomAction = Join | Leave

  datatype Payload =
    | Plain(kind: Option<PayloadType>, clientId: int, message: Option<string>)
    | ReadyRecord(kind: Option<PayloadType>, clientId: int, message: Option<string>, ready: bool)
    | ConnectionRecord(kind: Option<PayloadType>, clientId: int, message: Option<string>, clientName: Option<string>)
    | PointsRecord(kind: Option<PayloadType>, clientId: int, message: Option<string>, points: int)

  // ---------------------------------------------------------------- text encodings

  /** Boolean.toString */
  function BoolText(b: bool): (s: string)
    ensures |s| > 0
  {
    if b then "true" else "false"
  }

  /** Boolean.parseBoolean: true exactly for "true" in any letter case. */
  predicate ParseBoolean(s: string) {
    EqualsIgnoreCase(s, "true")
  }

  lemma BoolTextRoundTrip(b: bool)
    ensures ParseBoolean(BoolText(b)) == b
  {
    if !b {
      assert |"false"| != |"true"|;
    }
  }

  /** Phase.name() */
  function PhaseName(p: RoomLogic.Phase): (s: string)
    ensures |s| > 0
  {
    match p
    case Ready => "READY"
    case InProgress => "IN_PROGRESS"
  }

  /** Phase.valueOf: the constant of that exact name, or an IllegalArgumentException (None). */
  function PhaseFromName(s: string): (r: Option<RoomLogic.Phase>)
    ensures r.Some? ==> PhaseName(r.value) == s
  {
    if s == "READY" then Some(RoomLogic.Ready)
    else if s == "IN_PROGRESS" then Some(RoomLogic.InProgress)
    else None
  }

  lemma PhaseNameRoundTrip(p: RoomLogic.Phase)
    ensures PhaseFromName(PhaseName(p)) == Some(p)
  {
  }

  // ---------------------------------------------------------------- builders

  /**
   * sendTurnStatus(clientId, didTakeTurn, quiet): a ReadyPayload with the
   * subject and its took-turn flag, SYNC_TURN when quiet and TURN otherwise.
   * The two-argument overload passes quiet = false.
   */
  function TurnStatus(clientId: int, didTakeTurn: bool, quiet: bool): (r: Payload)
    ensures r.ReadyRecord? && r.clientId == clientId && r.ready == didTakeTurn && r.message.None?
    ensures r.kind == Some(SyncTurn) <==> quiet
    ensures r.kind == Some(Turn) <==> !quiet
  {
    ReadyRecord(Some(if quiet then SyncTurn else Turn), clientId, None, didTakeTurn)
  }

  /**
   * sendReadyStatus(clientId, isReady, quiet): the type is set to SYNC_READY
   * only when quiet; otherwise the record keeps its class default.
   */
  function ReadyStatus(clientId: int, isReady: bool, quiet: bool): (r: Payload)
    ensures r.ReadyRecord? && r.clientId == clientId && r.ready == isReady && r.message.None?
    ensures quiet ==> r.kind == Some(SyncReady)
    ensures !quiet ==> r.kind.None?
  {
    ReadyRecord(if quiet then Some(SyncReady) else None, clientId, None, isReady)
  }

  /**
   * sendClientInfo(clientId, clientName, action, isSync): JOIN becomes
   * ROOM_JOIN and LEAVE ROOM_LEAVE, then isSync overrides either with
   * SYNC_CLIENT; id and name are copied unchanged.
   */
  function ClientInfo(clientId: int, clientName: Option<string>, action: RoomAction, isSync: bool): (r: Payload)
    ensures r.ConnectionRecord? && r.clientId == clientId && r.clientName == clientName && r.message.None?
    ensures isSync ==> r.kind == Some(SyncClient)
    ensures !isSync && action == Join ==> r.kind == Some(RoomJoin)
    ensures !isSync && action == Leave ==> r.kind == Some(RoomLeave)
  {
    var byAction := match action
      case Join => RoomJoin
      case Leave => RoomLeave;
    ConnectionRecord(Some(if isSync then SyncClient else byAction), clientId, None, clientName)
  }

  /** A Payload whose message carries a boolean as text. */
  function FlagRecord(kind: PayloadType, clientId: int, flag: bool): (r: Payload)
    ensures r.Plain? && r.kind == Some(kind) && r.clientId == clientId
    ensures r.message.Some? && ParseBoolean(r.message.value) == flag
  {
    BoolTextRoundTrip(flag);
    Plain(Some(kind), clientId, Some(BoolText(flag)))
  }

  /** sendPendingStatus(clientId, isPending) */
  function PendingStatus(clientId: int, isPending: bool): (r: Payload)
    ensures r.Plain? && r.kind == Some(PendingPick) && r.clientId == clientId
    ensures r.message == Some(if isPending then "true" else "false")
    ensures ParseBoolean(r.message.value) == isPending
  {
    FlagRecord(PendingPick, clientId, isPending)
  }

  /** sendEliminationStatus(clientId, isEliminated) */
  function EliminationStatus(clientId: int, isEliminated: bool): (r: Payload)
    ensures r.Plain? && r.kind == Some(Eliminated) && r.clientId == clientId
    ensures r.message == Some(if isEliminated then "true" else "false")
    ensures ParseBoolean(r.message.value) == isEliminated
  {
    FlagRecord(Eliminated, clientId, isEliminated)
  }

  /** sendCurrentPhase(phase): PHASE with the phase's name; the client id stays at its default 0. */
  function CurrentPhase(phase: RoomLogic.Phase): (r: Payload)
    ensures r.Plain? && r.kind == Some(Phase) && r.clientId == 0
    ensures r.message.Some? && PhaseFromName(r.message.value) == Some(phase)
  {
    PhaseNameRoundTrip(phase);
    Plain(Some(Phase), 0, Some(PhaseName(phase)))
  }

  /** sendPoints(clientId, points): POINTS replaces the POINTS_UPDATE default of PointsPayload. */
  function PointsStatus(clientId: int, points: int): (r: Payload)
    ensures r.PointsRecord? && r.kind == Some(Points) && r.clientId == clientId && r.points == points
  {
    PointsRecord(Some(Points), clientId, None, points)
  }

  // ---------------------------------------------------------------- inbound dispatch

  /** Where processPayload hands an incoming record. */
  datatype Route =
    | ToTurnAction(choice: Option<string>)  // GameRoom.handleTurnAction with the message
    | ToExtraOptionsToggle                  // GameRoom.handleExtraOptionsToggle
    | ToReady                               // the one-argument handleReady of the base room
    | ToClientName                          // CLIENT_CONNECT: the trimmed name is adopted
    | ToLeave                               // disconnect, or a move to the lobby: the participant leaves this room
    | ToMove                                // room create/join: leaves this room when the target is accepted
    | ToRoom                                // message, reverse, room list: handled by the base room
    | ToClientId                            // adopt the id, answer with it, finish initialisation
    | Displayed                             // TIME, POINTS, turn and ready syncs, GAME_EVENT: console output
    | Unknown                               // the default branch: a logged warning

  function Dispatch(kind: PayloadType, message: Option<string>): (r: Route)
    ensures r.ToTurnAction? <==> kind == Turn
    ensures r.ToTurnAction? ==> r.choice == message
    ensures r == ToExtraOptionsToggle <==> kind == ExtraOptionsToggle
    ensures r == ToReady <==> kind == Ready
    ensures r == ToLeave <==> kind == Disconnect || kind == RoomLeave
    ensures r == ToMove <==> kind == RoomCreate || kind == RoomJoin
  {
    match kind
    case ClientConnect => ToClientName
    case Disconnect => ToLeave
    case Message => ToRoom
    case Reverse => ToRoom
    case RoomCreate => ToMove
    case RoomJoin => ToMove
    case RoomLeave => ToLeave
    case RoomList => ToRoom
    case Ready => ToReady
    case Turn => ToTurnAction(message)
    case Time => Displayed
    case Points => Displayed
    case ResetTurn => Displayed
    case SyncTurn => Displayed
    case ResetReady => Displayed
    case SyncReady => Displayed
    case GameEvent => Displayed
    case ClientId => ToClientId
    case ExtraOptionsToggle => ToExtraOptionsToggle
    case _ => Unknown
  }

  /** The cooldown toggle and the away update have handlers in the room but no case in the switch. */
  lemma UnroutedRoomRequests(message: Option<string>)
    ensures Dispatch(ChoiceCooldownToggle, message) == Unknown
    ensures Dispatch(AwayUpdate, message) == Unknown
  {
  }
}
