/** The shapes shared by the store and the components: a player, a court,
    the drag descriptor and the arguments of a drop call. */
module CourtTypes {

  datatype Option<T> = None | Some(value: T)

  /** A player. A timestamp is `None` where the source holds `null`. */
  datatype Player = Player(
    id: string,
    name: string,
    onCourtSince: Option<int>,
    waitingSince: Option<int>)

  /** A court with its ordered roster and its capacity. */
  datatype Court = Court(
    id: string,
    name: string,
    players: seq<Player>,
    maxPlayers: int)

  /** Where a drag started: `'COURT'` or `'QUEUE'`. */
  datatype Source = FromCourt | FromQueue

  /** The drag descriptor. Its `type` is always `'PLAYER'`, so it carries no
      field for it; `courtId` is set only for drags that start on a court. */
  datatype DragItem = DragItem(
    id: string,
    sourceContainer: Source,
    courtId: Option<string>)

  /** The arguments a drop target passes to the store's drop handler. */
  datatype DropCall = DropCall(
    playerId: string,
    source: Source,
    targetCourtId: Option<string>)
}
