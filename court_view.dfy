/** One court's panel: its drag-over highlight, the card being dragged out of
    it, and the guard that decides whether a drop on it reaches the store.
    The court itself is a prop handed down from the store's table, so every
    handler takes it as a parameter. */
module CourtView {
  import opened CourtTypes
  import opened Roster
  import opened Store
  import opened App

  /** The court's border colour: `'available'` or `'full'`. */
  datatype Availability = Available | Full

  function AvailabilityOf(court: Court): (a: Availability)
    ensures a == Available <==> |court.players| < court.maxPlayers
    ensures a == Full <==> |court.players| >= court.maxPlayers
  {
    if |court.players| < court.maxPlayers then Available else Full
  }

  /** The store call a drop on this court makes: none on a full court,
      otherwise the drag's player and source with this court as the target. */
  function CourtDropCall(court: Court, data: DragItem): (r: Option<DropCall>)
    ensures r.Some? <==> AvailabilityOf(court) == Available
    ensures r.Some? ==> r.value.playerId == data.id && r.value.source == data.sourceContainer
    ensures r.Some? ==> r.value.targetCourtId == Some(court.id)
  {
    if |court.players| < court.maxPlayers then
      Some(DropCall(data.id, data.sourceContainer, Some(court.id)))
    else None
  }

  /** The store's new snapshot after a drop on this court. */
  function DropOnCourt(b: Board, court: Court, data: DragItem, now: int): (r: Board)
    ensures |court.players| >= court.maxPlayers ==> r == b
    ensures |court.players| < court.maxPlayers ==>
      r == DropStep(b, data.id, data.sourceContainer, Some(court.id), now)
  {
    match CourtDropCall(court, data)
    case None => b
    case Some(c) => DropStep(b, c.playerId, c.source, c.targetCourtId, now)
  }

  /** The descriptor of a drag that starts on this court. */
  function CourtDragItem(court: Court, player: Player): (d: DragItem)
    ensures d.id == player.id && d.sourceContainer == FromCourt && d.courtId == Some(court.id)
  {
    DragItem(player.id, FromCourt, Some(court.id))
  }

  /** The drop highlight: a pointer is over the court and there is room. It
      never shows on a court whose border says full. */
  function Highlighted(isOver: bool, court: Court): (h: bool)
    ensures h <==> isOver && AvailabilityOf(court) == Available
  {
    isOver && |court.players| < court.maxPlayers
  }

  class CourtPanel {
    var isOver: bool
    var draggingPlayerId: Option<string>

    constructor ()
      ensures !isOver && draggingPlayerId == None
    {
      isOver := false;
      draggingPlayerId := None;
    }

    /** `handleDragOver`: only a court with room lights up. */
    method DragOver(court: Court)
      modifies this
      ensures isOver == (old(isOver) || |court.players| < court.maxPlayers)
      ensures draggingPlayerId == old(draggingPlayerId)
    {
      if !isOver && |court.players| < court.maxPlayers {
        isOver := true;
      }
    }

    /** `handleDragLeave`: `leftPanel` says whether the pointer moved to an
        element outside this court's panel. */
    method DragLeave(leftPanel: bool)
      modifies this
      ensures isOver == (old(isOver) && !leftPanel)
      ensures draggingPlayerId == old(draggingPlayerId)
    {
      if leftPanel {
        isOver := false;
      }
    }

    /** `handleDrop`: the highlight always goes; the store hears of the drop
        only when the court has room, with this court as the target. */
    method HandleDrop(court: Court, data: DragItem, store: CourtStore, now: int)
      requires store.Valid()
      modifies this, store
      ensures !isOver && draggingPlayerId == old(draggingPlayerId)
      ensures store.Valid() && SameLayout(store.courts, old(store.courts))
      ensures store.Snapshot() == DropOnCourt(old(store.Snapshot()), court, data, now)
      ensures old(Consistent(store.Snapshot())) ==>
        Consistent(store.Snapshot()) && AllIds(store.Snapshot()) == old(AllIds(store.Snapshot()))
    {
      isOver := false;
      if |court.players| < court.maxPlayers {
        store.Drop(data.id, data.sourceContainer, Some(court.id), now);
      }
    }

    /** `handlePlayerDragStart`: marks the card and tells the store which
        player leaves which court. */
    method PlayerDragStart(court: Court, player: Player, store: CourtStore)
      requires store.Valid()
      modifies this, store
      ensures draggingPlayerId == Some(player.id) && isOver == old(isOver)
      ensures store.Valid() && SameLayout(store.courts, old(store.courts))
      ensures store.Snapshot() == DragStartStep(old(store.Snapshot()), CourtDragItem(court, player))
    {
      draggingPlayerId := Some(player.id);
      var item := DragItem(player.id, FromCourt, Some(court.id));
      store.DragStart(item);
    }

    /** `handleDragEnd`. */
    method DragEnd()
      modifies this
      ensures draggingPlayerId == None && isOver == old(isOver)
    {
      draggingPlayerId := None;
    }
  }

  // ----- what a drop on a court does to the store -----

  /** A full court swallows every drop. */
  lemma FullCourtIgnoresDrop(b: Board, court: Court, data: DragItem, now: int)
    requires |court.players| >= court.maxPlayers
    ensures DropOnCourt(b, court, data, now) == b
  {
  }

  /** A queue player dropped on a table court with room is seated there: the
      player leaves the queue and joins the end of that court's roster. */
  lemma QueuePlayerSeated(b: Board, k: nat, data: DragItem, now: int)
    requires WellFormed(b) && b.drag.Some?
    requires k < |b.courts| && b.courts[k].id != ""
    requires |b.courts[k].players| < b.courts[k].maxPlayers
    requires data.sourceContainer == FromQueue && data.id in Ids(b.queue)
    ensures var r := DropOnCourt(b, b.courts[k], data, now);
      && r.drag == None
      && r.queue == WithoutId(b.queue, data.id)
      && r.courts[k].players == b.courts[k].players + [ToCourt(FindPlayer(b.queue, data.id).value, now)]
      && (forall j :: 0 <= j < |b.courts| && j != k ==> r.courts[j] == b.courts[j])
  {
    var court := b.courts[k];
    assert DropOnCourt(b, court, data, now) == QueueDrop(b, data.id, court.id, now);
    assert FindCourt(b.courts, court.id) == Some(k);
    QueueDropOutcome(b, data.id, court.id, now);
  }

  /** A court player dropped on any court with room, their own court
      included, is not left where they were: they go to the end of the queue,
      exactly as if they had been dropped on the queue. */
  lemma CourtPlayerRequeued(b: Board, court: Court, data: DragItem, now: int)
    requires b.drag.Some? && data.sourceContainer == FromCourt
    requires |court.players| < court.maxPlayers
    requires data.id in CourtIds(b.courts)
    ensures var r := DropOnCourt(b, court, data, now);
      && r == CourtDrop(b, data.id, now)
      && r != b
      && data.id !in CourtIds(r.courts)
      && |r.queue| == |b.queue| + 1 && r.queue[..|b.queue|] == b.queue
  {
    CourtDropMoves(b, data.id, now);
  }
}
