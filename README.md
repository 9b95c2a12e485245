# Club-night court manager, modelled in Dafny

The program runs a tennis club night. There are fifteen fixed courts:
`court1` to `court10` are the playing courts, and `courta` to `courte` are the
"Next" courts. Each court holds at most four players. A waiting queue feeds
the courts.

The top-level component keeps three state cells:
- the court table;
- the queue;
- the drag in flight.

It has one handler per user action: add a player to the queue, remove a
player, start a drag, and drop. The court panel and the queue panel each keep
a drag highlight and the id of the card being dragged out of them. They build
the drag descriptor and decide whether a drop reaches the store, and with
which target. A player card shows how long the player has been where they
are, as a colour and as a clock text. The queue is displayed in batches of
four.

The model is organised module by module:

- `CourtTypes` (`types.dfy`) holds the records `Player`, `Court` and `DragItem`. An optional timestamp or court id is an `Option`.
- `Roster` (`roster.dfy`) holds the `find`, `filter` and `map` helpers the handlers build their new values with. Each has lemmas about which ids they keep, drop or add.
- `Store` (`store.dfy`) holds the initial court table and `Board`, a snapshot of the three cells. It has one step function per handler (`AddStep`, `RemoveStep`, `DragStartStep`, `DropStep`), built from the two drop branches `QueueDrop` and `CourtDrop`. It also holds the invariants and the lemmas about the steps. The invariants are:
  - `WellFormed`: capacity and distinct court ids;
  - `SameLayout`: the same courts with the same ids, names and capacities;
  - `Consistent`: every id in one place, with the timestamp of that place.
- `App` (`app.dfy`) holds the class `CourtStore`. It has the three cells as fields and one method per handler. Each method's new state is the matching step applied to the old snapshot.
- `CourtView` (`court_view.dfy`) and `QueueView` (`queue_view.dfy`) hold the two panels as classes (`CourtPanel`, `QueuePanel`), their drop routing, the queue's trim of the name field, and the batching loop.
- `PlayerCardView` (`player_card.dfy`) holds the elapsed time, the colour thresholds and the card's clock text.
- `TimeUtils` (`time_utils.dfy`) holds `formatTime` and `ParseClock`, a reader that inverts it.
- `Scenario` (`scenario.dfy`) holds a short evening worked through the panels' routing.

Inputs the program reads from outside become parameters:
- the clock (`Date.now()`) becomes `now`;
- the generated player id becomes `id`;
- the court a panel belongs to becomes `court`, since it is a prop handed down from the store;
- `leftPanel` says whether a drag-leave went outside the panel.

One drop is worth spelling out. The court branch of `handleDrop`
(src/App.tsx:93-116) never reads the target court. So a court player dropped
onto any court with room goes to the end of the queue, and that includes
their own court. A court panel forwards such a drop, because its only guard
is its own capacity (`Store.CourtDropIgnoresTarget`,
`CourtView.CourtPlayerRequeued`).

## Model

| member | source | states |
|---|---|---|
| Roster.FindPlayer | src/App.tsx:50 | finds a player exactly when the id is in the list; the result is the first member with that id |
| Roster.WithoutId | src/App.tsx:52 | the survivors are exactly the entries whose id differs, none added; an absent id leaves the list as it was |
| Roster.WithoutIdBag | src/App.tsx:52 | filtering removes every occurrence of the id from the bag of ids and nothing else |
| Roster.WithoutIdAppend | src/App.tsx:52 | filtering commutes with concatenation, so the survivors keep their order |
| Roster.IdsAppend | src/App.tsx:46 | the ids of a concatenation are the concatenated ids |
| Roster.IdsMember | src/App.tsx:50 | an id is among the ids exactly when some player in the list carries it |
| Roster.FindCourt | src/App.tsx:73 | the result is the first court with that id, or none when no court has it |
| Roster.FindHolder | src/App.tsx:94-96 | the result is the first court whose roster holds the id, or none when no roster does |
| Roster.RemoveFromCourts | src/App.tsx:56-59 | every court keeps its place, id, name and capacity, and its roster does not grow |
| Roster.AddToCourt | src/App.tsx:84-92 | every court keeps its place, id, name and capacity, and every court with another id is unchanged |
| Roster.CourtIdsCover | src/App.tsx:94-96 | one court's ids are part of the table's ids |
| Roster.CourtIdsMember | src/App.tsx:94-98 | an id is on the table exactly when some court's roster holds it |
| Roster.CourtIdsRemove | src/App.tsx:56-59 | filtering an id out of every roster removes exactly that id's entries from the table |
| Roster.RemoveAbsent | src/App.tsx:56-59 | filtering an id no roster holds leaves the table as it was |
| Roster.AddToAbsentCourt | src/App.tsx:84-92 | appending to a court id no court has leaves the table as it was |
| Roster.CourtIdsAddFirst | src/App.tsx:84-92 | appending to the first court, when no later court shares its id, adds exactly the new id |
| Roster.CourtIdsAddLater | src/App.tsx:84-92 | appending past a first court with another id adds the new id only through the later courts |
| Roster.CourtIdsAdd | src/App.tsx:84-92 | appending to the one court with that id adds exactly one id, the new player's, to the table |
| Store.IsTruthy | src/App.tsx:69 | a missing court id and the empty string are falsy; any other court id is truthy |
| Store.ToCourt | src/App.tsx:78-82 | the seated copy keeps id and name, has a court time of `now` and no waiting time |
| Store.ToQueue | src/App.tsx:108-112 | the queued copy keeps id and name, has a waiting time of `now` and no court time |
| Store.InitialCourts | src/App.tsx:8-24 | the initial table has fifteen courts, every one empty with capacity four |
| Store.InitialCourtIdsDistinct | src/App.tsx:8-24 | the fifteen court ids of the initial table are pairwise different |
| Store.InitialBoard | src/App.tsx:8-27 | the starting state is well formed and consistent and holds no player |
| Store.EmptyBoard | src/App.tsx:8-27 | any table of empty courts with distinct ids and an empty queue is well formed and consistent and holds no id |
| Store.EmptyRosters | src/App.tsx:8-24 | a table of empty courts holds no id |
| Store.AddStep | src/App.tsx:38-47 | the queue grows by one player at its end, with the given id and name, waiting since `now` and not on court; the old queue is kept in front; courts and drag unchanged |
| Store.RemoveStep | src/App.tsx:49-60 | a queued id leaves the queue with courts untouched; an id not queued leaves the queue as it was and the table as long; the drag cell is untouched |
| Store.DragStartStep | src/App.tsx:62-64 | the drag cell holds the descriptor and nothing else changes |
| Store.DropStep | src/App.tsx:66-119 | with no drag in flight nothing changes; otherwise the state either stays as it was or the drag is cleared |
| Store.QueueDrop | src/App.tsx:69-92 | a queue drop that changes anything clears the drag, and happens only for a queued player and a known court |
| Store.CourtDrop | src/App.tsx:93-116 | a court drop that changes anything clears the drag, happens only for a player on some court, and appends exactly one player behind the old queue |
| Store.AddStepKeeps | src/App.tsx:38-47 | adding keeps the table well formed and puts exactly the new id into the system; with a fresh id every player is still in one place with the right timestamp |
| Store.RemoveQueued | src/App.tsx:49-54 | when the id is queued only the queue changes: every entry with that id goes and the rest stay |
| Store.RemoveUnqueued | src/App.tsx:55-59 | when the id is not queued the queue stays, every court drops that id and keeps its layout, and the id is on no court afterwards |
| Store.RemoveAbsentId | src/App.tsx:49-60 | removing an id that is nowhere leaves the state unchanged |
| Store.RemoveKeepsWellFormed | src/App.tsx:56-59 | removal keeps capacities and the table layout |
| Store.RemoveKeepsConsistent | src/App.tsx:49-60 | removal keeps every player in one place with the right timestamp, and takes that id out of the system entirely |
| Store.RemoveIds | src/App.tsx:49-60 | with unique ids, the ids after removal are the ids before without that id |
| Store.RemoveStamps | src/App.tsx:49-60 | removal keeps every timestamp matching where its player sits |
| Store.DropDragCell | src/App.tsx:66-119 | with no drag in flight a drop does nothing; a queue drop without a target only clears the drag; a drop either leaves the whole state as it was or clears the drag |
| Store.QueueDropOutcome | src/App.tsx:69-92 | a queue drop changes nothing when the player is not queued, the court id is unknown or the court is full; otherwise the player leaves the queue and is appended to that court, seated at `now`, every other court unchanged and the drag cleared |
| Store.CourtDropMissing | src/App.tsx:94-98 | a court drop whose player is on no court changes nothing |
| Store.CourtDropMoves | src/App.tsx:93-116 | a court drop whose player is on a court removes the id from every court, keeps the layout, appends one player to the queue and clears the drag |
| Store.CourtDropRequeues | src/App.tsx:100-114 | the player appended to the queue is the court's record of that id with its court time replaced by a waiting time of `now` |
| Store.CourtDropIgnoresTarget | src/App.tsx:93-116 | the court branch gives the same result whatever the target court |
| Store.DropKeepsWellFormed | src/App.tsx:66-119 | no drop overfills a court or changes the table's layout |
| Store.QueueDropIds | src/App.tsx:69-92 | with unique ids a queue drop keeps the bag of ids |
| Store.CourtDropIds | src/App.tsx:93-116 | with unique ids a court drop keeps the bag of ids |
| Store.QueueDropStamps | src/App.tsx:76-92 | a queue drop keeps every timestamp matching where its player sits |
| Store.CourtDropStamps | src/App.tsx:103-115 | a court drop keeps every timestamp matching where its player sits |
| Store.DropKeepsConsistent | src/App.tsx:66-119 | every drop keeps the bag of ids and keeps every player in one place with the timestamp of that place |
| App.CourtStore.constructor | src/App.tsx:8-27 | the store starts with the fixed table, an empty queue and no drag, well formed and consistent |
| App.CourtStore.AddPlayerToQueue | src/App.tsx:38-47 | appends exactly one player with the given id and name, waiting since `now` and not on court; courts and drag unchanged; consistency kept for a fresh id |
| App.CourtStore.RemovePlayer | src/App.tsx:49-60 | the new state is the removal step of the old one; layout and consistency kept, the id gone from the system |
| App.CourtStore.DragStart | src/App.tsx:62-64 | records the drag and changes nothing else |
| App.CourtStore.Drop | src/App.tsx:66-119 | the new state is the drop step of the old one, early returns included; layout, capacity, consistency and the bag of ids kept |
| CourtView.AvailabilityOf | src/components/Court.tsx:60-62 | available exactly when the court has room, full otherwise |
| CourtView.Highlighted | src/components/Court.tsx:68 | the highlight shows exactly when a pointer is over the court and the court is available |
| CourtView.DropOnCourt | src/components/Court.tsx:37-39 | a full court leaves the state as it was; a court with room passes the descriptor's id and source and this court's id to the drop step |
| CourtView.CourtDropCall | src/components/Court.tsx:37-39 | a drop reaches the store exactly when the court has room, with the descriptor's id and source and this court as the target |
| CourtView.CourtDragItem | src/components/Court.tsx:45-50 | a court drag names the player, the court source and this court |
| CourtView.CourtPanel.constructor | src/components/Court.tsx:14-15 | a panel starts without highlight and without a dragged card |
| CourtView.CourtPanel.DragOver | src/components/Court.tsx:18-23 | the highlight turns on only over a court with room |
| CourtView.CourtPanel.DragLeave | src/components/Court.tsx:25-29 | the highlight turns off when the pointer leaves the panel |
| CourtView.CourtPanel.HandleDrop | src/components/Court.tsx:31-40 | the highlight always goes; the store takes the drop step only for a court with room, with this court as target; store invariants kept |
| CourtView.CourtPanel.PlayerDragStart | src/components/Court.tsx:42-54 | marks the card and records the court drag descriptor in the store |
| CourtView.CourtPanel.DragEnd | src/components/Court.tsx:56-58 | the dragged card mark is cleared |
| CourtView.FullCourtIgnoresDrop | src/components/Court.tsx:37 | a drop on a full court leaves the store unchanged |
| CourtView.QueuePlayerSeated | src/components/Court.tsx:31-40 | a queued player dropped on a court with room leaves the queue and joins the end of that court, every other court unchanged |
| CourtView.CourtPlayerRequeued | src/components/Court.tsx:31-40 | a court player dropped on any court with room, their own included, goes to the end of the queue and is on no court |
| QueueView.Trim | src/components/PlayerQueue.tsx:64-65 | the trimmed name is a slice of the field with only whitespace cut away on either side, and begins and ends with a non-space |
| QueueView.TrimEmpty | src/components/PlayerQueue.tsx:64 | the trimmed name is empty exactly when the field holds only whitespace |
| QueueView.TrimIdempotent | src/components/PlayerQueue.tsx:64-65 | trimming the trimmed name changes nothing |
| QueueView.DropOnQueue | src/components/PlayerQueue.tsx:42 | with a drag in flight, a court card takes the court branch; a queue card with a falsy court id only clears the drag; one with a truthy court id takes the queue branch toward that court |
| QueueView.QueueDragItem | src/components/PlayerQueue.tsx:48-52 | a queue drag names the player and the queue source and no court |
| QueueView.QueueCardBackOnQueue | src/components/PlayerQueue.tsx:37-43 | a queue card dropped back on the queue only clears the drag |
| QueueView.CourtCardOnQueue | src/components/PlayerQueue.tsx:37-43 | a court card dropped on the queue goes to the end of the queue, exactly as a drop of it on any court with room |
| QueueView.BatchCount | src/components/PlayerQueue.tsx:71-78 | the number of batches is the player count divided by four, rounded up |
| QueueView.Chunks | src/components/PlayerQueue.tsx:71-78 | there are as many batches as `BatchCount` says |
| QueueView.ChunksSnoc | src/components/PlayerQueue.tsx:72-76 | one more player opens a new batch when the last one is full and joins the last batch otherwise |
| QueueView.ChunksSnocFull | src/components/PlayerQueue.tsx:72-76 | one more player after a full last batch opens a new batch of one |
| QueueView.ChunksSnocPartial | src/components/PlayerQueue.tsx:72-76 | one more player after a last batch with room joins that batch, the others unchanged |
| QueueView.ChunksSizes | src/components/PlayerQueue.tsx:71-78 | every batch holds one to four players and all but the last hold four |
| QueueView.ChunksPosition | src/components/PlayerQueue.tsx:72-76 | player `i` is at position `i % 4` of batch `i / 4` |
| QueueView.FlattenSnoc | src/components/PlayerQueue.tsx:71-78 | laying out one more batch appends its players |
| QueueView.ChunksFlatten | src/components/PlayerQueue.tsx:71-78 | the batches laid end to end give back the queue in order |
| QueueView.PlayerBatches | src/components/PlayerQueue.tsx:71-78 | the reduce loop builds exactly the batches of the queue |
| QueueView.BatchesShape | src/components/PlayerQueue.tsx:71-78 | the batches give back the queue, number `n` divided by four rounded up, are none for an empty queue, have the batch sizes and positions above |
| QueueView.QueuePanel.constructor | src/components/PlayerQueue.tsx:21-23 | a panel starts without highlight, with an empty name field and no dragged card |
| QueueView.QueuePanel.DragOver | src/components/PlayerQueue.tsx:26-29 | the queue lights up for every drag |
| QueueView.QueuePanel.DragLeave | src/components/PlayerQueue.tsx:31-35 | the highlight turns off when the pointer leaves the panel |
| QueueView.QueuePanel.HandleDrop | src/components/PlayerQueue.tsx:37-43 | the highlight goes and the store takes the drop step with the descriptor's id, source and court id as they came |
| QueueView.QueuePanel.PlayerDragStart | src/components/PlayerQueue.tsx:45-56 | marks the card and records the queue drag descriptor in the store |
| QueueView.QueuePanel.DragEnd | src/components/PlayerQueue.tsx:58-60 | the dragged card mark is cleared |
| QueueView.QueuePanel.SetNewPlayerName | src/components/PlayerQueue.tsx:103 | the name field takes the typed value |
| QueueView.QueuePanel.HandleAddPlayer | src/components/PlayerQueue.tsx:62-68 | a blank name adds nothing and stays in the field; otherwise the trimmed name is added to the queue and the field cleared |
| PlayerCardView.Elapsed | src/components/PlayerCard.tsx:23-25 | the time since the location's stamp, and zero when that stamp is missing or zero |
| PlayerCardView.ColorOf | src/components/PlayerCard.tsx:27-39 | on court green below 30 minutes and red from 60; in the queue green below 10 and red from 20; yellow between |
| PlayerCardView.ColorMonotone | src/components/PlayerCard.tsx:30-37 | the colour never gets less severe as time goes on |
| PlayerCardView.NoTimeIsGreen | src/components/PlayerCard.tsx:23-25 | a card with a missing or zero stamp is green |
| PlayerCardView.CardText | src/components/PlayerCard.tsx:57 | the card's clock text reads back as the elapsed whole seconds |
| PlayerCardView.JustMovedCard | src/components/PlayerCard.tsx:23-39 | a player just seated or just sent back shows zero time, a green colour and `00:00` |
| TimeUtils.DigitChar | src/utils/timeUtils.ts:11-12 | a digit below ten is one digit character of that value |
| TimeUtils.Decimal | src/utils/timeUtils.ts:11-16 | the decimal text is all digits, one digit exactly below ten, at most two below a hundred |
| TimeUtils.DecimalRoundTrip | src/utils/timeUtils.ts:11-16 | reading the decimal text back gives the number |
| TimeUtils.Pad2 | src/utils/timeUtils.ts:11-15 | a padded field is all digits, at least two of them, exactly two below a hundred, and reads back as the number |
| TimeUtils.FormatTime | src/utils/timeUtils.ts:4-20 | below one hour the text is five characters with a colon in the middle; from one hour on it has colons before the last two fields and is eight characters below a hundred hours |
| TimeUtils.ClockText | src/utils/timeUtils.ts:14-19 | the hours field appears exactly when there are hours, with the shapes above |
| TimeUtils.ClockTextFields | src/utils/timeUtils.ts:14-19 | each field of the text is the padded number put in |
| TimeUtils.ParseShort | src/utils/timeUtils.ts:14-19 | a `MM:SS` text of two-digit fields reads back as sixty times the minutes plus the seconds |
| TimeUtils.ParseLong | src/utils/timeUtils.ts:14-19 | a `HH:MM:SS` text reads back as the hours, minutes and seconds combined |
| TimeUtils.ClockTextRoundTrip | src/utils/timeUtils.ts:14-19 | the text reads back as the seconds its fields name |
| TimeUtils.ClockArithmetic | src/utils/timeUtils.ts:7-9 | the hours, minutes and seconds fields recombine into the whole seconds |
| TimeUtils.BelowOneHour | src/utils/timeUtils.ts:9 | below one hour the hours field is zero and the minutes are whole minutes |
| TimeUtils.FormatTimeIsClock | src/utils/timeUtils.ts:5 | the zero shortcut gives what the general template gives for zero |
| TimeUtils.FormatTimeRoundTrip | src/utils/timeUtils.ts:4-20 | the text reads back as the whole seconds of the input |
| TimeUtils.FormatTimeFields | src/utils/timeUtils.ts:7-19 | the minutes and seconds fields are padded numbers in 0..59; below one hour the first field is the whole minutes, from one hour on the leading field is the whole hours |
| TimeUtils.FormatTimeUnderOneSecond | src/utils/timeUtils.ts:5-8 | anything below one second shows `00:00` |
| TimeUtils.FormatTimeExamples | src/utils/timeUtils.ts:4-20 | 0 gives `00:00`, 65000 gives `01:05`, 599000 gives `09:59`, 3661000 gives `01:01:01` |
| TimeUtils.Example65 | src/utils/timeUtils.ts:7-19 | 65000 gives `01:05` |
| TimeUtils.Example599 | src/utils/timeUtils.ts:7-19 | 599000 gives `09:59` |
| TimeUtils.Example3661 | src/utils/timeUtils.ts:7-17 | 3661000 gives `01:01:01` |
| Scenario.SeatA | src/App.tsx:38-92 | two players join, the first is dropped on an empty court: they sit there alone, the second waits alone |
| Scenario.SendABack | src/App.tsx:93-116 | a lone court player dragged onto the queue goes to its end and the court is empty again |
| Scenario.QueueToCourtAndBack | src/App.tsx:38-116 | queue two, seat the first, drag them back: the queue ends as second then first, the first waiting since the last move |

## Left out

- The one-second `setInterval` re-render (src/App.tsx:29-36) changes no data. Modelled, it would be the identity.
- `Date.now()` is a `now` parameter. Nothing relates two readings of the clock.
- The generated id of `handleAddPlayerToQueue` is an `id` parameter. The source builds it from the clock, so two players added in the same millisecond would share an id. The model guarantees `Consistent` only for a fresh id.
- App.CourtStore.AddPlayerToQueue: consistency after the call is promised only when the id is fresh, for the reason above.
- DOM drag plumbing (`dataTransfer`, `JSON.parse` and `JSON.stringify`, `preventDefault`, `useRef`) is not modelled. A descriptor is a plain value. The `relatedTarget` containment test of `handleDragLeave` is the boolean `leftPanel`.
- The descriptor's `type: 'PLAYER'` field is left out of `DragItem`. It is constant and nothing reads it.
- Rendering is not modelled: JSX, CSS classes, icons, the two-row split of the courts (src/App.tsx:121-123), the header and the footer. The batch headings and the card's `isDragging` opacity are also markup, as is the counter `players.length/maxPlayers`.
- React's asynchronous state batching is not modelled. Each handler is one atomic step from one snapshot.
- TimeUtils.FormatTime: the input is a `nat` of whole milliseconds. Floating-point, NaN and negative inputs are not modelled.
- PlayerCardView.CardText: requires a non-negative elapsed time. In the source, a clock behind the stamp gives a negative time, and `formatTime` renders it as a malformed text.
- QueueView.Trim: removes ASCII whitespace only, not every Unicode space that `String.prototype.trim` removes.
- App.CourtStore.Valid holds capacity and distinct court ids. The fact that the table keeps the ids, names and capacities of `InitialCourts` is a two-state ensures (`SameLayout` with the old table) on every method, not part of `Valid`.
- The second check of the court branch (`if (!player) return;`, src/App.tsx:101) cannot fire: the court was found because its roster holds the id. The model has no branch for it.
- The panels take the court and the store as parameters. The source receives them as props and callbacks.
