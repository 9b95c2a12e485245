/** The top-level component's state cells and handlers, as a class: each
    handler updates `courts`, `queuePlayers` and `currentDrag` in one step,
    computed from one snapshot of the old values. */
module App {
  import opened CourtTypes
  import opened Roster
  import opened Store

  class CourtStore {
    var courts: seq<Court>
    var queuePlayers: seq<Player>
    var currentDrag: Option<DragItem>

    /** The three cells as one value. */
    function Snapshot(): Board
      reads this
    {
      Board(courts, queuePlayers, currentDrag)
    }

    /** No court is over capacity and court ids are distinct. Every handler
        also keeps the table's layout (`SameLayout` with the old table), so
        the courts keep the ids, names and capacities of `InitialCourts`. */
    ghost predicate Valid()
      reads this
    {
      WellFormed(Snapshot())
    }

    constructor ()
      ensures Valid() && Consistent(Snapshot())
      ensures courts == InitialCourts() && queuePlayers == [] && currentDrag == None
      ensures AllIds(Snapshot()) == multiset{}
    {
      var start := Board(InitialCourts(), [], None);
      InitialBoard();
      courts := start.courts;
      queuePlayers := start.queue;
      currentDrag := start.drag;
      new;
      assert Snapshot() == start;
    }

    /** `handleAddPlayerToQueue`: `id` stands for the generated id and `now`
        for the clock. */
    method AddPlayerToQueue(name: string, id: string, now: int)
      requires Valid()
      modifies this
      ensures Valid() && SameLayout(courts, old(courts))
      ensures queuePlayers == old(queuePlayers) + [Player(id, name, None, Some(now))]
      ensures courts == old(courts) && currentDrag == old(currentDrag)
      ensures Snapshot() == AddStep(old(Snapshot()), name, id, now)
      ensures AllIds(Snapshot()) == old(AllIds(Snapshot())) + multiset{id}
      ensures old(Consistent(Snapshot())) && id !in old(AllIds(Snapshot())) ==> Consistent(Snapshot())
    {
      AddStepKeeps(Snapshot(), name, id, now);
      var newPlayer := Player(id, name, None, Some(now));
      queuePlayers := queuePlayers + [newPlayer];
    }

    /** `handleRemovePlayer`. */
    method RemovePlayer(playerId: string)
      requires Valid()
      modifies this
      ensures Valid() && SameLayout(courts, old(courts))
      ensures Snapshot() == RemoveStep(old(Snapshot()), playerId)
      ensures currentDrag == old(currentDrag)
      ensures old(Consistent(Snapshot())) ==>
        Consistent(Snapshot()) && AllIds(Snapshot()) == old(AllIds(Snapshot()))[playerId := 0]
    {
      ghost var before := Snapshot();
      var queuePlayer := FindPlayer(queuePlayers, playerId);
      if queuePlayer.Some? {
        queuePlayers := WithoutId(queuePlayers, playerId);
      } else {
        courts := RemoveFromCourts(courts, playerId);
      }
      assert Snapshot() == RemoveStep(before, playerId);
      assert WellFormed(Snapshot()) && SameLayout(courts, before.courts) by {
        RemoveKeepsWellFormed(before, playerId);
      }
      assert Consistent(before) ==> Consistent(Snapshot()) && AllIds(Snapshot()) == AllIds(before)[playerId := 0] by {
        if Consistent(before) {
          RemoveKeepsConsistent(before, playerId);
        }
      }
    }

    /** `handleDragStart`. */
    method DragStart(item: DragItem)
      requires Valid()
      modifies this
      ensures Valid() && SameLayout(courts, old(courts))
      ensures currentDrag == Some(item)
      ensures courts == old(courts) && queuePlayers == old(queuePlayers)
      ensures Snapshot() == DragStartStep(old(Snapshot()), item)
    {
      currentDrag := Some(item);
    }

    /** `handleDrop`. The source's early returns leave every cell as it was,
        `currentDrag` included; here they are the branches that skip the
        final reset. */
    method Drop(playerId: string, source: Source, targetCourtId: Option<string>, now: int)
      requires Valid()
      modifies this
      ensures Valid() && SameLayout(courts, old(courts))
      ensures Snapshot() == DropStep(old(Snapshot()), playerId, source, targetCourtId, now)
      ensures old(Consistent(Snapshot())) ==>
        Consistent(Snapshot()) && AllIds(Snapshot()) == old(AllIds(Snapshot()))
    {
      ghost var before := Snapshot();
      var moved := false;
      if currentDrag.None? {
        // no drag in flight: nothing happens
      } else if source == FromQueue && IsTruthy(targetCourtId) {
        var player := FindPlayer(queuePlayers, playerId);
        if player.Some? {
          var targetCourt := FindCourt(courts, targetCourtId.value);
          if targetCourt.Some? && |courts[targetCourt.value].players| < courts[targetCourt.value].maxPlayers {
            queuePlayers := WithoutId(queuePlayers, playerId);
            var updatedPlayer := ToCourt(player.value, now);
            courts := AddToCourt(courts, targetCourtId.value, updatedPlayer);
            moved := true;
          }
        }
      } else if source == FromCourt {
        var sourceCourt := FindHolder(courts, playerId);
        if sourceCourt.Some? {
          // The source's second check (`if (!player) return;`) cannot fire:
          // the court was found because it holds the id.
          var player := FindPlayer(courts[sourceCourt.value].players, playerId);
          var updatedCourts := RemoveFromCourts(courts, playerId);
          var updatedPlayer := ToQueue(player.value, now);
          queuePlayers := queuePlayers + [updatedPlayer];
          courts := updatedCourts;
          moved := true;
        }
      } else {
        moved := true;
      }
      if moved {
        currentDrag := None;
      }
      assert Snapshot() == DropStep(before, playerId, source, targetCourtId, now);
      assert WellFormed(Snapshot()) && SameLayout(courts, before.courts) by {
        DropKeepsWellFormed(before, playerId, source, targetCourtId, now);
      }
      assert Consistent(before) ==> Consistent(Snapshot()) && AllIds(Snapshot()) == AllIds(before) by {
        if Consistent(before) {
          DropKeepsConsistent(before, playerId, source, targetCourtId, now);
        }
      }
    }
  }
}
