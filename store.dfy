/** The assignment store of the top-level component: the court table, the
    waiting queue and the drag in flight, with one handler per user action.
    `Board` is a snapshot of the three state cells; each `...Step` function
    says what one handler turns a snapshot into, and `CourtStore` is the
    stateful store whose methods perform those steps. */
module Store {
  import opened CourtTypes
  import opened Roster

  /** The fifteen fixed courts, each empty with room for four. */
  function InitialCourts(): (cs: seq<Court>)
    ensures |cs| == 15
    ensures forall k :: 0 <= k < |cs| ==> cs[k].players == [] && cs[k].maxPlayers == 4
  {
    [ Court("court1", "Court 1", [], 4),
      Court("court2", "Court 2", [], 4),
      Court("court3", "Court 3", [], 4),
      Court("court4", "Court 4", [], 4),
      Court("court5", "Court 5", [], 4),
      Court("court6", "Court 6", [], 4),
      Court("court7", "Court 7", [], 4),
      Court("court8", "Court 8", [], 4),
      Court("court9", "Court 9", [], 4),
      Court("court10", "Court 10", [], 4),
      Court("courta", "Next 1", [], 4),
      Court("courtb", "Next 2", [], 4),
      Court("courtc", "Next 3", [], 4),
      Court("courtd", "Next 4", [], 4),
      Court("courte", "Next 5", [], 4) ]
  }

  /** A snapshot of the three state cells. */
  datatype Board = Board(courts: seq<Court>, queue: seq<Player>, drag: Option<DragItem>)

  /** JavaScript truthiness of an optional court id: absent and `""` are false. */
  function IsTruthy(s: Option<string>): (t: bool)
    ensures s == None ==> !t
    ensures s == Some("") ==> !t
    ensures s.Some? && s.value != "" ==> t
  {
    s.Some? && s.value != ""
  }

  predicate IsQueued(p: Player) {
    p.waitingSince.Some? && p.onCourtSince.None?
  }

  predicate IsOnCourt(p: Player) {
    p.onCourtSince.Some? && p.waitingSince.None?
  }

  /** The copy of a queued player that goes onto a court at time `now`. */
  function ToCourt(p: Player, now: int): (q: Player)
    ensures q.id == p.id && q.name == p.name
    ensures IsOnCourt(q) && q.onCourtSince == Some(now)
  {
    p.(waitingSince := None, onCourtSince := Some(now))
  }

  /** The copy of a court player that goes back to the queue at time `now`. */
  function ToQueue(p: Player, now: int): (q: Player)
    ensures q.id == p.id && q.name == p.name
    ensures IsQueued(q) && q.waitingSince == Some(now)
  {
    p.(onCourtSince := None, waitingSince := Some(now))
  }

  // ----- the handlers as steps on snapshots -----

  /** `handleAddPlayerToQueue`, with the generated id and the clock as inputs. */
  function AddStep(b: Board, name: string, id: string, now: int): (r: Board)
    ensures r.courts == b.courts && r.drag == b.drag
    ensures |r.queue| == |b.queue| + 1 && r.queue[..|b.queue|] == b.queue
    ensures var p := r.queue[|b.queue|];
      p.id == id && p.name == name && IsQueued(p) && p.waitingSince == Some(now)
  {
    b.(queue := b.queue + [Player(id, name, None, Some(now))])
  }

  /** `handleRemovePlayer`: the queue first; only when the id is not queued,
      every court. */
  function RemoveStep(b: Board, id: string): (r: Board)
    ensures r.drag == b.drag
    ensures id in Ids(b.queue) ==> r.courts == b.courts && forall p :: p in r.queue ==> p.id != id
    ensures id !in Ids(b.queue) ==> r.queue == b.queue && |r.courts| == |b.courts|
  {
    if FindPlayer(b.queue, id).Some? then b.(queue := WithoutId(b.queue, id))
    else b.(courts := RemoveFromCourts(b.courts, id))
  }

  /** `handleDragStart`. */
  function DragStartStep(b: Board, item: DragItem): (r: Board)
    ensures r.drag == Some(item) && r.courts == b.courts && r.queue == b.queue
  {
    b.(drag := Some(item))
  }

  /** `handleDrop`. The early returns give back the snapshot as it was, drag
      included; a completed move, and a drop that matches no branch, clear
      the drag. The court branch never looks at `target`. */
  function DropStep(b: Board, playerId: string, source: Source, target: Option<string>, now: int): (r: Board)
    ensures b.drag.None? ==> r == b
    ensures r == b || r.drag == None
  {
    if b.drag.None? then b
    else if source == FromQueue && IsTruthy(target) then QueueDrop(b, playerId, target.value, now)
    else if source == FromCourt then CourtDrop(b, playerId, now)
    else b.(drag := None)
  }

  /** The queue branch of `handleDrop`: the player must be queued, the court
      must exist and must have room. */
  function QueueDrop(b: Board, playerId: string, courtId: string, now: int): (r: Board)
    ensures r != b ==> r.drag == None && playerId in Ids(b.queue) && FindCourt(b.courts, courtId).Some?
  {
    match FindPlayer(b.queue, playerId)
    case None => b
    case Some(p) =>
      match FindCourt(b.courts, courtId)
      case None => b
      case Some(k) =>
        if |b.courts[k].players| >= b.courts[k].maxPlayers then b
        else Board(AddToCourt(b.courts, courtId, ToCourt(p, now)), WithoutId(b.queue, playerId), None)
  }

  /** The court branch of `handleDrop`: the first court holding the player
      gives up its record, which joins the end of the queue. */
  function CourtDrop(b: Board, playerId: string, now: int): (r: Board)
    ensures r != b ==> r.drag == None && FindHolder(b.courts, playerId).Some?
    ensures r != b ==> |r.queue| == |b.queue| + 1 && r.queue[..|b.queue|] == b.queue
  {
    match FindHolder(b.courts, playerId)
    case None => b
    case Some(k) =>
      var p := FindPlayer(b.courts[k].players, playerId).value;
      Board(RemoveFromCourts(b.courts, playerId), b.queue + [ToQueue(p, now)], None)
  }

  // ----- invariants -----

  /** Same number of courts, and court by court the same id, name and capacity. */
  ghost predicate SameLayout(a: seq<Court>, b: seq<Court>) {
    && |a| == |b|
    && forall k :: 0 <= k < |a| ==>
         a[k].id == b[k].id && a[k].name == b[k].name && a[k].maxPlayers == b[k].maxPlayers
  }

  ghost predicate WithinCapacity(cs: seq<Court>) {
    forall k :: 0 <= k < |cs| ==> |cs[k].players| <= cs[k].maxPlayers
  }

  ghost predicate DistinctCourtIds(cs: seq<Court>) {
    forall j, k :: 0 <= j < k < |cs| ==> cs[j].id != cs[k].id
  }

  /** What every handler keeps, whatever its inputs: the fixed court table and
      the capacity of every court. */
  ghost predicate WellFormed(b: Board) {
    && WithinCapacity(b.courts)
    && DistinctCourtIds(b.courts)
  }

  /** Every id in the system, with multiplicity: queue and all rosters. */
  function AllIds(b: Board): multiset<string> {
    multiset(Ids(b.queue)) + multiset(CourtIds(b.courts))
  }

  ghost predicate UniqueIds(b: Board) {
    forall x :: AllIds(b)[x] <= 1
  }

  /** Queued players carry only a waiting time, court players only a court time. */
  ghost predicate StampsAgree(b: Board) {
    && (forall p :: p in b.queue ==> IsQueued(p))
    && (forall k, p :: 0 <= k < |b.courts| && p in b.courts[k].players ==> IsOnCourt(p))
  }

  /** What the handlers keep as long as added ids are fresh: every player is
      in exactly one place, with the timestamp of that place. */
  ghost predicate Consistent(b: Board) {
    UniqueIds(b) && StampsAgree(b)
  }

  lemma {:induction false} EmptyRosters(cs: seq<Court>)
    requires forall k :: 0 <= k < |cs| ==> cs[k].players == []
    ensures CourtIds(cs) == []
  {
    if cs != [] {
      EmptyRosters(cs[1..]);
    }
  }

  /** The position of a court id of the fixed table, read off its text. */
  function TableSlot(id: string): int {
    if |id| == 7 then 9
    else if |id| == 0 then -1
    else if '1' <= id[|id| - 1] <= '9' then id[|id| - 1] as int - '1' as int
    else id[|id| - 1] as int - 'a' as int + 10
  }

  lemma InitialCourtIdsDistinct()
    ensures DistinctCourtIds(InitialCourts())
  {
    var cs := InitialCourts();
    assert forall k :: 0 <= k < |cs| ==> TableSlot(cs[k].id) == k;
  }

  lemma InitialBoard()
    ensures WellFormed(Board(InitialCourts(), [], None))
    ensures Consistent(Board(InitialCourts(), [], None))
    ensures AllIds(Board(InitialCourts(), [], None)) == multiset{}
  {
    InitialCourtIdsDistinct();
    EmptyBoard(InitialCourts());
  }

  /** The starting state: empty courts with distinct ids and an empty queue
      satisfy both invariants and hold no player. */
  lemma EmptyBoard(cs: seq<Court>)
    requires DistinctCourtIds(cs)
    requires forall k :: 0 <= k < |cs| ==> cs[k].players == [] && cs[k].maxPlayers >= 0
    ensures WellFormed(Board(cs, [], None))
    ensures Consistent(Board(cs, [], None))
    ensures AllIds(Board(cs, [], None)) == multiset{}
  {
    EmptyRosters(cs);
  }

  // ----- adding -----

  /** Adding puts exactly the new id into the system; with a fresh id every
      player is still in one place. */
  lemma FreshInBag(m: multiset<string>, id: string)
    requires forall x :: m[x] <= 1
    requires id !in m
    ensures forall x :: (m + multiset{id})[x] <= 1
  {
    forall x ensures (m + multiset{id})[x] <= 1 {
      assert (m + multiset{id})[x] == m[x] + multiset{id}[x];
    }
  }

  lemma AddStepKeeps(b: Board, name: string, id: string, now: int)
    ensures WellFormed(b) ==> WellFormed(AddStep(b, name, id, now))
    ensures AllIds(AddStep(b, name, id, now)) == AllIds(b) + multiset{id}
    ensures Consistent(b) && id !in AllIds(b) ==> Consistent(AddStep(b, name, id, now))
  {
    var p := Player(id, name, None, Some(now));
    var r := AddStep(b, name, id, now);
    assert r.courts == b.courts && r.queue == b.queue + [p];
    assert AllIds(r) == AllIds(b) + multiset{id} by {
      IdsAppend(b.queue, [p]);
      assert Ids([p]) == [id];
    }
    if Consistent(b) && id !in AllIds(b) {
      assert UniqueIds(r) by {
        FreshInBag(AllIds(b), id);
      }
      assert StampsAgree(r) by {
        assert forall q :: q in r.queue ==> q in b.queue || q == p;
      }
    }
  }

  lemma RemoveQueued(b: Board, id: string)
    requires id in Ids(b.queue)
    ensures var r := RemoveStep(b, id);
      && r.courts == b.courts && r.drag == b.drag
      && id !in Ids(r.queue)
      && (forall p :: p in r.queue <==> p in b.queue && p.id != id)
  {
    WithoutIdBag(b.queue, id);
    assert id !in multiset(Ids(RemoveStep(b, id).queue));
  }

  lemma RemoveUnqueued(b: Board, id: string)
    requires id !in Ids(b.queue)
    ensures var r := RemoveStep(b, id);
      && r.queue == b.queue && r.drag == b.drag
      && id !in CourtIds(r.courts)
      && SameLayout(r.courts, b.courts)
      && (forall k :: 0 <= k < |b.courts| ==> r.courts[k].players == WithoutId(b.courts[k].players, id))
  {
    CourtIdsRemove(b.courts, id);
    assert id !in multiset(CourtIds(RemoveStep(b, id).courts));
  }

  lemma RemoveAbsentId(b: Board, id: string)
    requires id !in AllIds(b)
    ensures RemoveStep(b, id) == b
  {
    RemoveAbsent(b.courts, id);
  }

  lemma RemoveKeepsWellFormed(b: Board, id: string)
    requires WellFormed(b)
    ensures WellFormed(RemoveStep(b, id)) && SameLayout(RemoveStep(b, id).courts, b.courts)
  {
  }

  lemma RemoveKeepsConsistent(b: Board, id: string)
    requires Consistent(b)
    ensures Consistent(RemoveStep(b, id))
    ensures AllIds(RemoveStep(b, id)) == AllIds(b)[id := 0]
  {
    RemoveIds(b, id);
    RemoveStamps(b, id);
  }

  lemma DropFromBag(q: multiset<string>, c: multiset<string>, id: string)
    ensures q[id] == 0 ==> q + c[id := 0] == (q + c)[id := 0]
    ensures c[id] == 0 ==> q[id := 0] + c == (q + c)[id := 0]
  {
  }

  lemma RemoveIds(b: Board, id: string)
    requires UniqueIds(b)
    ensures AllIds(RemoveStep(b, id)) == AllIds(b)[id := 0]
  {
    var r := RemoveStep(b, id);
    var q := multiset(Ids(b.queue));
    var c := multiset(CourtIds(b.courts));
    DropFromBag(q, c, id);
    if id in Ids(b.queue) {
      WithoutIdBag(b.queue, id);
      assert AllIds(b)[id] == q[id] + c[id];
      assert AllIds(r) == q[id := 0] + c;
    } else {
      CourtIdsRemove(b.courts, id);
      assert AllIds(r) == q + c[id := 0];
    }
  }

  lemma RemoveStamps(b: Board, id: string)
    requires StampsAgree(b)
    ensures StampsAgree(RemoveStep(b, id))
  {
    var r := RemoveStep(b, id);
    assert forall k, p :: 0 <= k < |r.courts| && p in r.courts[k].players ==> p in b.courts[k].players;
  }

  // ----- dropping -----

  /** A drop either leaves the snapshot exactly as it was or clears the drag:
      with no drag in flight nothing happens, and a queue drag dropped with no
      target court only clears the drag. */
  lemma DropDragCell(b: Board, id: string, source: Source, target: Option<string>, now: int)
    ensures DropStep(b, id, source, target, now).drag == b.drag ==> DropStep(b, id, source, target, now) == b
    ensures DropStep(b, id, source, target, now).drag != b.drag ==> DropStep(b, id, source, target, now).drag == None
    ensures b.drag.None? ==> DropStep(b, id, source, target, now) == b
    ensures b.drag.Some? && source == FromQueue && !IsTruthy(target) ==>
      DropStep(b, id, source, target, now) == b.(drag := None)
  {
  }

  /** A queue player dropped on a court: rejected without any change when the
      player is not queued, no court has that id or the court is full;
      otherwise the player leaves the queue and is appended, seated at `now`,
      to that court alone. */
  lemma QueueDropOutcome(b: Board, id: string, courtId: string, now: int)
    requires WellFormed(b)
    ensures var r := QueueDrop(b, id, courtId, now);
      var k := FindCourt(b.courts, courtId);
      if id !in Ids(b.queue) || k.None? || |b.courts[k.value].players| >= b.courts[k.value].maxPlayers then
        r == b
      else
        && r.drag == None
        && r.queue == WithoutId(b.queue, id)
        && SameLayout(r.courts, b.courts)
        && r.courts[k.value].players == b.courts[k.value].players + [ToCourt(FindPlayer(b.queue, id).value, now)]
        && (forall j :: 0 <= j < |b.courts| && j != k.value ==> r.courts[j] == b.courts[j])
  {
  }

  /** A court drag whose player no roster holds changes nothing. */
  lemma CourtDropMissing(b: Board, id: string, now: int)
    requires id !in CourtIds(b.courts)
    ensures CourtDrop(b, id, now) == b
  {
    CourtIdsMember(b.courts, id);
    assert FindHolder(b.courts, id).None?;
  }

  /** A court player dropped anywhere: the id leaves every roster and one
      player is appended to the queue. */
  lemma CourtDropMoves(b: Board, id: string, now: int)
    requires id in CourtIds(b.courts)
    ensures var r := CourtDrop(b, id, now);
      && r.drag == None
      && r.courts == RemoveFromCourts(b.courts, id)
      && id !in CourtIds(r.courts)
      && SameLayout(r.courts, b.courts)
      && |r.queue| == |b.queue| + 1 && r.queue[..|b.queue|] == b.queue
  {
    var r := CourtDrop(b, id, now);
    CourtIdsMember(b.courts, id);
    var k := FindHolder(b.courts, id).value;
    CourtIdsRemove(b.courts, id);
    assert id !in multiset(CourtIds(r.courts));
    assert r.queue[..|b.queue|] == b.queue;
  }

  /** The player appended to the queue is the court's record of that id, its
      court time replaced by a waiting time of `now`. */
  lemma CourtDropRequeues(b: Board, id: string, now: int)
    requires id in CourtIds(b.courts)
    ensures var r := CourtDrop(b, id, now);
      && |r.queue| == |b.queue| + 1
      && exists k, q :: 0 <= k < |b.courts| && q in b.courts[k].players && q.id == id
                        && r.queue[|b.queue|] == ToQueue(q, now)
  {
    var r := CourtDrop(b, id, now);
    CourtIdsMember(b.courts, id);
    var k := FindHolder(b.courts, id).value;
    var q := FindPlayer(b.courts[k].players, id).value;
    assert r.queue == b.queue + [ToQueue(q, now)];
    assert 0 <= k < |b.courts| && q in b.courts[k].players && q.id == id && r.queue[|b.queue|] == ToQueue(q, now);
  }

  /** The court branch ignores the target court entirely. */
  lemma CourtDropIgnoresTarget(b: Board, id: string, t1: Option<string>, t2: Option<string>, now: int)
    ensures DropStep(b, id, FromCourt, t1, now) == DropStep(b, id, FromCourt, t2, now)
  {
  }

  /** No drop breaks the court table or overfills a court. */
  lemma DropKeepsWellFormed(b: Board, id: string, source: Source, target: Option<string>, now: int)
    requires WellFormed(b)
    ensures WellFormed(DropStep(b, id, source, target, now))
    ensures SameLayout(DropStep(b, id, source, target, now).courts, b.courts)
  {
    var r := DropStep(b, id, source, target, now);
    if b.drag.Some? && source == FromQueue && IsTruthy(target) {
      assert r == QueueDrop(b, id, target.value, now);
      QueueDropOutcome(b, id, target.value, now);
    } else if b.drag.Some? && source == FromCourt {
      assert r == CourtDrop(b, id, now);
      assert r.courts == b.courts || r.courts == RemoveFromCourts(b.courts, id);
    } else {
      assert r.courts == b.courts;
    }
  }

  lemma QueueDropIds(b: Board, id: string, courtId: string, now: int)
    requires WellFormed(b) && UniqueIds(b)
    ensures AllIds(QueueDrop(b, id, courtId, now)) == AllIds(b)
  {
    var r := QueueDrop(b, id, courtId, now);
    QueueDropOutcome(b, id, courtId, now);
    var k := FindCourt(b.courts, courtId);
    if id in Ids(b.queue) && k.Some? && |b.courts[k.value].players| < b.courts[k.value].maxPlayers {
      var q := multiset(Ids(b.queue));
      var c := multiset(CourtIds(b.courts));
      var p := ToCourt(FindPlayer(b.queue, id).value, now);
      WithoutIdBag(b.queue, id);
      CourtIdsAdd(b.courts, courtId, k.value, p);
      assert AllIds(b)[id] == q[id] + c[id];
      assert q[id] == 1;
      ReturnToBag(q, c, id);
      assert AllIds(r) == q[id := 0] + (c + multiset{id});
    }
  }

  lemma ReturnToBag(q: multiset<string>, c: multiset<string>, id: string)
    ensures q[id] == 1 ==> q[id := 0] + (c + multiset{id}) == q + c
    ensures c[id] == 1 ==> (q + multiset{id}) + c[id := 0] == q + c
  {
  }

  lemma CourtDropIds(b: Board, id: string, now: int)
    requires UniqueIds(b)
    ensures AllIds(CourtDrop(b, id, now)) == AllIds(b)
  {
    CourtIdsMember(b.courts, id);
    if id in CourtIds(b.courts) {
      var k := FindHolder(b.courts, id).value;
      var x := ToQueue(FindPlayer(b.courts[k].players, id).value, now);
      var r := CourtDrop(b, id, now);
      assert r == Board(RemoveFromCourts(b.courts, id), b.queue + [x], None);
      var q := multiset(Ids(b.queue));
      var c := multiset(CourtIds(b.courts));
      assert multiset(CourtIds(r.courts)) == c[id := 0] by {
        CourtIdsRemove(b.courts, id);
      }
      assert multiset(Ids(r.queue)) == q + multiset{id} by {
        IdsAppend(b.queue, [x]);
        assert Ids([x]) == [id];
      }
      assert c[id] == 1 by {
        assert id in c;
        assert AllIds(b)[id] == q[id] + c[id];
      }
      ReturnToBag(q, c, id);
    } else {
      CourtDropMissing(b, id, now);
    }
  }

  lemma QueueDropStamps(b: Board, id: string, courtId: string, now: int)
    requires WellFormed(b) && StampsAgree(b)
    ensures StampsAgree(QueueDrop(b, id, courtId, now))
  {
    var r := QueueDrop(b, id, courtId, now);
    QueueDropOutcome(b, id, courtId, now);
    var k := FindCourt(b.courts, courtId);
    if id in Ids(b.queue) && k.Some? && |b.courts[k.value].players| < b.courts[k.value].maxPlayers {
      var p := ToCourt(FindPlayer(b.queue, id).value, now);
      assert forall j, x :: 0 <= j < |r.courts| && x in r.courts[j].players ==>
        x == p || x in b.courts[j].players;
    }
  }

  lemma CourtDropStamps(b: Board, id: string, now: int)
    requires StampsAgree(b)
    ensures StampsAgree(CourtDrop(b, id, now))
  {
    var r := CourtDrop(b, id, now);
    if id in CourtIds(b.courts) {
      CourtDropMoves(b, id, now);
      assert forall j, y :: 0 <= j < |r.courts| && y in r.courts[j].players ==> y in b.courts[j].players;
      assert forall y :: y in r.queue ==> y in b.queue || y == r.queue[|b.queue|];
    } else {
      CourtDropMissing(b, id, now);
    }
  }

  /** Moves keep every id in the system exactly as often as before, and keep
      every player in one place with the timestamp of that place. */
  lemma DropKeepsConsistent(b: Board, id: string, source: Source, target: Option<string>, now: int)
    requires WellFormed(b) && Consistent(b)
    ensures Consistent(DropStep(b, id, source, target, now))
    ensures AllIds(DropStep(b, id, source, target, now)) == AllIds(b)
  {
    var r := DropStep(b, id, source, target, now);
    if b.drag.None? {
      assert r == b;
    } else if source == FromQueue && IsTruthy(target) {
      assert r == QueueDrop(b, id, target.value, now);
      QueueDropIds(b, id, target.value, now);
      QueueDropStamps(b, id, target.value, now);
      assert UniqueIds(QueueDrop(b, id, target.value, now));
    } else if source == FromCourt {
      assert r == CourtDrop(b, id, now);
      CourtDropIds(b, id, now);
      CourtDropStamps(b, id, now);
      assert UniqueIds(CourtDrop(b, id, now));
    } else {
      assert r.courts == b.courts && r.queue == b.queue;
      assert AllIds(r) == AllIds(b);
    }
  }
}
