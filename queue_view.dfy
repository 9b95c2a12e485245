/** The waiting-queue panel: its drag-over highlight, the name field of the
    add form, the card being dragged out of it, the forwarding of drops to the
    store, and the grouping of the queue into batches of four for display. */
module QueueView {
  import opened CourtTypes
  import opened Roster
  import opened Store
  import opened App
  import opened CourtView

  // ----- trimming the name field -----

  /** The whitespace `trim` removes, restricted to ASCII. */
  predicate IsSpace(c: char) {
    c == ' ' || c == '\t' || c == '\n' || c == '\r' || c == '\U{000B}' || c == '\U{000C}'
  }

  predicate AllSpace(s: string) {
    forall i :: 0 <= i < |s| ==> IsSpace(s[i])
  }

  /** The index of the first non-space character, or `|s|`. */
  function FirstNonSpace(s: string, i: nat): (r: nat)
    requires i <= |s|
    ensures i <= r <= |s|
    ensures forall j :: i <= j < r ==> IsSpace(s[j])
    ensures r < |s| ==> !IsSpace(s[r])
    decreases |s| - i
  {
    if i == |s| || !IsSpace(s[i]) then i else FirstNonSpace(s, i + 1)
  }

  /** One past the index of the last non-space character at or after `lo`,
      or `lo`. */
  function EndNonSpace(s: string, lo: nat, hi: nat): (r: nat)
    requires lo <= hi <= |s|
    ensures lo <= r <= hi
    ensures forall j :: r <= j < hi ==> IsSpace(s[j])
    ensures r > lo ==> !IsSpace(s[r - 1])
    decreases hi - lo
  {
    if hi == lo || !IsSpace(s[hi - 1]) then hi else EndNonSpace(s, lo, hi - 1)
  }

  /** `String.prototype.trim` over ASCII whitespace. */
  function Trim(s: string): (r: string)
    ensures exists i, j ::
      0 <= i <= j <= |s| && r == s[i..j] && AllSpace(s[..i]) && AllSpace(s[j..])
    ensures r != [] ==> !IsSpace(r[0]) && !IsSpace(r[|r| - 1])
  {
    var i := FirstNonSpace(s, 0);
    var j := EndNonSpace(s, i, |s|);
    assert AllSpace(s[..i]) && AllSpace(s[j..]);
    s[i..j]
  }

  /** The trimmed name is empty exactly when the field holds only spaces. */
  lemma TrimEmpty(s: string)
    ensures Trim(s) == [] <==> AllSpace(s)
  {
    var i := FirstNonSpace(s, 0);
    var j := EndNonSpace(s, i, |s|);
    if i < |s| {
      assert !IsSpace(s[i]);
      assert j > i;
    }
  }

  /** Trimming twice is trimming once. */
  lemma TrimIdempotent(s: string)
    ensures Trim(Trim(s)) == Trim(s)
  {
    var t := Trim(s);
    if t != [] {
      assert FirstNonSpace(t, 0) == 0;
      assert EndNonSpace(t, 0, |t|) == |t|;
      assert t[0..|t|] == t;
    }
  }

  // ----- drops and drags -----

  /** The store's new snapshot after a drop on the queue: the descriptor's
      own court id, if any, travels as the target. */
  function DropOnQueue(b: Board, data: DragItem, now: int): (r: Board)
    ensures b.drag.Some? && data.sourceContainer == FromCourt ==> r == CourtDrop(b, data.id, now)
    ensures b.drag.Some? && data.sourceContainer == FromQueue && !IsTruthy(data.courtId) ==>
      r == b.(drag := None)
    ensures b.drag.Some? && data.sourceContainer == FromQueue && IsTruthy(data.courtId) ==>
      r == QueueDrop(b, data.id, data.courtId.value, now)
  {
    DropStep(b, data.id, data.sourceContainer, data.courtId, now)
  }

  /** The descriptor of a drag that starts in the queue: it names no court. */
  function QueueDragItem(player: Player): (d: DragItem)
    ensures d.id == player.id && d.sourceContainer == FromQueue && d.courtId == None
  {
    DragItem(player.id, FromQueue, None)
  }

  /** A queue card dragged and dropped back on the queue changes nothing but
      the drag cell, which ends up clear. */
  lemma QueueCardBackOnQueue(b: Board, player: Player, now: int)
    ensures var item := QueueDragItem(player);
      DropOnQueue(DragStartStep(b, item), item, now) == b.(drag := None)
  {
  }

  /** A court card dropped on the queue goes to the end of the queue, and a
      drop of the same card on any court with room does the very same. */
  lemma CourtCardOnQueue(b: Board, court: Court, player: Player, target: Court, now: int)
    requires player.id in CourtIds(b.courts)
    requires |target.players| < target.maxPlayers
    ensures var item := CourtDragItem(court, player);
      var started := DragStartStep(b, item);
      var r := DropOnQueue(started, item, now);
      && r == CourtDrop(started, player.id, now)
      && r == DropOnCourt(started, target, item, now)
      && player.id !in CourtIds(r.courts)
      && |r.queue| == |b.queue| + 1 && r.queue[..|b.queue|] == b.queue
  {
    var item := CourtDragItem(court, player);
    var started := DragStartStep(b, item);
    CourtDropMoves(started, player.id, now);
  }

  // ----- batches of four -----

  /** How many batches `n` players make: `n` divided by four, rounded up. */
  function BatchCount(n: nat): (c: nat)
    ensures 4 * c - 3 <= n <= 4 * c
    ensures n > 0 ==> 4 * (c - 1) < n
    ensures n % 4 == 0 ==> 4 * c == n && n / 4 == c
    ensures n % 4 != 0 ==> n / 4 == c - 1
  {
    (n + 3) / 4
  }

  function Min(a: int, b: int): int {
    if a <= b then a else b
  }

  /** The queue cut into consecutive groups of four, the last one possibly
      shorter: batch `k` holds players `4 * k` up to `4 * k + 3`. */
  function Chunks(s: seq<Player>): (c: seq<seq<Player>>)
    ensures |c| == BatchCount(|s|)
  {
    seq(BatchCount(|s|), k requires 0 <= k < BatchCount(|s|) => s[4 * k .. Min(4 * k + 4, |s|)])
  }

  /** A player after a full last batch opens a new batch. */
  lemma ChunksSnocFull(s: seq<Player>, x: Player)
    requires |s| % 4 == 0
    ensures Chunks(s + [x]) == Chunks(s) + [[x]]
  {
    var t := s + [x];
    var c := Chunks(s);
    var d := Chunks(t);
    var n := |s|;
    assert |d| == |c| + 1;
    forall k | 0 <= k < |c| ensures d[k] == c[k] {
      assert t[4 * k .. 4 * k + 4] == s[4 * k .. 4 * k + 4];
    }
    assert 4 * |c| == n && Min(n + 4, n + 1) == n + 1;
    assert d[|c|] == t[n .. n + 1];
    assert t[n .. n + 1] == [x];
    assert d == c + [[x]];
  }

  /** A player after a last batch with room joins that batch. */
  lemma ChunksSnocPartial(s: seq<Player>, x: Player)
    requires |s| % 4 != 0
    ensures |Chunks(s)| > 0
    ensures Chunks(s + [x]) == Chunks(s)[|Chunks(s)| - 1 := Chunks(s)[|Chunks(s)| - 1] + [x]]
  {
    var t := s + [x];
    var c := Chunks(s);
    var d := Chunks(t);
    var n := |s|;
    assert |d| == |c| && |c| > 0;
    var last := |c| - 1;
    forall k | 0 <= k < last ensures d[k] == c[k] {
      assert t[4 * k .. 4 * k + 4] == s[4 * k .. 4 * k + 4];
    }
    assert 4 * last < n < 4 * last + 4;
    assert Min(4 * last + 4, n + 1) == n + 1 && Min(4 * last + 4, n) == n;
    assert d[last] == t[4 * last .. n + 1];
    assert c[last] == s[4 * last .. n];
    assert t[4 * last .. n] == s[4 * last .. n];
    assert t[4 * last .. n + 1] == t[4 * last .. n] + [x];
    assert d[last] == c[last] + [x];
    assert d == c[last := c[last] + [x]];
  }

  /** One more player either opens a new batch, when the last is full, or
      joins the last batch. */
  lemma ChunksSnoc(s: seq<Player>, x: Player)
    ensures |s| % 4 == 0 ==> Chunks(s + [x]) == Chunks(s) + [[x]]
    ensures |s| % 4 != 0 ==> |Chunks(s)| > 0
    ensures |s| % 4 != 0 ==>
      Chunks(s + [x]) == Chunks(s)[|Chunks(s)| - 1 := Chunks(s)[|Chunks(s)| - 1] + [x]]
  {
    if |s| % 4 == 0 {
      ChunksSnocFull(s, x);
    } else {
      ChunksSnocPartial(s, x);
    }
  }

  /** Every batch holds one to four players and all but the last hold four. */
  lemma ChunksSizes(s: seq<Player>)
    ensures forall k :: 0 <= k < |Chunks(s)| ==> 1 <= |Chunks(s)[k]| <= 4
    ensures forall k :: 0 <= k < |Chunks(s)| - 1 ==> |Chunks(s)[k]| == 4
  {
  }

  /** Player `i` sits at position `i % 4` of batch `i / 4`. */
  lemma ChunksPosition(s: seq<Player>)
    ensures forall i :: 0 <= i < |s| ==>
      i / 4 < |Chunks(s)| && i % 4 < |Chunks(s)[i / 4]| && Chunks(s)[i / 4][i % 4] == s[i]
  {
    var c := Chunks(s);
    forall i | 0 <= i < |s|
      ensures i / 4 < |c| && i % 4 < |c[i / 4]| && c[i / 4][i % 4] == s[i]
    {
      var k := i / 4;
      assert 4 * k + i % 4 == i;
      assert c[k] == s[4 * k .. Min(4 * k + 4, |s|)];
    }
  }

  /** The batches laid end to end. */
  function Flatten(batches: seq<seq<Player>>): seq<Player> {
    if batches == [] then [] else Flatten(batches[..|batches| - 1]) + batches[|batches| - 1]
  }

  lemma FlattenSnoc(batches: seq<seq<Player>>, last: seq<Player>)
    ensures Flatten(batches + [last]) == Flatten(batches) + last
  {
    assert (batches + [last])[..|batches|] == batches;
  }

  /** Laid end to end, the batches give back the queue in its order. */
  lemma {:induction false} ChunksFlatten(s: seq<Player>)
    ensures Flatten(Chunks(s)) == s
    decreases |s|
  {
    if s != [] {
      var p := s[..|s| - 1];
      var x := s[|s| - 1];
      assert s == p + [x];
      ChunksFlatten(p);
      ChunksSnoc(p, x);
      var c := Chunks(p);
      if |p| % 4 == 0 {
        FlattenSnoc(c, [x]);
      } else {
        var last := |c| - 1;
        assert c == c[..last] + [c[last]];
        assert c[last := c[last] + [x]] == c[..last] + [c[last] + [x]];
        FlattenSnoc(c[..last], c[last]);
        FlattenSnoc(c[..last], c[last] + [x]);
      }
    }
  }

  /** `playerBatches`: the reduce that pushes each player onto batch
      `index / 4`, opening that batch when it does not exist yet. */
  method PlayerBatches(players: seq<Player>) returns (batches: seq<seq<Player>>)
    ensures batches == Chunks(players)
  {
    batches := [];
    var index := 0;
    while index < |players|
      invariant 0 <= index <= |players|
      invariant batches == Chunks(players[..index])
    {
      ghost var before := batches;
      ChunksSnoc(players[..index], players[index]);
      assert players[..index + 1] == players[..index] + [players[index]];
      assert |before| == BatchCount(index);
      var batchIndex := index / 4;
      if batchIndex == |batches| {
        batches := batches + [[]];
      }
      batches := batches[batchIndex := batches[batchIndex] + [players[index]]];
      if index % 4 == 0 {
        assert batchIndex == |before|;
        assert [] + [players[index]] == [players[index]];
        assert batches == before + [[players[index]]];
      } else {
        assert batchIndex == |before| - 1;
      }
      index := index + 1;
    }
    assert players[..index] == players;
  }

  /** What the display relies on: the batches give back the queue, there are
      `n` divided by four rounded up of them (none for an empty queue), and
      player `i` is at position `i % 4` of batch `i / 4`. */
  lemma BatchesShape(players: seq<Player>)
    ensures Flatten(Chunks(players)) == players
    ensures |Chunks(players)| == (|players| + 3) / 4
    ensures players == [] <==> Chunks(players) == []
    ensures forall k :: 0 <= k < |Chunks(players)| ==> 1 <= |Chunks(players)[k]| <= 4
    ensures forall k :: 0 <= k < |Chunks(players)| - 1 ==> |Chunks(players)[k]| == 4
    ensures forall i :: 0 <= i < |players| ==>
      i / 4 < |Chunks(players)| && Chunks(players)[i / 4][i % 4] == players[i]
  {
    ChunksFlatten(players);
    ChunksSizes(players);
    ChunksPosition(players);
  }

  class QueuePanel {
    var isOver: bool
    var newPlayerName: string
    var draggingPlayerId: Option<string>

    constructor ()
      ensures !isOver && newPlayerName == "" && draggingPlayerId == None
    {
      isOver := false;
      newPlayerName := "";
      draggingPlayerId := None;
    }

    /** `handleDragOver`: the queue accepts every drag. */
    method DragOver()
      modifies this
      ensures isOver
      ensures newPlayerName == old(newPlayerName) && draggingPlayerId == old(draggingPlayerId)
    {
      if !isOver {
        isOver := true;
      }
    }

    /** `handleDragLeave`: `leftPanel` says whether the pointer moved to an
        element outside the queue's panel. */
    method DragLeave(leftPanel: bool)
      modifies this
      ensures isOver == (old(isOver) && !leftPanel)
      ensures newPlayerName == old(newPlayerName) && draggingPlayerId == old(draggingPlayerId)
    {
      if leftPanel {
        isOver := false;
      }
    }

    /** `handleDrop`: the highlight goes and the drop is passed on as it came. */
    method HandleDrop(data: DragItem, store: CourtStore, now: int)
      requires store.Valid()
      modifies this, store
      ensures !isOver
      ensures newPlayerName == old(newPlayerName) && draggingPlayerId == old(draggingPlayerId)
      ensures store.Valid() && SameLayout(store.courts, old(store.courts))
      ensures store.Snapshot() == DropOnQueue(old(store.Snapshot()), data, now)
      ensures old(Consistent(store.Snapshot())) ==>
        Consistent(store.Snapshot()) && AllIds(store.Snapshot()) == old(AllIds(store.Snapshot()))
    {
      isOver := false;
      store.Drop(data.id, data.sourceContainer, data.courtId, now);
    }

    /** `handlePlayerDragStart`. */
    method PlayerDragStart(player: Player, store: CourtStore)
      requires store.Valid()
      modifies this, store
      ensures draggingPlayerId == Some(player.id)
      ensures isOver == old(isOver) && newPlayerName == old(newPlayerName)
      ensures store.Valid() && SameLayout(store.courts, old(store.courts))
      ensures store.Snapshot() == DragStartStep(old(store.Snapshot()), QueueDragItem(player))
    {
      draggingPlayerId := Some(player.id);
      var item := DragItem(player.id, FromQueue, None);
      store.DragStart(item);
    }

    /** `handleDragEnd`. */
    method DragEnd()
      modifies this
      ensures draggingPlayerId == None
      ensures isOver == old(isOver) && newPlayerName == old(newPlayerName)
    {
      draggingPlayerId := None;
    }

    /** The name field's `onChange`. */
    method SetNewPlayerName(name: string)
      modifies this
      ensures newPlayerName == name
      ensures isOver == old(isOver) && draggingPlayerId == old(draggingPlayerId)
    {
      newPlayerName := name;
    }

    /** `handleAddPlayer`: a name that is blank once trimmed is ignored and
        stays in the field; otherwise the trimmed name joins the queue and
        the field is cleared. `id` and `now` stand for what the store's
        handler would generate and read from the clock. */
    method HandleAddPlayer(store: CourtStore, id: string, now: int)
      requires store.Valid()
      modifies this, store
      ensures isOver == old(isOver) && draggingPlayerId == old(draggingPlayerId)
      ensures store.Valid() && SameLayout(store.courts, old(store.courts))
      ensures AllSpace(old(newPlayerName)) ==>
        newPlayerName == old(newPlayerName) && store.Snapshot() == old(store.Snapshot())
      ensures !AllSpace(old(newPlayerName)) ==>
        && newPlayerName == ""
        && store.Snapshot() == AddStep(old(store.Snapshot()), Trim(old(newPlayerName)), id, now)
      ensures old(Consistent(store.Snapshot())) && id !in old(AllIds(store.Snapshot())) ==>
        Consistent(store.Snapshot())
    {
      TrimEmpty(newPlayerName);
      var name := Trim(newPlayerName);
      if name != [] {
        store.AddPlayerToQueue(name, id, now);
        newPlayerName := "";
      }
    }
  }
}
