/** A whole evening in miniature, through the panels' own drop routing: two
    players join the queue, the first is dragged onto an empty court, then
    dragged from that court back onto the queue. */
module Scenario {
  import opened CourtTypes
  import opened Roster
  import opened Store
  import opened CourtView
  import opened QueueView

  /** The board after A and B join the queue, A is dragged from the queue
      and dropped on court `k`. */
  function Seated(cs: seq<Court>, k: nat, idA: string, idB: string, t0: int, t1: int, t2: int): Board
    requires k < |cs|
  {
    var a := Player(idA, "A", None, Some(t0));
    var queued := AddStep(AddStep(Board(cs, [], None), "A", idA, t0), "B", idB, t1);
    DropOnCourt(DragStartStep(queued, QueueDragItem(a)), cs[k], QueueDragItem(a), t2)
  }

  /** The first half: A is seated on court `k`, B waits alone, every other
      court stays empty. */
  lemma SeatA(cs: seq<Court>, k: nat, idA: string, idB: string, t0: int, t1: int, t2: int)
    requires DistinctCourtIds(cs)
    requires forall j :: 0 <= j < |cs| ==> cs[j].players == [] && cs[j].maxPlayers == 4
    requires k < |cs| && cs[k].id != ""
    requires idA != idB
    ensures var r := Seated(cs, k, idA, idB, t0, t1, t2);
      && r.queue == [Player(idB, "B", None, Some(t1))]
      && |r.courts| == |cs| && r.courts[k].players == [Player(idA, "A", Some(t2), None)]
      && (forall j :: 0 <= j < |cs| && j != k ==> r.courts[j] == cs[j])
      && r.drag == None
  {
    var a := Player(idA, "A", None, Some(t0));
    var b := Player(idB, "B", None, Some(t1));
    var queued := AddStep(AddStep(Board(cs, [], None), "A", idA, t0), "B", idB, t1);
    assert queued.queue == [a, b];
    var s1 := DragStartStep(queued, QueueDragItem(a));
    assert WellFormed(s1) by {
      EmptyBoard(cs);
    }
    assert idA in Ids(queued.queue) by {
      IdsMember(queued.queue, idA);
      assert a in queued.queue;
    }
    assert s1 == Board(cs, [a, b], Some(QueueDragItem(a)));
    QueuePlayerSeated(s1, k, QueueDragItem(a), t2);
    assert FindPlayer([a, b], idA) == Some(a);
    assert ToCourt(a, t2) == Player(idA, "A", Some(t2), None);
    assert WithoutId([a, b], idA) == [b];
  }

  /** The second half: A, dragged from court `k` and dropped on the queue,
      goes to its end and court `k` is empty again. */
  lemma SendABack(s: Board, k: nat, idA: string, t2: int, t3: int)
    requires k < |s.courts|
    requires s.courts[k].players == [Player(idA, "A", Some(t2), None)]
    requires forall j :: 0 <= j < |s.courts| && j != k ==> s.courts[j].players == []
    ensures var a2 := Player(idA, "A", Some(t2), None);
      var item := CourtDragItem(s.courts[k], a2);
      var r := DropOnQueue(DragStartStep(s, item), item, t3);
      && r.queue == s.queue + [Player(idA, "A", None, Some(t3))]
      && r.courts[k].players == []
      && r.drag == None
  {
    var a2 := Player(idA, "A", Some(t2), None);
    var item := CourtDragItem(s.courts[k], a2);
    var s2 := DragStartStep(s, item);
    assert FindHolder(s2.courts, idA) == Some(k);
    assert FindPlayer(s2.courts[k].players, idA) == Some(a2);
    var r := DropOnQueue(s2, item, t3);
    assert r == CourtDrop(s2, idA, t3);
    assert r.courts[k].players == WithoutId([a2], idA) == [];
  }

  /** Queue A and B, seat A on an empty court, drag A back onto the queue:
      the queue ends as B then A, A waiting since the last move, and the
      court is empty again. */
  lemma QueueToCourtAndBack(cs: seq<Court>, k: nat, idA: string, idB: string,
                            t0: int, t1: int, t2: int, t3: int)
    requires DistinctCourtIds(cs)
    requires forall j :: 0 <= j < |cs| ==> cs[j].players == [] && cs[j].maxPlayers == 4
    requires k < |cs| && cs[k].id != ""
    requires idA != idB
    ensures var seated := Seated(cs, k, idA, idB, t0, t1, t2);
      var a2 := Player(idA, "A", Some(t2), None);
      k < |seated.courts| &&
      var item := CourtDragItem(seated.courts[k], a2);
      var back := DropOnQueue(DragStartStep(seated, item), item, t3);
      && seated.queue == [Player(idB, "B", None, Some(t1))]
      && seated.courts[k].players == [a2]
      && back.queue == [Player(idB, "B", None, Some(t1)), Player(idA, "A", None, Some(t3))]
      && back.courts[k].players == []
      && back.drag == None
  {
    SeatA(cs, k, idA, idB, t0, t1, t2);
    SendABack(Seated(cs, k, idA, idB, t0, t1, t2), k, idA, t2, t3);
  }
}
