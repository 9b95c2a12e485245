/** The pure list operations the store builds its new state from:
    `find`, `filter` and `map` over the queue and the court table. */
module Roster {
  import opened CourtTypes

  /** The ids of a list of players, in order. */
  function Ids(ps: seq<Player>): seq<string> {
    if ps == [] then [] else [ps[0].id] + Ids(ps[1..])
  }

  lemma {:induction false} IdsAppend(a: seq<Player>, b: seq<Player>)
    ensures Ids(a + b) == Ids(a) + Ids(b)
  {
    if a == [] {
      assert a + b == b;
    } else {
      assert (a + b)[1..] == a[1..] + b;
      IdsAppend(a[1..], b);
    }
  }

  lemma {:induction false} IdsMember(ps: seq<Player>, id: string)
    ensures id in Ids(ps) <==> exists p :: p in ps && p.id == id
  {
    if ps != [] {
      IdsMember(ps[1..], id);
      assert forall p :: p in ps <==> p == ps[0] || p in ps[1..];
    }
  }

  /** `players.find(p => p.id === id)`. */
  function FindPlayer(ps: seq<Player>, id: string): (r: Option<Player>)
    ensures r.Some? <==> id in Ids(ps)
    ensures r.Some? ==> r.value in ps && r.value.id == id
    ensures r.Some? ==> exists k :: 0 <= k < |ps| && ps[k] == r.value && forall j :: 0 <= j < k ==> ps[j].id != id
  {
    if ps == [] then None
    else if ps[0].id == id then Some(ps[0])
    else FindPlayer(ps[1..], id)
  }

  /** `players.filter(p => p.id !== id)`: every entry with that id goes, the
      rest keep their order (see `WithoutIdAppend`). */
  function WithoutId(ps: seq<Player>, id: string): (r: seq<Player>)
    ensures |r| <= |ps|
    ensures forall p :: p in r <==> p in ps && p.id != id
    ensures id !in Ids(ps) ==> r == ps
  {
    if ps == [] then []
    else if ps[0].id == id then WithoutId(ps[1..], id)
    else [ps[0]] + WithoutId(ps[1..], id)
  }

  /** Filtering drops exactly the entries with that id and no other. */
  lemma {:induction false} WithoutIdBag(ps: seq<Player>, id: string)
    ensures multiset(Ids(WithoutId(ps, id))) == multiset(Ids(ps))[id := 0]
  {
    if ps != [] {
      WithoutIdBag(ps[1..], id);
      var rest := WithoutId(ps[1..], id);
      if ps[0].id != id {
        assert Ids([ps[0]] + rest) == [ps[0].id] + Ids(rest);
      }
    }
  }

  /** Filtering commutes with concatenation, so the survivors keep their
      relative order. */
  lemma {:induction false} WithoutIdAppend(a: seq<Player>, b: seq<Player>, id: string)
    ensures WithoutId(a + b, id) == WithoutId(a, id) + WithoutId(b, id)
  {
    if a == [] {
      assert a + b == b;
    } else {
      assert (a + b)[1..] == a[1..] + b;
      WithoutIdAppend(a[1..], b, id);
      if a[0].id != id {
        assert [a[0]] + WithoutId(a[1..], id) + WithoutId(b, id)
            == [a[0]] + (WithoutId(a[1..], id) + WithoutId(b, id));
      }
    }
  }

  /** The ids of every court's roster, court by court. */
  function CourtIds(cs: seq<Court>): seq<string> {
    if cs == [] then [] else Ids(cs[0].players) + CourtIds(cs[1..])
  }

  /** `courts.find(c => c.id === courtId)`, as the index of the first match. */
  function FindCourt(cs: seq<Court>, courtId: string): (r: Option<nat>)
    ensures r.Some? ==> r.value < |cs| && cs[r.value].id == courtId
    ensures r.Some? ==> forall j :: 0 <= j < r.value ==> cs[j].id != courtId
    ensures r.None? ==> forall j :: 0 <= j < |cs| ==> cs[j].id != courtId
  {
    if cs == [] then None
    else if cs[0].id == courtId then Some(0)
    else match FindCourt(cs[1..], courtId)
      case None => None
      case Some(k) => Some(k + 1)
  }

  /** `courts.find(c => c.players.some(p => p.id === id))`, as an index. */
  function FindHolder(cs: seq<Court>, id: string): (r: Option<nat>)
    ensures r.Some? ==> r.value < |cs| && id in Ids(cs[r.value].players)
    ensures r.Some? ==> forall j :: 0 <= j < r.value ==> id !in Ids(cs[j].players)
    ensures r.None? ==> forall j :: 0 <= j < |cs| ==> id !in Ids(cs[j].players)
  {
    if cs == [] then None
    else if id in Ids(cs[0].players) then Some(0)
    else match FindHolder(cs[1..], id)
      case None => None
      case Some(k) => Some(k + 1)
  }

  /** `courts.map(c => ({...c, players: c.players.filter(p => p.id !== id)}))`. */
  function RemoveFromCourts(cs: seq<Court>, id: string): (r: seq<Court>)
    ensures |r| == |cs|
    ensures forall k :: 0 <= k < |cs| ==>
      r[k].id == cs[k].id && r[k].name == cs[k].name && r[k].maxPlayers == cs[k].maxPlayers
      && |r[k].players| <= |cs[k].players|
  {
    seq(|cs|, i requires 0 <= i < |cs| => cs[i].(players := WithoutId(cs[i].players, id)))
  }

  /** `courts.map(c => c.id === courtId ? {...c, players: [...c.players, p]} : c)`. */
  function AddToCourt(cs: seq<Court>, courtId: string, p: Player): (r: seq<Court>)
    ensures |r| == |cs|
    ensures forall k :: 0 <= k < |cs| ==>
      r[k].id == cs[k].id && r[k].name == cs[k].name && r[k].maxPlayers == cs[k].maxPlayers
    ensures forall k :: 0 <= k < |cs| && cs[k].id != courtId ==> r[k] == cs[k]
  {
    seq(|cs|, i requires 0 <= i < |cs| =>
      if cs[i].id == courtId then cs[i].(players := cs[i].players + [p]) else cs[i])
  }

  /** A court's roster is part of the table's ids. */
  lemma {:induction false} CourtIdsCover(cs: seq<Court>, k: nat)
    requires k < |cs|
    ensures multiset(Ids(cs[k].players)) <= multiset(CourtIds(cs))
  {
    var a := multiset(Ids(cs[0].players));
    var b := multiset(CourtIds(cs[1..]));
    assert multiset(CourtIds(cs)) == a + b;
    if k > 0 {
      CourtIdsCover(cs[1..], k - 1);
      assert cs[1..][k - 1] == cs[k];
    }
  }

  /** An id on no roster is on no court of the table, and conversely. */
  lemma {:induction false} CourtIdsMember(cs: seq<Court>, id: string)
    ensures id in CourtIds(cs) <==> exists k :: 0 <= k < |cs| && id in Ids(cs[k].players)
  {
    if cs != [] {
      CourtIdsMember(cs[1..], id);
      if id in Ids(cs[0].players) {
        assert 0 < |cs| && id in Ids(cs[0].players);
      }
      if exists k :: 0 <= k < |cs| && id in Ids(cs[k].players) {
        var k :| 0 <= k < |cs| && id in Ids(cs[k].players);
        if k > 0 {
          assert cs[1..][k - 1] == cs[k];
        }
      }
    }
  }

  /** Removing an id from every roster removes exactly that id's entries
      from the table. */
  lemma {:induction false} CourtIdsRemove(cs: seq<Court>, id: string)
    ensures multiset(CourtIds(RemoveFromCourts(cs, id))) == multiset(CourtIds(cs))[id := 0]
  {
    if cs != [] {
      var r := RemoveFromCourts(cs, id);
      assert r[1..] == RemoveFromCourts(cs[1..], id);
      CourtIdsRemove(cs[1..], id);
      WithoutIdBag(cs[0].players, id);
      var a := multiset(Ids(cs[0].players));
      var b := multiset(CourtIds(cs[1..]));
      calc {
        multiset(CourtIds(r));
        multiset(Ids(r[0].players)) + multiset(CourtIds(r[1..]));
        a[id := 0] + b[id := 0];
        { MultisetDropBoth(a, b, id); }
        (a + b)[id := 0];
      }
    }
  }

  lemma MultisetDropBoth(a: multiset<string>, b: multiset<string>, id: string)
    ensures a[id := 0] + b[id := 0] == (a + b)[id := 0]
  {
  }

  /** Removing an id no roster holds changes no court. */
  lemma RemoveAbsent(cs: seq<Court>, id: string)
    requires id !in CourtIds(cs)
    ensures RemoveFromCourts(cs, id) == cs
  {
    forall k | 0 <= k < |cs|
      ensures RemoveFromCourts(cs, id)[k] == cs[k]
    {
      CourtIdsCover(cs, k);
      assert id !in multiset(Ids(cs[k].players));
    }
  }

  /** Appending to a court id no court has changes nothing. */
  lemma AddToAbsentCourt(cs: seq<Court>, courtId: string, p: Player)
    requires forall j :: 0 <= j < |cs| ==> cs[j].id != courtId
    ensures AddToCourt(cs, courtId, p) == cs
  {
  }

  /** The table's ids are the first court's followed by the rest's. */
  lemma CourtIdsCons(cs: seq<Court>)
    requires cs != []
    ensures multiset(CourtIds(cs)) == multiset(Ids(cs[0].players)) + multiset(CourtIds(cs[1..]))
  {
  }

  lemma AddToCourtCons(cs: seq<Court>, courtId: string, p: Player)
    requires cs != []
    ensures AddToCourt(cs, courtId, p)[1..] == AddToCourt(cs[1..], courtId, p)
    ensures AddToCourt(cs, courtId, p)[0]
         == if cs[0].id == courtId then cs[0].(players := cs[0].players + [p]) else cs[0]
  {
  }

  /** Appending to the first court, when no later court shares its id. */
  lemma {:induction false} CourtIdsAddFirst(cs: seq<Court>, courtId: string, p: Player)
    requires cs != [] && cs[0].id == courtId
    requires forall j :: 1 <= j < |cs| ==> cs[j].id != courtId
    ensures multiset(CourtIds(AddToCourt(cs, courtId, p))) == multiset(CourtIds(cs)) + multiset{p.id}
  {
    var r := AddToCourt(cs, courtId, p);
    AddToCourtCons(cs, courtId, p);
    CourtIdsCons(cs);
    CourtIdsCons(r);
    AddToAbsentCourt(cs[1..], courtId, p);
    IdsAppend(cs[0].players, [p]);
  }

  /** Appending past a first court with another id leaves that court alone. */
  lemma {:induction false} CourtIdsAddLater(cs: seq<Court>, courtId: string, p: Player)
    requires cs != [] && cs[0].id != courtId
    requires multiset(CourtIds(AddToCourt(cs[1..], courtId, p))) == multiset(CourtIds(cs[1..])) + multiset{p.id}
    ensures multiset(CourtIds(AddToCourt(cs, courtId, p))) == multiset(CourtIds(cs)) + multiset{p.id}
  {
    var r := AddToCourt(cs, courtId, p);
    AddToCourtCons(cs, courtId, p);
    CourtIdsCons(cs);
    CourtIdsCons(r);
  }

  /** Appending to the one court with that id adds exactly one id to the table. */
  lemma {:induction false} CourtIdsAdd(cs: seq<Court>, courtId: string, k: nat, p: Player)
    requires k < |cs| && cs[k].id == courtId
    requires forall j :: 0 <= j < |cs| && j != k ==> cs[j].id != courtId
    ensures multiset(CourtIds(AddToCourt(cs, courtId, p))) == multiset(CourtIds(cs)) + multiset{p.id}
  {
    if k == 0 {
      CourtIdsAddFirst(cs, courtId, p);
    } else {
      var tail := cs[1..];
      forall j | 0 <= j < |tail| && j != k - 1
        ensures tail[j].id != courtId
      {
        assert tail[j] == cs[j + 1];
      }
      assert tail[k - 1] == cs[k];
      CourtIdsAdd(tail, courtId, k - 1, p);
      CourtIdsAddLater(cs, courtId, p);
    }
  }
}
