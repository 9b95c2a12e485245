/** A player's card: how long the player has been where they are, the colour
    that time is shown in, and the text of the clock. The clock reading is a
    parameter `now`. */
module PlayerCardView {
  import opened CourtTypes
  import opened TimeUtils
  import opened Store

  /** Where the card is shown: `'court'` or `'queue'`. */
  datatype Location = OnCourt | InQueue

  datatype TimeColor = Green | Yellow | Red

  /** The timestamp the card measures from: the court time on a court, the
      waiting time in the queue. */
  function Since(p: Player, loc: Location): Option<int> {
    match loc
    case OnCourt => p.onCourtSince
    case InQueue => p.waitingSince
  }

  /** The elapsed time of the card in milliseconds. A missing stamp and a
      stamp of 0 are both falsy, and both read as no time at all. */
  function Elapsed(p: Player, loc: Location, now: int): (t: int)
    ensures Since(p, loc).None? ==> t == 0
    ensures Since(p, loc) == Some(0) ==> t == 0
    ensures Since(p, loc).Some? && Since(p, loc).value != 0 ==> t == now - Since(p, loc).value
  {
    var since := Since(p, loc);
    if since.Some? && since.value != 0 then now - since.value else 0
  }

  /** `getTimeColor`: whole minutes, rounded down, against the location's
      two limits (30 and 60 minutes on a court, 10 and 20 in the queue). */
  function ColorOf(loc: Location, elapsed: int): (c: TimeColor)
    ensures loc == OnCourt ==> (c == Green <==> elapsed < 30 * 60000)
    ensures loc == OnCourt ==> (c == Red <==> elapsed >= 60 * 60000)
    ensures loc == InQueue ==> (c == Green <==> elapsed < 10 * 60000)
    ensures loc == InQueue ==> (c == Red <==> elapsed >= 20 * 60000)
  {
    var minutes := elapsed / 60000;
    match loc
    case OnCourt =>
      if minutes < 30 then Green else if minutes < 60 then Yellow else Red
    case InQueue =>
      if minutes < 10 then Green else if minutes < 20 then Yellow else Red
  }

  function Severity(c: TimeColor): nat {
    match c
    case Green => 0
    case Yellow => 1
    case Red => 2
  }

  /** The colour never improves as time goes by. */
  lemma ColorMonotone(loc: Location, t1: int, t2: int)
    requires t1 <= t2
    ensures Severity(ColorOf(loc, t1)) <= Severity(ColorOf(loc, t2))
  {
  }

  /** A card with no time on it is green, wherever it is shown. */
  lemma NoTimeIsGreen(p: Player, loc: Location, now: int)
    requires Since(p, loc).None? || Since(p, loc) == Some(0)
    ensures ColorOf(loc, Elapsed(p, loc, now)) == Green
  {
  }

  /** The card's clock text; defined while the clock has not gone behind the
      stamp. */
  function CardText(p: Player, loc: Location, now: int): (s: string)
    requires Elapsed(p, loc, now) >= 0
    ensures ParseClock(s) == Some(Elapsed(p, loc, now) / 1000)
  {
    FormatTimeRoundTrip(Elapsed(p, loc, now));
    FormatTime(Elapsed(p, loc, now))
  }

  /** A player just seated by a drop, or just sent back to the queue, shows
      a green "00:00" at the moment of the move. */
  lemma JustMovedCard(p: Player, now: int)
    ensures Elapsed(ToCourt(p, now), OnCourt, now) == 0
    ensures Elapsed(ToQueue(p, now), InQueue, now) == 0
    ensures CardText(ToCourt(p, now), OnCourt, now) == "00:00"
    ensures CardText(ToQueue(p, now), InQueue, now) == "00:00"
    ensures ColorOf(OnCourt, 0) == Green && ColorOf(InQueue, 0) == Green
  {
  }
}
