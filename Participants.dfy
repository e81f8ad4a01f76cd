/**
 * The per-participant state a ServerThread carries for the game room: the
 * fields of its User (ready, took-turn, points) and its own choice and
 * elimination flag, with the setters the room calls.
 */
module Participants {
  import opened Common

  /** A snapshot of one participant's game state. */
  datatype PlayerState = PlayerState(
    id: int,
    ready: bool,
    spectator: bool,
    away: bool,
    eliminated: bool,
    points: int,
    choice: Option<string>,
    tookTurn: bool)

  /** Java `int` addition: the exact sum reduced into the 32-bit range. */
  function WrapInt(x: int): (r: int)
    ensures InInt32(r)
    ensures (r - x) % 0x1_0000_0000 == 0
    ensures InInt32(x) ==> r == x
  {
    (x - MIN_INT) % 0x1_0000_0000 + MIN_INT
  }

  class ServerThread {
    const clientId: int
    var ready: bool
    var spectator: bool
    var away: bool
    var eliminated: bool
    var points: int
    var choice: Option<string>
    var tookTurn: bool

    /** A connection whose game fields hold Java's defaults (false, 0, null). */
    constructor (id: int)
      ensures State() == PlayerState(id, false, false, false, false, 0, None, false)
    {
      clientId := id;
      ready, spectator, away, eliminated := false, false, false, false;
      points, choice, tookTurn := 0, None, false;
    }

    function State(): PlayerState
      reads this
    {
      PlayerState(clientId, ready, spectator, away, eliminated, points, choice, tookTurn)
    }

    method SetReady(b: bool)
      modifies this
      ensures State() == old(State()).(ready := b)
    {
      ready := b;
    }

    method SetSpectator(b: bool)
      modifies this
      ensures State() == old(State()).(spectator := b)
    {
      spectator := b;
    }

    method SetAway(b: bool)
      modifies this
      ensures State() == old(State()).(away := b)
    {
      away := b;
    }

    method SetEliminated(b: bool)
      modifies this
      ensures State() == old(State()).(eliminated := b)
    {
      eliminated := b;
    }

    method SetPoints(p: int)
      modifies this
      ensures State() == old(State()).(points := p)
    {
      points := p;
    }

    method SetChoice(c: Option<string>)
      modifies this
      ensures State() == old(State()).(choice := c)
    {
      choice := c;
    }

    method SetTookTurn(b: bool)
      modifies this
      ensures State() == old(State()).(tookTurn := b)
    {
      tookTurn := b;
    }

    /** changePoints: a read-modify-write of the points with Java `int` arithmetic. */
    method ChangePoints(delta: int)
      modifies this
      ensures State() == old(State()).(points := WrapInt(old(points) + delta))
      ensures InInt32(old(points) + delta) ==> points == old(points) + delta
    {
      var updated := WrapInt(points + delta);
      SetPoints(updated);
    }
  }
}
