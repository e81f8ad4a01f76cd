/**
 * GameRoom: the room object whose entry points mutate its own fields and,
 * through their setters, the ServerThread objects of its roster. Each method
 * is proved to move the room's abstract state exactly as the matching
 * function of RoomLogic does.
 */
module Rooms {
  import opened Common
  import opened RpsRules
  import opened JavaStrings
  import opened Participants
  import opened RoomLogic
  import Payloads

  /** The states of a roster of connections, in roster order. */
  function States(ps: seq<ServerThread>): (r: seq<PlayerState>)
    reads ps
    ensures |r| == |ps| && forall i :: 0 <= i < |ps| ==> r[i] == ps[i].State()
  {
    seq(|ps|, i reads ps requires 0 <= i < |ps| => ps[i].State())
  }

  /** The roster position of a connection (checkPlayerInRoom), if it is in the roster. */
  function Position(ps: seq<ServerThread>, p: ServerThread): (r: Option<nat>)
    ensures r.Some? ==> r.value < |ps| && ps[r.value] == p
    ensures r.None? <==> p !in ps
  {
    if ps == [] then None
    else if ps[0] == p then Some(0)
    else match Position(ps[1..], p)
      case None => None
      case Some(k) => Some(k + 1)
  }

  /** clientsInRoom.remove(id) */
  function WithoutClient(ps: seq<ServerThread>, id: int): (r: seq<ServerThread>)
    ensures forall p :: p in r ==> p in ps
  {
    if ps == [] then []
    else if ps[0].clientId == id then WithoutClient(ps[1..], id)
    else [ps[0]] + WithoutClient(ps[1..], id)
  }

  lemma {:induction false} WithoutClientStates(ps: seq<ServerThread>, id: int)
    ensures States(WithoutClient(ps, id)) == RemoveId(States(ps), id)
  {
    if ps != [] {
      WithoutClientStates(ps[1..], id);
      var ss := States(ps);
      assert States(ps[1..]) == ss[1..];
      assert ss[0].id == ps[0].clientId;
      if ps[0].clientId != id {
        var rest := WithoutClient(ps[1..], id);
        assert States([ps[0]] + rest) == [ps[0].State()] + States(rest);
      }
    }
  }

  /** No two connections of the sequence share a client id. */
  predicate DistinctIds(ps: seq<ServerThread>) {
    forall i, j :: 0 <= i < j < |ps| ==> ps[i].clientId != ps[j].clientId
  }

  lemma {:induction false} WithoutClientDistinct(ps: seq<ServerThread>, id: int)
    requires DistinctIds(ps)
    ensures DistinctIds(WithoutClient(ps, id))
  {
    if ps != [] {
      WithoutClientDistinct(ps[1..], id);
      var rest := WithoutClient(ps[1..], id);
      forall q | q in rest
        ensures q.clientId != ps[0].clientId
      {
        var j :| 0 <= j < |ps[1..]| && ps[1..][j] == q;
        assert ps[j + 1] == q;
      }
    }
  }

  lemma {:induction false} PositionOfLast(ps: seq<ServerThread>, p: ServerThread)
    requires p !in ps
    ensures Position(ps + [p], p) == Some(|ps|)
  {
    if ps != [] {
      assert (ps + [p])[1..] == ps[1..] + [p];
      PositionOfLast(ps[1..], p);
    }
  }

  class GameRoom {
    var phase: Phase
    var round: int
    var roster: seq<ServerThread>
    var extraOptionsEnabled: bool
    var choiceCooldownEnabled: bool
    var timerArmed: bool

    /** Client ids are keys of clientsInRoom: no two roster entries share one. */
    ghost predicate Valid()
      reads this
    {
      DistinctIds(roster)
    }

    function Abstract(): RoomState
      reads this, roster
    {
      RoomState(phase, round, States(roster), extraOptionsEnabled, choiceCooldownEnabled, timerArmed)
    }

    constructor ()
      ensures Valid() && roster == []
      ensures Abstract() == RoomState(Ready, 0, [], false, false, false)
    {
      phase, round, roster := Ready, 0, [];
      extraOptionsEnabled, choiceCooldownEnabled, timerArmed := false, false, false;
    }

    /** isHost */
    function IsHost(player: ServerThread): (b: bool)
      reads this, roster
      ensures b <==> IsHostId(Abstract().players, player.clientId)
    {
      |roster| > 0 && roster[0].clientId == player.clientId
    }

    /** resetRoundTimer: cancel the timer if one is armed. */
    method ResetRoundTimer()
      modifies this`timerArmed
      ensures Abstract() == old(Abstract()).(timerArmed := false)
    {
      if timerArmed {
        timerArmed := false;
      }
    }

    /** resetPlayerChoices */
    method ResetPlayerChoices()
      requires Valid()
      modifies roster
      ensures Abstract() == old(Abstract()).(players := ClearChoices(old(Abstract()).players))
    {
      for k := 0 to |roster|
        invariant forall m :: 0 <= m < k ==> roster[m].State() == ClearChoice(old(roster[m].State()))
        invariant forall m :: k <= m < |roster| ==> roster[m].State() == old(roster[m].State())
      {
        roster[k].SetChoice(None);
        roster[k].SetTookTurn(false);
      }
    }

    method OnRoundStart()
      requires Valid()
      modifies this, roster
      ensures Valid() && roster == old(roster)
      ensures Abstract() == RoundStart(old(Abstract()))
    {
      ResetRoundTimer();
      ResetPlayerChoices();
      phase := InProgress;
      round := round + 1;
      timerArmed := true;
    }

    method OnSessionEnd()
      requires Valid()
      modifies this, roster
      ensures Valid() && roster == old(roster)
      ensures Abstract() == SessionEnd(old(Abstract()))
    {
      ResetPlayers();
      phase := Ready;
    }

    /** The per-participant reset loop of onSessionEnd. */
    method ResetPlayers()
      requires Valid()
      modifies roster
      ensures Abstract() == old(Abstract()).(players := ResetAll(old(Abstract()).players))
    {
      for k := 0 to |roster|
        invariant forall m :: 0 <= m < k ==> roster[m].State() == ResetPlayer(old(roster[m].State()))
        invariant forall m :: k <= m < |roster| ==> roster[m].State() == old(roster[m].State())
      {
        var player := roster[k];
        player.SetPoints(0);
        player.SetChoice(None);
        player.SetTookTurn(false);
        player.SetEliminated(false);
        player.SetReady(false);
      }
      assert States(roster) == ResetAll(old(States(roster)));
    }

    /** The setEliminated(false) loop of onSessionStart. */
    method ClearEliminations()
      requires Valid()
      modifies roster
      ensures Abstract() == old(Abstract()).(players := ClearEliminated(old(Abstract()).players))
    {
      for k := 0 to |roster|
        invariant forall m :: 0 <= m < k ==> roster[m].State() == old(roster[m].State()).(eliminated := false)
        invariant forall m :: k <= m < |roster| ==> roster[m].State() == old(roster[m].State())
      {
        roster[k].SetEliminated(false);
      }
      assert States(roster) == ClearEliminated(old(States(roster)));
    }

    method OnSessionStart()
      requires Valid()
      modifies this, roster
      ensures Valid() && roster == old(roster)
      ensures Abstract() == SessionStart(old(Abstract()))
    {
      ClearEliminations();
      phase := InProgress;
      round := 0;
      OnRoundStart();
    }

    /** First step of onRoundEnd: whoever had to pick and did not is eliminated. */
    method EliminateNonPickersStep()
      requires Valid()
      modifies roster
      ensures Abstract() == old(Abstract()).(players := EliminateNonPickers(old(Abstract()).players))
    {
      for k := 0 to |roster|
        invariant forall m :: 0 <= m < k ==> roster[m].State() == EliminateIfNoPick(old(roster[m].State()))
        invariant forall m :: k <= m < |roster| ==> roster[m].State() == old(roster[m].State())
      {
        var p := roster[k];
        if !p.eliminated && !p.away && p.choice.None? && !p.spectator {
          p.SetEliminated(true);
        }
      }
    }

    /** One iteration of onRoundEnd's pairwise loop, for roster positions a and b. */
    method ComparePair(a: nat, b: nat, toEliminate: set<nat>) returns (marked: set<nat>)
      requires Valid() && a < |roster| && b < |roster| && a != b
      modifies roster[a], roster[b]
      ensures Tally(States(roster), marked) ==
              Compare(Tally(old(States(roster)), toEliminate), a, b, extraOptionsEnabled)
    {
      marked := toEliminate;
      var pa, pb := roster[a], roster[b];
      if a in toEliminate || b in toEliminate {
        return;
      }
      var choiceA, choiceB := pa.choice, pb.choice;
      if choiceA.None? || choiceB.None? {
        return;
      }
      var aWins := WinsAgainst(choiceA.value, choiceB.value, extraOptionsEnabled);
      var bWins := WinsAgainst(choiceB.value, choiceA.value, extraOptionsEnabled);
      if aWins && !bWins {
        pa.SetPoints(WrapInt(pa.points + 1));
        marked := marked + {b};
      } else if bWins && !aWins {
        pb.SetPoints(WrapInt(pb.points + 1));
        marked := marked + {a};
      }
    }

    /** The inner loop of onRoundEnd: active[i] against every later active participant. */
    method CompareWithLater(active: seq<nat>, i: nat, toEliminate: set<nat>) returns (marked: set<nat>)
      requires Valid() && ValidActive(active, |roster|) && i < |active|
      modifies roster
      ensures Tally(States(roster), marked) ==
              InnerFrom(Tally(old(States(roster)), toEliminate), active, i, i + 1, extraOptionsEnabled)
    {
      ghost var goal := InnerFrom(Tally(States(roster), toEliminate), active, i, i + 1, extraOptionsEnabled);
      marked := toEliminate;
      for j := i + 1 to |active|
        invariant InnerFrom(Tally(States(roster), marked), active, i, j, extraOptionsEnabled) == goal
      {
        marked := ComparePair(active[i], active[j], marked);
      }
    }

    /**
     * Second step of onRoundEnd: every pair of active participants, in roster
     * order, is compared once; returns the toEliminate set (roster positions).
     */
    method ComparePairs() returns (toEliminate: set<nat>)
      requires Valid()
      modifies roster
      ensures Tally(States(roster), toEliminate) == Scored(old(States(roster)), extraOptionsEnabled)
    {
      var active := ActiveIndices(States(roster), 0);
      ghost var goal := Scored(States(roster), extraOptionsEnabled);
      toEliminate := {};
      for i := 0 to |active|
        invariant OuterFrom(Tally(States(roster), toEliminate), active, i, extraOptionsEnabled) == goal
      {
        toEliminate := CompareWithLater(active, i, toEliminate);
      }
    }

    /** Third step of onRoundEnd: the marked participants are eliminated, in any order. */
    method ApplyEliminations(toEliminate: set<nat>)
      requires Valid()
      modifies roster
      ensures Abstract() == old(Abstract()).(players := ApplyMarks(old(Abstract()).players, toEliminate))
    {
      var pending := toEliminate;
      while pending != {}
        invariant pending <= toEliminate
        invariant forall m :: 0 <= m < |roster| ==>
                    roster[m].State() == if m in toEliminate - pending && !old(roster[m].eliminated)
                                         then old(roster[m].State()).(eliminated := true) else old(roster[m].State())
        decreases pending
      {
        var k :| k in pending;
        if k < |roster| {
          var p := roster[k];
          if !p.eliminated {
            p.SetEliminated(true);
          }
        }
        pending := pending - {k};
      }
    }

    /**
     * onRoundEnd (also what the round timer's expiry runs): returns what the
     * room announces.
     */
    method OnRoundEnd() returns (outcome: RoundOutcome)
      requires Valid()
      modifies this, roster
      ensures Valid() && roster == old(roster)
      ensures (Abstract(), outcome) == RoundEnd(old(Abstract()))
    {
      ResetRoundTimer();
      EliminateNonPickersStep();
      var toEliminate := ComparePairs();
      ApplyEliminations(toEliminate);
      assert States(roster) == Resolved(old(Abstract()));

      var survivors := Survivors(States(roster));
      if survivors == 1 {
        SurvivorIsNotEliminated(States(roster));
        var winner := FirstNotEliminated(States(roster)).value;
        OnSessionEnd();
        outcome := Winner(winner);
      } else if survivors == 0 {
        OnSessionEnd();
        outcome := Tie;
      } else {
        OnRoundStart();
        outcome := NextRound;
      }
    }

    /**
     * The pick of handleTurnAction's success path, for the participant at
     * roster position k: nothing else in the roster changes.
     */
    method RecordPick(player: ServerThread, ghost k: nat, c: string)
      requires Valid() && k < |roster| && roster[k] == player
      modifies player
      ensures States(roster) == old(States(roster))[k := old(player.State()).(choice := Some(c), tookTurn := true)]
    {
      player.SetChoice(Some(c));
      player.SetTookTurn(true);
      assert forall m :: 0 <= m < |roster| && m != k ==> roster[m] != player;
    }

    /** handleTurnAction: the validation chain, the pick, and the early round end. */
    method HandleTurnAction(player: ServerThread, choice: string) returns (reply: TurnReply)
      requires Valid()
      modifies this, roster
      ensures Valid() && roster == old(roster)
      ensures (Abstract(), reply) == TurnAction(old(Abstract()), Position(old(roster), player), choice)
    {
      if player !in roster {
        return NotInRoom;
      }
      ghost var k := Position(roster, player).value;
      if !player.ready {
        return NotReady;
      }
      if phase != InProgress {
        return WrongPhase;
      }
      if player.eliminated {
        return IsEliminated;
      }
      if player.choice.Some? {
        return AlreadyPicked;
      }
      if player.away {
        return IsAway;
      }
      if player.spectator {
        return IsSpectator;
      }
      var normalized := ToLower(Trim(choice));
      if extraOptionsEnabled {
        if !(|normalized| == 1 && normalized[0] in "rpsfw") {
          return InvalidChoice;
        }
      } else {
        if !(|normalized| == 1 && normalized[0] in "rps") {
          return InvalidChoice;
        }
      }
      assert ChoiceAccepted(normalized, extraOptionsEnabled);
      reply := AcceptPick(player, k, normalized);
    }

    /** handleTurnAction once the choice is accepted: record it, then end the round if nobody is left to pick. */
    method AcceptPick(player: ServerThread, ghost k: nat, c: string) returns (reply: TurnReply)
      requires Valid() && k < |roster| && roster[k] == player
      modifies this, roster
      ensures Valid() && roster == old(roster)
      ensures (Abstract(), reply) == RoomLogic.AcceptPick(old(Abstract()), k, c)
    {
      RecordPick(player, k, c);
      var remaining := Remaining(States(roster));
      if remaining == 0 {
        var outcome := OnRoundEnd();
        reply := Picked(Some(outcome));
      } else {
        reply := Picked(None);
      }
    }

    /** The four flag setters of handleReady, applied to one participant. */
    method SetReadyFlags(player: ServerThread, isReady: bool)
      modifies player
      ensures player.State() == ReadyFlags(old(player.State()), phase, isReady)
    {
      if phase == Ready && isReady {
        player.SetSpectator(false);
        player.SetReady(true);
        player.SetEliminated(false);
        player.SetAway(false);
      } else {
        player.SetSpectator(true);
        player.SetReady(false);
        player.SetEliminated(false);
        player.SetAway(false);
      }
    }

    /**
     * handleReady: outside READY, or declining, the caller becomes a
     * spectator; otherwise it becomes ready. In READY the session starts when
     * every non-spectator is ready and there are at least two of them. The
     * wantsSpectator argument is not consulted.
     */
    method HandleReady(player: ServerThread, wantsSpectator: bool, isReady: bool)
      requires Valid()
      modifies this, roster, player
      ensures Valid() && roster == old(roster)
      ensures Abstract() == RoomLogic.HandleReady(old(Abstract()), Position(old(roster), player), isReady)
      ensures player !in roster ==> player.State() == ReadyFlags(old(player.State()), old(phase), isReady)
    {
      ghost var at := Position(roster, player);
      SetReadyFlags(player, isReady);
      assert forall m :: 0 <= m < |roster| && roster[m] != player ==> roster[m].State() == old(roster[m].State());
      assert at.Some? ==> States(roster) == old(States(roster))[at.value := player.State()] by {
        if at.Some? {
          assert forall m :: 0 <= m < |roster| && m != at.value ==> roster[m] != player;
        }
      }
      assert at.None? ==> States(roster) == old(States(roster));
      StartIfReady();
    }

    /** The start check at the end of handleReady. */
    method StartIfReady()
      requires Valid()
      modifies this, roster
      ensures Valid() && roster == old(roster)
      ensures Abstract() == RoomLogic.StartIfReady(old(Abstract()))
    {
      if phase != Ready {
        return;
      }
      var activePlayers := NonSpectators(States(roster));
      var allReady := AllReady(States(roster));
      if allReady && activePlayers >= 2 {
        OnSessionStart();
      }
    }

    method HandleExtraOptionsToggle(player: ServerThread) returns (reply: ToggleReply)
      modifies this`extraOptionsEnabled
      ensures (Abstract(), reply) == ExtraOptionsToggle(old(Abstract()), player.clientId)
    {
      if phase != Ready {
        return NotReadyPhase;
      }
      var isHost := IsHost(player);
      if !isHost {
        return NotHost;
      }
      extraOptionsEnabled := !extraOptionsEnabled;
      reply := Toggled(extraOptionsEnabled);
    }

    method HandleChoiceCooldownToggle(player: ServerThread) returns (reply: ToggleReply)
      modifies this`choiceCooldownEnabled
      ensures (Abstract(), reply) == ChoiceCooldownToggle(old(Abstract()), player.clientId)
    {
      if phase != Ready {
        return NotReadyPhase;
      }
      var isHost := IsHost(player);
      if !isHost {
        return NotHost;
      }
      choiceCooldownEnabled := !choiceCooldownEnabled;
      reply := Toggled(choiceCooldownEnabled);
    }

    /** handleAwayToggle: sets the caller's away flag, whether or not it is in the roster. */
    method HandleAwayToggle(player: ServerThread, newAway: bool)
      requires Valid()
      modifies player
      ensures Abstract() == AwayToggle(old(Abstract()), Position(old(roster), player), newAway)
      ensures player.State() == old(player.State()).(away := newAway)
    {
      ghost var at := Position(roster, player);
      player.SetAway(newAway);
      if at.Some? {
        assert forall m :: 0 <= m < |roster| && m != at.value ==> roster[m] != player;
        assert States(roster) == old(States(roster))[at.value := player.State()];
      } else {
        assert States(roster) == old(States(roster));
      }
    }

    /**
     * onClientAdded, together with the base room's insertion of the newcomer
     * at the end of the roster; returns the HOST_STATUS value it is sent.
     */
    method OnClientAdded(sp: ServerThread) returns (isHost: bool)
      requires Valid()
      requires forall m :: 0 <= m < |roster| ==> roster[m].clientId != sp.clientId
      modifies this, roster, sp
      ensures Valid() && roster == old(roster) + [sp]
      ensures (Abstract(), isHost) == ClientAdded(old(Abstract()), old(sp.State()))
    {
      ghost var n := |roster|;
      AppendClient(sp);
      ghost var mid := Abstract();
      isHost := |roster| == 1;
      HandleReady(sp, true, false);
      assert Abstract() == RoomLogic.HandleReady(mid, Some(n), false);
    }

    /** The entry added to the client map, last in roster order. */
    method AppendClient(sp: ServerThread)
      requires Valid()
      requires forall m :: 0 <= m < |roster| ==> roster[m].clientId != sp.clientId
      modifies this`roster
      ensures Valid() && roster == old(roster) + [sp] && Position(roster, sp) == Some(|old(roster)|)
      ensures Abstract() == old(Abstract()).(players := old(Abstract()).players + [sp.State()])
    {
      assert sp !in roster;
      PositionOfLast(roster, sp);
      roster := roster + [sp];
      assert States(roster) == old(States(roster)) + [sp.State()];
    }

    /** onClientRemoved: drop the entry; an emptied room cancels its timer and ends the session. */
    method OnClientRemoved(sp: ServerThread)
      requires Valid()
      modifies this, roster
      ensures Valid()
      ensures Abstract() == ClientRemoved(old(Abstract()), sp.clientId)
    {
      ghost var before := Abstract();
      WithoutClientStates(roster, sp.clientId);
      WithoutClientDistinct(roster, sp.clientId);
      roster := WithoutClient(roster, sp.clientId);
      assert Abstract() == before.(players := RemoveId(before.players, sp.clientId));
      if |roster| == 0 {
        ResetRoundTimer();
        OnSessionEnd();
      }
    }
  }

  /**
   * ServerThread.processPayload for a participant whose current room is the
   * game room. DISCONNECT and ROOM_LEAVE take the participant out of the room
   * (the base room calls onClientRemoved, as GameRoom.java:42 says); ROOM_CREATE
   * and ROOM_JOIN do so when the server accepts the target room, which
   * `accepted` stands for. TURN and EXTRA_OPTIONS_TOGGLE reach the room's own
   * handlers. READY goes to the base room's one-argument ready check, about
   * which nothing is promised; every other type leaves the room as it was. A
   * TURN without a message passes the validation chain's replies and then
   * fails on the null choice, which handleTurnAction catches: nothing changes.
   */
  method ProcessPayload(room: GameRoom, player: ServerThread, incoming: Payloads.Payload, accepted: bool)
    requires room.Valid() && incoming.kind.Some?
    modifies room, room.roster
    ensures room.Valid()
    ensures var route := Payloads.Dispatch(incoming.kind.value, incoming.message);
            if route == Payloads.ToLeave || (route == Payloads.ToMove && accepted) then
              room.Abstract() == ClientRemoved(old(room.Abstract()), player.clientId)
            else if route.ToTurnAction? && route.choice.Some? then
              room.roster == old(room.roster) &&
              room.Abstract() == TurnAction(old(room.Abstract()), Position(old(room.roster), player), route.choice.value).0
            else if route.ToExtraOptionsToggle? then
              room.roster == old(room.roster) &&
              room.Abstract() == ExtraOptionsToggle(old(room.Abstract()), player.clientId).0
            else route != Payloads.ToReady ==>
              room.roster == old(room.roster) && room.Abstract() == old(room.Abstract())
  {
    var route := Payloads.Dispatch(incoming.kind.value, incoming.message);
    if route == Payloads.ToLeave || (route == Payloads.ToMove && accepted) {
      room.OnClientRemoved(player);
    } else if route.ToTurnAction? {
      if route.choice.Some? {
        var _ := room.HandleTurnAction(player, route.choice.value);
      }
    } else if route.ToExtraOptionsToggle? {
      var _ := room.HandleExtraOptionsToggle(player);
    }
  }
}
