/**
 * The rock-paper-scissors elimination room as a state machine over values:
 * one function per entry point of GameRoom, each giving the room's next
 * state from the current one. The GameRoom class is proved to follow these
 * functions; the lemmas in RoomProperties are about them.
 */
module RoomLogic {
  import opened Common
  import opened RpsRules
  import opened JavaStrings
  import opened Participants

  datatype Phase = Ready | InProgress

  /** Everything GameRoom keeps: phase, round counter, ordered roster, the two flags, the round timer. */
  datatype RoomState = RoomState(
    phase: Phase,
    round: int,
    players: seq<PlayerState>,
    extraOptions: bool,
    choiceCooldown: bool,
    timerArmed: bool)

  /** What the end of a round announces. */
  datatype RoundOutcome = Winner(id: int) | Tie | NextRound

  /** The private reply handleTurnAction sends (or the exception it catches). */
  datatype TurnReply =
    | NotInRoom | NotReady | WrongPhase
    | IsEliminated | AlreadyPicked | IsAway | IsSpectator | InvalidChoice
    | Picked(ended: Option<RoundOutcome>)

  /** The reply of a host-gated configuration toggle. */
  datatype ToggleReply = NotReadyPhase | NotHost | Toggled(enabled: bool)

  predicate UniqueIds(ps: seq<PlayerState>) {
    forall i, j :: 0 <= i < j < |ps| ==> ps[i].id != ps[j].id
  }

  /** Still in the game: neither eliminated, away nor spectating. */
  predicate InGame(p: PlayerState) {
    !p.eliminated && !p.away && !p.spectator
  }

  /** Compared at round end: not eliminated, not spectating, and holding a choice (away players included). */
  predicate IsActive(p: PlayerState) {
    !p.eliminated && !p.spectator && p.choice.Some?
  }

  /** The survivor count of onRoundEnd. */
  function Survivors(ps: seq<PlayerState>): nat {
    if ps == [] then 0 else (if InGame(ps[0]) then 1 else 0) + Survivors(ps[1..])
  }

  /** Participants handleTurnAction still waits for. */
  function Remaining(ps: seq<PlayerState>): nat {
    if ps == [] then 0 else (if InGame(ps[0]) && ps[0].choice.None? then 1 else 0) + Remaining(ps[1..])
  }

  /** The non-spectators handleReady counts. */
  function NonSpectators(ps: seq<PlayerState>): nat {
    if ps == [] then 0 else (if !ps[0].spectator then 1 else 0) + NonSpectators(ps[1..])
  }

  // ---------------------------------------------------------------- round start

  function ClearChoice(p: PlayerState): PlayerState {
    p.(choice := None, tookTurn := false)
  }

  /** resetPlayerChoices */
  function ClearChoices(ps: seq<PlayerState>): (r: seq<PlayerState>)
    ensures |r| == |ps| && forall i :: 0 <= i < |ps| ==> r[i] == ClearChoice(ps[i])
  {
    seq(|ps|, i requires 0 <= i < |ps| => ClearChoice(ps[i]))
  }

  /** onRoundStart: stale timer cancelled, choices cleared, round counted, fresh timer armed. */
  function RoundStart(r: RoomState): (s: RoomState)
    ensures s.phase == InProgress && s.timerArmed && s.round == r.round + 1
    ensures s.extraOptions == r.extraOptions && s.choiceCooldown == r.choiceCooldown
    ensures |s.players| == |r.players|
    ensures forall i :: 0 <= i < |r.players| ==>
              s.players[i].choice.None? && !s.players[i].tookTurn &&
              s.players[i].(choice := r.players[i].choice, tookTurn := r.players[i].tookTurn) == r.players[i]
  {
    r.(players := ClearChoices(r.players), phase := InProgress, round := r.round + 1, timerArmed := true)
  }

  // ---------------------------------------------------------------- session start / end

  function ResetPlayer(p: PlayerState): PlayerState {
    p.(points := 0, choice := None, tookTurn := false, eliminated := false, ready := false)
  }

  function ResetAll(ps: seq<PlayerState>): (r: seq<PlayerState>)
    ensures |r| == |ps| && forall i :: 0 <= i < |ps| ==> r[i] == ResetPlayer(ps[i])
  {
    seq(|ps|, i requires 0 <= i < |ps| => ResetPlayer(ps[i]))
  }

  /** onSessionEnd: every participant reset, phase back to READY. */
  function SessionEnd(r: RoomState): (s: RoomState)
    ensures s.phase == Ready
    ensures s.(players := r.players, phase := r.phase) == r
    ensures |s.players| == |r.players|
    ensures forall i :: 0 <= i < |r.players| ==>
              var q, p := s.players[i], r.players[i];
              q.points == 0 && q.choice.None? && !q.tookTurn && !q.eliminated && !q.ready &&
              q.id == p.id && q.spectator == p.spectator && q.away == p.away
  {
    r.(players := ResetAll(r.players), phase := Ready)
  }

  function ClearEliminated(ps: seq<PlayerState>): (r: seq<PlayerState>)
    ensures |r| == |ps| && forall i :: 0 <= i < |ps| ==> r[i] == ps[i].(eliminated := false)
  {
    seq(|ps|, i requires 0 <= i < |ps| => ps[i].(eliminated := false))
  }

  /** onSessionStart: eliminations cleared, IN_PROGRESS, round reset to 0, then the first round. */
  function SessionStart(r: RoomState): (s: RoomState)
    ensures s.phase == InProgress && s.timerArmed && s.round == 1
    ensures s.extraOptions == r.extraOptions && s.choiceCooldown == r.choiceCooldown
    ensures |s.players| == |r.players|
    ensures forall i :: 0 <= i < |r.players| ==>
              var q, p := s.players[i], r.players[i];
              !q.eliminated && q.choice.None? && !q.tookTurn &&
              q.id == p.id && q.points == p.points && q.ready == p.ready &&
              q.spectator == p.spectator && q.away == p.away
  {
    RoundStart(r.(players := ClearEliminated(r.players), phase := InProgress, round := 0))
  }

  // ---------------------------------------------------------------- round end

  /** A participant who had to pick and did not is eliminated. */
  function EliminateIfNoPick(p: PlayerState): PlayerState {
    if InGame(p) && p.choice.None? then p.(eliminated := true) else p
  }

  function EliminateNonPickers(ps: seq<PlayerState>): (r: seq<PlayerState>)
    ensures |r| == |ps| && forall i :: 0 <= i < |ps| ==> r[i] == EliminateIfNoPick(ps[i])
  {
    seq(|ps|, i requires 0 <= i < |ps| => EliminateIfNoPick(ps[i]))
  }

  /** Roster positions, in roster order, of active participants from `from` on. */
  function ActiveIndices(ps: seq<PlayerState>, from: nat): (r: seq<nat>)
    requires from <= |ps|
    ensures forall k :: 0 <= k < |r| ==> from <= r[k] < |ps| && IsActive(ps[r[k]])
    ensures forall k, l :: 0 <= k < l < |r| ==> r[k] < r[l]
    ensures forall i :: from <= i < |ps| && IsActive(ps[i]) ==> i in r
    decreases |ps| - from
  {
    if from == |ps| then []
    else if IsActive(ps[from]) then [from] + ActiveIndices(ps, from + 1)
    else ActiveIndices(ps, from + 1)
  }

  /** Strictly increasing positions below n: a valid `active` list for a roster of n. */
  predicate ValidActive(act: seq<nat>, n: nat) {
    (forall k :: 0 <= k < |act| ==> act[k] < n) &&
    (forall k, l :: 0 <= k < l < |act| ==> act[k] < act[l])
  }

  /** The pairwise loop's state: the roster with its points, and the toEliminate set (positions). */
  datatype Tally = Tally(players: seq<PlayerState>, marked: set<nat>)

  /**
   * One iteration of the pairwise loop, for the pair at roster positions a and
   * b; the winner's point is added in Java int arithmetic.
   */
  function Compare(t: Tally, a: nat, b: nat, extraOptions: bool): (r: Tally)
    requires a < |t.players| && b < |t.players| && a != b
    ensures |r.players| == |t.players|
  {
    var ps := t.players;
    if a in t.marked || b in t.marked then t
    else if ps[a].choice.None? || ps[b].choice.None? then t
    else
      var aWins := WinsAgainst(ps[a].choice.value, ps[b].choice.value, extraOptions);
      var bWins := WinsAgainst(ps[b].choice.value, ps[a].choice.value, extraOptions);
      if aWins && !bWins then Tally(ps[a := ps[a].(points := WrapInt(ps[a].points + 1))], t.marked + {b})
      else if bWins && !aWins then Tally(ps[b := ps[b].(points := WrapInt(ps[b].points + 1))], t.marked + {a})
      else t
  }

  /** The inner loop from j on, for the outer index i. */
  function InnerFrom(t: Tally, act: seq<nat>, i: nat, j: nat, extraOptions: bool): (r: Tally)
    requires ValidActive(act, |t.players|) && i < j <= |act|
    ensures |r.players| == |t.players|
    decreases |act| - j
  {
    if j == |act| then t
    else InnerFrom(Compare(t, act[i], act[j], extraOptions), act, i, j + 1, extraOptions)
  }

  /** The outer loop from i on. */
  function OuterFrom(t: Tally, act: seq<nat>, i: nat, extraOptions: bool): (r: Tally)
    requires ValidActive(act, |t.players|) && i <= |act|
    ensures |r.players| == |t.players|
    decreases |act| - i
  {
    if i == |act| then t
    else OuterFrom(InnerFrom(t, act, i, i + 1, extraOptions), act, i + 1, extraOptions)
  }

  /** Applying toEliminate after the loop. */
  function ApplyMarks(ps: seq<PlayerState>, marked: set<nat>): (r: seq<PlayerState>)
    ensures |r| == |ps|
    ensures forall i :: 0 <= i < |ps| ==>
              r[i] == if i in marked && !ps[i].eliminated then ps[i].(eliminated := true) else ps[i]
  {
    seq(|ps|, i requires 0 <= i < |ps| => if i in marked && !ps[i].eliminated then ps[i].(eliminated := true) else ps[i])
  }

  /** The roster after the pairwise comparison of the active participants, before marks are applied. */
  function Scored(ps: seq<PlayerState>, extraOptions: bool): (t: Tally)
    ensures |t.players| == |ps|
  {
    OuterFrom(Tally(ps, {}), ActiveIndices(ps, 0), 0, extraOptions)
  }

  /** The roster once onRoundEnd has eliminated non-pickers, compared all pairs and applied the marks. */
  function Resolved(r: RoomState): (ps: seq<PlayerState>)
    ensures |ps| == |r.players|
  {
    var t := Scored(EliminateNonPickers(r.players), r.extraOptions);
    ApplyMarks(t.players, t.marked)
  }

  /** The id of the first roster entry that is not eliminated (the announced winner). */
  function FirstNotEliminated(ps: seq<PlayerState>): (r: Option<int>)
    ensures r.Some? <==> exists i :: 0 <= i < |ps| && !ps[i].eliminated
  {
    if ps == [] then None
    else if !ps[0].eliminated then Some(ps[0].id)
    else FirstNotEliminated(ps[1..])
  }

  lemma {:induction false} SurvivorIsNotEliminated(ps: seq<PlayerState>)
    requires Survivors(ps) > 0
    ensures FirstNotEliminated(ps).Some?
  {
    if !InGame(ps[0]) {
      SurvivorIsNotEliminated(ps[1..]);
    }
  }

  /** onRoundEnd: the timer is cancelled; one survivor or none ends the session, more start a new round. */
  function RoundEnd(r: RoomState): (res: (RoomState, RoundOutcome))
    ensures |res.0.players| == |r.players|
    ensures res.0.extraOptions == r.extraOptions && res.0.choiceCooldown == r.choiceCooldown
    ensures res.1 == NextRound <==> res.0.phase == InProgress
    ensures res.0.timerArmed <==> res.1 == NextRound
    ensures res.0.round == if res.1 == NextRound then r.round + 1 else r.round
  {
    var ps := Resolved(r);
    var r1 := r.(players := ps, timerArmed := false);
    var n := Survivors(ps);
    if n == 1 then
      SurvivorIsNotEliminated(ps);
      (SessionEnd(r1), Winner(FirstNotEliminated(ps).value))
    else if n == 0 then (SessionEnd(r1), Tie)
    else (RoundStart(r1), NextRound)
  }

  // ---------------------------------------------------------------- turn action

  /** choice.trim().toLowerCase() */
  function NormalizeChoice(raw: string): string {
    ToLower(Trim(raw))
  }

  /** choice.matches("[rpsfw]") or choice.matches("[rps]"): exactly one character of the class. */
  predicate ChoiceAccepted(c: string, extraOptions: bool) {
    |c| == 1 && c[0] in (if extraOptions then "rpsfw" else "rps")
  }

  /** handleTurnAction for the participant at roster position `at` (None: not in this room). */
  function TurnAction(r: RoomState, at: Option<nat>, raw: string): (res: (RoomState, TurnReply))
    requires at.Some? ==> at.value < |r.players|
    ensures at.None? ==> res == (r, NotInRoom)
    ensures !res.1.Picked? ==> res.0 == r
    ensures res.1.Picked? ==> at.Some? && r.phase == InProgress && r.players[at.value].ready
    ensures |res.0.players| == |r.players|
  {
    if at.None? then (r, NotInRoom)
    else
      var k := at.value;
      var p := r.players[k];
      if !p.ready then (r, NotReady)
      else if r.phase != InProgress then (r, WrongPhase)
      else if p.eliminated then (r, IsEliminated)
      else if p.choice.Some? then (r, AlreadyPicked)
      else if p.away then (r, IsAway)
      else if p.spectator then (r, IsSpectator)
      else
        var c := NormalizeChoice(raw);
        if !ChoiceAccepted(c, r.extraOptions) then (r, InvalidChoice)
        else AcceptPick(r, k, c)
  }

  /** The success path of handleTurnAction: record the pick, and end the round once nobody is left to pick. */
  function AcceptPick(r: RoomState, k: nat, c: string): (res: (RoomState, TurnReply))
    requires k < |r.players|
    ensures res.1.Picked? && |res.0.players| == |r.players|
    ensures res.1.ended.None? ==>
              res.0.phase == r.phase && res.0.players[k].choice == Some(c) && res.0.players[k].tookTurn
    ensures res.1.ended.Some? ==> !res.0.timerArmed || res.0.round == r.round + 1
  {
    var r1 := r.(players := r.players[k := r.players[k].(choice := Some(c), tookTurn := true)]);
    if Remaining(r1.players) == 0 then
      var (r2, outcome) := RoundEnd(r1);
      (r2, Picked(Some(outcome)))
    else (r1, Picked(None))
  }

  // ---------------------------------------------------------------- ready

  /** The flags handleReady gives the caller: late or declining means spectator, otherwise ready. */
  function ReadyFlags(p: PlayerState, phase: Phase, isReady: bool): PlayerState {
    if phase == Ready && isReady then p.(spectator := false, ready := true, eliminated := false, away := false)
    else p.(spectator := true, ready := false, eliminated := false, away := false)
  }

  predicate AllReady(ps: seq<PlayerState>) {
    forall i :: 0 <= i < |ps| && !ps[i].spectator ==> ps[i].ready
  }

  /** handleReady's start condition: every non-spectator ready, and at least two of them. */
  predicate CanStart(ps: seq<PlayerState>) {
    AllReady(ps) && NonSpectators(ps) >= 2
  }

  /**
   * handleReady for the participant at `at` (None: a participant outside the
   * roster, whose flags change but who is not counted).
   */
  function HandleReady(r: RoomState, at: Option<nat>, isReady: bool): (s: RoomState)
    requires at.Some? ==> at.value < |r.players|
    ensures |s.players| == |r.players|
    ensures forall i :: 0 <= i < |r.players| ==> s.players[i].id == r.players[i].id
    ensures at.Some? ==> s.players[at.value].spectator == !(r.phase == Ready && isReady)
    ensures r.phase == InProgress ==> s.phase == InProgress && s.round == r.round
  {
    var ps := if at.Some? then r.players[at.value := ReadyFlags(r.players[at.value], r.phase, isReady)]
              else r.players;
    StartIfReady(r.(players := ps))
  }

  /** The tail of handleReady: in READY, start the session once every non-spectator is ready and there are two. */
  function StartIfReady(r: RoomState): (s: RoomState)
    ensures s.phase == InProgress <==> r.phase != Ready || CanStart(r.players)
    ensures s != r ==> r.phase == Ready && CanStart(r.players) && s.round == 1 && s.timerArmed
  {
    if r.phase != Ready then assert r.phase.InProgress?; r
    else if CanStart(r.players) then SessionStart(r)
    else r
  }

  // ---------------------------------------------------------------- host, toggles, away

  /** isHost: the caller's id is that of the first roster entry (false in an empty room). */
  predicate IsHostId(ps: seq<PlayerState>, id: int) {
    ps != [] && ps[0].id == id
  }

  function ExtraOptionsToggle(r: RoomState, id: int): (RoomState, ToggleReply) {
    if r.phase != Ready then (r, NotReadyPhase)
    else if !IsHostId(r.players, id) then (r, NotHost)
    else (r.(extraOptions := !r.extraOptions), Toggled(!r.extraOptions))
  }

  function ChoiceCooldownToggle(r: RoomState, id: int): (RoomState, ToggleReply) {
    if r.phase != Ready then (r, NotReadyPhase)
    else if !IsHostId(r.players, id) then (r, NotHost)
    else (r.(choiceCooldown := !r.choiceCooldown), Toggled(!r.choiceCooldown))
  }

  function AwayToggle(r: RoomState, at: Option<nat>, newAway: bool): (s: RoomState)
    requires at.Some? ==> at.value < |r.players|
    ensures s.(players := r.players) == r
    ensures |s.players| == |r.players|
    ensures forall i :: 0 <= i < |r.players| ==>
              if at == Some(i) then s.players[i] == r.players[i].(away := newAway) else s.players[i] == r.players[i]
  {
    if at.None? then r
    else r.(players := r.players[at.value := r.players[at.value].(away := newAway)])
  }

  // ---------------------------------------------------------------- membership

  /**
   * onClientAdded, after the room has appended the newcomer: it is told
   * whether it is the host (the room now holds only it) and goes through
   * handleReady(sp, true, false).
   */
  function ClientAdded(r: RoomState, p: PlayerState): (res: (RoomState, bool))
    ensures res.1 <==> r.players == []
    ensures |res.0.players| == |r.players| + 1 && res.0.players[|r.players|].id == p.id
    ensures forall i :: 0 <= i < |r.players| ==> res.0.players[i].id == r.players[i].id
    ensures r.phase == InProgress ==> res.0.players[|r.players|].spectator && res.0.phase == InProgress
  {
    var r1 := r.(players := r.players + [p]);
    (HandleReady(r1, Some(|r.players|), false), |r1.players| == 1)
  }

  function RemoveId(ps: seq<PlayerState>, id: int): (r: seq<PlayerState>)
    ensures |r| <= |ps|
    ensures forall i :: 0 <= i < |r| ==> r[i].id != id && r[i] in ps
  {
    if ps == [] then []
    else if ps[0].id == id then RemoveId(ps[1..], id)
    else [ps[0]] + RemoveId(ps[1..], id)
  }

  /** onClientRemoved: the entry is dropped; an emptied room cancels its timer and ends the session. */
  function ClientRemoved(r: RoomState, id: int): (s: RoomState)
    ensures forall i :: 0 <= i < |s.players| ==> s.players[i].id != id
    ensures |s.players| <= |r.players|
    ensures s.players == [] ==> s.phase == Ready && !s.timerArmed
    ensures s.players != [] ==> s == r.(players := s.players)
  {
    var ps := RemoveId(r.players, id);
    if ps == [] then SessionEnd(r.(players := ps, timerArmed := false))
    else r.(players := ps)
  }

  // ---------------------------------------------------------------- invariant

  /** During a round, every non-spectator's choice is a symbol of the enabled alphabet. */
  predicate ChoicesValid(r: RoomState) {
    r.phase == InProgress ==>
      forall i :: 0 <= i < |r.players| && !r.players[i].spectator && r.players[i].choice.Some? ==>
        r.players[i].choice.value in Alphabet(r.extraOptions)
  }

  /**
   * The room invariant: the timer is armed exactly while a round is in
   * progress, rounds are counted from 1, ids are unique, no spectator is
   * eliminated and the choices in play are valid symbols.
   */
  predicate Consistent(r: RoomState) {
    && r.round >= 0
    && (r.phase == InProgress <==> r.timerArmed)
    && (r.phase == InProgress ==> r.round >= 1)
    && UniqueIds(r.players)
    && (forall i :: 0 <= i < |r.players| && r.players[i].spectator ==> !r.players[i].eliminated)
    && ChoicesValid(r)
  }
}
