/**
 * What the room's entry points guarantee, stated over the RoomLogic
 * functions that the GameRoom class is proved to follow.
 */
module RoomProperties {
  import opened Common
  import opened RpsRules
  import opened JavaStrings
  import opened Participants
  import opened RoomLogic

  // ---------------------------------------------------------------- the pairwise loop

  /**
   * How the pairwise loop may move a tally: the roster keeps its length, only
   * points change, only at positions listed in `act`, marks are only added
   * and only for positions listed in `act`.
   */
  predicate TallyFrame(t0: Tally, t: Tally, act: seq<nat>) {
    && |t.players| == |t0.players|
    && t0.marked <= t.marked
    && (forall m :: m in t.marked && m !in t0.marked ==> m in act)
    && (forall i :: 0 <= i < |t0.players| ==> t.players[i] == t0.players[i].(points := t.players[i].points))
    && (forall i :: 0 <= i < |t0.players| && i !in act ==> t.players[i] == t0.players[i])
  }

  lemma CompareFrame(t: Tally, act: seq<nat>, a: nat, b: nat, extraOptions: bool)
    requires a < |t.players| && b < |t.players| && a != b && a in act && b in act
    ensures TallyFrame(t, Compare(t, a, b, extraOptions), act)
  {
  }

  lemma {:induction false} InnerFrame(t: Tally, act: seq<nat>, i: nat, j: nat, extraOptions: bool)
    requires ValidActive(act, |t.players|) && i < j <= |act|
    ensures TallyFrame(t, InnerFrom(t, act, i, j, extraOptions), act)
    decreases |act| - j
  {
    if j < |act| {
      var t1 := Compare(t, act[i], act[j], extraOptions);
      CompareFrame(t, act, act[i], act[j], extraOptions);
      InnerFrame(t1, act, i, j + 1, extraOptions);
    }
  }

  lemma {:induction false} OuterFrame(t: Tally, act: seq<nat>, i: nat, extraOptions: bool)
    requires ValidActive(act, |t.players|) && i <= |act|
    ensures TallyFrame(t, OuterFrom(t, act, i, extraOptions), act)
    decreases |act| - i
  {
    if i < |act| {
      var t1 := InnerFrom(t, act, i, i + 1, extraOptions);
      InnerFrame(t, act, i, i + 1, extraOptions);
      OuterFrame(t1, act, i + 1, extraOptions);
    }
  }

  /**
   * The comparison phase of onRoundEnd changes nothing but points, and those
   * only of active participants; every participant it marks was active.
   */
  lemma ScoredFrame(ps: seq<PlayerState>, extraOptions: bool)
    ensures var t := Scored(ps, extraOptions);
      && (forall i :: 0 <= i < |ps| ==> t.players[i] == ps[i].(points := t.players[i].points))
      && (forall i :: 0 <= i < |ps| && !IsActive(ps[i]) ==> t.players[i] == ps[i] && i !in t.marked)
      && (forall m :: m in t.marked ==> m < |ps| && IsActive(ps[m]))
  {
    var act := ActiveIndices(ps, 0);
    OuterFrame(Tally(ps, {}), act, 0, extraOptions);
  }

  /** Some position of `act` is not marked. */
  predicate SomeUnmarked(t: Tally, act: seq<nat>) {
    exists k :: 0 <= k < |act| && act[k] !in t.marked
  }

  lemma CompareKeepsUnmarked(t: Tally, act: seq<nat>, a: nat, b: nat, extraOptions: bool)
    requires a < |t.players| && b < |t.players| && a != b && a in act && b in act
    requires SomeUnmarked(t, act)
    ensures SomeUnmarked(Compare(t, a, b, extraOptions), act)
  {
    var k :| 0 <= k < |act| && act[k] !in t.marked;
    var t1 := Compare(t, a, b, extraOptions);
    if act[k] in t1.marked {
      // only a or b can have been marked, and then the other was not
      if act[k] == a {
        var kb :| 0 <= kb < |act| && act[kb] == b;
        assert act[kb] !in t1.marked;
      } else {
        var ka :| 0 <= ka < |act| && act[ka] == a;
        assert act[ka] !in t1.marked;
      }
    }
  }

  lemma {:induction false} InnerKeepsUnmarked(t: Tally, act: seq<nat>, i: nat, j: nat, extraOptions: bool)
    requires ValidActive(act, |t.players|) && i < j <= |act|
    requires SomeUnmarked(t, act)
    ensures SomeUnmarked(InnerFrom(t, act, i, j, extraOptions), act)
    decreases |act| - j
  {
    if j < |act| {
      CompareKeepsUnmarked(t, act, act[i], act[j], extraOptions);
      InnerKeepsUnmarked(Compare(t, act[i], act[j], extraOptions), act, i, j + 1, extraOptions);
    }
  }

  lemma {:induction false} OuterKeepsUnmarked(t: Tally, act: seq<nat>, i: nat, extraOptions: bool)
    requires ValidActive(act, |t.players|) && i <= |act|
    requires SomeUnmarked(t, act)
    ensures SomeUnmarked(OuterFrom(t, act, i, extraOptions), act)
    decreases |act| - i
  {
    if i < |act| {
      InnerKeepsUnmarked(t, act, i, i + 1, extraOptions);
      InnerFrame(t, act, i, i + 1, extraOptions);
      OuterKeepsUnmarked(InnerFrom(t, act, i, i + 1, extraOptions), act, i + 1, extraOptions);
    }
  }

  /** However the choices fall, the pairwise loop never marks every active participant. */
  lemma ComparisonSparesSomeone(ps: seq<PlayerState>, extraOptions: bool, i: nat)
    requires i < |ps| && IsActive(ps[i])
    ensures exists j :: 0 <= j < |ps| && IsActive(ps[j]) && j !in Scored(ps, extraOptions).marked
  {
    var act := ActiveIndices(ps, 0);
    assert i in act;
    OuterKeepsUnmarked(Tally(ps, {}), act, 0, extraOptions);
    var k :| 0 <= k < |act| && act[k] !in Scored(ps, extraOptions).marked;
    assert IsActive(ps[act[k]]);
  }

  /**
   * A decisive pair gives the winner one point (Java int arithmetic) and marks
   * the loser; a pair with equal choices changes nothing.
   */
  lemma DecisivePair(t: Tally, a: nat, b: nat, extraOptions: bool)
    requires a < |t.players| && b < |t.players| && a != b
    requires a !in t.marked && b !in t.marked
    requires t.players[a].choice.Some? && t.players[a].choice.value in Alphabet(extraOptions)
    requires t.players[b].choice.Some? && t.players[b].choice.value in Alphabet(extraOptions)
    ensures var ca, cb := t.players[a].choice.value, t.players[b].choice.value;
            var r := Compare(t, a, b, extraOptions);
            && (ca == cb ==> r == t)
            && (ca != cb && WinsAgainst(ca, cb, extraOptions) ==>
                  r == Tally(t.players[a := t.players[a].(points := WrapInt(t.players[a].points + 1))], t.marked + {b}))
            && (ca != cb && !WinsAgainst(ca, cb, extraOptions) ==>
                  r == Tally(t.players[b := t.players[b].(points := WrapInt(t.players[b].points + 1))], t.marked + {a}))
  {
    var ca, cb := t.players[a].choice.value, t.players[b].choice.value;
    NoMutualWins(ca, cb, extraOptions);
    if ca != cb {
      Tournament(ca, cb, extraOptions);
    }
  }

  // ---------------------------------------------------------------- round end

  /**
   * onRoundEnd's resolution of the roster: ids, flags and choices are kept;
   * whoever had to pick and did not is eliminated; whoever was eliminated
   * stays so; a newly eliminated participant was not a spectator; points move
   * only for participants that were active in the comparison.
   */
  lemma ResolvedFacts(r: RoomState)
    ensures var ps, qs := r.players, Resolved(r);
      && (forall i :: 0 <= i < |ps| ==>
            qs[i] == ps[i].(points := qs[i].points, eliminated := qs[i].eliminated))
      && (forall i :: 0 <= i < |ps| && InGame(ps[i]) && ps[i].choice.None? ==> qs[i].eliminated)
      && (forall i :: 0 <= i < |ps| && ps[i].eliminated ==> qs[i].eliminated)
      && (forall i :: 0 <= i < |ps| && qs[i].eliminated && !ps[i].eliminated ==> !ps[i].spectator)
      && (forall i :: 0 <= i < |ps| && !IsActive(ps[i]) ==> qs[i].points == ps[i].points)
  {
    var ps, qs := r.players, Resolved(r);
    var es := EliminateNonPickers(ps);
    var t := Scored(es, r.extraOptions);
    ScoredFrame(es, r.extraOptions);
    forall i | 0 <= i < |ps|
      ensures qs[i] == ps[i].(points := qs[i].points, eliminated := qs[i].eliminated)
      ensures InGame(ps[i]) && ps[i].choice.None? ==> qs[i].eliminated
      ensures ps[i].eliminated ==> qs[i].eliminated
      ensures qs[i].eliminated && !ps[i].eliminated ==> !ps[i].spectator
      ensures !IsActive(ps[i]) ==> qs[i].points == ps[i].points
    {
      assert es[i] == EliminateIfNoPick(ps[i]);
      assert t.players[i] == es[i].(points := t.players[i].points);
      assert qs[i] == if i in t.marked && !t.players[i].eliminated then t.players[i].(eliminated := true) else t.players[i];
    }
  }

  /** With at least one participant active at the comparison, one of them is not eliminated by it. */
  lemma RoundEndSparesAnActive(r: RoomState, i: nat)
    requires i < |r.players| && IsActive(r.players[i])
    ensures exists j :: 0 <= j < |r.players| && IsActive(r.players[j]) && !Resolved(r)[j].eliminated
  {
    var es := EliminateNonPickers(r.players);
    assert IsActive(es[i]);
    ComparisonSparesSomeone(es, r.extraOptions, i);
    var t := Scored(es, r.extraOptions);
    ScoredFrame(es, r.extraOptions);
    var j :| 0 <= j < |es| && IsActive(es[j]) && j !in t.marked;
    assert IsActive(r.players[j]);
  }

  /**
   * The three endings of onRoundEnd: one survivor or none ends the session
   * (everyone reset, READY, timer off), two or more start the next round
   * (round counted, choices cleared, timer armed). One survivor is announced
   * as the winner.
   */
  lemma RoundEndBranches(r: RoomState)
    ensures var (r2, outcome) := RoundEnd(r);
      var ps := Resolved(r);
      var n := Survivors(ps);
      && |r2.players| == |r.players|
      && (n <= 1 ==>
            && r2.phase == Ready && !r2.timerArmed && r2.round == r.round
            && (forall i :: 0 <= i < |r2.players| ==>
                  r2.players[i] == ps[i].(points := 0, choice := None, tookTurn := false, eliminated := false, ready := false)))
      && (n >= 2 ==>
            && r2.phase == InProgress && r2.timerArmed && r2.round == r.round + 1 && outcome == NextRound
            && (forall i :: 0 <= i < |r2.players| ==> r2.players[i] == ps[i].(choice := None, tookTurn := false)))
      && (outcome.Winner? <==> n == 1)
      && (outcome == Tie <==> n == 0)
      && (outcome.Winner? ==> Some(outcome.id) == FirstNotEliminated(ps))
  {
    if Survivors(Resolved(r)) == 1 {
      SurvivorIsNotEliminated(Resolved(r));
    }
  }

  // ---------------------------------------------------------------- the invariant

  lemma ChoiceAcceptedAlphabet(c: string, extraOptions: bool)
    ensures ChoiceAccepted(c, extraOptions) <==> c in Alphabet(extraOptions)
  {
    if ChoiceAccepted(c, extraOptions) {
      assert c == [c[0]];
    }
  }

  lemma RoundStartConsistent(r: RoomState)
    requires r.round >= 0 && UniqueIds(r.players)
    requires forall i :: 0 <= i < |r.players| && r.players[i].spectator ==> !r.players[i].eliminated
    ensures Consistent(RoundStart(r))
  {
  }

  lemma RoundEndConsistent(r: RoomState)
    requires Consistent(r)
    ensures Consistent(RoundEnd(r).0)
  {
    ResolvedFacts(r);
    var ps := Resolved(r);
    assert UniqueIds(ps) by {
      forall i, j | 0 <= i < j < |ps| ensures ps[i].id != ps[j].id {
        assert ps[i].id == r.players[i].id && ps[j].id == r.players[j].id;
      }
    }
    var r1 := r.(players := ps, timerArmed := false);
    if Survivors(ps) >= 2 {
      RoundStartConsistent(r1);
    }
  }

  /** A new room is consistent. */
  lemma InitialConsistent()
    ensures Consistent(RoomState(Ready, 0, [], false, false, false))
  {
  }

  lemma TurnActionConsistent(r: RoomState, at: Option<nat>, raw: string)
    requires Consistent(r) && (at.Some? ==> at.value < |r.players|)
    ensures Consistent(TurnAction(r, at, raw).0)
  {
    if at.Some? {
      var k := at.value;
      var p := r.players[k];
      var c := NormalizeChoice(raw);
      if p.ready && r.phase == InProgress && !p.eliminated && p.choice.None? && !p.away && !p.spectator
         && ChoiceAccepted(c, r.extraOptions) {
        ChoiceAcceptedAlphabet(c, r.extraOptions);
        var r1 := r.(players := r.players[k := p.(choice := Some(c), tookTurn := true)]);
        assert Consistent(r1);
        if Remaining(r1.players) == 0 {
          RoundEndConsistent(r1);
        }
      }
    }
  }

  lemma HandleReadyConsistent(r: RoomState, at: Option<nat>, isReady: bool)
    requires Consistent(r) && (at.Some? ==> at.value < |r.players|)
    ensures Consistent(HandleReady(r, at, isReady))
  {
    var ps := if at.Some? then r.players[at.value := ReadyFlags(r.players[at.value], r.phase, isReady)]
              else r.players;
    var r1 := r.(players := ps);
    assert Consistent(r1);
    if r.phase == Ready && CanStart(ps) {
      RoundStartConsistent(r1.(players := ClearEliminated(ps), phase := InProgress, round := 0));
    }
  }

  lemma TogglesConsistent(r: RoomState, id: int)
    requires Consistent(r)
    ensures Consistent(ExtraOptionsToggle(r, id).0)
    ensures Consistent(ChoiceCooldownToggle(r, id).0)
  {
  }

  lemma AwayToggleConsistent(r: RoomState, at: Option<nat>, newAway: bool)
    requires Consistent(r) && (at.Some? ==> at.value < |r.players|)
    ensures Consistent(AwayToggle(r, at, newAway))
  {
  }

  /**
   * handleReady overwrites all four flags it touches, so the flags the
   * caller had before do not matter.
   */
  lemma HandleReadyForgetsFlags(r: RoomState, k: nat, isReady: bool, q: PlayerState)
    requires k < |r.players|
    requires q == r.players[k].(ready := q.ready, spectator := q.spectator, away := q.away, eliminated := q.eliminated)
    ensures HandleReady(r, Some(k), isReady) == HandleReady(r.(players := r.players[k := q]), Some(k), isReady)
  {
    var r' := r.(players := r.players[k := q]);
    assert r'.players[k := ReadyFlags(q, r.phase, isReady)] == r.players[k := ReadyFlags(r.players[k], r.phase, isReady)];
  }

  lemma ClientAddedConsistent(r: RoomState, p: PlayerState)
    requires Consistent(r)
    requires forall i :: 0 <= i < |r.players| ==> r.players[i].id != p.id
    ensures Consistent(ClientAdded(r, p).0)
  {
    var k := |r.players|;
    var r1 := r.(players := r.players + [p]);
    var q := p.(ready := false, spectator := true, away := false, eliminated := false);
    HandleReadyForgetsFlags(r1, k, false, q);
    var r2 := r1.(players := r1.players[k := q]);
    assert r2.players == r.players + [q];
    assert Consistent(r2);
    HandleReadyConsistent(r2, Some(k), false);
  }

  lemma {:induction false} RemoveIdFacts(ps: seq<PlayerState>, id: int)
    requires UniqueIds(ps)
    ensures UniqueIds(RemoveId(ps, id))
    ensures forall q :: q in RemoveId(ps, id) ==> q in ps && q.id != id
    ensures forall i :: 0 <= i < |ps| && ps[i].id != id ==> ps[i] in RemoveId(ps, id)
  {
    if ps != [] {
      var rest := RemoveId(ps[1..], id);
      RemoveIdFacts(ps[1..], id);
      forall q | q in rest ensures q.id != ps[0].id {
        var j :| 0 <= j < |ps[1..]| && ps[1..][j] == q;
        assert ps[j + 1] == q;
      }
      forall i | 0 <= i < |ps| && ps[i].id != id ensures ps[i] in RemoveId(ps, id) {
        if i > 0 {
          assert ps[1..][i - 1] == ps[i];
        }
      }
    }
  }

  /**
   * Removal keeps the order of the remaining entries: removing from a
   * concatenation removes from each part in turn, so a single entry stays in
   * its place exactly when its id differs.
   */
  lemma {:induction false} RemoveIdAppend(a: seq<PlayerState>, b: seq<PlayerState>, id: int)
    ensures RemoveId(a + b, id) == RemoveId(a, id) + RemoveId(b, id)
    decreases |a|
  {
    if a == [] {
      assert a + b == b;
    } else {
      assert (a + b)[1..] == a[1..] + b;
      RemoveIdAppend(a[1..], b, id);
    }
  }

  lemma ClientRemovedConsistent(r: RoomState, id: int)
    requires Consistent(r)
    ensures Consistent(ClientRemoved(r, id))
  {
    var ps := RemoveId(r.players, id);
    RemoveIdFacts(r.players, id);
    forall i | 0 <= i < |ps|
      ensures ps[i].spectator ==> !ps[i].eliminated
      ensures r.phase == InProgress && !ps[i].spectator && ps[i].choice.Some? ==>
                ps[i].choice.value in Alphabet(r.extraOptions)
    {
      assert ps[i] in ps;
      var j :| 0 <= j < |r.players| && r.players[j] == ps[i];
    }
  }

  // ---------------------------------------------------------------- entry points

  /**
   * handleTurnAction rejects, with the room unchanged, a caller outside the
   * room, not ready, outside IN_PROGRESS, eliminated, who already picked, away
   * or spectating, or whose trimmed lower-cased input is not a single symbol
   * of the enabled alphabet; otherwise it records the pick.
   */
  lemma TurnActionRejects(r: RoomState, at: Option<nat>, raw: string)
    requires at.Some? ==> at.value < |r.players|
    ensures var (r2, reply) := TurnAction(r, at, raw);
      && (!reply.Picked? ==> r2 == r)
      && (reply.Picked? <==>
            at.Some? && InGame(r.players[at.value]) && r.players[at.value].ready && r.phase == InProgress
            && r.players[at.value].choice.None?
            && NormalizeChoice(raw) in Alphabet(r.extraOptions))
  {
    ChoiceAcceptedAlphabet(NormalizeChoice(raw), r.extraOptions);
  }

  /**
   * A successful pick stores the normalised symbol and the took-turn flag; the
   * round ends at once exactly when nobody in the game is still without a
   * choice, and otherwise nothing else changes.
   */
  lemma TurnActionPicks(r: RoomState, k: nat, raw: string)
    requires k < |r.players|
    requires TurnAction(r, Some(k), raw).1.Picked?
    ensures var c := NormalizeChoice(raw);
      var r1 := r.(players := r.players[k := r.players[k].(choice := Some(c), tookTurn := true)]);
      var (r2, reply) := TurnAction(r, Some(k), raw);
      && c in Alphabet(r.extraOptions)
      && (reply.ended.None? <==> Remaining(r1.players) > 0)
      && (reply.ended.None? ==> r2 == r1)
      && (reply.ended.Some? ==> (r2, reply.ended.value) == RoundEnd(r1))
  {
    ChoiceAcceptedAlphabet(NormalizeChoice(raw), r.extraOptions);
  }

  /** Input is trimmed and lower-cased before it is checked: " R " is rock. */
  lemma PaddedUpperCaseAccepted()
    ensures NormalizeChoice(" R ") == "r"
    ensures ChoiceAccepted(NormalizeChoice(" R "), false)
  {
    assert Trim(" R ") == "R";
  }

  /**
   * handleReady: outside READY or when declining, the caller becomes a
   * not-ready spectator, otherwise a ready player; in READY the session starts
   * exactly when every non-spectator is ready and there are at least two.
   */
  lemma HandleReadyStarts(r: RoomState, k: nat, isReady: bool)
    requires k < |r.players|
    ensures var ps := r.players[k := ReadyFlags(r.players[k], r.phase, isReady)];
      var r2 := HandleReady(r, Some(k), isReady);
      && (r.phase == Ready ==> (r2.phase == InProgress <==> AllReady(ps) && NonSpectators(ps) >= 2))
      && (r.phase == Ready && NonSpectators(ps) < 2 ==> r2 == r.(players := ps))
      && (r.phase != Ready ==> r2 == r.(players := ps) && ps[k].spectator && !ps[k].ready)
      && (!isReady ==> ps[k].spectator && !ps[k].ready)
      && (r.phase == Ready && isReady ==> ps[k].ready && !ps[k].spectator)
  {
  }

  /** A ready check from outside the roster moves nothing in the room. */
  lemma HandleReadyOutsider(r: RoomState, isReady: bool)
    requires r.phase != Ready || !CanStart(r.players)
    ensures HandleReady(r, None, isReady) == r
  {
  }

  /** onSessionStart: everyone back in, choices cleared, round 1 in progress with the timer armed. */
  lemma SessionStartFacts(r: RoomState)
    ensures var r2 := SessionStart(r);
      && r2.phase == InProgress && r2.round == 1 && r2.timerArmed && |r2.players| == |r.players|
      && forall i :: 0 <= i < |r.players| ==>
           r2.players[i] == r.players[i].(eliminated := false, choice := None, tookTurn := false)
  {
  }

  /** onSessionEnd: every participant reset, READY; the round counter is kept. */
  lemma SessionEndFacts(r: RoomState)
    ensures var r2 := SessionEnd(r);
      && r2.phase == Ready && r2.round == r.round && |r2.players| == |r.players|
      && Survivors(r2.players) == NonAwayPlayers(r.players)
      && forall i :: 0 <= i < |r.players| ==>
           && r2.players[i].points == 0 && r2.players[i].choice.None? && !r2.players[i].tookTurn
           && !r2.players[i].eliminated && !r2.players[i].ready
  {
    SurvivorsAfterReset(r.players);
  }

  /** Participants neither away nor spectating. */
  function NonAwayPlayers(ps: seq<PlayerState>): nat {
    if ps == [] then 0 else (if !ps[0].away && !ps[0].spectator then 1 else 0) + NonAwayPlayers(ps[1..])
  }

  lemma {:induction false} SurvivorsAfterReset(ps: seq<PlayerState>)
    ensures Survivors(ResetAll(ps)) == NonAwayPlayers(ps)
  {
    if ps != [] {
      SurvivorsAfterReset(ps[1..]);
      assert ResetAll(ps)[1..] == ResetAll(ps[1..]);
    }
  }

  /**
   * The host-gated toggles flip their flag exactly in READY and for the first
   * roster entry, change nothing else, and two in a row restore the room.
   */
  lemma TogglesFlip(r: RoomState, id: int)
    ensures var (r2, reply) := ExtraOptionsToggle(r, id);
      && (r2.extraOptions != r.extraOptions <==> r.phase == Ready && IsHostId(r.players, id))
      && r2 == r.(extraOptions := r2.extraOptions)
      && (reply.Toggled? ==> reply.enabled == r2.extraOptions)
      && ExtraOptionsToggle(r2, id).0 == r
    ensures var (r2, reply) := ChoiceCooldownToggle(r, id);
      && (r2.choiceCooldown != r.choiceCooldown <==> r.phase == Ready && IsHostId(r.players, id))
      && r2 == r.(choiceCooldown := r2.choiceCooldown)
      && (reply.Toggled? ==> reply.enabled == r2.choiceCooldown)
      && ChoiceCooldownToggle(r2, id).0 == r
  {
  }

  /**
   * onClientAdded: the newcomer is the host exactly when it is alone; it joins
   * as a not-ready spectator at the end of the roster unless its arrival
   * completes a start condition.
   */
  lemma ClientAddedFacts(r: RoomState, p: PlayerState)
    ensures var (r2, isHost) := ClientAdded(r, p);
      var q := p.(spectator := true, ready := false, eliminated := false, away := false);
      && (isHost <==> r.players == [])
      && |r2.players| == |r.players| + 1
      && (r.phase != Ready || !CanStart(r.players + [q]) ==> r2 == r.(players := r.players + [q]))
  {
    var q := p.(spectator := true, ready := false, eliminated := false, away := false);
    assert (r.players + [p])[|r.players| := q] == r.players + [q];
  }

  /** onClientRemoved: the id is gone; an emptied room is back in READY with no timer. */
  lemma ClientRemovedFacts(r: RoomState, id: int)
    requires UniqueIds(r.players)
    ensures var r2 := ClientRemoved(r, id);
      && (forall i :: 0 <= i < |r2.players| ==> r2.players[i].id != id)
      && (forall i :: 0 <= i < |r.players| && r.players[i].id != id ==> r.players[i].id in Ids(r2.players))
      && (r2.players == [] ==> r2.phase == Ready && !r2.timerArmed)
  {
    RemoveIdFacts(r.players, id);
    var ps := RemoveId(r.players, id);
    forall i | 0 <= i < |r.players| && r.players[i].id != id
      ensures r.players[i].id in Ids(ClientRemoved(r, id).players)
    {
      var j :| 0 <= j < |ps| && ps[j] == r.players[i];
      assert ClientRemoved(r, id).players[j].id == r.players[i].id;
    }
  }

  /** The ids of a roster. */
  function Ids(ps: seq<PlayerState>): (s: set<int>)
    ensures forall i :: 0 <= i < |ps| ==> ps[i].id in s
  {
    set i | 0 <= i < |ps| :: ps[i].id
  }
}
