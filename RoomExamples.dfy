/**
 * Concrete rounds that show how onRoundEnd resolves a roster: the outcome
 * depends on roster order, and the announced winner is the first entry that
 * is not eliminated, whether or not it played.
 */
module RoomExamples {
  import opened Common
  import opened RpsRules
  import opened Participants
  import opened RoomLogic

  /** A ready participant who has picked `c` and has no points yet. */
  function Picker(id: int, c: string): (p: PlayerState)
    ensures IsActive(p) && InGame(p) && p.id == id && p.choice == Some(c)
  {
    PlayerState(id, true, false, false, false, 0, Some(c), true)
  }

  /** A spectator who never picks. */
  function Watcher(id: int): (p: PlayerState)
    ensures !IsActive(p) && !InGame(p) && !p.eliminated && p.id == id
  {
    PlayerState(id, false, true, false, false, 0, None, false)
  }

  function InRound(ps: seq<PlayerState>): RoomState {
    RoomState(InProgress, 1, ps, false, false, true)
  }

  /** WinsAgainst for the choices of two entries, decided in a's favour. */
  predicate Beats(a: PlayerState, b: PlayerState, extraOptions: bool)
    requires a.choice.Some? && b.choice.Some?
  {
    WinsAgainst(a.choice.value, b.choice.value, extraOptions) &&
    !WinsAgainst(b.choice.value, a.choice.value, extraOptions)
  }

  lemma ActiveOfThree(ps: seq<PlayerState>)
    requires |ps| == 3 && IsActive(ps[0]) && IsActive(ps[1]) && IsActive(ps[2])
    ensures ActiveIndices(ps, 0) == [0, 1, 2]
  {
    assert ActiveIndices(ps, 3) == [];
    assert ActiveIndices(ps, 2) == [2];
    assert ActiveIndices(ps, 1) == [1, 2];
  }

  /** The pairwise loop over three active positions, given what each of its three steps does. */
  lemma LoopOfThree(t0: Tally, t1: Tally, t2: Tally, extraOptions: bool)
    requires |t0.players| == 3
    requires t1 == Compare(t0, 0, 1, extraOptions) && t2 == Compare(t1, 0, 2, extraOptions)
    requires Compare(t2, 1, 2, extraOptions) == t2
    ensures OuterFrom(t0, [0, 1, 2], 0, extraOptions) == t2
  {
    var act: seq<nat> := [0, 1, 2];
    var ex := extraOptions;
    assert InnerFrom(t0, act, 0, 1, ex) == t2 by {
      assert InnerFrom(t2, act, 0, 3, ex) == t2;
      assert InnerFrom(t1, act, 0, 2, ex) == t2;
    }
    assert InnerFrom(t2, act, 1, 2, ex) == t2 by {
      assert InnerFrom(t2, act, 1, 3, ex) == t2;
    }
    assert InnerFrom(t2, act, 2, 3, ex) == t2;
    assert OuterFrom(t2, act, 1, ex) == t2 by {
      assert OuterFrom(t2, act, 3, ex) == t2;
      assert OuterFrom(t2, act, 2, ex) == t2;
    }
  }

  /**
   * Three active entries in a cycle where the first beats the second and the
   * third beats the first: the pair (second, third) is skipped because the
   * second is already marked, so the first two are marked and the first and
   * third each gain a point.
   */
  lemma CycleScored(ps: seq<PlayerState>, extraOptions: bool)
    requires |ps| == 3 && IsActive(ps[0]) && IsActive(ps[1]) && IsActive(ps[2])
    requires Beats(ps[0], ps[1], extraOptions) && Beats(ps[2], ps[0], extraOptions)
    ensures Scored(ps, extraOptions) ==
            Tally([ps[0].(points := WrapInt(ps[0].points + 1)), ps[1],
                   ps[2].(points := WrapInt(ps[2].points + 1))], {0, 1})
  {
    var ex := extraOptions;
    ActiveOfThree(ps);
    var p0 := ps[0].(points := WrapInt(ps[0].points + 1));
    var p2 := ps[2].(points := WrapInt(ps[2].points + 1));
    var t0 := Tally(ps, {});
    var t1 := Compare(t0, 0, 1, ex);
    DecisiveCompare(t0, 0, 1, ex);
    assert t1 == Tally(ps[0 := p0], {1});
    var t2 := Compare(t1, 0, 2, ex);
    DecisiveCompare(t1, 2, 0, ex);
    assert t2 == Tally(ps[0 := p0][2 := p2], {1} + {0});
    assert ps[0 := p0][2 := p2] == [p0, ps[1], p2];
    assert {1} + {0} == {0, 1};
    LoopOfThree(t0, t1, t2, ex);
  }

  /** A pair of unmarked positions where the first beats the second: its point and the second's mark. */
  lemma DecisiveCompare(t: Tally, a: nat, b: nat, extraOptions: bool)
    requires a < |t.players| && b < |t.players| && a != b
    requires a !in t.marked && b !in t.marked
    requires t.players[a].choice.Some? && t.players[b].choice.Some?
    requires Beats(t.players[a], t.players[b], extraOptions)
    ensures Compare(t, a, b, extraOptions) ==
      Tally(t.players[a := t.players[a].(points := WrapInt(t.players[a].points + 1))], t.marked + {b})
  {
  }

  /** Such a cycle, in a round where all three are in the game, is won by the third. */
  lemma CycleRound(ps: seq<PlayerState>, extraOptions: bool)
    requires |ps| == 3 && InGame(ps[0]) && InGame(ps[1]) && InGame(ps[2])
    requires ps[0].choice.Some? && ps[1].choice.Some? && ps[2].choice.Some?
    requires Beats(ps[0], ps[1], extraOptions) && Beats(ps[2], ps[0], extraOptions)
    ensures var qs := Resolved(InRound(ps).(extraOptions := extraOptions));
      && qs[0].eliminated && qs[1].eliminated && !qs[2].eliminated
      && qs[0].points == WrapInt(ps[0].points + 1) && qs[1].points == ps[1].points
      && qs[2].points == WrapInt(ps[2].points + 1)
      && RoundEnd(InRound(ps).(extraOptions := extraOptions)).1 == Winner(ps[2].id)
  {
    var r := InRound(ps).(extraOptions := extraOptions);
    assert EliminateNonPickers(ps) == ps;
    CycleScored(ps, extraOptions);
    var qs := Resolved(r);
    assert qs[0].eliminated && qs[1].eliminated && !qs[2].eliminated;
    assert Survivors(qs) == 1 by {
      assert Survivors(qs[2..]) == 1;
      assert qs[1..][1..] == qs[2..];
    }
    assert FirstNotEliminated(qs) == Some(ps[2].id) by {
      assert FirstNotEliminated(qs[2..]) == Some(qs[2].id);
      assert qs[1..][1..] == qs[2..];
      assert qs[2].id == ps[2].id;
    }
  }

  /** Rock beats scissors and paper beats rock. */
  lemma RockScissorsPaperBeats()
    ensures Beats(Picker(1, "r"), Picker(2, "s"), false)
    ensures Beats(Picker(3, "p"), Picker(1, "r"), false)
    ensures Beats(Picker(2, "s"), Picker(3, "p"), false)
  {
  }

  /**
   * Rock (1), scissors (2), paper (3) in that order: rock beats scissors,
   * then paper beats rock, and the scissors pair is skipped. Paper wins; rock
   * and paper hold one point each.
   */
  lemma RockScissorsPaper()
    ensures var ps := [Picker(1, "r"), Picker(2, "s"), Picker(3, "p")];
      var qs := Resolved(InRound(ps));
      && qs[0].eliminated && qs[1].eliminated && !qs[2].eliminated
      && qs[0].points == 1 && qs[1].points == 0 && qs[2].points == 1
      && RoundEnd(InRound(ps)).1 == Winner(3)
  {
    var ps := [Picker(1, "r"), Picker(2, "s"), Picker(3, "p")];
    RockScissorsPaperBeats();
    CycleRound(ps, false);
    assert InRound(ps).(extraOptions := false) == InRound(ps);
  }

  /**
   * The same three choices in the order scissors (2), paper (3), rock (1):
   * scissors beats paper, rock beats scissors, and the paper pair is skipped.
   * Now rock wins: who survives depends on the roster order.
   */
  lemma OrderDecidesTheWinner()
    ensures RoundEnd(InRound([Picker(2, "s"), Picker(3, "p"), Picker(1, "r")])).1 == Winner(1)
    ensures RoundEnd(InRound([Picker(1, "r"), Picker(2, "s"), Picker(3, "p")])).1 == Winner(3)
  {
    RockScissorsPaper();
    var ps := [Picker(2, "s"), Picker(3, "p"), Picker(1, "r")];
    RockScissorsPaperBeats();
    CycleRound(ps, false);
    assert InRound(ps).(extraOptions := false) == InRound(ps);
  }

  /**
   * A spectator (7) first in the roster and two players, rock (1) and
   * scissors (2): rock is the one survivor, yet the announced winner is the
   * spectator, who is the first entry not eliminated.
   */
  lemma SpectatorAnnouncedAsWinner()
    ensures var ps := [Watcher(7), Picker(1, "r"), Picker(2, "s")];
      && Survivors(Resolved(InRound(ps))) == 1
      && !InGame(Resolved(InRound(ps))[0])
      && RoundEnd(InRound(ps)).1 == Winner(7)
  {
    var ps := [Watcher(7), Picker(1, "r"), Picker(2, "s")];
    assert EliminateNonPickers(ps) == ps;
    SpectatorRoundScored();
    var qs := Resolved(InRound(ps));
    assert qs == [Watcher(7), Picker(1, "r").(points := 1), Picker(2, "s").(eliminated := true)];
    assert Survivors(qs) == 1;
    assert FirstNotEliminated(qs) == Some(7);
  }

  /** Only the two players are compared: rock gains a point and scissors is marked. */
  lemma SpectatorRoundScored()
    ensures var ps := [Watcher(7), Picker(1, "r"), Picker(2, "s")];
      Scored(ps, false) == Tally(ps[1 := ps[1].(points := 1)], {2})
  {
    var ps := [Watcher(7), Picker(1, "r"), Picker(2, "s")];
    var act := ActiveIndices(ps, 0);
    assert act == [1, 2] by {
      assert ActiveIndices(ps, 3) == [];
      assert ActiveIndices(ps, 2) == [2];
      assert ActiveIndices(ps, 1) == [1, 2];
    }
    var t0 := Tally(ps, {});
    var t1 := Compare(t0, 1, 2, false);
    RockScissorsPaperBeats();
    DecisiveCompare(t0, 1, 2, false);
    assert t1 == Tally(ps[1 := ps[1].(points := 1)], {2});
    assert InnerFrom(t0, act, 0, 1, false) == t1;
    assert InnerFrom(t1, act, 1, 2, false) == t1;
  }
}
