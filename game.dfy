/** The game loop of `main`: each turn reads one menu choice and either
    attacks, checks the mission, exits, or does nothing. A mission found
    accomplished sets the victory flag, which ends the loop. Standard input is
    modelled as a finite script of turns. */
module Game {
  import opened Territories
  import opened Combat
  import opened Mission

  /** OPCAO_SAIR, OPCAO_ATACAR, OPCAO_VERIFICAR_MISSAO. */
  const ChoiceExit: int := 0
  const ChoiceAttack: int := 1
  const ChoiceCheckMission: int := 2

  /** What one iteration of the loop consumes: the menu choice and, when
      that choice is an attack, the two IDs read by faseDeAtaque and the two
      dice it rolls (ignored for any other choice). */
  datatype Turn = Turn(choice: Input, attacker: Input, defender: Input,
                       attackerDie: Die, defenderDie: Die)

  /** The map after one iteration, the victory flag, and whether the loop
      condition `escolha != OPCAO_SAIR` now fails. */
  datatype After = After(board: seq<Territory>, won: bool, exit: bool)

  /** Where a script of turns leaves the game: the map, the victory flag,
      how many turns were consumed, and whether the loop ended. */
  datatype Session = Session(board: seq<Territory>, won: bool, played: nat, exited: bool)

  /** One iteration of the loop, entered while the victory flag is clear. A
      malformed choice keeps the game running (RunAsWritten shows what the
      loop does as written when the very first choice is malformed). */
  function Step(b: seq<Territory>, mission: int, t: Turn): (r: After)
    ensures |r.board| == |b|
    ensures r.won ==> r.exit && Accomplished(r.board, mission, PlayerColor, TargetColor)
    ensures r.exit <==> r.won || t.choice == Number(ChoiceExit)
    ensures t.choice != Number(ChoiceAttack) ==> r.board == b
    ensures t.choice == Number(ChoiceCheckMission) ==>
              (r.won <==> Accomplished(b, mission, PlayerColor, TargetColor))
    ensures t.choice != Number(ChoiceCheckMission) ==> !r.won
  {
    match t.choice
    case Malformed => After(b, false, false)
    case Number(n) =>
      if n == ChoiceAttack then
        var battle := ResolveAttack(b, t.attacker, t.defender, PlayerColor,
                                    t.attackerDie, t.defenderDie);
        After(battle.board, false, false)
      else if n == ChoiceCheckMission then
        var won := Accomplished(b, mission, PlayerColor, TargetColor);
        After(b, won, won)
      else
        After(b, false, n == ChoiceExit)
  }

  /** `r` with `n` more turns counted as consumed. */
  function Later(r: Session, n: nat): Session
  {
    r.(played := r.played + n)
  }

  /** The loop run over a script of turns from map `b`, stopping at the
      first turn after which the loop condition fails or when the script
      runs out. */
  function Run(b: seq<Territory>, mission: int, turns: seq<Turn>): (r: Session)
    ensures |r.board| == |b|
    ensures r.played <= |turns|
    ensures !r.exited ==> r.played == |turns| && !r.won
    ensures r.exited ==> r.played >= 1
    decreases |turns|
  {
    if |turns| == 0 then Session(b, false, 0, false)
    else
      var s := Step(b, mission, turns[0]);
      if s.exit then Session(s.board, s.won, 1, true)
      else Later(Run(s.board, mission, turns[1..]), 1)
  }

  /** The do-while loop of `main` on the caller's array, consuming the
      turns of the script in order. */
  method GameLoop(board: array<Territory>, mission: int, turns: seq<Turn>)
    returns (won: bool, played: nat, exited: bool)
    modifies board
    ensures Session(board[..], won, played, exited) == Run(old(board[..]), mission, turns)
  {
    ghost var start := board[..];
    won, played, exited := false, 0, false;
    while !exited && played < |turns|
      invariant played <= |turns|
      invariant exited ==> Run(start, mission, turns) == Session(board[..], won, played, true)
      invariant !exited ==>
                  !won && Run(start, mission, turns) == Later(Run(board[..], mission, turns[played..]), played)
      decreases |turns| - played
    {
      var t := turns[played];
      ghost var before := board[..];
      match t.choice {
        case Malformed =>
        case Number(n) =>
          if n == ChoiceAttack {
            var outcome := Attack(board, t.attacker, t.defender, PlayerColor,
                                  t.attackerDie, t.defenderDie);
          } else if n == ChoiceCheckMission {
            var accomplished := CheckMission(board, mission, PlayerColor, TargetColor);
            if accomplished {
              won := true;
            }
          }
          exited := won || n == ChoiceExit;
      }
      assert turns[played..][0] == t && turns[played..][1..] == turns[played + 1..];
      assert After(board[..], won, exited) == Step(before, mission, t);
      played := played + 1;
    }
  }

  /** `main` after the allocation: seed the map, draw the mission from the
      given value of `rand()`, and run the loop. */
  method PlayGame(board: array<Territory>, missionDraw: nat, turns: seq<Turn>)
    returns (mission: int, won: bool, played: nat, exited: bool)
    requires board.Length == MaxTerritories
    modifies board
    ensures mission == DrawMission(missionDraw)
    ensures Session(board[..], won, played, exited) == Run(SeedMap(), mission, turns)
  {
    InitializeMap(board);
    assert board[..] == board[..MaxTerritories];
    mission := DrawMission(missionDraw);
    won, played, exited := GameLoop(board, mission, turns);
  }

  /** One turn keeps every territory garrisoned and never adds troops. */
  lemma StepKeepsGarrisons(b: seq<Territory>, mission: int, t: Turn)
    requires Garrisoned(b)
    ensures Garrisoned(Step(b, mission, t).board)
    ensures TotalTroops(Step(b, mission, t).board) <= TotalTroops(b)
  {
    if t.choice == Number(ChoiceAttack) {
      AttackKeepsGarrisons(b, t.attacker, t.defender, PlayerColor, t.attackerDie, t.defenderDie);
      if Admissible(b, t.attacker, t.defender, PlayerColor) {
        AttackCostsOneTroop(b, t.attacker, t.defender, PlayerColor, t.attackerDie, t.defenderDie);
      }
    }
  }

  /** A whole script keeps every territory garrisoned and never adds troops. */
  lemma {:induction false} RunKeepsGarrisons(b: seq<Territory>, mission: int, turns: seq<Turn>)
    requires Garrisoned(b)
    ensures Garrisoned(Run(b, mission, turns).board)
    ensures TotalTroops(Run(b, mission, turns).board) <= TotalTroops(b)
    decreases |turns|
  {
    if |turns| > 0 {
      var s := Step(b, mission, turns[0]);
      StepKeepsGarrisons(b, mission, turns[0]);
      if !s.exit {
        RunKeepsGarrisons(s.board, mission, turns[1..]);
      }
    }
  }

  /** From the seed map, every territory holds between 1 and 9 troops
      whatever the player does, so the C `int` troop counts never overflow. */
  lemma ReachableTroopsFitInt32(mission: int, turns: seq<Turn>)
    ensures var r := Run(SeedMap(), mission, turns);
            |r.board| == MaxTerritories
            && forall k :: 0 <= k < |r.board| ==> 1 <= r.board[k].troops <= 9 < Int32Max
  {
    SeedFacts();
    var r := Run(SeedMap(), mission, turns);
    RunKeepsGarrisons(SeedMap(), mission, turns);
    forall k | 0 <= k < |r.board|
      ensures 1 <= r.board[k].troops <= 9
    {
      TroopsBelowTotal(r.board, k);
    }
  }

  /** One turn never takes a territory away from the player. */
  lemma StepNeverLosesTerritory(b: seq<Territory>, mission: int, t: Turn)
    ensures CountColor(Step(b, mission, t).board, PlayerColor) >= CountColor(b, PlayerColor)
  {
    if t.choice == Number(ChoiceAttack) {
      ConquestOnlyGainsForPlayer(b, t.attacker, t.defender, PlayerColor,
                                 t.attackerDie, t.defenderDie, TargetColor);
    }
  }

  /** An accomplished mission stays accomplished after any turn. */
  lemma StepKeepsMission(b: seq<Territory>, mission: int, t: Turn)
    requires Accomplished(b, mission, PlayerColor, TargetColor)
    ensures Accomplished(Step(b, mission, t).board, mission, PlayerColor, TargetColor)
  {
    if t.choice == Number(ChoiceAttack) {
      ConquestOnlyGainsForPlayer(b, t.attacker, t.defender, PlayerColor,
                                 t.attackerDie, t.defenderDie, TargetColor);
    }
  }

  /** Over a whole script the player's tally never goes down. */
  lemma {:induction false} RunNeverLosesTerritory(b: seq<Territory>, mission: int, turns: seq<Turn>)
    ensures CountColor(Run(b, mission, turns).board, PlayerColor) >= CountColor(b, PlayerColor)
    decreases |turns|
  {
    if |turns| > 0 {
      var s := Step(b, mission, turns[0]);
      StepNeverLosesTerritory(b, mission, turns[0]);
      if !s.exit {
        RunNeverLosesTerritory(s.board, mission, turns[1..]);
      }
    }
  }

  /** Over a whole script an accomplished mission stays accomplished. */
  lemma {:induction false} RunKeepsMission(b: seq<Territory>, mission: int, turns: seq<Turn>)
    requires Accomplished(b, mission, PlayerColor, TargetColor)
    ensures Accomplished(Run(b, mission, turns).board, mission, PlayerColor, TargetColor)
    decreases |turns|
  {
    if |turns| > 0 {
      var s := Step(b, mission, turns[0]);
      StepKeepsMission(b, mission, turns[0]);
      if !s.exit {
        RunKeepsMission(s.board, mission, turns[1..]);
      }
    }
  }

  /** The game is won only by a mission check that found the mission
      accomplished, and winning ends the loop at once: the turn that won is
      the last one consumed, and the map is the one the check saw. */
  lemma {:induction false} RunWinsOnlyWhenAccomplished(b: seq<Territory>, mission: int, turns: seq<Turn>)
    ensures var r := Run(b, mission, turns);
            r.won ==> r.exited
                      && turns[r.played - 1].choice == Number(ChoiceCheckMission)
                      && Accomplished(r.board, mission, PlayerColor, TargetColor)
    decreases |turns|
  {
    if |turns| > 0 {
      var s := Step(b, mission, turns[0]);
      if !s.exit {
        RunWinsOnlyWhenAccomplished(s.board, mission, turns[1..]);
        var r := Run(s.board, mission, turns[1..]);
        if r.won {
          assert turns[1..][r.played - 1] == turns[r.played];
        }
      }
    }
  }

  /** A mission check on an accomplished map wins the game and ends the
      loop at once, on that very turn and with the map as it was. */
  lemma CheckOnAccomplishedMissionWins(b: seq<Territory>, mission: int, turns: seq<Turn>)
    requires |turns| > 0 && turns[0].choice == Number(ChoiceCheckMission)
    requires Accomplished(b, mission, PlayerColor, TargetColor)
    ensures Run(b, mission, turns) == Session(b, true, 1, true)
  {
  }

  /** The value of `escolha` when the loop condition is evaluated: either
      the last choice scanf assigned to it, or still unassigned. */
  datatype Slot = Unset | Holds(n: int)

  /** The loop of `main` as written: `escolha` is the value scanf last
      stored. After a malformed choice scanf leaves `escolha` untouched and
      `continue` goes straight to the loop condition, which reads that
      variable; before any choice was ever read it is uninitialised and
      holds whatever `indeterminate` is. A well-formed choice behaves as in
      Step. */
  function RunAsWritten(b: seq<Territory>, mission: int, turns: seq<Turn>,
                        escolha: Slot, indeterminate: int): (r: Session)
    ensures |r.board| == |b|
    ensures r.played <= |turns|
    ensures !r.exited ==> r.played == |turns| && !r.won
    decreases |turns|
  {
    if |turns| == 0 then Session(b, false, 0, false)
    else
      match turns[0].choice
      case Malformed =>
        var read := if escolha.Holds? then escolha.n else indeterminate;
        if read == ChoiceExit then Session(b, false, 1, true)
        else Later(RunAsWritten(b, mission, turns[1..], escolha, indeterminate), 1)
      case Number(n) =>
        var s := Step(b, mission, turns[0]);
        if s.exit then Session(s.board, s.won, 1, true)
        else Later(RunAsWritten(s.board, mission, turns[1..], Holds(n), indeterminate), 1)
  }

  /** The loop as written agrees with Run whenever the uninitialised
      `escolha` is never read as 0: once a non-zero choice was stored, or
      from the start when the first choice is well-formed or the
      indeterminate value is not 0. */
  lemma {:induction false} AsWrittenAgreesWithRun(b: seq<Territory>, mission: int, turns: seq<Turn>,
                                                  escolha: Slot, indeterminate: int)
    requires escolha.Holds? ==> escolha.n != ChoiceExit
    requires escolha == Unset ==>
               indeterminate != ChoiceExit || |turns| == 0 || turns[0].choice.Number?
    ensures RunAsWritten(b, mission, turns, escolha, indeterminate) == Run(b, mission, turns)
    decreases |turns|
  {
    if |turns| > 0 {
      var s := Step(b, mission, turns[0]);
      match turns[0].choice
      case Malformed =>
        AsWrittenAgreesWithRun(b, mission, turns[1..], escolha, indeterminate);
      case Number(n) =>
        if !s.exit {
          AsWrittenAgreesWithRun(s.board, mission, turns[1..], Holds(n), indeterminate);
        }
    }
  }

  /** A malformed very first choice ends the game as written when the
      uninitialised `escolha` happens to hold 0, while the intended loop
      (Run) keeps running past it with the map untouched. */
  lemma MalformedFirstChoiceMayStop(b: seq<Territory>, mission: int, t: Turn, rest: seq<Turn>)
    requires t.choice == Malformed
    ensures RunAsWritten(b, mission, [t] + rest, Unset, 0) == Session(b, false, 1, true)
    ensures Run(b, mission, [t] + rest) == Later(Run(b, mission, rest), 1)
    ensures Run(b, mission, [t]) == Session(b, false, 1, false)
  {
    assert ([t] + rest)[0] == t && ([t] + rest)[1..] == rest;
  }

  /** Attack Alaska (ID 1) against Mexico (ID 2) on the seed map with dice 4
      and 2: Mexico falls to Azul and holds one troop, Alaska keeps one. */
  lemma ScenarioAlaskaTakesMexico()
    ensures ResolveAttack(SeedMap(), Number(1), Number(2), PlayerColor, 4, 2)
            == Battle(Conquered, SeedMap()[0 := Territory("Alaska", "Azul", 1)]
                                          [1 := Territory("Mexico", "Azul", 1)])
  {
    assert PlayerColor != "Vermelho";
  }

  /** Japao (ID 4) has a single troop and cannot attack Brasil (ID 3),
      whatever the dice. */
  lemma ScenarioJapaoCannotAttack(d1: Die, d2: Die)
    ensures ResolveAttack(SeedMap(), Number(4), Number(3), PlayerColor, d1, d2)
            == Battle(Rejected(NoGarrisonToSpare), SeedMap())
  {
  }

  /** On the seed map neither mission is accomplished yet: Brasil is still
      Verde, and Azul holds only two territories. */
  lemma ScenarioSeedNotWon()
    ensures !Accomplished(SeedMap(), DestroyTarget, PlayerColor, TargetColor)
    ensures !Accomplished(SeedMap(), ConquerThree, PlayerColor, TargetColor)
  {
    SeedFacts();
  }

  /** From the seed map, Alaska (ID 1) attacks Brasil (ID 3) three times
      with dice 6 against 1. Brasil loses a troop each time and falls to Azul
      on the third attack, taking one troop from Alaska. No Verde territory
      is left, so the check after that wins the destroy mission on the
      fourth turn, whatever input follows. */
  lemma ScenarioBrasilFallsAndWins(chk: Turn, rest: seq<Turn>)
    requires chk.choice == Number(ChoiceCheckMission)
    ensures var atk := Turn(Number(ChoiceAttack), Number(1), Number(3), 6, 1);
            var final := SeedMap()[0 := Territory("Alaska", PlayerColor, 1)]
                                  [2 := Territory("Brasil", PlayerColor, 1)];
            Run(SeedMap(), DestroyTarget, [atk, atk, atk, chk] + rest)
            == Session(final, true, 4, true)
  {
    var atk := Turn(Number(ChoiceAttack), Number(1), Number(3), 6, 1);
    var turns := [atk, atk, atk, chk] + rest;
    assert PlayerColor != TargetColor && TargetColor != "Vermelho";
    var b0 := SeedMap();
    var b1 := b0[2 := Territory("Brasil", TargetColor, 2)];
    var b2 := b0[2 := Territory("Brasil", TargetColor, 1)];
    var b3 := b0[0 := Territory("Alaska", PlayerColor, 1)][2 := Territory("Brasil", PlayerColor, 1)];
    assert Step(b0, DestroyTarget, atk) == After(b1, false, false);
    assert Step(b1, DestroyTarget, atk) == After(b2, false, false);
    assert Step(b2, DestroyTarget, atk) == After(b3, false, false);
    CountZeroIff(b3, TargetColor);
    assert Step(b3, DestroyTarget, chk) == After(b3, true, true);
    assert turns[0] == atk && turns[1..][0] == atk && turns[1..][1..][0] == atk;
    assert turns[1..][1..][1..][0] == chk;
    assert Run(b3, DestroyTarget, turns[1..][1..][1..]) == Session(b3, true, 1, true);
    assert Run(b2, DestroyTarget, turns[1..][1..]) == Session(b3, true, 2, true);
    assert Run(b1, DestroyTarget, turns[1..]) == Session(b3, true, 3, true);
  }
}
