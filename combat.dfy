/** The attack phase (faseDeAtaque): two IDs are read and screened by six
    checks in a fixed order, then one attacker die is compared with one
    defender die. The loser gives up one troop; a defender left with no troops
    is conquered, takes the attacker's colour and receives one troop from it. */
module Combat {
  import opened Territories

  /** What `scanf("%d", ...)` yields: an integer, or a token that is not one. */
  datatype Input = Number(value: int) | Malformed

  /** A face of a six-sided die, the range of simularDados. */
  type Die = d: int | 1 <= d <= 6 witness 1

  /** Why an attack was refused; each matches one message of faseDeAtaque. */
  datatype Rejection =
    | BadAttackerId       // attacker ID unreadable or outside 1..n
    | BadDefenderId       // defender ID unreadable or outside 1..n
    | SelfAttack          // a territory attacking itself
    | NotPlayersTerritory // attacker not of the player's colour
    | NoGarrisonToSpare   // attacker has one troop or fewer
    | FriendlyFire        // attacker and defender of the same colour

  /** The result of the screening. */
  datatype Verdict = Proceed | Refuse(reason: Rejection)

  /** How an attack ended; the messages printed are not modelled. */
  datatype Outcome = Rejected(reason: Rejection) | AttackerWon | Conquered | DefenderWon

  /** The outcome of an attack together with the map it leaves behind. */
  datatype Battle = Battle(outcome: Outcome, board: seq<Territory>)

  /** simularDados: `rand() % 6 + 1`, with the value of `rand()` (never
      negative in C) as the parameter. */
  function RollDie(r: nat): (d: Die)
    ensures (d - r - 1) % 6 == 0
  {
    r % 6 + 1
  }

  /** Every face of the die is rolled by some value of `rand()`. */
  lemma EveryFaceRolls(d: Die)
    ensures exists r: nat :: RollDie(r) == d
  {
    assert RollDie(d - 1) == d;
  }

  /** A 1-based ID that was read and lies within the map. */
  predicate ValidId(id: Input, n: int)
  {
    id.Number? && 1 <= id.value <= n
  }

  /** All five conditions under which the attack goes ahead: both IDs valid,
      distinct, an attacker of the player's colour with at least two troops,
      and a defender of another colour. */
  predicate Admissible(b: seq<Territory>, attacker: Input, defender: Input, player: string)
    ensures Admissible(b, attacker, defender, player) ==>
              attacker.Number? && defender.Number?
              && 0 <= attacker.value - 1 < |b| && 0 <= defender.value - 1 < |b|
              && attacker.value != defender.value && b[attacker.value - 1].color == player
              && b[defender.value - 1].color != player
  {
    ValidId(attacker, |b|) && ValidId(defender, |b|) && attacker.value != defender.value
    && b[attacker.value - 1].color == player
    && b[attacker.value - 1].troops > 1
    && b[attacker.value - 1].color != b[defender.value - 1].color
  }

  /** The checks of faseDeAtaque in the order it runs them; the first that
      fails decides the reason. */
  function Screen(b: seq<Territory>, attacker: Input, defender: Input, player: string): (v: Verdict)
    ensures v.Proceed? <==> Admissible(b, attacker, defender, player)
    ensures v == Refuse(BadAttackerId) <==> !ValidId(attacker, |b|)
    ensures v == Refuse(BadDefenderId) <==> ValidId(attacker, |b|) && !ValidId(defender, |b|)
    ensures v == Refuse(SelfAttack) <==>
              ValidId(attacker, |b|) && ValidId(defender, |b|) && attacker.value == defender.value
    ensures v == Refuse(NotPlayersTerritory) <==>
              ValidId(attacker, |b|) && ValidId(defender, |b|) && attacker.value != defender.value
              && b[attacker.value - 1].color != player
    ensures v == Refuse(NoGarrisonToSpare) <==>
              ValidId(attacker, |b|) && ValidId(defender, |b|) && attacker.value != defender.value
              && b[attacker.value - 1].color == player && b[attacker.value - 1].troops <= 1
    ensures v == Refuse(FriendlyFire) <==>
              ValidId(attacker, |b|) && ValidId(defender, |b|) && attacker.value != defender.value
              && b[attacker.value - 1].color == player && b[attacker.value - 1].troops > 1
              && b[attacker.value - 1].color == b[defender.value - 1].color
  {
    if !ValidId(attacker, |b|) then Refuse(BadAttackerId)
    else if !ValidId(defender, |b|) then Refuse(BadDefenderId)
    else if attacker.value == defender.value then Refuse(SelfAttack)
    else if b[attacker.value - 1].color != player then Refuse(NotPlayersTerritory)
    else if b[attacker.value - 1].troops <= 1 then Refuse(NoGarrisonToSpare)
    else if b[attacker.value - 1].color == b[defender.value - 1].color then Refuse(FriendlyFire)
    else Proceed
  }

  /** The whole attack on a map given as a value: screening, then the dice
      (ties favour the attacker), then a conquest when the defender is left
      with no troops. */
  function ResolveAttack(b: seq<Territory>, attacker: Input, defender: Input, player: string,
                         attackerDie: Die, defenderDie: Die): (r: Battle)
    ensures |r.board| == |b|
    ensures forall k :: 0 <= k < |b| ==> r.board[k].name == b[k].name
  {
    match Screen(b, attacker, defender, player)
    case Refuse(reason) => Battle(Rejected(reason), b)
    case Proceed =>
      var i, j := attacker.value - 1, defender.value - 1;
      if attackerDie >= defenderDie then
        if b[j].troops - 1 == 0 then
          Battle(Conquered, b[i := b[i].(troops := b[i].troops - 1)]
                             [j := b[j].(color := b[i].color, troops := 1)])
        else
          Battle(AttackerWon, b[j := b[j].(troops := b[j].troops - 1)])
      else
        Battle(DefenderWon, b[i := b[i].(troops := b[i].troops - 1)])
  }

  /** faseDeAtaque on the caller's array, with the two IDs already read and
      the two dice already rolled. */
  method Attack(board: array<Territory>, attacker: Input, defender: Input, player: string,
                attackerDie: Die, defenderDie: Die)
    returns (outcome: Outcome)
    modifies board
    ensures Battle(outcome, board[..])
            == ResolveAttack(old(board[..]), attacker, defender, player, attackerDie, defenderDie)
  {
    if !ValidId(attacker, board.Length) {
      return Rejected(BadAttackerId);
    }
    if !ValidId(defender, board.Length) {
      return Rejected(BadDefenderId);
    }
    var i, j := attacker.value - 1, defender.value - 1;
    if i == j {
      return Rejected(SelfAttack);
    }
    if board[i].color != player {
      return Rejected(NotPlayersTerritory);
    }
    if board[i].troops <= 1 {
      return Rejected(NoGarrisonToSpare);
    }
    if board[i].color == board[j].color {
      return Rejected(FriendlyFire);
    }
    if attackerDie >= defenderDie {
      board[j] := board[j].(troops := board[j].troops - 1);
      if board[j].troops == 0 {
        board[j] := board[j].(color := board[i].color);
        board[i] := board[i].(troops := board[i].troops - 1);
        board[j] := board[j].(troops := board[j].troops + 1);
        outcome := Conquered;
      } else {
        outcome := AttackerWon;
      }
    } else {
      board[i] := board[i].(troops := board[i].troops - 1);
      outcome := DefenderWon;
    }
  }

  /** An attack is refused exactly when one of the five conditions fails,
      and a refused attack leaves the map as it was. */
  lemma RejectionLeavesMapUnchanged(b: seq<Territory>, attacker: Input, defender: Input,
                                    player: string, attackerDie: Die, defenderDie: Die)
    ensures ResolveAttack(b, attacker, defender, player, attackerDie, defenderDie).outcome.Rejected?
            <==> !Admissible(b, attacker, defender, player)
    ensures ResolveAttack(b, attacker, defender, player, attackerDie, defenderDie).outcome.Rejected?
            ==> ResolveAttack(b, attacker, defender, player, attackerDie, defenderDie).board == b
  {
  }

  /** A winning attacker die (a tie included) costs the defender exactly one
      troop and leaves the attacker alone, unless the defender is left with
      none: then it is conquered, takes the attacker's colour and holds one
      troop, moved from the attacker. */
  lemma AttackerWinsRoll(b: seq<Territory>, attacker: Input, defender: Input,
                         player: string, attackerDie: Die, defenderDie: Die)
    requires Admissible(b, attacker, defender, player)
    requires attackerDie >= defenderDie
    ensures var r := ResolveAttack(b, attacker, defender, player, attackerDie, defenderDie);
            var i, j := attacker.value - 1, defender.value - 1;
            if b[j].troops == 1 then
              r.outcome == Conquered
              && r.board[j] == Territory(b[j].name, b[i].color, 1)
              && r.board[j].color == player
              && r.board[i] == b[i].(troops := b[i].troops - 1)
            else
              r.outcome == AttackerWon
              && r.board[j] == b[j].(troops := b[j].troops - 1)
              && r.board[i] == b[i]
  {
  }

  /** A higher defender die costs the attacker exactly one troop and leaves
      the defender alone. */
  lemma DefenderWinsRoll(b: seq<Territory>, attacker: Input, defender: Input,
                         player: string, attackerDie: Die, defenderDie: Die)
    requires Admissible(b, attacker, defender, player)
    requires defenderDie > attackerDie
    ensures var r := ResolveAttack(b, attacker, defender, player, attackerDie, defenderDie);
            var i, j := attacker.value - 1, defender.value - 1;
            r.outcome == DefenderWon
            && r.board[i] == b[i].(troops := b[i].troops - 1)
            && r.board[j] == b[j]
  {
  }

  /** Only the attacker's and the defender's slots may change. */
  lemma OnlyCombatantsChange(b: seq<Territory>, attacker: Input, defender: Input,
                             player: string, attackerDie: Die, defenderDie: Die, k: int)
    requires 0 <= k < |b|
    requires ResolveAttack(b, attacker, defender, player, attackerDie, defenderDie).board[k] != b[k]
    ensures Admissible(b, attacker, defender, player)
    ensures k == attacker.value - 1 || k == defender.value - 1
  {
  }

  /** Every attack that goes ahead removes exactly one troop from the map. */
  lemma AttackCostsOneTroop(b: seq<Territory>, attacker: Input, defender: Input,
                            player: string, attackerDie: Die, defenderDie: Die)
    requires Admissible(b, attacker, defender, player)
    ensures TotalTroops(ResolveAttack(b, attacker, defender, player, attackerDie, defenderDie).board)
            == TotalTroops(b) - 1
  {
    var r := ResolveAttack(b, attacker, defender, player, attackerDie, defenderDie);
    var i, j := attacker.value - 1, defender.value - 1;
    var ti := b[i].(troops := b[i].troops - 1);
    if attackerDie >= defenderDie {
      if b[j].troops - 1 == 0 {
        var tj := b[j].(color := b[i].color, troops := 1);
        assert r.board == b[i := ti][j := tj];
        TotalUpdate(b, i, ti);
        TotalUpdate(b[i := ti], j, tj);
      } else {
        var tj := b[j].(troops := b[j].troops - 1);
        assert r.board == b[j := tj];
        TotalUpdate(b, j, tj);
      }
    } else {
      assert r.board == b[i := ti];
      TotalUpdate(b, i, ti);
    }
  }

  /** No attack leaves a territory without troops on a map where every
      territory had at least one: the attacker had at least two, and a
      conquered defender receives one. */
  lemma AttackKeepsGarrisons(b: seq<Territory>, attacker: Input, defender: Input,
                             player: string, attackerDie: Die, defenderDie: Die)
    requires Garrisoned(b)
    ensures Garrisoned(ResolveAttack(b, attacker, defender, player, attackerDie, defenderDie).board)
  {
    var r := ResolveAttack(b, attacker, defender, player, attackerDie, defenderDie);
    forall k | 0 <= k < |b|
      ensures r.board[k].troops >= 1
    {
      if r.board[k] != b[k] {
        OnlyCombatantsChange(b, attacker, defender, player, attackerDie, defenderDie, k);
      }
    }
  }

  /** A conquest turns a territory of another colour into one of the
      player's and is the only way the map changes hands, so the player's
      tally grows by one on a conquest and stays put otherwise, and no other
      colour's tally ever grows. */
  lemma ConquestOnlyGainsForPlayer(b: seq<Territory>, attacker: Input, defender: Input,
                                   player: string, attackerDie: Die, defenderDie: Die, c: string)
    ensures var r := ResolveAttack(b, attacker, defender, player, attackerDie, defenderDie);
            CountColor(r.board, player)
            == CountColor(b, player) + (if r.outcome == Conquered then 1 else 0)
    ensures var r := ResolveAttack(b, attacker, defender, player, attackerDie, defenderDie);
            c != player ==> CountColor(r.board, c) <= CountColor(b, c)
  {
    var r := ResolveAttack(b, attacker, defender, player, attackerDie, defenderDie);
    if Admissible(b, attacker, defender, player) {
      var i, j := attacker.value - 1, defender.value - 1;
      var ti := b[i].(troops := b[i].troops - 1);
      if attackerDie >= defenderDie {
        if b[j].troops - 1 == 0 {
          var tj := b[j].(color := b[i].color, troops := 1);
          CountUpdate(b, i, ti, player);
          CountUpdate(b[i := ti], j, tj, player);
          CountUpdate(b, i, ti, c);
          CountUpdate(b[i := ti], j, tj, c);
        } else {
          CountUpdate(b, j, b[j].(troops := b[j].troops - 1), player);
          CountUpdate(b, j, b[j].(troops := b[j].troops - 1), c);
        }
      } else {
        CountUpdate(b, i, ti, player);
        CountUpdate(b, i, ti, c);
      }
    }
  }
}
