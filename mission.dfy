/** The secret mission (sortearMissao, verificarVitoria): destroy the target
    colour, or hold at least three territories. */
module Mission {
  import opened Territories

  /** MISSAO_DESTRUIR_VERDE: no territory of the target colour is left. */
  const DestroyTarget: int := 0
  /** MISSAO_CONQUISTAR_TRES: the player holds three territories or more. */
  const ConquerThree: int := 1
  /** NUM_MISSOES. */
  const MissionCount: int := 2

  /** Territories the conquer mission asks for. */
  const TerritoriesToConquer: nat := 3

  /** sortearMissao: `rand() % NUM_MISSOES`, with the value of `rand()` (never
      negative in C) as the parameter. */
  function DrawMission(r: nat): (m: int)
    ensures m == DestroyTarget || m == ConquerThree
  {
    r % MissionCount
  }

  /** What verificarVitoria returns for map `b`; any mission ID other than
      the two known ones is never accomplished. */
  function Accomplished(b: seq<Territory>, mission: int, player: string, target: string): bool
    ensures Accomplished(b, mission, player, target) ==>
              mission == DestroyTarget || mission == ConquerThree
  {
    if mission == DestroyTarget then CountColor(b, target) == 0
    else if mission == ConquerThree then CountColor(b, player) >= TerritoriesToConquer
    else false
  }

  /** The two missions and the default case, stated on the map itself. */
  lemma MissionCases(b: seq<Territory>, mission: int, player: string, target: string)
    ensures mission == DestroyTarget ==>
              (Accomplished(b, mission, player, target)
               <==> forall k :: 0 <= k < |b| ==> b[k].color != target)
    ensures mission == ConquerThree ==>
              (Accomplished(b, mission, player, target)
               <==> |set k | 0 <= k < |b| && b[k].color == player| >= TerritoriesToConquer)
    ensures mission != DestroyTarget && mission != ConquerThree ==>
              !Accomplished(b, mission, player, target)
  {
    CountZeroIff(b, target);
    CountIsHolding(b, player);
  }

  /** The conquer mission, once met, stays met on every map of the same size
      that keeps the player's territories the player's. */
  lemma ConquerThreeMonotone(b: seq<Territory>, b': seq<Territory>, player: string, target: string)
    requires |b| == |b'|
    requires forall k :: 0 <= k < |b| && b[k].color == player ==> b'[k].color == player
    requires Accomplished(b, ConquerThree, player, target)
    ensures Accomplished(b', ConquerThree, player, target)
  {
    CountMonotone(b, b', player);
  }

  /** verificarVitoria: one pass over the read-only map that counts the
      player's territories and notes whether the target colour survives. */
  method CheckMission(board: array<Territory>, mission: int, player: string, target: string)
    returns (accomplished: bool)
    ensures accomplished == Accomplished(board[..], mission, player, target)
  {
    var playerCount := 0;
    var targetDestroyed := true;
    for i := 0 to board.Length
      invariant playerCount == CountColor(board[..i], player)
      invariant targetDestroyed == (CountColor(board[..i], target) == 0)
    {
      assert board[..i + 1][..i] == board[..i];
      if board[i].color == player {
        playerCount := playerCount + 1;
      }
      if board[i].color == target {
        targetDestroyed := false;
      }
    }
    assert board[..board.Length] == board[..];
    if mission == DestroyTarget {
      accomplished := targetDestroyed;
    } else if mission == ConquerThree {
      accomplished := playerCount >= TerritoriesToConquer;
    } else {
      accomplished := false;
    }
  }
}
