/** The map of the game: territory records, the fixed seed map, and the two
    tallies the rules speak of (troops on the whole map, territories held by
    one colour). */
module Territories {

  /** Number of territories on the map (MAX_TERRITORIOS). */
  const MaxTerritories: nat := 5

  /** Colour of the human player's army (COR_JOGADOR). */
  const PlayerColor: string := "Azul"

  /** Colour the destroy mission targets (COR_DESTRUIR). */
  const TargetColor: string := "Verde"

  /** Largest value of a 32-bit C `int`, the type of a troop count. */
  const Int32Max: int := 0x7fff_ffff

  /** One territory record (struct Territorio). The troop count is an
      unbounded integer here; Game.ReachableTroopsFitInt32 shows that no
      reachable count comes near the range of a C `int`. */
  datatype Territory = Territory(name: string, color: string, troops: int)

  /** The map as seeded by inicializarTerritoriosAutomatica, ID 1 first. */
  function SeedMap(): (s: seq<Territory>)
    ensures |s| == MaxTerritories
    ensures forall k :: 0 <= k < |s| ==> s[k].troops >= 1
  {
    [ Territory("Alaska", PlayerColor, 2),
      Territory("Mexico", "Vermelho", 1),
      Territory("Brasil", TargetColor, 3),
      Territory("Japao", PlayerColor, 1),
      Territory("Italia", "Vermelho", 2) ]
  }

  /** Every territory keeps at least one troop. */
  predicate Garrisoned(s: seq<Territory>)
  {
    forall k :: 0 <= k < |s| ==> s[k].troops >= 1
  }

  /** Sum of the troop counts of all territories. */
  function TotalTroops(s: seq<Territory>): int
  {
    if |s| == 0 then 0 else TotalTroops(s[..|s| - 1]) + s[|s| - 1].troops
  }

  /** Number of territories whose army has colour `c`. */
  function CountColor(s: seq<Territory>, c: string): nat
  {
    if |s| == 0 then 0
    else CountColor(s[..|s| - 1], c) + Held(s[|s| - 1], c)
  }

  /** 1 when `t` is held by colour `c`, else 0. */
  function Held(t: Territory, c: string): nat
  {
    if t.color == c then 1 else 0
  }

  /** Writes the seed map into the first five slots of `board`
      (inicializarTerritoriosAutomatica); the function ignores its size
      argument, so any further slots are left as they were. */
  method InitializeMap(board: array<Territory>)
    requires board.Length >= MaxTerritories
    modifies board
    ensures board[..MaxTerritories] == SeedMap()
    ensures forall k :: MaxTerritories <= k < board.Length ==> board[k] == old(board[k])
  {
    board[0] := Territory("Alaska", PlayerColor, 2);
    board[1] := Territory("Mexico", "Vermelho", 1);
    board[2] := Territory("Brasil", TargetColor, 3);
    board[3] := Territory("Japao", PlayerColor, 1);
    board[4] := Territory("Italia", "Vermelho", 2);
  }

  /** The seed map has five garrisoned territories, nine troops in all,
      two of them the player's and one of them the target colour's. */
  lemma SeedFacts()
    ensures |SeedMap()| == MaxTerritories
    ensures Garrisoned(SeedMap())
    ensures TotalTroops(SeedMap()) == 9
    ensures CountColor(SeedMap(), PlayerColor) == 2
    ensures CountColor(SeedMap(), TargetColor) == 1
  {
    var s := SeedMap();
    assert PlayerColor != "Vermelho" && PlayerColor != TargetColor && TargetColor != "Vermelho";
    var p1, p2, p3, p4 := s[..1], s[..2], s[..3], s[..4];
    assert p1[..0] == [];
    assert p2[..1] == p1;
    assert p3[..2] == p2;
    assert p4[..3] == p3;
    assert p1[0] == s[0] && p2[1] == s[1] && p3[2] == s[2] && p4[3] == s[3];
    assert TotalTroops(p1) == 2;
    assert TotalTroops(p2) == TotalTroops(p1) + s[1].troops;
    assert TotalTroops(p3) == TotalTroops(p2) + s[2].troops;
    assert TotalTroops(p4) == TotalTroops(p3) + s[3].troops;
    assert TotalTroops(s) == TotalTroops(p4) + s[4].troops;
    forall c | c == PlayerColor || c == TargetColor
      ensures CountColor(s, c) == Held(s[0], c) + Held(s[1], c) + Held(s[2], c) + Held(s[3], c) + Held(s[4], c)
    {
      assert CountColor(p1, c) == Held(s[0], c);
      assert CountColor(p2, c) == CountColor(p1, c) + Held(s[1], c);
      assert CountColor(p3, c) == CountColor(p2, c) + Held(s[2], c);
      assert CountColor(p4, c) == CountColor(p3, c) + Held(s[3], c);
    }
  }

  /** Replacing one territory changes the total by the difference of the
      two troop counts. */
  lemma {:induction false} TotalUpdate(s: seq<Territory>, k: int, t: Territory)
    requires 0 <= k < |s|
    ensures TotalTroops(s[k := t]) == TotalTroops(s) - s[k].troops + t.troops
  {
    var n := |s| - 1;
    if k < n {
      assert s[k := t][..n] == s[..n][k := t];
      TotalUpdate(s[..n], k, t);
    } else {
      assert s[k := t][..n] == s[..n];
    }
  }

  /** Replacing one territory changes the tally of a colour by at most the
      territory replaced. */
  lemma {:induction false} CountUpdate(s: seq<Territory>, k: int, t: Territory, c: string)
    requires 0 <= k < |s|
    ensures CountColor(s[k := t], c) == CountColor(s, c) - Held(s[k], c) + Held(t, c)
  {
    var n := |s| - 1;
    if k < n {
      assert s[k := t][..n] == s[..n][k := t];
      CountUpdate(s[..n], k, t, c);
    } else {
      assert s[k := t][..n] == s[..n];
    }
  }

  /** A colour has no territory exactly when its tally is zero. */
  lemma {:induction false} CountZeroIff(s: seq<Territory>, c: string)
    ensures CountColor(s, c) == 0 <==> forall k :: 0 <= k < |s| ==> s[k].color != c
  {
    if |s| > 0 {
      var n := |s| - 1;
      CountZeroIff(s[..n], c);
      assert forall k :: 0 <= k < n ==> s[..n][k] == s[k];
    }
  }

  /** The tally of a colour is the number of slots that colour holds. */
  lemma {:induction false} CountIsHolding(s: seq<Territory>, c: string)
    ensures CountColor(s, c) == |set k | 0 <= k < |s| && s[k].color == c|
  {
    if |s| > 0 {
      var n := |s| - 1;
      CountIsHolding(s[..n], c);
      var before := set k | 0 <= k < n && s[..n][k].color == c;
      var last: set<int> := if s[n].color == c then {n} else {};
      assert (set k | 0 <= k < |s| && s[k].color == c) == before + last;
      assert before * last == {};
    }
  }

  /** If every territory of colour `c` in `s` still has colour `c` in `t`,
      the tally of `c` cannot have gone down. */
  lemma {:induction false} CountMonotone(s: seq<Territory>, t: seq<Territory>, c: string)
    requires |s| == |t|
    requires forall k :: 0 <= k < |s| && s[k].color == c ==> t[k].color == c
    ensures CountColor(s, c) <= CountColor(t, c)
  {
    if |s| > 0 {
      var n := |s| - 1;
      assert forall k :: 0 <= k < n ==> s[..n][k] == s[k] && t[..n][k] == t[k];
      CountMonotone(s[..n], t[..n], c);
    }
  }

  /** On a garrisoned map no territory holds more troops than the whole map. */
  lemma {:induction false} TroopsBelowTotal(s: seq<Territory>, k: int)
    requires Garrisoned(s)
    requires 0 <= k < |s|
    ensures 1 <= s[k].troops <= TotalTroops(s)
  {
    var n := |s| - 1;
    assert Garrisoned(s[..n]) by {
      assert forall i :: 0 <= i < n ==> s[..n][i] == s[i];
    }
    if k < n {
      TroopsBelowTotal(s[..n], k);
      assert s[..n][k] == s[k];
    } else if n > 0 {
      TroopsBelowTotal(s[..n], 0);
    }
  }
}
