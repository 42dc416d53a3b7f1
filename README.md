# War: attack resolution and secret missions

A Dafny model of the game logic in `war.c`, a single-player console game in
the style of War/Risk. It has five territories. The player's colour is Azul
and the target colour is Verde. A turn is one menu choice:

- attack: two 1-based territory IDs and a die roll each;
- mission check;
- exit.

The model covers these parts of `war.c`:

- `Territories` (`territories.dfy`): the `Territorio` record, the seed map of
  `inicializarTerritoriosAutomatica`, and the in-place initialisation of the
  caller's array. It also defines the two tallies the rules need: troops on
  the whole map and territories held by one colour.
- `Combat` (`combat.dfy`): `faseDeAtaque`.
  - The six checks run in the source's order: attacker ID readable and in
    range, defender ID readable and in range, not a self-attack, attacker of
    the player's colour, attacker with more than one troop, defender of
    another colour.
  - Then the dice are compared, and ties go to the attacker.
  - A defender left with no troops is conquered. It takes the attacker's
    colour and gets one troop moved from the attacker.
  - `ResolveAttack` states the attack on a map value. `Attack` does it in
    place on an `array<Territory>`, and it is proved equal to
    `ResolveAttack`.
  - `simularDados` is `RollDie`.
- `Mission` (`mission.dfy`): `sortearMissao` (`DrawMission`) and
  `verificarVitoria`. The mission check is the function `Accomplished`. The
  loop method `CheckMission` makes one pass over the read-only array and is
  proved equal to `Accomplished`.
- `Game` (`game.dfy`): the `do ... while` loop of `main`.
  - One iteration is `Step`. A script of turns is `Run`.
  - `GameLoop` and `PlayGame` are the loop and `main` on the array, proved
    equal to `Run`.
  - A check that finds the mission accomplished sets the victory flag,
    which ends the loop. Any other turn leaves the flag clear.
  - `Step`, `Run`, `GameLoop` and `PlayGame` are the intended loop: a
    malformed choice always keeps the game running, the first one included.
    `RunAsWritten` is the loop as the code stands, which differs only when
    the very first choice is malformed (see "## Findings").

Standard input is a finite script of `Turn` values. Each `Turn` holds the
menu choice, the two IDs and the two dice. A value `scanf("%d")` could not
read is `Malformed`. Each `rand()` result is a parameter: `RollDie` and
`DrawMission` get it as an argument, and the `Die` type (1 to 6) is what
`simularDados` can return.

Properties proved:

- A rejected attack leaves the map unchanged, and an attack is rejected
  exactly when one of the five conditions fails.
- A winning attacker die costs the defender exactly one troop. A winning
  defender die costs the attacker exactly one troop.
- After a conquest the defender holds one troop of the attacker's colour,
  and the attacker has one troop fewer.
- Only the two slots in the attack change.
- Every attack that goes ahead removes exactly one troop from the map.
- Every territory keeps at least one troop. From the seed map, every troop
  count stays between 1 and 9, so the C `int` counts never overflow.
- The player's territory count never goes down. An accomplished mission
  stays accomplished.
- The game is won exactly by a check that finds the mission accomplished.

## Model

| member | source | states |
|---|---|---|
| Territories.SeedMap | war.c:157-179 | the seed map has five territories, each with at least one troop (its exact data is pinned by `SeedFacts` and `InitializeMap`) |
| Territories.InitializeMap | war.c:152-182 | the first five slots of the caller's array become the seed map (Alaska/Azul/2, Mexico/Vermelho/1, Brasil/Verde/3, Japao/Azul/1, Italia/Vermelho/2); any other slot is untouched |
| Territories.SeedFacts | war.c:152-179 | the seed map has five territories, each with at least one troop, nine troops in all, two Azul territories and one Verde |
| Territories.CountIsHolding | war.c:247-256 | a colour's tally is the number of map slots that colour holds (the `territoriosJogador` counter) |
| Territories.CountZeroIff | war.c:245-256 | a colour's tally is zero exactly when no territory has that colour (the `alvoDestruido` flag) |
| Combat.RollDie | war.c:277-279 | `rand() % 6 + 1` on the non-negative value of `rand()`: the result is a `Die` (1..6) one more than `rand()` modulo 6 |
| Combat.EveryFaceRolls | war.c:277-279 | `rand() % 6 + 1` (`RollDie`, of type `Die`, 1..6) can produce every face of the die |
| Combat.Admissible | war.c:289-327 | an admissible attack names two distinct slots of the map, the attacker of the player's colour and the defender of another colour (`Screen` proves it is exactly the five checks) |
| Combat.Screen | war.c:289-327 | the attack proceeds exactly when all five conditions hold; each of the six refusal reasons is given exactly when its check fails and every earlier check passed, in the source's order (attacker ID, defender ID, self-attack, owner, garrison, friendly fire) |
| Combat.ResolveAttack | war.c:284-359 | an attack keeps the map's size and never renames a territory |
| Combat.Attack | war.c:284-359 | the in-place attack on the array gives the outcome and the new contents of `ResolveAttack` on the old contents |
| Combat.RejectionLeavesMapUnchanged | war.c:289-327 | an attack is rejected exactly when one of the five conditions fails, and then the map is unchanged |
| Combat.AttackerWinsRoll | war.c:339-352 | on attacker die >= defender die (ties included), a defender with more than one troop loses exactly one and the attacker is unchanged; a defender with one troop is conquered: it gets the attacker's colour and exactly 1 troop, and the attacker has one troop fewer |
| Combat.DefenderWinsRoll | war.c:353-356 | on defender die > attacker die, the attacker loses exactly one troop and the defender is unchanged |
| Combat.OnlyCombatantsChange | war.c:306-356 | a slot that changed belongs to the attacker or the defender of an attack that went ahead |
| Combat.AttackCostsOneTroop | war.c:339-356 | every attack that goes ahead lowers the total troops on the map by exactly one |
| Combat.AttackKeepsGarrisons | war.c:319-356 | if every territory has at least one troop before an attack, the same holds after it |
| Combat.ConquestOnlyGainsForPlayer | war.c:315-350 | the player's tally grows by one on a conquest and is otherwise unchanged; no other colour's tally ever grows |
| Mission.Accomplished | war.c:243-272 | only the two known mission IDs can ever be accomplished (both cases are characterised by `MissionCases`) |
| Mission.DrawMission | war.c:230-233 | the mission drawn is one of the two missions |
| Mission.MissionCases | war.c:243-272 | destroy-target holds exactly when no territory has the target colour; conquer-three holds exactly when at least three map slots are the player's; any other mission ID is never accomplished |
| Mission.ConquerThreeMonotone | war.c:265-267 | conquer-three, once met, stays met on any map that keeps the player's territories the player's |
| Mission.CheckMission | war.c:243-272 | the single pass over the read-only array returns exactly `Accomplished` of its contents |
| Game.Step | war.c:91-125 | one iteration keeps the map's size; a mission check sets the victory flag exactly when the mission is accomplished, and no other choice sets it; the flag forces exit; the loop exits exactly on victory or choice 0; only an attack can change the map |
| Game.Run | war.c:85-125 | a script run consumes at least one and at most all of the turns when it exits, and all of them, without a victory, when it does not |
| Game.GameLoop | war.c:85-125 | the loop on the array yields the map, flag, turn count and exit status of `Run` on the old contents |
| Game.PlayGame | war.c:59-131 | seeding, drawing the mission and running the loop yields `Run` from the seed map with the drawn mission |
| Game.StepKeepsGarrisons | war.c:98-116 | one turn keeps every territory garrisoned and never raises the total troops |
| Game.RunKeepsGarrisons | war.c:85-125 | a whole script keeps every territory garrisoned and never raises the total troops |
| Game.ReachableTroopsFitInt32 | war.c:152-179 | from the seed map every troop count stays within 1..9, far inside the range of a 32-bit `int` |
| Game.StepNeverLosesTerritory | war.c:98-101 | one turn never lowers the player's territory count |
| Game.StepKeepsMission | war.c:98-109 | an accomplished mission stays accomplished after any turn |
| Game.RunNeverLosesTerritory | war.c:85-125 | over a whole script the player's territory count never goes down |
| Game.RunKeepsMission | war.c:85-125 | over a whole script an accomplished mission stays accomplished |
| Game.RunWinsOnlyWhenAccomplished | war.c:102-125 | a won game has exited, its last consumed turn was a mission check, and the final map accomplishes the mission |
| Game.CheckOnAccomplishedMissionWins | war.c:102-125 | a mission check as the next turn on an accomplished map wins the game and ends the loop on that turn, with the map unchanged |
| Game.RunAsWritten | war.c:76-125 | the loop as written, which carries the value scanf last stored in `escolha`, keeps the map's size and consumes all turns without a victory when it does not exit |
| Game.AsWrittenAgreesWithRun | war.c:85-125 | the loop as written equals `Run` whenever the uninitialised `escolha` is not read as 0: once a non-zero choice was stored, or when the first choice is well-formed, or the indeterminate value is not 0 |
| Game.MalformedFirstChoiceMayStop | war.c:76-95 | a malformed first choice with an uninitialised `escolha` of 0 ends the game as written after one turn, while `Run` goes on past it with the map untouched |
| Game.ScenarioAlaskaTakesMexico | war.c:339-351 | on the seed map, Alaska attacking Mexico with dice 4 against 2 conquers Mexico for Azul with 1 troop, and Alaska keeps 1 |
| Game.ScenarioJapaoCannotAttack | war.c:319-322 | on the seed map, Japao (one troop) attacking Brasil is rejected for lack of a garrison, and the map is unchanged |
| Game.ScenarioBrasilFallsAndWins | war.c:98-125 | from the seed map, three attacks of Alaska on Brasil with dice 6 against 1 conquer Brasil (Alaska left with 1 troop), and the check that follows wins the destroy mission on the fourth turn |
| Game.ScenarioSeedNotWon | war.c:243-272 | on the seed map neither mission is accomplished |

## Left out

- Console I/O is not modelled: `printf`/`scanf`, the menu and map display
  (`exibirMenu`, `exibirEstadoDoMapa`, `exibirMissao`), the "press ENTER"
  pause and `limparBufferEntrada`. Input is a script of already-read
  values, and the messages printed are reduced to the `Outcome` and
  `Rejection` values.
- `alocarMapa`/`liberarMemoria` and the exit with status 1 when `calloc`
  fails are not modelled. The map is a Dafny array of length 5, and
  `PlayGame` starts after the allocation.
- `srand`/`rand` are not modelled. The value `rand()` returns is a
  parameter of `RollDie` and `DrawMission`. In a `Turn`, the dice are of
  type `Die` (1 to 6).
- Combat.Attack: the source reads the defender ID only after the attacker
  ID passes, and rolls the dice only after the screening. The model gets
  both IDs and both dice up front. On a rejection they are simply unused.
- The fixed-size name and colour buffers (`TAM_STRING`, `strcpy`,
  `strcmp`) are not modelled. Names and colours are Dafny strings compared
  with equality.
- Game.Run: end of input is not modelled. At end of input the source's
  `scanf` keeps failing while `escolha` is non-zero, so its loop never ends.
  The model's script is finite, and `Run` stops when the script runs out.
- Game.Step, Game.Run, Game.GameLoop, Game.PlayGame: these follow the
  intended behaviour on a malformed first choice (keep running). In the
  code as written the result is undefined; `Game.RunAsWritten` models it.
- Game.RunAsWritten: in C, reading an uninitialised
  variable is undefined behaviour. The model stands it in by an arbitrary
  integer value.

## Findings

| source | as written | input that shows it | evidently intended | confidence | as-written member | corrected member |
|---|---|---|---|---|---|---|
| war.c:76-95 | `escolha` is declared without a value. When `scanf("%d", &escolha)` fails, `continue` jumps to the do-while condition `escolha != OPCAO_SAIR`, which reads `escolha` unassigned on the first iteration | the first menu input is a non-number (e.g. `x`) while the stack slot of `escolha` holds 0: the game ends at once (`Game.MalformedFirstChoiceMayStop`) | print "invalid option" and keep the game running, as on every later iteration (`Game.AsWrittenAgreesWithRun`) | medium, not executed | Game.RunAsWritten | Game.Run |
