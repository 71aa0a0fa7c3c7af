# War combat engine in Dafny

This project models the battle engine of a small console game of *War* (a
Risk-style territory game) written in C in a single file, `war.c`. The
engine is the function `atacar`, which resolves one attack of one territory
on another, and its helper `ordenarDados`, which bubble-sorts a roll of dice
into descending order. A territory (`struct Territorio`) is a name, the
colour of the army holding it, and a troop count. The fixed start-up map
written by `cadastroTerritorios` serves as a test fixture.

The modelled rules:

- **Legality.** At the top of every round, the attack is refused if the
  attacker has fewer than two troops. It is also refused if both
  territories carry the same colour. These checks sit inside the round loop
  of the source. The model re-checks them every round and proves that only
  the first round can fail them (`Combat.Fight`).
- **Dice counts.** The attacker throws 1 to min(3, troops - 1) dice. The
  defender throws 1 to min(3, troops) dice. Faces are 1 to 6.
- **Attrition.** Both rolls are sorted highest-first. Dice are compared
  rank for rank over the shorter roll. The attacker wins a pair only with a
  strictly higher die, so ties go to the defender. Each lost pair costs its
  side one troop.
- **Loop.** Another round is offered only while the attacker has more than
  one troop and the defender still has troops. Otherwise the loop ends.
  Each round costs at least one troop, so the number of rounds is bounded
  by the troops on the board.
- **Conquest.** A defender left with no troops takes the attacker's colour.
  The attacker then moves t troops into it, with 1 <= t < its own troops.
  Otherwise the attack fails and nothing else changes.

Inputs that the program reads from the console or draws from `rand()` are
parameters here:

- Dice are sequences of integers, one `Combat.Roll` per round. A round's
  dice count for each side is the length of that side's sequence.
- The player's answer to "continue the attack?" is the presence of a
  further roll in the script. The player continues while rolls remain.
- The troop move is an integer parameter. `Combat.MoveFits` states the
  range the prompt loop enforces.

Modules:

- `Dice`: faces, descending order, a reference insertion sort, and the
  bubble sort.
- `Territories`: the territory record and the start-up map.
- `Combat`: the engine.
- `Scenarios`: worked engagements on the start-up map.

Each operation has a functional definition and an imperative one that
follows the source's loops. `Combat.RunAttack`, `Combat.PlayRounds`,
`Combat.ResolveRound`, `Combat.CompareDice` and `Dice.OrderDice` are proved
equal to `Combat.Attack`, `Combat.Fight`, `Combat.Round`, `Combat.Attrition`
and `Dice.SortDesc`.

A legal attacker facing a territory with no troops has no round to play.
The defender's prompt (war.c:326-334) would need between 1 and at most zero
dice, so it never accepts an answer and `atacar` waits forever.
`Combat.EmptyDefenderStallsPrompt` shows that no roll script fits such a
field. The engagement functions therefore do not cover that input. It
cannot arise from the start-up map: every territory there starts with at
least one troop, and `Combat.Attack` keeps both territories at one troop or
more.

The troop-move prompt (war.c:392) displays an upper bound of
min(3, troops - 1). The loop that validates the answer (war.c:395) accepts
any t with 1 <= t < troops, and the comment at war.c:387 agrees with that
loop. The model follows the enforced range. `Combat.DisplayedCapNotEnforced`
and `Scenarios.MovePastDisplayedCap` show where the two differ: an attacker
with 8 troops is shown "1 a 3" but may move 7.

## Model

| member | source | states |
|---|---|---|
| `Dice.BubblePass` | war.c:413-419 | One pass of the inner loop keeps the multiset of dice. If the dice from position m on were already in their final places, then after the pass the dice from m - 1 on are too: non-increasing, and no higher than any die before them. |
| `Dice.OrderDice` | war.c:411-421 | The bubble sort returns the roll in non-increasing order, as a permutation of the input, and equal to the reference sort. |
| `Dice.SortDescSortsRoll` | war.c:345-347 | The reference sort returns a non-increasing permutation of the roll. |
| `Dice.SortedDescUnique` | war.c:345-347 | Two non-increasing sequences with the same multiset of dice are equal, so any correct sort gives the same comparison order. |
| `Dice.SortedIsFixed` | war.c:411-421 | Sorting a roll that is already highest-first leaves it unchanged. |
| `Dice.SortDescIgnoresOrder` | war.c:345-347 | Two rolls with the same faces in different orders sort to the same sequence. |
| `Territories.InitialMapWellFormed` | war.c:230-244 | The start-up map has five territories with distinct names. Each is held by Branco or Preto and has at least one troop. |
| `Combat.AttackDiceAccepted` | war.c:307-315 | The attacker's dice count n is accepted iff 1 <= n <= 3 and n <= troops - 1. |
| `Combat.DefenseDiceAccepted` | war.c:326-334 | The defender's dice count n is accepted iff 1 <= n <= 3 and n <= troops. |
| `Combat.DiceChoiceExists` | war.c:307-334 | A legal attacker and a defender with troops always have an acceptable dice count, so the prompt loops can end. |
| `Combat.Round` | war.c:345-370 | A round changes only troop counts, and never raises one. Total troops fall by exactly the number of compared pairs. With accepted dice counts, the attacker keeps at least one troop, the defender keeps at least zero, and the total falls strictly. A round that empties the defender costs the attacker nothing. |
| `Combat.RoundLosses` | war.c:361-370 | The defender loses one troop per rank where the sorted attacker die is strictly higher. The attacker loses one troop for every other compared rank. |
| `Combat.WinsCountsWinningPairs` | war.c:361-370 | The running count of attacker wins equals the number of ranks where the attacker's die is strictly higher. |
| `Combat.TiesGoToDefender` | war.c:363-369 | If no attacker die beats the defender die of the same rank, ties included, the attacker wins no pair. |
| `Combat.HigherDiceWinAll` | war.c:363-365 | If every attacker die beats the defender die of the same rank, the attacker wins every pair. |
| `Combat.SinglePairRound` | war.c:361-370 | With one die each, the defender loses a troop iff the attacker's die is higher. Otherwise, equal dice included, the attacker loses it. |
| `Combat.RoundIgnoresRollOrder` | war.c:345-347 | A round's outcome depends only on which faces came up, not the order they were thrown in. |
| `Combat.CompareDice` | war.c:360-370 | The source's comparison loop over two sorted rolls computes the attrition. |
| `Combat.ResolveRound` | war.c:345-370 | Bubble-sorting both rolls and then running the comparison loop gives the round's outcome. |
| `Combat.Fight` | war.c:293-380 | The loop aborts with nothing changed iff the first round's checks refuse; later rounds never abort. A fight that runs plays at least one round and at most one per roll. Each round removes at least one troop. The attacker ends with at least one troop and the defender with at least zero. A second round happens iff the first leaves attacker > 1 and defender > 0 and the player goes on. The loop ends with a forced stop or an exhausted script. A loop that ends with the defender emptied leaves the attacker at least two troops. Names and colours do not change. |
| `Combat.EmptyDefenderStallsPrompt` | war.c:326-334 | If the attack is legal and the defender has no troops, the defender's prompt accepts no dice count, and no roll script fits the field. |
| `Combat.MoveChoiceExists` | war.c:383-395 | Every engagement admits a move of one troop: whenever the loop ends in conquest, the move prompt accepts 1, so its loop can end. |
| `Combat.FightAdvances` | war.c:293-380 | From a point where the loop is about to play a round, the roll fits, and either the loop resumes from the new state with the rest of the script or the engagement ends there after one more round. |
| `Combat.RoundsBoundedByTroops` | war.c:293-380 | An engagement that plays plays fewer rounds than the troops on both territories at the start. |
| `Combat.DisplayedCapNotEnforced` | war.c:391-395 | Every move up to the displayed cap is accepted. A move above the cap is also accepted exactly when the attacker has more than four troops. |
| `Combat.Conclude` | war.c:383-403 | A defender at zero troops takes the attacker's colour and receives exactly the moved troops; the attacker keeps at least one; the two territories' total is conserved. Otherwise the verdict is a failed attack and nothing changes. |
| `Combat.Attack` | war.c:287-408 | The attack is refused for too few troops iff the attacker has fewer than 2. It is refused for a shared colour iff the attacker has at least 2 and the colours match. A refused attack changes nothing. A conquest gives the defender the attacker's colour and the moved troops. A failed attack leaves the defender its colour and at least one troop. Names and the attacker's colour never change. If both territories start with at least one troop, both end with at least one. |
| `Combat.PlayRounds` | war.c:293-380 | The source's do-while loop computes exactly `Fight`: it re-checks legality at the top of each round, resolves each round by sorting and comparing, and stops when forced or when the player declines. |
| `Combat.RunAttack` | war.c:287-408 | The whole of `atacar` computes exactly `Attack`: the round loop, then the refusal it returned with, or conquest or failure. |
| `Scenarios.BrasilAttacksChile` | war.c:233-238 | Brasil (Preto, 8) throwing 6,5,3 against Chile's (Branco, 3) 4,2 leaves Chile with 1 troop and Brasil with 8. The same faces in another order give the same result. |
| `Scenarios.TieCostsAttacker` | war.c:363-369 | Brasil's 4 against Chile's 4 costs Brasil a troop. |
| `Scenarios.BrasilConquersChile` | war.c:383-400 | After a second round of 6 against 1, Chile turns Preto. Moving 3 leaves Brasil with 5 and Chile with 3 after two rounds. |
| `Scenarios.MovePastDisplayedCap` | war.c:391-395 | With 8 troops the prompt shows a cap of 3 but accepts a move of 7, which leaves Brasil with 1. |
| `Scenarios.StoppingEarlyIsRepelled` | war.c:372-403 | If the player stops after the first round, the attack fails and Chile holds with 1 troop. |
| `Scenarios.SameColourIsRefused` | war.c:301-304 | Chile attacking America (both Branco) is refused and changes nothing. |
| `Scenarios.ScenarioTerritoriesAreOnTheMap` | war.c:230-238 | The scenario territories are the first three entries of the start-up map. |

## Left out

- A legal attack on a territory with no troops is left out. In the source the defender's dice prompt (war.c:326-334) then loops forever. The model has no roll script for it (`Combat.EmptyDefenderStallsPrompt`), and such a field is unreachable from the start-up map.
- Console I/O is left out: the menus, `scanf` prompt loops, `limparBufferEntrada`, `exibirMapa` and `mostrarMapa` (war.c:94-182, 263-273, 431-449). The values the prompt loops accept are inputs whose ranges the `requires` clauses state.
- Printed status messages are left out. They carry no state.
- Randomness is left out: `rand() % 6 + 1` (war.c:321, 341). Dice are input sequences with faces 1..6.
- Heap management is left out: `alocarMapa`, `liberarMemoria`, and the per-round `malloc` of the dice arrays (war.c:198-205, 252-255, 319, 338, 406-407). The model uses values and a fresh local array, so the source's leak of earlier rounds' arrays has no counterpart.
- The territory lookup by name in `main` is left out (war.c:135-148). It reads uninitialised pointers when a name is not found, and its error test uses `&&` where `||` is needed. Its behaviour is undefined rather than a rule, so the engine takes the two territories directly.
- Missions are left out. Assigning a secret mission and checking victory exist only as comment stubs (war.c:423-429), and menu option 2 is empty (war.c:161-164). There is no mission code to model.
- Fixed-size name and colour buffers (`char nome[30]`, `char cor[10]`) are left out, and so is `strcpy` overflowing them. Strings are unbounded, and colours are compared for whole-string equality, as `strcmp(...) == 0` does.
- 32-bit `int` overflow is not modelled. Rounds only lower troop counts, and a conquest move conserves the two territories' sum, so no troop count leaves the range its inputs span.
- The answer letter `s`/`S` to "continue?" is left out. It appears only as whether the roll script has another round.
