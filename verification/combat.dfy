/**
  The battle engine of `atacar` in war.c, with every random roll and every
  validated prompt answer supplied as input.

  One engagement is a do-while loop of rounds. At the top of each round the
  attack is refused if the attacker has fewer than two troops or both
  territories carry the same colour. Otherwise each side throws the number
  of dice it chose, both rolls are put highest-first, and the dice are
  compared rank for rank over the shorter roll: the attacker wins a pair
  only with a strictly higher die. Another round is offered only while the
  attacker has more than one troop and the defender has any; the player's
  answer to that offer is modelled by whether the roll script has a further
  round. When the loop ends with the defender at zero troops, the territory
  takes the attacker's colour and the attacker moves troops into it.
 */
module Combat {
  import opened Dice
  import opened Territories

  /** The two territories of one engagement. */
  datatype Field = Field(attacker: Territory, defender: Territory)

  /** Why an attack is refused before any dice are thrown. */
  datatype AttackError = NotEnoughTroops | SameColor

  /** The outcome of the checks at the top of a round: go ahead, or refuse and return. */
  datatype Clearance = Cleared | Refused(reason: AttackError)

  /** The dice one round throws; how many dice a side chose is the length of its roll. */
  datatype Roll = Roll(attack: seq<int>, defense: seq<int>)

  /** Where the engine stands when the round loop has ended. */
  datatype Skirmish = Skirmish(field: Field, rounds: nat, status: Clearance)

  datatype Verdict = Aborted(reason: AttackError) | Repelled | Conquered(moved: int)

  /** The territories after a whole call of `atacar`, the rounds fought, and how it ended. */
  datatype Engagement = Engagement(field: Field, rounds: nat, verdict: Verdict)

  function Total(f: Field): int {
    f.attacker.troops + f.defender.troops
  }

  /** Both territories keep their names, and their colours, from `f` to `g`. */
  predicate SameOwners(f: Field, g: Field) {
    && g.attacker.name == f.attacker.name && g.attacker.color == f.attacker.color
    && g.defender.name == f.defender.name && g.defender.color == f.defender.color
  }

  // ---------------------------------------------------------------------
  // Legality and dice counts
  // ---------------------------------------------------------------------

  /** The two checks at the top of every round, in the order the source makes them. */
  function Legality(f: Field): Clearance {
    if f.attacker.troops < 2 then Refused(NotEnoughTroops)
    else if f.attacker.color == f.defender.color then Refused(SameColor)
    else Cleared
  }

  /** Upper bound of the attacker's dice prompt. */
  function MaxAttackDice(troops: int): int {
    if troops > 3 then 3 else troops - 1
  }

  /** Upper bound of the defender's dice prompt. */
  function MaxDefenseDice(troops: int): int {
    if troops > 3 then 3 else troops
  }

  /** The attacker's dice-count prompt accepts `n`: at most three dice, and one troop stays behind. */
  function AttackDiceAccepted(n: int, troops: int): (ok: bool)
    ensures ok <==> 1 <= n <= 3 && n <= troops - 1
  {
    !(n < 1 || n > MaxAttackDice(troops))
  }

  /** The defender's dice-count prompt accepts `n`: at most three dice, one per troop. */
  function DefenseDiceAccepted(n: int, troops: int): (ok: bool)
    ensures ok <==> 1 <= n <= 3 && n <= troops
  {
    !(n < 1 || n > MaxDefenseDice(troops))
  }

  /** A legal attacker always has a dice count to choose, and so does any defender with troops. */
  lemma DiceChoiceExists(f: Field)
    requires Legality(f).Cleared?
    requires f.defender.troops >= 1
    ensures AttackDiceAccepted(1, f.attacker.troops)
    ensures DefenseDiceAccepted(1, f.defender.troops)
    ensures exists r: Roll :: RollFits(f, r)
  {
    assert RollFits(f, Roll([1], [1]));
  }

  /** `r` is a roll the round can see: counts the prompts accept, faces 1..6. */
  predicate RollFits(f: Field, r: Roll) {
    && AttackDiceAccepted(|r.attack|, f.attacker.troops)
    && DefenseDiceAccepted(|r.defense|, f.defender.troops)
    && AllFaces(r.attack)
    && AllFaces(r.defense)
  }

  // ---------------------------------------------------------------------
  // One round
  // ---------------------------------------------------------------------

  /** Number of dice pairs compared: the length of the shorter roll. */
  function Pairs(r: Roll): nat {
    if |r.attack| < |r.defense| then |r.attack| else |r.defense|
  }

  /** How many of the first `k` pairs the attacker wins, counting from the highest pair. */
  function Wins(a: seq<int>, d: seq<int>, k: nat): (w: nat)
    requires k <= |a| && k <= |d|
    ensures w <= k
  {
    if k == 0 then 0
    else Wins(a, d, k - 1) + (if a[k - 1] > d[k - 1] then 1 else 0)
  }

  /** The ranks among the first `k` at which the attacker's die is strictly higher. */
  function WinningPairs(a: seq<int>, d: seq<int>, k: nat): set<int>
    requires k <= |a| && k <= |d|
  {
    set i | 0 <= i < k && a[i] > d[i]
  }

  /** `Wins` counts exactly the ranks the attacker's die is strictly higher at. */
  lemma {:induction false} WinsCountsWinningPairs(a: seq<int>, d: seq<int>, k: nat)
    requires k <= |a| && k <= |d|
    ensures Wins(a, d, k) == |WinningPairs(a, d, k)|
  {
    if k == 0 {
      assert WinningPairs(a, d, 0) == {};
    } else {
      WinsCountsWinningPairs(a, d, k - 1);
      assert k - 1 !in WinningPairs(a, d, k - 1);
      if a[k - 1] > d[k - 1] {
        assert WinningPairs(a, d, k) == WinningPairs(a, d, k - 1) + {k - 1};
      } else {
        assert WinningPairs(a, d, k) == WinningPairs(a, d, k - 1);
      }
    }
  }

  /** Ties go to the defender: if no attacker die is higher, the attacker wins no pair. */
  lemma {:induction false} TiesGoToDefender(a: seq<int>, d: seq<int>, k: nat)
    requires k <= |a| && k <= |d|
    requires forall i :: 0 <= i < k ==> a[i] <= d[i]
    ensures Wins(a, d, k) == 0
  {
    if k > 0 {
      TiesGoToDefender(a, d, k - 1);
    }
  }

  /** If every attacker die is strictly higher, the attacker wins every pair. */
  lemma {:induction false} HigherDiceWinAll(a: seq<int>, d: seq<int>, k: nat)
    requires k <= |a| && k <= |d|
    requires forall i :: 0 <= i < k ==> a[i] > d[i]
    ensures Wins(a, d, k) == k
  {
    if k > 0 {
      HigherDiceWinAll(a, d, k - 1);
    }
  }

  /**
    Attrition over two rolls already in highest-first order: the first
    `min(|a|, |d|)` ranks are compared and each costs its loser one troop.
   */
  function Attrition(f: Field, a: seq<int>, d: seq<int>): Field {
    var k := if |a| < |d| then |a| else |d|;
    var won := Wins(a, d, k);
    Field(f.attacker.(troops := f.attacker.troops - (k - won)),
          f.defender.(troops := f.defender.troops - won))
  }

  /**
    One round: both rolls sorted highest-first, then attrition. Only troop
    counts change, every compared pair is lost by someone, and with dice
    counts the prompts accept the attacker keeps a troop, the defender
    never goes below zero, and the round costs at least one troop. A round
    that empties the defender has it lose every compared pair, so the
    attacker loses nothing in it.
   */
  function Round(f: Field, r: Roll): (g: Field)
    ensures g.attacker == f.attacker.(troops := g.attacker.troops)
    ensures g.defender == f.defender.(troops := g.defender.troops)
    ensures g.attacker.troops <= f.attacker.troops && g.defender.troops <= f.defender.troops
    ensures Total(f) - Total(g) == Pairs(r)
    ensures RollFits(f, r) ==> g.attacker.troops >= 1 && g.defender.troops >= 0
    ensures RollFits(f, r) ==> Total(g) < Total(f)
    ensures RollFits(f, r) && g.defender.troops == 0 ==> g.attacker.troops == f.attacker.troops
  {
    Attrition(f, SortDesc(r.attack), SortDesc(r.defense))
  }

  /**
    The defender loses one troop per rank at which the sorted attacker die
    is strictly higher; the attacker loses one for every other compared
    rank, ties included.
   */
  lemma RoundLosses(f: Field, r: Roll)
    ensures var a, d := SortDesc(r.attack), SortDesc(r.defense);
      && f.defender.troops - Round(f, r).defender.troops == |WinningPairs(a, d, Pairs(r))|
      && f.attacker.troops - Round(f, r).attacker.troops == Pairs(r) - |WinningPairs(a, d, Pairs(r))|
  {
    WinsCountsWinningPairs(SortDesc(r.attack), SortDesc(r.defense), Pairs(r));
  }

  /** With one die a side, the defender loses a troop iff the attacker's die is higher; otherwise the attacker does. */
  lemma SinglePairRound(f: Field, x: int, y: int)
    ensures Round(f, Roll([x], [y])).defender.troops == f.defender.troops - 1 <==> x > y
    ensures Round(f, Roll([x], [y])).attacker.troops == f.attacker.troops - 1 <==> x <= y
  {
    assert SortDesc([x]) == [x];
    assert SortDesc([y]) == [y];
  }

  /** The order the dice came up in does not matter, only which faces did. */
  lemma RoundIgnoresRollOrder(f: Field, r: Roll, s: Roll)
    requires multiset(r.attack) == multiset(s.attack)
    requires multiset(r.defense) == multiset(s.defense)
    ensures Round(f, r) == Round(f, s)
  {
    SortDescIgnoresOrder(r.attack, s.attack);
    SortDescIgnoresOrder(r.defense, s.defense);
  }

  /** The comparison loop of `atacar` over two rolls already sorted highest-first. */
  method CompareDice(f: Field, a: seq<int>, d: seq<int>) returns (g: Field)
    ensures g == Attrition(f, a, d)
  {
    var k := if |a| < |d| then |a| else |d|;
    var attackerTroops := f.attacker.troops;
    var defenderTroops := f.defender.troops;
    var i := 0;
    while i < k
      invariant 0 <= i <= k
      invariant defenderTroops == f.defender.troops - Wins(a, d, i)
      invariant attackerTroops == f.attacker.troops - (i - Wins(a, d, i))
    {
      if a[i] > d[i] {
        defenderTroops := defenderTroops - 1;
      } else {
        attackerTroops := attackerTroops - 1;
      }
      i := i + 1;
    }
    g := Field(f.attacker.(troops := attackerTroops), f.defender.(troops := defenderTroops));
  }

  /** A round as the source plays it: bubble-sort both rolls, then run the comparison loop. */
  method ResolveRound(f: Field, r: Roll) returns (g: Field)
    ensures g == Round(f, r)
  {
    var a := OrderDice(r.attack);
    var d := OrderDice(r.defense);
    g := CompareDice(f, a, d);
  }

  // ---------------------------------------------------------------------
  // The round loop
  // ---------------------------------------------------------------------

  /** The loop offers another round: the attacker can still attack and the defender still holds. */
  predicate MayContinue(f: Field) {
    f.attacker.troops > 1 && f.defender.troops > 0
  }

  /**
    `rolls` scripts the loop: it has a roll for the first round, every roll
    the loop plays fits the state it is played in, and the player asks for
    another round exactly while rolls remain.
   */
  predicate RollsFit(f: Field, rolls: seq<Roll>)
    decreases |rolls|
  {
    && |rolls| > 0
    && (Legality(f).Cleared? ==>
          && RollFits(f, rolls[0])
          && (MayContinue(Round(f, rolls[0])) && |rolls| > 1 ==> RollsFit(Round(f, rolls[0]), rolls[1..])))
  }

  /**
    A legal attacker facing a territory with no troops gets no roll at all:
    the defender's prompt would need between 1 and at most zero dice, so it
    never accepts an answer and `atacar` waits for one forever. No script
    fits such a field, which leaves that input outside `Fight` and `Attack`.
   */
  lemma EmptyDefenderStallsPrompt(f: Field, n: int, rolls: seq<Roll>)
    requires Legality(f).Cleared? && f.defender.troops <= 0
    ensures !DefenseDiceAccepted(n, f.defender.troops)
    ensures !RollsFit(f, rolls)
  {
  }

  /**
    The do-while loop of `atacar`, up to the point where it ends. It stops
    at once, with nothing changed, exactly when the first round's checks
    refuse the attack; the same checks never refuse a later round. A loop
    that runs plays between one round and one per roll, loses at least one
    troop per round, keeps the attacker at one troop or more, and ends
    either because the player stopped or because it was forced to. A loop
    that ends with the defender emptied leaves the attacker at least two
    troops, so there is always a move for the conquest prompt to accept.
   */
  function Fight(f: Field, rolls: seq<Roll>): (s: Skirmish)
    requires RollsFit(f, rolls)
    ensures s.status.Refused? <==> Legality(f).Refused?
    ensures s.status.Refused? ==> s.status == Legality(f) && s.field == f && s.rounds == 0
    ensures s.status.Cleared? ==> 1 <= s.rounds <= |rolls|
    ensures s.status.Cleared? ==> Total(s.field) + s.rounds <= Total(f)
    ensures s.status.Cleared? ==> s.field.attacker.troops >= 1 && s.field.defender.troops >= 0
    ensures s.status.Cleared? ==> !MayContinue(s.field) || s.rounds == |rolls|
    ensures s.status.Cleared? ==> (s.rounds > 1 <==> MayContinue(Round(f, rolls[0])) && |rolls| > 1)
    ensures s.status.Cleared? && s.field.defender.troops == 0 ==> s.field.attacker.troops >= 2
    ensures SameOwners(f, s.field)
    decreases |rolls|
  {
    match Legality(f)
    case Refused(err) => Skirmish(f, 0, Refused(err))
    case Cleared =>
      var g := Round(f, rolls[0]);
      if MayContinue(g) && |rolls| > 1 then
        var s := Fight(g, rolls[1..]);
        s.(rounds := s.rounds + 1)
      else
        Skirmish(g, 1, Cleared)
  }

  /**
    The loop of `atacar` after `i` rounds, standing at `g` with the script
    `rest` still to play, ends the way the whole engagement on `f` ends.
   */
  predicate Resumes(f: Field, rolls: seq<Roll>, g: Field, rest: seq<Roll>, i: nat) {
    && RollsFit(f, rolls)
    && RollsFit(g, rest)
    && Fight(f, rolls) == Fight(g, rest).(rounds := Fight(g, rest).rounds + i)
  }

  /**
    One turn of the loop, seen from the function that models it: the roll
    fits, and either the loop goes on from the new state with the rest of
    the script or it has ended there.
   */
  lemma FightAdvances(f: Field, rolls: seq<Roll>, g: Field, rest: seq<Roll>, i: nat)
    requires Resumes(f, rolls, g, rest, i) && Legality(g).Cleared?
    ensures RollFits(g, rest[0])
    ensures var h := Round(g, rest[0]);
      if MayContinue(h) && |rest| > 1 then Resumes(f, rolls, h, rest[1..], i + 1)
      else Fight(f, rolls) == Skirmish(h, i + 1, Cleared)
  {
  }

  /**
    However long the roll script, an engagement fights fewer rounds than
    there were troops on the two territories when it began.
   */
  lemma RoundsBoundedByTroops(f: Field, rolls: seq<Roll>)
    requires RollsFit(f, rolls)
    ensures Fight(f, rolls).rounds < Total(f) || Fight(f, rolls).rounds == 0
  {
  }

  // ---------------------------------------------------------------------
  // Conquest
  // ---------------------------------------------------------------------

  /** The troop-move prompt accepts `t` while it leaves the attacker at least one troop. */
  predicate MoveAccepted(t: int, troops: int) {
    !(t < 1 || t >= troops)
  }

  /** The upper bound the troop-move prompt displays. */
  function DisplayedMoveCap(troops: int): int {
    if troops - 1 > 3 then 3 else troops - 1
  }

  /**
    Every count up to the displayed cap is accepted, but the prompt also
    accepts counts above the cap whenever the attacker has more than four
    troops: the displayed cap is not enforced.
   */
  lemma DisplayedCapNotEnforced(troops: int)
    ensures forall t :: 1 <= t <= DisplayedMoveCap(troops) ==> MoveAccepted(t, troops)
    ensures troops > 4 <==> exists t :: MoveAccepted(t, troops) && t > DisplayedMoveCap(troops)
  {
    if troops > 4 {
      assert MoveAccepted(troops - 1, troops) && troops - 1 > DisplayedMoveCap(troops);
    }
  }

  /** The move the player makes is one the prompt accepts, if the loop ends in conquest. */
  predicate MoveFits(f: Field, rolls: seq<Roll>, move: int)
    requires RollsFit(f, rolls)
  {
    var s := Fight(f, rolls);
    s.status.Cleared? && s.field.defender.troops == 0 ==> MoveAccepted(move, s.field.attacker.troops)
  }

  /** A conquest always leaves the troop-move prompt an answer it accepts: moving one troop. */
  lemma MoveChoiceExists(f: Field, rolls: seq<Roll>)
    requires RollsFit(f, rolls)
    ensures MoveFits(f, rolls, 1)
  {
  }

  /**
    What follows the loop: a defender left with no troops takes the
    attacker's colour and receives `move` troops from it, and the troops of
    the two territories together are neither created nor lost; otherwise
    the attack has failed and nothing changes.
   */
  function Conclude(s: Skirmish, move: int): (e: Engagement)
    requires s.status.Cleared?
    requires s.field.defender.troops == 0 ==> MoveAccepted(move, s.field.attacker.troops)
    ensures e.rounds == s.rounds
    ensures Total(e.field) == Total(s.field)
    ensures e.field.attacker.name == s.field.attacker.name && e.field.attacker.color == s.field.attacker.color
    ensures e.field.defender.name == s.field.defender.name
    ensures e.verdict.Conquered? <==> s.field.defender.troops == 0
    ensures e.verdict.Conquered? ==>
      && e.verdict.moved == move
      && e.field.defender.color == s.field.attacker.color
      && e.field.defender.troops == move >= 1
      && e.field.attacker.troops == s.field.attacker.troops - move >= 1
    ensures !e.verdict.Conquered? ==> e.verdict == Repelled && e.field == s.field
  {
    var f := s.field;
    if f.defender.troops == 0 then
      var taken := f.defender.(color := f.attacker.color);
      Engagement(Field(f.attacker.(troops := f.attacker.troops - move),
                       taken.(troops := taken.troops + move)),
                 s.rounds, Conquered(move))
    else
      Engagement(f, s.rounds, Repelled)
  }

  /** One whole call of `atacar`. */
  function Attack(f: Field, rolls: seq<Roll>, move: int): (e: Engagement)
    requires RollsFit(f, rolls)
    requires MoveFits(f, rolls, move)
    ensures e.verdict == Aborted(NotEnoughTroops) <==> f.attacker.troops < 2
    ensures e.verdict == Aborted(SameColor) <==> f.attacker.troops >= 2 && f.attacker.color == f.defender.color
    ensures e.verdict.Aborted? ==> e.field == f && e.rounds == 0
    ensures !e.verdict.Aborted? ==> 1 <= e.rounds <= |rolls| && Total(e.field) + e.rounds <= Total(f)
    ensures e.field.attacker.name == f.attacker.name && e.field.attacker.color == f.attacker.color
    ensures e.field.defender.name == f.defender.name
    ensures e.field.attacker.troops >= 1 || e.verdict.Aborted?
    ensures e.verdict.Conquered? ==>
      && e.field.defender.color == f.attacker.color
      && e.verdict.moved == e.field.defender.troops >= 1
    ensures e.verdict.Repelled? ==> e.field.defender.color == f.defender.color && e.field.defender.troops >= 1
    ensures f.attacker.troops >= 1 && f.defender.troops >= 1 ==>
      e.field.attacker.troops >= 1 && e.field.defender.troops >= 1
  {
    var s := Fight(f, rolls);
    match s.status
    case Refused(err) => Engagement(s.field, s.rounds, Aborted(err))
    case Cleared => Conclude(s, move)
  }

  /**
    The do-while loop of `atacar` as written: legality re-checked at the top
    of every round, the round resolved with the comparison loop, and another
    round only when the forced-exit test allows it and the player asks for
    one. Each iteration that goes on costs at least one troop, which bounds
    the loop.
   */
  method PlayRounds(f: Field, rolls: seq<Roll>) returns (s: Skirmish)
    requires RollsFit(f, rolls)
    ensures s == Fight(f, rolls)
  {
    var g := f;
    var rest := rolls;
    var i := 0;
    assert Resumes(f, rolls, g, rest, i);
    while true
      invariant Resumes(f, rolls, g, rest, i)
      invariant i > 0 ==> Legality(g).Cleared? && MayContinue(g)
      decreases Total(g)
    {
      if g.attacker.troops < 2 {
        return Skirmish(g, i, Refused(NotEnoughTroops));
      }
      if g.attacker.color == g.defender.color {
        return Skirmish(g, i, Refused(SameColor));
      }
      FightAdvances(f, rolls, g, rest, i);
      g := ResolveRound(g, rest[0]);
      i := i + 1;
      if !(MayContinue(g) && |rest| > 1) {
        break;
      }
      rest := rest[1..];
    }
    s := Skirmish(g, i, Cleared);
  }

  /** `atacar` as written: the round loop, then conquest or failure, or the refusal it returned with. */
  method RunAttack(f: Field, rolls: seq<Roll>, move: int) returns (e: Engagement)
    requires RollsFit(f, rolls)
    requires MoveFits(f, rolls, move)
    ensures e == Attack(f, rolls, move)
  {
    var s := PlayRounds(f, rolls);
    if s.status.Refused? {
      e := Engagement(s.field, s.rounds, Aborted(s.status.reason));
    } else {
      e := Conclude(s, move);
    }
  }
}
