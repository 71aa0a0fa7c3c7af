/**
  Worked engagements on the start-up map of war.c, each pinned down by an
  exact expected outcome.
 */
module Scenarios {
  import opened Dice
  import opened Territories
  import opened Combat

  function America(): Territory { Territory("America", "Branco", 4) }
  function Brasil(): Territory { Territory("Brasil", "Preto", 8) }
  function Chile(): Territory { Territory("Chile", "Branco", 3) }

  /** The territories the scenarios use are the ones on the start-up map. */
  lemma ScenarioTerritoriesAreOnTheMap()
    ensures InitialMap()[0] == America()
    ensures InitialMap()[1] == Brasil()
    ensures InitialMap()[2] == Chile()
  {
  }

  /** The first round of Brasil's attack on Chile, with its dice already highest-first. */
  function FirstRoll(): Roll { Roll([6, 5, 3], [4, 2]) }

  /** The same faces as `FirstRoll`, thrown in another order. */
  function FirstRollShuffled(): Roll { Roll([3, 6, 5], [2, 4]) }

  /** Chile after the first round. */
  function ChileAfterFirstRound(): Territory { Territory("Chile", "Branco", 1) }

  lemma FirstRollFits()
    ensures RollFits(Field(Brasil(), Chile()), FirstRoll())
  {
  }

  lemma FirstAttackIsSorted()
    ensures SortDesc(FirstRoll().attack) == FirstRoll().attack
  {
    SortedIsFixed(FirstRoll().attack);
  }

  lemma FirstDefenseIsSorted()
    ensures SortDesc(FirstRoll().defense) == FirstRoll().defense
  {
    SortedIsFixed(FirstRoll().defense);
  }

  /** Both pairs of the first round go to the attacker. */
  lemma FirstRoundTakesTwo()
    ensures Round(Field(Brasil(), Chile()), FirstRoll()) == Field(Brasil(), ChileAfterFirstRound())
  {
    FirstAttackIsSorted();
    FirstDefenseIsSorted();
    HigherDiceWinAll(FirstRoll().attack, FirstRoll().defense, 2);
  }

  lemma ShuffledRollHasSameFaces()
    ensures multiset(FirstRollShuffled().attack) == multiset(FirstRoll().attack)
    ensures multiset(FirstRollShuffled().defense) == multiset(FirstRoll().defense)
  {
    assert FirstRollShuffled().attack == [3] + [6, 5];
    assert FirstRoll().attack == [6, 5] + [3];
    assert FirstRollShuffled().defense == [2] + [4];
    assert FirstRoll().defense == [4] + [2];
  }

  /**
    Brasil (Preto, 8) attacks Chile (Branco, 3) throwing 6, 5, 3 against
    4, 2: the pairs 6-4 and 5-2 both go to the attacker, so Chile is left
    with one troop and Brasil loses none. The same faces thrown in another
    order give the same round.
   */
  lemma BrasilAttacksChile()
    ensures RollFits(Field(Brasil(), Chile()), FirstRoll())
    ensures Round(Field(Brasil(), Chile()), FirstRoll()) == Field(Brasil(), ChileAfterFirstRound())
    ensures Round(Field(Brasil(), Chile()), FirstRollShuffled()) == Field(Brasil(), ChileAfterFirstRound())
  {
    FirstRollFits();
    FirstRoundTakesTwo();
    ShuffledRollHasSameFaces();
    RoundIgnoresRollOrder(Field(Brasil(), Chile()), FirstRoll(), FirstRollShuffled());
  }

  /** A 4 against a 4 costs the attacker the troop. */
  lemma TieCostsAttacker()
    ensures Round(Field(Brasil(), Chile()), Roll([4], [4]))
         == Field(Territory("Brasil", "Preto", 7), Territory("Chile", "Branco", 3))
  {
    SinglePairRound(Field(Brasil(), Chile()), 4, 4);
  }

  /** The two rounds that take Chile: 6-5-3 against 4-2, then 6 against 1. */
  function TakeChile(): seq<Roll> {
    [Roll([6, 5, 3], [4, 2]), Roll([6], [1])]
  }

  /**
    After the second round Chile has no troops left: it turns Preto and
    receives the three troops Brasil moves, and the two territories still
    hold the eight plus one troops that survived the rounds.
   */
  lemma BrasilConquersChile()
    ensures RollsFit(Field(Brasil(), Chile()), TakeChile())
    ensures MoveFits(Field(Brasil(), Chile()), TakeChile(), 3)
    ensures Attack(Field(Brasil(), Chile()), TakeChile(), 3)
         == Engagement(Field(Territory("Brasil", "Preto", 5), Territory("Chile", "Preto", 3)), 2, Conquered(3))
  {
    var f := Field(Brasil(), Chile());
    var g := Field(Territory("Brasil", "Preto", 8), Territory("Chile", "Branco", 1));
    var h := Field(Territory("Brasil", "Preto", 8), Territory("Chile", "Branco", 0));
    assert Round(f, TakeChile()[0]) == g by {
      BrasilAttacksChile();
    }
    assert Round(g, Roll([6], [1])) == h by {
      SinglePairRound(g, 6, 1);
    }
    assert TakeChile()[1..] == [Roll([6], [1])];
    assert RollsFit(g, [Roll([6], [1])]);
    assert Fight(g, [Roll([6], [1])]) == Skirmish(h, 1, Cleared);
    assert RollsFit(f, TakeChile()) by {
      assert RollFits(f, TakeChile()[0]) by {
        BrasilAttacksChile();
      }
    }
    assert Fight(f, TakeChile()) == Skirmish(h, 2, Cleared);
  }

  /**
    The move prompt shows "1 a 3" for Brasil's eight troops, yet accepts
    seven: Brasil is left with one troop.
   */
  lemma MovePastDisplayedCap()
    ensures DisplayedMoveCap(8) == 3
    ensures MoveFits(Field(Brasil(), Chile()), TakeChile(), 7)
    ensures Attack(Field(Brasil(), Chile()), TakeChile(), 7)
         == Engagement(Field(Territory("Brasil", "Preto", 1), Territory("Chile", "Preto", 7)), 2, Conquered(7))
  {
    BrasilConquersChile();
  }

  /** If the player stops after the first round, Chile holds with one troop. */
  lemma StoppingEarlyIsRepelled()
    ensures RollsFit(Field(Brasil(), Chile()), [Roll([6, 5, 3], [4, 2])])
    ensures Attack(Field(Brasil(), Chile()), [Roll([6, 5, 3], [4, 2])], 0)
         == Engagement(Field(Territory("Brasil", "Preto", 8), Territory("Chile", "Branco", 1)), 1, Repelled)
  {
    BrasilAttacksChile();
  }

  /** Chile and America are both Branco: the attack is refused and nothing changes. */
  lemma SameColourIsRefused()
    ensures RollsFit(Field(Chile(), America()), [Roll([1], [1])])
    ensures Attack(Field(Chile(), America()), [Roll([1], [1])], 1)
         == Engagement(Field(Chile(), America()), 0, Aborted(SameColor))
  {
  }
}
