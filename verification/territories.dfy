/**
  The `Territorio` record of war.c and the fixed five-territory map that
  `cadastroTerritorios` fills in at start-up.
 */
module Territories {

  /** A territory: its name, the colour of the army holding it, its troops. */
  datatype Territory = Territory(name: string, color: string, troops: int)

  /** The map written by `cadastroTerritorios`, in array order. */
  function InitialMap(): seq<Territory> {
    [ Territory("America", "Branco", 4),
      Territory("Brasil", "Preto", 8),
      Territory("Chile", "Branco", 3),
      Territory("Peru", "Preto", 9),
      Territory("Argelia", "Branco", 15) ]
  }

  /**
    The start-up map has five territories with distinct names, each held
    by one of the two colours in play and each with troops on it.
   */
  lemma InitialMapWellFormed()
    ensures |InitialMap()| == 5
    ensures forall i, j :: 0 <= i < j < |InitialMap()| ==> InitialMap()[i].name != InitialMap()[j].name
    ensures forall i :: 0 <= i < |InitialMap()| ==>
      InitialMap()[i].troops >= 1 && InitialMap()[i].color in {"Branco", "Preto"}
  {
  }
}
