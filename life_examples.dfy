/**
 * The concrete grids of the unit tests in src/lib.rs, with the neighbour
 * counts and generations those tests expect. Each grid is written out
 * row by row, as the tests draw them with `*` for a live cell.
 */
module LifeExamples {
  import opened Life

  /** Eight live neighbours around the dead centre of a ring. */
  lemma CountRing()
    ensures NeighbourCount(Grid([[Alive, Alive, Alive], [Alive, Dead, Alive], [Alive, Alive, Alive]]), 1, 1) == 8
  {
  }

  /** No live neighbour in the corner away from the live row and column. */
  lemma CountFarCorner()
    ensures NeighbourCount(Grid([[Dead, Dead, Alive], [Dead, Dead, Alive], [Alive, Alive, Alive]]), 0, 0) == 0
  {
  }

  /** Two live neighbours in the corner where the live row and column meet. */
  lemma CountNearCorner()
    ensures NeighbourCount(Grid([[Dead, Dead, Alive], [Dead, Dead, Alive], [Alive, Alive, Alive]]), 2, 2) == 2
  {
  }

  /** Three live neighbours in the middle of the top edge. */
  lemma CountTopEdge()
    ensures NeighbourCount(Grid([[Alive, Alive, Alive], [Dead, Dead, Alive], [Alive, Alive, Alive]]), 0, 1) == 3
  {
  }

  /** A fully live 3 by 3 grid keeps only its four corners. */
  lemma TooManyNeighbours()
    ensures Tick(Grid([[Alive, Alive, Alive], [Alive, Alive, Alive], [Alive, Alive, Alive]])) == Grid([[Alive, Dead, Alive], [Dead, Dead, Dead], [Alive, Dead, Alive]])
  {
    var g, e := Grid([[Alive, Alive, Alive], [Alive, Alive, Alive], [Alive, Alive, Alive]]), Grid([[Alive, Dead, Alive], [Dead, Dead, Dead], [Alive, Dead, Alive]]);
    assert Tick(g).rows[0] == e.rows[0];
    assert Tick(g).rows[1] == e.rows[1];
    assert Tick(g).rows[2] == e.rows[2];
  }

  /** Two live cells side by side both die. */
  lemma LonelyPair()
    ensures Tick(Grid([[Alive, Alive, Dead], [Dead, Dead, Dead], [Dead, Dead, Dead]])) == Grid([[Dead, Dead, Dead], [Dead, Dead, Dead], [Dead, Dead, Dead]])
  {
    var g, e := Grid([[Alive, Alive, Dead], [Dead, Dead, Dead], [Dead, Dead, Dead]]), Grid([[Dead, Dead, Dead], [Dead, Dead, Dead], [Dead, Dead, Dead]]);
    assert Tick(g).rows[0] == e.rows[0];
    assert Tick(g).rows[1] == e.rows[1];
    assert Tick(g).rows[2] == e.rows[2];
  }

  /** A single live cell dies. */
  lemma LonelyCell()
    ensures Tick(Grid([[Dead, Dead, Dead], [Dead, Alive, Dead], [Dead, Dead, Dead]])) == Grid([[Dead, Dead, Dead], [Dead, Dead, Dead], [Dead, Dead, Dead]])
  {
    var g, e := Grid([[Dead, Dead, Dead], [Dead, Alive, Dead], [Dead, Dead, Dead]]), Grid([[Dead, Dead, Dead], [Dead, Dead, Dead], [Dead, Dead, Dead]]);
    assert Tick(g).rows[0] == e.rows[0];
    assert Tick(g).rows[1] == e.rows[1];
    assert Tick(g).rows[2] == e.rows[2];
  }

  /** An L of three live cells becomes a 2 by 2 block. */
  lemma NewLife()
    ensures Tick(Grid([[Alive, Alive, Dead], [Alive, Dead, Dead], [Dead, Dead, Dead]])) == Grid([[Alive, Alive, Dead], [Alive, Alive, Dead], [Dead, Dead, Dead]])
  {
    var g, e := Grid([[Alive, Alive, Dead], [Alive, Dead, Dead], [Dead, Dead, Dead]]), Grid([[Alive, Alive, Dead], [Alive, Alive, Dead], [Dead, Dead, Dead]]);
    assert Tick(g).rows[0] == e.rows[0];
    assert Tick(g).rows[1] == e.rows[1];
    assert Tick(g).rows[2] == e.rows[2];
  }

  /** `Grid::empty(3, 4)` is three rows of four dead cells. */
  lemma EmptyThreeByFour()
    ensures Empty(3, 4) == Grid([[Dead, Dead, Dead, Dead], [Dead, Dead, Dead, Dead], [Dead, Dead, Dead, Dead]])
  {
    var e := Grid([[Dead, Dead, Dead, Dead], [Dead, Dead, Dead, Dead], [Dead, Dead, Dead, Dead]]);
    assert Empty(3, 4).rows[0] == e.rows[0];
    assert Empty(3, 4).rows[1] == e.rows[1];
    assert Empty(3, 4).rows[2] == e.rows[2];
  }
}
