/** Rules for which tiles may be placed next to which, per direction. */
module Adjacency {

  import opened Geometry

  /** The draft's rule table holds no data: every placement is allowed. */
  datatype AdjacencyRules = AdjacencyRules
  {
    /** Whether tile `to` may be placed in direction `dir` from tile `from`. */
    function IsAllowed(from: TileIndex, to: TileIndex, dir: Direction): (allowed: bool)
      ensures allowed
    {
      true
    }
  }

  /** Placing `b` in direction `d` from `a` is allowed exactly when placing
      `a` in the opposite direction from `b` is. */
  lemma IsAllowedSymmetric(rules: AdjacencyRules, a: TileIndex, b: TileIndex, d: Direction)
    ensures rules.IsAllowed(a, b, d) == rules.IsAllowed(b, a, Opposite(d))
  {
  }
}
