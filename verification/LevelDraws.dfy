/** How both skip lists choose the level of a new node. */
module LevelDraws {
  /** Levels are handed out one at a time: a draw past the top opens the next level only. The
      results are the new node's level and the new number of levels in use. */
  function NextLevel(draw: nat, levels: nat): (r: (nat, nat))
    ensures r.0 <= draw && r.0 < r.1 && levels <= r.1 <= levels + 1
    ensures r.0 == draw <==> draw <= levels
    ensures r.1 == levels <==> draw < levels
  {
    if draw < levels then (draw, levels) else (levels, levels + 1)
  }

  /** The draw of the default generator: clamped to `numLevels`, which is one past the last
      linked level. */
  function Clamped(raw: nat, numLevels: nat): nat {
    if raw < numLevels then raw else numLevels
  }

  /** The new node stays on linked levels exactly when the draw is below `numLevels` or a level
      is still unused. So the default generator is safe for every random number exactly until
      the list is `numLevels` high. */
  lemma {:induction false} NextLevelIsLinked(draw: nat, levels: nat, numLevels: nat)
    requires levels <= numLevels
    ensures NextLevel(draw, levels).1 <= numLevels <==> draw < numLevels || levels < numLevels
    ensures (forall raw: nat :: NextLevel(Clamped(raw, numLevels), levels).1 <= numLevels) <==> levels < numLevels
  {
    if levels == numLevels {
      assert NextLevel(Clamped(numLevels, numLevels), levels).1 > numLevels;
    }
  }
}
