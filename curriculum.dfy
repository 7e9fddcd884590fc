/** The curriculum dataset: a fixed, ordered list of levels. Only the key
    and the xp reward of a level take part in the progress logic; titles,
    descriptions, examples and resource links are display data. */
module Curriculum {

  /** One curriculum unit: its stable key and the experience points it awards. */
  datatype Level = Level(key: string, xp: nat)

  /** The shipped dataset, in declaration order. The order is the unlock chain. */
  const Levels: seq<Level> := [
    Level("lvl1", 100),
    Level("lvl2", 150),
    Level("lvl3", 200),
    Level("lvl4", 250),
    Level("lvl5", 300)
  ]

  /** No two levels of `ls` share a key. */
  predicate DistinctKeys(ls: seq<Level>) {
    forall i, j :: 0 <= i < j < |ls| ==> ls[i].key != ls[j].key
  }

  /** Every level of `ls` awards a positive amount of xp. */
  predicate PositiveXP(ls: seq<Level>) {
    forall i :: 0 <= i < |ls| ==> ls[i].xp > 0
  }

  /** `k` is the key of some level of `ls`. */
  predicate IsLevelKey(ls: seq<Level>, k: string) {
    exists i :: 0 <= i < |ls| && ls[i].key == k
  }

  /** The dataset has five levels with pairwise distinct keys and positive xp. */
  lemma LevelsWellFormed()
    ensures |Levels| == 5
    ensures DistinctKeys(Levels) && PositiveXP(Levels)
  {
  }
}
