/** Experience points: the total over the dataset and the amount earned by
    the levels whose key is in the completed list. */
module Experience {
  import opened Curriculum
  import opened CompletedList

  /** The sum of xp over `ls` (a reduce with `acc + l.xp` starting from 0). */
  function SumXP(ls: seq<Level>): nat
  {
    if ls == [] then 0 else ls[0].xp + SumXP(ls[1..])
  }

  /** The levels of `ls` whose key occurs in `completed`, in dataset order. */
  function CompletedLevels(ls: seq<Level>, completed: seq<string>): (r: seq<Level>)
    ensures |r| <= |ls|
    ensures forall l :: l in r <==> l in ls && l.key in completed
    ensures forall l {:trigger multiset(r)[l]} :: multiset(r)[l] == if l.key in completed then multiset(ls)[l] else 0
  {
    if ls == [] then []
    else
      assert ls == [ls[0]] + ls[1..];
      if ls[0].key in completed then [ls[0]] + CompletedLevels(ls[1..], completed)
      else CompletedLevels(ls[1..], completed)
  }

  /** The xp of the whole curriculum. */
  function TotalXP(): (r: nat)
    ensures r == 1000
  {
    SumXP(Levels)
  }

  /** The xp earned with the completed list `completed`. */
  function EarnedXP(completed: seq<string>): (r: nat)
    ensures r <= TotalXP()
  {
    FilteredSumBound(Levels, completed);
    SumXP(CompletedLevels(Levels, completed))
  }

  /** The xp a single key is worth: that of the levels carrying it. */
  function KeyXP(key: string): nat
  {
    SumXP(CompletedLevels(Levels, [key]))
  }

  /** Filtering never increases the sum. */
  lemma {:induction false} FilteredSumBound(ls: seq<Level>, completed: seq<string>)
    ensures SumXP(CompletedLevels(ls, completed)) <= SumXP(ls)
  {
    if ls != [] {
      FilteredSumBound(ls[1..], completed);
    }
  }

  /** The filter sees only which dataset keys are members: two lists that
      agree on every key of `ls` select the same levels. */
  lemma {:induction false} CompletedLevelsAgree(ls: seq<Level>, a: seq<string>, b: seq<string>)
    requires forall i :: 0 <= i < |ls| ==> (ls[i].key in a <==> ls[i].key in b)
    ensures CompletedLevels(ls, a) == CompletedLevels(ls, b)
  {
    if ls != [] {
      CompletedLevelsAgree(ls[1..], a, b);
    }
  }

  /** Duplicates in the completed list, its order, and keys that name no
      level do not change the earned xp. */
  lemma EarnedXPDependsOnlyOnMembership(a: seq<string>, b: seq<string>)
    requires forall i :: 0 <= i < |Levels| ==> (Levels[i].key in a <==> Levels[i].key in b)
    ensures EarnedXP(a) == EarnedXP(b)
  {
    CompletedLevelsAgree(Levels, a, b);
  }

  /** With positive xp, a level left out of the filter makes the sum drop;
      otherwise the filter keeps everything. */
  lemma {:induction false} FilteredSumFull(ls: seq<Level>, completed: seq<string>)
    requires PositiveXP(ls)
    ensures SumXP(CompletedLevels(ls, completed)) == SumXP(ls)
        <==> forall i :: 0 <= i < |ls| ==> ls[i].key in completed
  {
    if ls != [] {
      var t := ls[1..];
      assert PositiveXP(t) by {
        forall i | 0 <= i < |t| ensures t[i].xp > 0 { assert t[i] == ls[i + 1]; }
      }
      FilteredSumFull(t, completed);
      FilteredSumBound(t, completed);
      if forall i :: 0 <= i < |t| ==> t[i].key in completed {
        if ls[0].key in completed {
          forall i | 0 <= i < |ls| ensures ls[i].key in completed {
            if i > 0 { assert ls[i] == t[i - 1]; }
          }
        }
      } else {
        var i :| 0 <= i < |t| && t[i].key !in completed;
        assert ls[i + 1] == t[i];
      }
    }
  }

  /** With positive xp, the sum of the filter is zero exactly when no key
      of `ls` is in the list. */
  lemma {:induction false} FilteredSumZero(ls: seq<Level>, completed: seq<string>)
    requires PositiveXP(ls)
    ensures SumXP(CompletedLevels(ls, completed)) == 0
        <==> forall i :: 0 <= i < |ls| ==> ls[i].key !in completed
  {
    if ls != [] {
      var t := ls[1..];
      assert PositiveXP(t) by {
        forall i | 0 <= i < |t| ensures t[i].xp > 0 { assert t[i] == ls[i + 1]; }
      }
      FilteredSumZero(t, completed);
      var r := CompletedLevels(ls, completed);
      assert r == if ls[0].key in completed then [ls[0]] + CompletedLevels(t, completed) else CompletedLevels(t, completed);
      assert SumXP(r) == (if ls[0].key in completed then ls[0].xp else 0) + SumXP(CompletedLevels(t, completed));
      if forall i :: 0 <= i < |t| ==> t[i].key !in completed {
        if ls[0].key !in completed {
          forall i | 0 <= i < |ls| ensures ls[i].key !in completed {
            if i > 0 { assert ls[i] == t[i - 1]; }
          }
        }
      } else {
        var i :| 0 <= i < |t| && t[i].key in completed;
        assert ls[i + 1] == t[i];
      }
    }
  }

  /** All the xp is earned exactly when every level key is in the list. */
  lemma EarnedAllXP(completed: seq<string>)
    ensures EarnedXP(completed) == TotalXP()
        <==> forall i :: 0 <= i < |Levels| ==> Levels[i].key in completed
  {
    LevelsWellFormed();
    FilteredSumFull(Levels, completed);
  }

  /** No xp is earned exactly when no level key is in the list. */
  lemma EarnedNoXP(completed: seq<string>)
    ensures EarnedXP(completed) == 0
        <==> forall i :: 0 <= i < |Levels| ==> Levels[i].key !in completed
  {
    LevelsWellFormed();
    FilteredSumZero(Levels, completed);
  }

  /** If `b` holds the keys of `a` plus `key` (which `a` lacks), the sum
      over `b` exceeds the sum over `a` by the xp of the levels keyed `key`. */
  lemma {:induction false} FilteredSumAddKey(ls: seq<Level>, a: seq<string>, b: seq<string>, key: string)
    requires key !in a
    requires forall i :: 0 <= i < |ls| ==> (ls[i].key in b <==> ls[i].key in a || ls[i].key == key)
    ensures SumXP(CompletedLevels(ls, b)) == SumXP(CompletedLevels(ls, a)) + SumXP(CompletedLevels(ls, [key]))
  {
    if ls != [] {
      FilteredSumAddKey(ls[1..], a, b, key);
    }
  }

  /** Toggling a key moves the earned xp by exactly the xp that key is worth:
      up when it was absent, down when it was present. */
  lemma ToggleEarnedXP(completed: seq<string>, key: string)
    ensures key !in completed ==> EarnedXP(ToggleList(completed, key)) == EarnedXP(completed) + KeyXP(key)
    ensures key in completed ==> EarnedXP(ToggleList(completed, key)) + KeyXP(key) == EarnedXP(completed)
  {
    var r := ToggleList(completed, key);
    if key !in completed {
      FilteredSumAddKey(Levels, completed, r, key);
    } else {
      FilteredSumAddKey(Levels, r, completed, key);
    }
  }

  /** In a list of levels with distinct keys, a key of the list selects just
      its own level; a string that is no key selects nothing. */
  lemma {:induction false} SingleKeyFilter(ls: seq<Level>, key: string)
    requires DistinctKeys(ls)
    ensures forall i :: 0 <= i < |ls| && ls[i].key == key ==> CompletedLevels(ls, [key]) == [ls[i]]
    ensures (forall i :: 0 <= i < |ls| ==> ls[i].key != key) ==> CompletedLevels(ls, [key]) == []
  {
    if ls != [] {
      var t := ls[1..];
      assert DistinctKeys(t) by {
        forall i, j | 0 <= i < j < |t| ensures t[i].key != t[j].key {
          assert t[i] == ls[i + 1] && t[j] == ls[j + 1];
        }
      }
      SingleKeyFilter(t, key);
      if ls[0].key == key {
        assert forall i :: 0 <= i < |t| ==> t[i].key != key by {
          forall i | 0 <= i < |t| ensures t[i].key != key { assert t[i] == ls[i + 1]; }
        }
        forall i | 0 <= i < |ls| && ls[i].key == key ensures CompletedLevels(ls, [key]) == [ls[i]] {
          assert i == 0;
        }
      } else {
        forall i | 0 <= i < |ls| && ls[i].key == key ensures CompletedLevels(ls, [key]) == [ls[i]] {
          assert ls[i] == t[i - 1];
        }
        if forall i :: 0 <= i < |ls| ==> ls[i].key != key {
          forall i | 0 <= i < |t| ensures t[i].key != key { assert t[i] == ls[i + 1]; }
        }
      }
    }
  }

  /** A level key is worth that level's xp; any other string is worth nothing. */
  lemma KeyXPOfLevel(key: string)
    ensures forall i :: 0 <= i < |Levels| && Levels[i].key == key ==> KeyXP(key) == Levels[i].xp
    ensures (forall i :: 0 <= i < |Levels| ==> Levels[i].key != key) ==> KeyXP(key) == 0
  {
    LevelsWellFormed();
    SingleKeyFilter(Levels, key);
    var picked := CompletedLevels(Levels, [key]);
    assert KeyXP(key) == SumXP(picked);
    forall i | 0 <= i < |Levels| && Levels[i].key == key ensures KeyXP(key) == Levels[i].xp {
      assert picked == [Levels[i]];
      assert SumXP([Levels[i]]) == Levels[i].xp + SumXP([]);
    }
    if forall i :: 0 <= i < |Levels| ==> Levels[i].key != key {
      assert picked == [];
    }
  }

  /** The xp of a completed list counted key by key, walking the list. */
  function ListXP(completed: seq<string>): nat
  {
    if completed == [] then 0 else KeyXP(completed[0]) + ListXP(completed[1..])
  }

  /** On a duplicate-free list, the earned xp is the sum, over the keys in
      the list, of what each key is worth. */
  lemma {:induction false} EarnedXPByKeys(completed: seq<string>)
    requires NoDuplicates(completed)
    ensures EarnedXP(completed) == ListXP(completed)
  {
    if completed == [] {
      assert CompletedLevels(Levels, []) == [];
    } else {
      var k, t := completed[0], completed[1..];
      assert completed == [k] + t;
      assert NoDuplicates(t) by {
        forall i, j | 0 <= i < j < |t| ensures t[i] != t[j] {
          assert t[i] == completed[i + 1] && t[j] == completed[j + 1];
        }
      }
      assert k !in t by {
        forall j | 0 <= j < |t| ensures t[j] != k { assert t[j] == completed[j + 1]; }
      }
      FilteredSumAddKey(Levels, t, completed, k);
      EarnedXPByKeys(t);
    }
  }
}
