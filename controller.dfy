/** The progress controller: the one mutable state cell holding the
    completed list, its initialisation from the stored value, and the
    toggle that replaces it. */
module ProgressController {
  import opened Curriculum
  import opened CompletedList
  import opened Experience
  import opened LevelView

  datatype Option<T> = None | Some(value: T)

  /** A completed list that only the guarded buttons produced: every key
      names a level and no key occurs twice. */
  predicate WellFormed(completed: seq<string>) {
    NoDuplicates(completed) && forall k :: k in completed ==> IsLevelKey(Levels, k)
  }

  /** Toggling a level's key keeps a list well formed. */
  lemma ToggleKeepsWellFormed(completed: seq<string>, i: nat)
    requires i < |Levels| && WellFormed(completed)
    ensures WellFormed(ToggleList(completed, Levels[i].key))
  {
    ToggleKeepsNoDuplicates(completed, Levels[i].key);
  }

  /** The initial list: what was stored when there is a stored value, the
      empty list when there is none. It is well formed whenever the stored
      list is, and always when nothing is stored. */
  function InitialList(stored: Option<seq<string>>): (r: seq<string>)
    ensures stored.None? ==> WellFormed(r)
    ensures stored.Some? && WellFormed(stored.value) ==> WellFormed(r)
  {
    match stored
    case None => []
    case Some(saved) => saved
  }

  class Controller {
    var completed: seq<string>

    ghost predicate Valid()
      reads this
    {
      WellFormed(completed)
    }

    /** Starts from the stored list, already parsed; `None` stands for a
        missing or empty stored value. */
    constructor (stored: Option<seq<string>>)
      ensures completed == InitialList(stored)
      ensures stored.None? ==> Valid()
      ensures stored.Some? && WellFormed(stored.value) ==> Valid()
    {
      completed := InitialList(stored);
    }

    /** The toggle handler: replaces the list by its toggled value. It makes
        no unlock check of its own. */
    method Toggle(key: string)
      modifies this
      ensures completed == ToggleList(old(completed), key)
    {
      completed := ToggleList(completed, key);
    }

    /** A click on level `i`'s button, which is enabled only while the level
        is unlocked. It keeps the list well formed. */
    method Click(i: nat)
      requires i < |Levels| && IsUnlocked(completed, i)
      modifies this
      ensures completed == ToggleList(old(completed), Levels[i].key)
      ensures old(Valid()) ==> Valid()
    {
      ghost var before := completed;
      Toggle(Levels[i].key);
      if WellFormed(before) {
        ToggleKeepsWellFormed(before, i);
      }
    }
  }

  /** From an empty store only the first level is unlocked and nothing is
      earned; completing the first level earns its 100 xp and unlocks the
      second. */
  method FirstLevelScenario()
  {
    var c := new Controller(None);
    EarnedNoXP([]);
    assert EarnedXP(c.completed) == 0 && TotalXP() == 1000;
    assert IsUnlocked(c.completed, 0) && !IsUnlocked(c.completed, 1);
    c.Click(0);
    assert c.completed == ["lvl1"];
    KeyXPOfLevel("lvl1");
    EarnedXPByKeys(["lvl1"]);
    assert EarnedXP(c.completed) == 100;
    assert IsUnlocked(c.completed, 1);
  }

  /** With the first two levels stored as completed, resetting the first
      leaves the second completed but locked (its "Reset" button disabled),
      and the third still unlocked. */
  method ResetScenario()
  {
    var c := new Controller(Some(["lvl1", "lvl2"]));
    assert RemoveAll(["lvl2"], "lvl1") == ["lvl2"];
    assert RemoveAll(["lvl1", "lvl2"], "lvl1") == ["lvl2"];
    c.Click(0);
    assert c.completed == ["lvl2"];
    assert StatusOf(c.completed, 1) == Done;
    assert ButtonOf(c.completed, 1) == Button("Reset", true);
    assert IsUnlocked(c.completed, 2);
  }
}
