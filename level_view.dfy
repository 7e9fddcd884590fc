/** What each level card shows: whether it is unlocked and completed, the
    status glyph chosen from those two, and the toggle button's label and
    disabled flag. All are pure functions of the completed list. */
module LevelView {
  import opened Curriculum
  import opened CompletedList

  /** The status glyph of a card: a check mark, a flame or a padlock. */
  datatype Status = Done | Open | Locked

  /** The toggle button of a card. */
  datatype Button = Button(text: string, disabled: bool)

  /** Level `i` is unlocked when it is the first level or its immediate
      predecessor's key is in the completed list. */
  function IsUnlocked(completed: seq<string>, i: nat): (r: bool)
    requires i < |Levels|
    ensures i == 0 ==> r
    ensures 0 < i ==> (r <==> IsCompleted(completed, i - 1))
  {
    i == 0 || Levels[i - 1].key in completed
  }

  /** Level `i` is completed when its own key is in the completed list. */
  function IsCompleted(completed: seq<string>, i: nat): bool
    requires i < |Levels|
  {
    Levels[i].key in completed
  }

  /** The glyph: completed wins over unlocked, which wins over locked. */
  function StatusOf(completed: seq<string>, i: nat): (r: Status)
    requires i < |Levels|
    ensures r == Done <==> IsCompleted(completed, i)
    ensures r == Open <==> !IsCompleted(completed, i) && IsUnlocked(completed, i)
    ensures r == Locked <==> !IsCompleted(completed, i) && !IsUnlocked(completed, i)
  {
    if IsCompleted(completed, i) then Done
    else if IsUnlocked(completed, i) then Open
    else Locked
  }

  /** The button reads "Reset" on a completed level and "Complete" otherwise,
      and is disabled exactly when the level is locked. */
  function ButtonOf(completed: seq<string>, i: nat): (r: Button)
    requires i < |Levels|
    ensures r.text == "Reset" <==> IsCompleted(completed, i)
    ensures r.text == "Complete" <==> !IsCompleted(completed, i)
    ensures r.disabled <==> !IsUnlocked(completed, i)
  {
    Button(if IsCompleted(completed, i) then "Reset" else "Complete", !IsUnlocked(completed, i))
  }

  /** The keys of `ls`, in order. */
  function KeysOf(ls: seq<Level>): (r: seq<string>)
    ensures |r| == |ls|
    ensures forall i :: 0 <= i < |ls| ==> r[i] == ls[i].key
  {
    if ls == [] then [] else [ls[0].key] + KeysOf(ls[1..])
  }

  /** A toggle of `key` changes the completion of the level keyed `key` and
      nothing else, and the unlock state of the level after it and nothing
      else: no other card changes. */
  lemma ToggleIsLocal(completed: seq<string>, key: string, i: nat)
    requires i < |Levels|
    ensures IsCompleted(ToggleList(completed, key), i) != IsCompleted(completed, i)
        <==> Levels[i].key == key
    ensures IsUnlocked(ToggleList(completed, key), i) != IsUnlocked(completed, i)
        <==> 0 < i && Levels[i - 1].key == key
  {
  }

  /** There is no cascade: a completed level whose predecessor is not
      completed shows the completed glyph and a "Reset" button, but the
      button is disabled, so it cannot be reset until the predecessor is
      completed again. */
  lemma CompletedButLocked(completed: seq<string>, i: nat)
    requires 0 < i < |Levels|
    requires Levels[i].key in completed && Levels[i - 1].key !in completed
    ensures StatusOf(completed, i) == Done
    ensures ButtonOf(completed, i) == Button("Reset", true)
  {
  }

  /** Completing the levels strictly in order: after the first `j` levels,
      exactly those are completed and exactly the first `j + 1` are unlocked. */
  lemma SequentialProgress(j: nat, i: nat)
    requires j <= |Levels| && i < |Levels|
    ensures IsCompleted(KeysOf(Levels[..j]), i) <==> i < j
    ensures IsUnlocked(KeysOf(Levels[..j]), i) <==> i <= j
  {
  }

  /** Completing the next level in order extends the list of the first `j`
      keys by that level's key, so from the empty list the buttons clicked
      in order produce exactly the lists `SequentialProgress` speaks of. */
  lemma InOrderStep(j: nat)
    requires j < |Levels|
    ensures ToggleList(KeysOf(Levels[..j]), Levels[j].key) == KeysOf(Levels[..j + 1])
  {
    LevelsWellFormed();
    assert Levels[j].key !in KeysOf(Levels[..j]);
    assert Levels[..j + 1] == Levels[..j] + [Levels[j]];
  }
}
