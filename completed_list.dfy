/** The completed list: the sequence of level keys the user has marked done,
    and the update that a toggle applies to it. */
module CompletedList {

  /** `s` holds no key twice. */
  predicate NoDuplicates(s: seq<string>) {
    forall i, j :: 0 <= i < j < |s| ==> s[i] != s[j]
  }

  /** The list `s` with every occurrence of `k` filtered out. */
  function RemoveAll(s: seq<string>, k: string): (r: seq<string>)
    ensures k !in r
    ensures forall x :: x in r <==> x in s && x != k
    ensures multiset(r) == multiset(s)[k := 0]
    ensures |r| <= |s|
  {
    if s == [] then []
    else
      assert s == [s[0]] + s[1..];
      if s[0] == k then RemoveAll(s[1..], k)
      else [s[0]] + RemoveAll(s[1..], k)
  }

  /** The update a toggle of `key` applies: a present key is filtered out,
      an absent key is appended at the end. No unlock check is made here. */
  function ToggleList(s: seq<string>, key: string): (r: seq<string>)
    ensures key in r <==> key !in s
    ensures forall x :: x != key ==> (x in r <==> x in s)
    ensures key !in s ==> r == s + [key]
    ensures key in s ==> multiset(r) == multiset(s)[key := 0]
  {
    if key in s then RemoveAll(s, key) else s + [key]
  }

  /** Filtering a key that does not occur gives back the same list. */
  lemma {:induction false} RemoveAllAbsent(s: seq<string>, k: string)
    requires k !in s
    ensures RemoveAll(s, k) == s
  {
    if s != [] {
      RemoveAllAbsent(s[1..], k);
    }
  }

  /** Filtering distributes over concatenation: every kept element stays in
      its original relative order. */
  lemma {:induction false} RemoveAllAppend(a: seq<string>, b: seq<string>, k: string)
    ensures RemoveAll(a + b, k) == RemoveAll(a, k) + RemoveAll(b, k)
  {
    if a == [] {
      assert a + b == b;
    } else {
      assert (a + b)[0] == a[0];
      assert (a + b)[1..] == a[1..] + b;
      RemoveAllAppend(a[1..], b, k);
    }
  }

  /** Any two elements of `s` that differ from `k` both appear in the
      filtered list, the earlier one before the later one. (The exact
      order of the whole result follows from `RemoveAllAppend`.) */
  lemma {:induction false} RemoveAllKeepsOrder(s: seq<string>, k: string, i: nat, j: nat)
    requires i < j < |s| && s[i] != k && s[j] != k
    ensures exists p, q :: 0 <= p < q < |RemoveAll(s, k)| && RemoveAll(s, k)[p] == s[i] && RemoveAll(s, k)[q] == s[j]
  {
    var front, back := s[..j], s[j..];
    assert s == front + back;
    RemoveAllAppend(front, back, k);
    assert front == front[..i] + front[i..];
    RemoveAllAppend(front[..i], front[i..], k);
    assert front[i..][0] == s[i];
    assert RemoveAll(front[i..], k)[0] == s[i];
    assert back[0] == s[j];
    assert RemoveAll(back, k)[0] == s[j];
    var r := RemoveAll(s, k);
    var p := |RemoveAll(front[..i], k)|;
    var q := |RemoveAll(front, k)|;
    assert r == RemoveAll(front[..i], k) + RemoveAll(front[i..], k) + RemoveAll(back, k);
    assert r[p] == s[i];
    assert r[q] == s[j];
  }

  /** Toggling an absent key twice in a row restores the original list exactly. */
  lemma ToggleTwiceAbsent(s: seq<string>, key: string)
    requires key !in s
    ensures ToggleList(ToggleList(s, key), key) == s
  {
    RemoveAllAppend(s, [key], key);
    RemoveAllAbsent(s, key);
    assert RemoveAll([key], key) == [];
  }

  /** On a duplicate-free list holding the key, toggling twice restores the
      same keys, with that key moved to the end. */
  lemma ToggleTwicePresent(s: seq<string>, key: string)
    requires NoDuplicates(s) && key in s
    ensures ToggleList(ToggleList(s, key), key) == RemoveAll(s, key) + [key]
    ensures multiset(ToggleList(ToggleList(s, key), key)) == multiset(s)
    ensures NoDuplicates(ToggleList(ToggleList(s, key), key))
  {
    var once := RemoveAll(s, key);
    assert ToggleList(s, key) == once;
    assert ToggleList(once, key) == once + [key];
    ToggleKeepsNoDuplicates(s, key);
    ToggleKeepsNoDuplicates(once, key);
    NoDuplicatesMultiplicity(s, key);
    MultisetPutBack(s, once, key);
  }

  /** Putting back the single occurrence a filter removed restores the multiset. */
  lemma MultisetPutBack(s: seq<string>, r: seq<string>, key: string)
    requires multiset(s)[key] == 1 && multiset(r) == multiset(s)[key := 0]
    ensures multiset(r + [key]) == multiset(s)
  {
  }

  /** A key of a duplicate-free list occurs exactly once. */
  lemma {:induction false} NoDuplicatesMultiplicity(s: seq<string>, key: string)
    requires NoDuplicates(s) && key in s
    ensures multiset(s)[key] == 1
  {
    assert s == [s[0]] + s[1..];
    assert NoDuplicates(s[1..]) by {
      forall i, j | 0 <= i < j < |s[1..]| ensures s[1..][i] != s[1..][j] {
        assert s[1..][i] == s[i + 1] && s[1..][j] == s[j + 1];
      }
    }
    if s[0] == key {
      assert key !in s[1..] by {
        forall j | 0 <= j < |s[1..]| ensures s[1..][j] != key {
          assert s[1..][j] == s[j + 1];
        }
      }
    } else {
      NoDuplicatesMultiplicity(s[1..], key);
    }
  }

  /** A list is duplicate-free exactly when every key occurs at most once in it. */
  lemma {:induction false} NoDuplicatesByMultiset(s: seq<string>)
    ensures NoDuplicates(s) <==> forall x :: multiset(s)[x] <= 1
  {
    if s == [] {
    } else {
      var t := s[1..];
      assert s == [s[0]] + t;
      NoDuplicatesByMultiset(t);
      if NoDuplicates(s) {
        assert NoDuplicates(t) by {
          forall i, j | 0 <= i < j < |t| ensures t[i] != t[j] {
            assert t[i] == s[i + 1] && t[j] == s[j + 1];
          }
        }
        assert s[0] !in t by {
          forall j | 0 <= j < |t| ensures t[j] != s[0] {
            assert t[j] == s[j + 1];
          }
        }
      }
      if forall x :: multiset(s)[x] <= 1 {
        assert forall x :: multiset(t)[x] <= multiset(s)[x];
        assert s[0] !in t by {
          assert multiset(s)[s[0]] == multiset(t)[s[0]] + 1;
        }
        forall i, j | 0 <= i < j < |s| ensures s[i] != s[j] {
          if i == 0 {
            assert s[j] == t[j - 1];
          } else {
            assert s[i] == t[i - 1] && s[j] == t[j - 1];
          }
        }
      }
    }
  }

  /** A toggle keeps a duplicate-free list duplicate-free. */
  lemma ToggleKeepsNoDuplicates(s: seq<string>, key: string)
    requires NoDuplicates(s)
    ensures NoDuplicates(ToggleList(s, key))
  {
    var r := ToggleList(s, key);
    NoDuplicatesByMultiset(s);
    NoDuplicatesByMultiset(r);
    if key !in s {
      assert multiset(r) == multiset(s) + multiset{key};
    } else {
      assert forall x :: multiset(r)[x] <= multiset(s)[x];
    }
  }
}
