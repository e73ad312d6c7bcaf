/**
 * The checkbox selection of lecture ids used by the auto-attendance pages:
 * clicking an id removes it when it is selected and appends it otherwise.
 */
module Selection {
  /** No id occurs twice. */
  predicate NoDup(s: seq<int>)
  {
    forall i, j :: 0 <= i < j < |s| ==> s[i] != s[j]
  }

  /** `prev.filter(id => id !== x)`: every occurrence of `x` removed, the rest in order. */
  function Without(s: seq<int>, x: int): (r: seq<int>)
    ensures forall y :: y in r <==> y in s && y != x
    ensures x !in s ==> r == s
    ensures |r| <= |s|
  {
    if s == [] then []
    else (if s[0] == x then [] else [s[0]]) + Without(s[1..], x)
  }

  /** The toggle of `handleCheck` and `handleChange`. */
  function Toggle(prev: seq<int>, id: int): seq<int>
  {
    if id in prev then Without(prev, id) else prev + [id]
  }

  /** A toggle flips the membership of its id and keeps every other id's. */
  lemma ToggleMembership(prev: seq<int>, id: int)
    ensures id in Toggle(prev, id) <==> id !in prev
    ensures forall y :: y != id ==> (y in Toggle(prev, id) <==> y in prev)
    ensures id !in prev ==> Toggle(prev, id) == prev + [id]
  {
  }

  /** Removing an id keeps a list duplicate-free. */
  lemma {:induction false} WithoutNoDup(s: seq<int>, x: int)
    requires NoDup(s)
    ensures NoDup(Without(s, x))
    decreases |s|
  {
    if s != [] {
      var t := s[1..];
      assert NoDup(t) by {
        forall i, j | 0 <= i < j < |t| ensures t[i] != t[j] {
          assert t[i] == s[i + 1] && t[j] == s[j + 1];
        }
      }
      WithoutNoDup(t, x);
      var rest := Without(t, x);
      if s[0] != x {
        assert s[0] !in t by {
          forall k | 0 <= k < |t| ensures t[k] != s[0] {
            assert t[k] == s[k + 1];
          }
        }
        var r := [s[0]] + rest;
        forall i, j | 0 <= i < j < |r| ensures r[i] != r[j] {
          if i == 0 {
            assert r[j] == rest[j - 1] && rest[j - 1] in rest;
          } else {
            assert r[i] == rest[i - 1] && r[j] == rest[j - 1];
          }
        }
      } else {
        assert Without(s, x) == rest;
      }
    }
  }

  /** Toggling keeps a list duplicate-free. */
  lemma ToggleNoDup(prev: seq<int>, id: int)
    requires NoDup(prev)
    ensures NoDup(Toggle(prev, id))
  {
    if id in prev {
      WithoutNoDup(prev, id);
    } else {
      var r := prev + [id];
      forall i, j | 0 <= i < j < |r| ensures r[i] != r[j] {
        if j == |prev| {
          assert r[i] == prev[i];
        } else {
          assert r[i] == prev[i] && r[j] == prev[j];
        }
      }
    }
  }

  /** Removing `x` takes away all its copies and nothing else. */
  lemma {:induction false} WithoutMultiset(s: seq<int>, x: int)
    ensures multiset(Without(s, x)) == multiset(s)[x := 0]
    decreases |s|
  {
    if s != [] {
      WithoutMultiset(s[1..], x);
      assert s == [s[0]] + s[1..];
      assert multiset(s) == multiset{s[0]} + multiset(s[1..]);
    }
  }

  /** In a duplicate-free list a present id occurs exactly once. */
  lemma {:induction false} NoDupCount(s: seq<int>, x: int)
    requires NoDup(s) && x in s
    ensures multiset(s)[x] == 1
    decreases |s|
  {
    var t := s[1..];
    assert s == [s[0]] + t;
    assert multiset(s) == multiset{s[0]} + multiset(t);
    assert NoDup(t) by {
      forall i, j | 0 <= i < j < |t| ensures t[i] != t[j] {
        assert t[i] == s[i + 1] && t[j] == s[j + 1];
      }
    }
    if s[0] == x {
      assert x !in t by {
        forall k | 0 <= k < |t| ensures t[k] != x {
          assert t[k] == s[k + 1];
        }
      }
    } else {
      NoDupCount(t, x);
    }
  }

  /**
   * Toggling the same id twice brings back the same set of ids; an id that
   * was absent leaves exactly the old list, and on a duplicate-free list a
   * present id comes back at the end, so the ids are the old ones, each
   * once.
   */
  lemma ToggleTwice(prev: seq<int>, id: int)
    ensures forall y :: y in Toggle(Toggle(prev, id), id) <==> y in prev
    ensures id !in prev ==> Toggle(Toggle(prev, id), id) == prev
    ensures id in prev ==> Toggle(Toggle(prev, id), id) == Without(prev, id) + [id]
    ensures NoDup(prev) ==> multiset(Toggle(Toggle(prev, id), id)) == multiset(prev)
  {
    if id !in prev {
      assert id in prev + [id];
      WithoutAppend(prev, id);
    } else {
      var once := Without(prev, id);
      assert id !in once;
      if NoDup(prev) {
        WithoutMultiset(prev, id);
        NoDupCount(prev, id);
        assert multiset(once + [id]) == multiset(once) + multiset{id};
        assert multiset(prev)[id := 0] + multiset{id} == multiset(prev);
      }
    }
  }

  /** Removing an id that was just appended to a list without it gives the list back. */
  lemma {:induction false} WithoutAppend(s: seq<int>, x: int)
    requires x !in s
    ensures Without(s + [x], x) == s
    decreases |s|
  {
    if s == [] {
      assert [x][1..] == [];
    } else {
      assert (s + [x])[0] == s[0];
      assert (s + [x])[1..] == s[1..] + [x];
      WithoutAppend(s[1..], x);
    }
  }
}
