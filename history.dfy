/**
 * The search-history reducer of MobileApp/reducers/historyReducer.js: a list of
 * searched IP strings, most recent first, without duplicates.
 */
module History {
  import opened Optional

  /** A dispatched action: its `type` string and its `payload`. */
  datatype HistoryAction = HistoryAction(kind: string, payload: string)

  const ADD_SEARCH: string := "ADD_SEARCH"
  const CLEAR_HISTORY: string := "CLEAR_HISTORY"

  predicate NoDuplicates(s: seq<string>)
  {
    forall i, j :: 0 <= i < j < |s| ==> s[i] != s[j]
  }

  /**
   * `[...new Set(s)]`: the Set is filled from `s` left to right, a value
   * already present is not inserted again, and spreading the Set lists its
   * values in insertion order. So each value keeps its first occurrence.
   */
  function Dedup(s: seq<string>): (r: seq<string>)
    ensures NoDuplicates(r)
    ensures forall x :: x in r <==> x in s
    ensures |r| <= |s|
    ensures s != [] ==> |r| > 0 && r[0] == s[0]
  {
    if s == [] then []
    else
      var kept := Dedup(s[..|s| - 1]);
      if s[|s| - 1] in kept then kept else kept + [s[|s| - 1]]
  }

  /** The elements of `s` other than `x`, in their order in `s`. */
  function Without(s: seq<string>, x: string): (r: seq<string>)
    ensures forall y :: y in r <==> y in s && y != x
    ensures |r| <= |s|
  {
    if s == [] then [] else (if s[0] == x then [] else [s[0]]) + Without(s[1..], x)
  }

  /** `historyReducer(state, action)` for a given state. */
  function Reduce(state: seq<string>, action: HistoryAction): (r: seq<string>)
    ensures action.kind == ADD_SEARCH ==>
      && |r| > 0 && r[0] == action.payload
      && NoDuplicates(r)
      && forall x :: x in r <==> x == action.payload || x in state
    ensures action.kind == CLEAR_HISTORY ==> r == []
    ensures action.kind != ADD_SEARCH && action.kind != CLEAR_HISTORY ==> r == state
  {
    if action.kind == ADD_SEARCH then
      AddMovesToFront(state, action.payload);
      Dedup([action.payload] + state)
    else if action.kind == CLEAR_HISTORY then []
    else state
  }

  /** `historyReducer(state = [], action)`: an omitted (undefined) state is the empty list. */
  function HistoryReducer(state: Option<seq<string>>, action: HistoryAction): (r: seq<string>)
    ensures state.None? ==> r == Reduce([], action)
    ensures state.Some? ==> r == Reduce(state.value, action)
  {
    Reduce(if state.Some? then state.value else [], action)
  }

  lemma {:induction false} WithoutAppend(a: seq<string>, b: seq<string>, x: string)
    ensures Without(a + b, x) == Without(a, x) + Without(b, x)
  {
    if a != [] {
      assert (a + b)[0] == a[0] && (a + b)[1..] == a[1..] + b;
      WithoutAppend(a[1..], b, x);
      var head := if a[0] == x then [] else [a[0]];
      assert Without(a + b, x) == head + (Without(a[1..], x) + Without(b, x));
      assert head + (Without(a[1..], x) + Without(b, x)) == (head + Without(a[1..], x)) + Without(b, x);
    } else {
      assert a + b == b;
    }
  }

  lemma {:induction false} WithoutTwice(s: seq<string>, x: string)
    ensures Without(Without(s, x), x) == Without(s, x)
  {
    if s != [] {
      WithoutTwice(s[1..], x);
      var w := Without(s, x);
      if s[0] != x {
        assert w == [s[0]] + Without(s[1..], x);
        assert w[0] == s[0] && w[1..] == Without(s[1..], x);
      } else {
        assert w == Without(s[1..], x);
      }
    }
  }

  /** Removing a value from a duplicate-free list shortens it by one exactly when the value is there. */
  lemma {:induction false} WithoutLength(s: seq<string>, x: string)
    requires NoDuplicates(s)
    ensures |Without(s, x)| == if x in s then |s| - 1 else |s|
  {
    if s != [] {
      assert NoDuplicates(s[1..]) by {
        forall i, j | 0 <= i < j < |s[1..]| ensures s[1..][i] != s[1..][j] {
          assert s[1..][i] == s[i + 1] && s[1..][j] == s[j + 1];
        }
      }
      WithoutLength(s[1..], x);
      if s[0] == x {
        assert x !in s[1..] by {
          forall k | 0 <= k < |s[1..]| ensures s[1..][k] != x {
            assert s[1..][k] == s[k + 1];
          }
        }
      } else {
        assert x in s <==> x in s[1..] by {
          assert s == [s[0]] + s[1..];
        }
      }
    }
  }

  /** On a duplicate-free list, `new Set` keeps every element in place. */
  lemma {:induction false} DedupOfNoDuplicates(s: seq<string>)
    requires NoDuplicates(s)
    ensures Dedup(s) == s
  {
    if s != [] {
      var init := s[..|s| - 1];
      assert NoDuplicates(init) by {
        forall i, j | 0 <= i < j < |init| ensures init[i] != init[j] {
          assert init[i] == s[i] && init[j] == s[j];
        }
      }
      DedupOfNoDuplicates(init);
      assert s[|s| - 1] !in init by {
        forall k | 0 <= k < |init| ensures init[k] != s[|s| - 1] {
          assert init[k] == s[k];
        }
      }
      assert init + [s[|s| - 1]] == s;
    }
  }

  /**
   * Prepending `p` and removing duplicates moves `p` to the front and leaves
   * every other distinct entry in its first-occurrence order.
   */
  lemma {:induction false} AddMovesToFront(s: seq<string>, p: string)
    ensures Dedup([p] + s) == [p] + Without(Dedup(s), p)
  {
    if s == [] {
      assert [p] + s == [p];
      assert Dedup([p][..0]) == [];
    } else {
      var init, x := s[..|s| - 1], s[|s| - 1];
      assert ([p] + s)[..|[p] + s| - 1] == [p] + init;
      assert ([p] + s)[|[p] + s| - 1] == x;
      AddMovesToFront(init, p);
      var q := Dedup(init);
      assert Dedup(s) == if x in q then q else q + [x];
      if x != p && x !in q {
        WithoutAppend(q, [x], p);
        assert Without([x], p) == [x];
      } else if x == p && x !in q {
        WithoutAppend(q, [x], p);
        assert Without([x], p) == [];
      }
    }
  }

  /** `ADD_SEARCH` described as a move to the front, for a history that has no duplicates. */
  lemma AddToDistinctHistory(s: seq<string>, p: string)
    requires NoDuplicates(s)
    ensures Reduce(s, HistoryAction(ADD_SEARCH, p)) == [p] + Without(s, p)
  {
    AddMovesToFront(s, p);
    DedupOfNoDuplicates(s);
  }

  /** Adding the same entry a second time changes nothing. */
  lemma AddIdempotent(s: seq<string>, p: string)
    ensures var once := Reduce(s, HistoryAction(ADD_SEARCH, p));
            Reduce(once, HistoryAction(ADD_SEARCH, p)) == once
  {
    var once := Reduce(s, HistoryAction(ADD_SEARCH, p));
    AddMovesToFront(s, p);
    AddToDistinctHistory(once, p);
    assert ([p] + Without(Dedup(s), p))[1..] == Without(Dedup(s), p);
    WithoutTwice(Dedup(s), p);
  }

  /** On a duplicate-free history the length grows by one exactly when the payload is new. */
  lemma AddLength(s: seq<string>, p: string)
    requires NoDuplicates(s)
    ensures |Reduce(s, HistoryAction(ADD_SEARCH, p))| == if p in s then |s| else |s| + 1
  {
    AddToDistinctHistory(s, p);
    WithoutLength(s, p);
  }

  /** `["a", "b"]` followed by `ADD_SEARCH "b"` is `["b", "a"]`. */
  lemma ReAddMovesExample()
    ensures Reduce(["a", "b"], HistoryAction(ADD_SEARCH, "b")) == ["b", "a"]
  {
    AddToDistinctHistory(["a", "b"], "b");
    assert Without(["a", "b"], "b") == ["a"] by {
      assert ["a", "b"][1..] == ["b"];
    }
  }

  /** Adding `"1.1.1.1"` twice to an empty history leaves one entry. */
  lemma AddTwiceExample()
    ensures var once := Reduce([], HistoryAction(ADD_SEARCH, "1.1.1.1"));
            Reduce(once, HistoryAction(ADD_SEARCH, "1.1.1.1")) == ["1.1.1.1"]
  {
    AddToDistinctHistory([], "1.1.1.1");
    AddIdempotent([], "1.1.1.1");
  }
}
