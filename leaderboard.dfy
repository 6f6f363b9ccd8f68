/**
 * The top-ten leaderboard of reaction times (add_to_leaderboard in
 * streamlit_app.py): append the new (name, score) pair, sort stably by
 * score in ascending order, keep the first ten.
 *
 * Scores are integers (clock ticks); only `<=` and `<` are used on them,
 * as the source only compares them.
 */
module Leaderboard {

  datatype Option<T> = None | Some(value: T)

  /** One row of the board: who reacted, and how long it took. */
  datatype Entry = Entry(name: string, score: int)

  /** How many rows the board keeps (the `[:10]` slice). */
  const Capacity: nat := 10

  predicate SortedByScore(s: seq<Entry>) {
    forall i, j :: 0 <= i < j < |s| ==> s[i].score <= s[j].score
  }

  /** The entries of `s` whose score is `k`, in the order they have in `s`. */
  function WithScore(s: seq<Entry>, k: int): seq<Entry> {
    if s == [] then []
    else (if s[0].score == k then [s[0]] else []) + WithScore(s[1..], k)
  }

  /**
   * What a stable sort by score promises: `r` is sorted by score, and for
   * every score the entries carrying it come in the same order as in `s`.
   */
  ghost predicate IsStableSortOf(r: seq<Entry>, s: seq<Entry>) {
    SortedByScore(r) && forall k :: WithScore(r, k) == WithScore(s, k)
  }

  /** The number of entries of `s` whose score is at most `x`. */
  function CountAtMost(s: seq<Entry>, x: int): (n: nat)
    ensures n <= |s|
  {
    if s == [] then 0
    else (if s[0].score <= x then 1 else 0) + CountAtMost(s[1..], x)
  }

  /**
   * Puts `e` in front of the first entry whose score is strictly greater,
   * so it lands after every entry whose score is equal to its own.
   */
  function Insert(s: seq<Entry>, e: Entry): (r: seq<Entry>)
    ensures |r| == |s| + 1
  {
    if s == [] || e.score < s[0].score then [e] + s
    else [s[0]] + Insert(s[1..], e)
  }

  /** Insert adds `e` and keeps every entry of `s`. */
  lemma {:induction false} InsertMultiset(s: seq<Entry>, e: Entry)
    ensures multiset(Insert(s, e)) == multiset(s) + multiset{e}
  {
    if s != [] && s[0].score <= e.score {
      InsertMultiset(s[1..], e);
      assert s == [s[0]] + s[1..];
    }
  }

  /** Python's `sorted(s, key=score)`, written as a stable insertion sort. */
  function StableSort(s: seq<Entry>): (r: seq<Entry>)
    ensures |r| == |s|
  {
    if s == [] then []
    else Insert(StableSort(s[..|s| - 1]), s[|s| - 1])
  }

  /** The sort returns the same entries, in score order. */
  lemma {:induction false} StableSortSorted(s: seq<Entry>)
    ensures SortedByScore(StableSort(s))
    ensures multiset(StableSort(s)) == multiset(s)
  {
    if s != [] {
      var init, last := s[..|s| - 1], s[|s| - 1];
      assert s == init + [last];
      StableSortSorted(init);
      InsertKeepsSorted(StableSort(init), last);
      InsertMultiset(StableSort(init), last);
    }
  }

  /** The `[:10]` slice: the first `Capacity` entries, or all of them. */
  function Truncate(s: seq<Entry>): (r: seq<Entry>)
    ensures |r| == if |s| <= Capacity then |s| else Capacity
    ensures r == s[..|r|]
  {
    if |s| <= Capacity then s else s[..Capacity]
  }

  /** A missing or empty board both stand for the empty board. */
  function Board(stored: Option<seq<Entry>>): (b: seq<Entry>)
    ensures stored.Some? ==> b == stored.value
    ensures stored.None? ==> b == []
  {
    if stored.None? || stored.value == [] then [] else stored.value
  }

  /**
   * The board after `e` is added to `board` (lines 22-24): one row longer,
   * unless the old board already had ten rows.
   */
  function Ranked(board: seq<Entry>, e: Entry): (r: seq<Entry>)
    ensures |r| == if |board| < Capacity then |board| + 1 else Capacity
  {
    Truncate(StableSort(board + [e]))
  }

  /**
   * Whatever the old board, the new one has at most ten rows, is sorted,
   * invents nothing, and loses nothing unless the old board was full.
   */
  lemma RankedBounded(board: seq<Entry>, e: Entry)
    ensures var r := Ranked(board, e);
      && |r| <= Capacity
      && SortedByScore(r)
      && |r| == (if |board| < Capacity then |board| + 1 else Capacity)
      && multiset(r) <= multiset(board) + multiset{e}
      && (|board| < Capacity ==> multiset(r) == multiset(board) + multiset{e})
  {
    var sorted := StableSort(board + [e]);
    StableSortSorted(board + [e]);
    assert multiset(board + [e]) == multiset(board) + multiset{e};
    if |sorted| > Capacity {
      assert sorted == sorted[..Capacity] + sorted[Capacity..];
    }
  }

  /** The first entry added to a missing or empty board is the whole board. */
  lemma FirstEntry(e: Entry)
    ensures Ranked(Board(None), e) == [e]
    ensures Ranked(Board(Some([])), e) == [e]
  {
  }

  // ---------------------------------------------------------------------
  // Facts about WithScore

  lemma {:induction false} WithScoreAppend(a: seq<Entry>, b: seq<Entry>, k: int)
    ensures WithScore(a + b, k) == WithScore(a, k) + WithScore(b, k)
  {
    if a == [] {
      assert a + b == b;
    } else {
      var h := if a[0].score == k then [a[0]] else [];
      assert (a + b)[1..] == a[1..] + b;
      assert WithScore(a + b, k) == h + WithScore(a[1..] + b, k);
      WithScoreAppend(a[1..], b, k);
    }
  }

  lemma {:induction false} WithScoreEmpty(s: seq<Entry>, k: int)
    ensures WithScore(s, k) == [] <==> forall i :: 0 <= i < |s| ==> s[i].score != k
  {
    if s != [] {
      WithScoreEmpty(s[1..], k);
      assert forall i :: 1 <= i < |s| ==> s[i] == s[1..][i - 1];
    }
  }

  // ---------------------------------------------------------------------
  // Insert

  lemma InsertKeepsSorted(s: seq<Entry>, e: Entry)
    requires SortedByScore(s)
    ensures SortedByScore(Insert(s, e))
  {
    var k := CountAtMost(s, e.score);
    InsertPosition(s, e);
    CountAtMostSplits(s, e.score);
    var r := s[..k] + [e] + s[k..];
    forall i, j | 0 <= i < j < |r| ensures r[i].score <= r[j].score {
      assert r[i] == if i < k then s[i] else if i == k then e else s[i - 1];
      assert r[j] == if j < k then s[j] else if j == k then e else s[j - 1];
    }
  }

  /** Inserting into a sorted sequence adds `e` to the run of its own score, at the end. */
  lemma {:induction false} InsertWithScore(s: seq<Entry>, e: Entry, k: int)
    requires SortedByScore(s)
    ensures WithScore(Insert(s, e), k) == WithScore(s, k) + (if e.score == k then [e] else [])
  {
    if s == [] {
    } else if e.score < s[0].score {
      assert ([e] + s)[1..] == s;
      if e.score == k {
        WithScoreEmpty(s, k);
      }
    } else {
      var t, h := s[1..], if s[0].score == k then [s[0]] else [];
      assert SortedByScore(t);
      InsertWithScore(t, e, k);
      assert Insert(s, e) == [s[0]] + Insert(t, e);
      assert ([s[0]] + Insert(t, e))[1..] == Insert(t, e);
      assert WithScore(Insert(s, e), k) == h + WithScore(Insert(t, e), k);
      assert WithScore(s, k) == h + WithScore(t, k);
    }
  }

  /** Insert puts `e` right after the entries whose score is at most its own. */
  lemma {:induction false} InsertPosition(s: seq<Entry>, e: Entry)
    requires SortedByScore(s)
    ensures var k := CountAtMost(s, e.score);
      Insert(s, e) == s[..k] + [e] + s[k..]
  {
    if s == [] {
    } else if e.score < s[0].score {
      CountAtMostNone(s, e.score);
    } else {
      var t := s[1..];
      assert SortedByScore(t);
      InsertPosition(t, e);
      var k' := CountAtMost(t, e.score);
      assert Insert(s, e) == [s[0]] + Insert(t, e);
      assert s[..k' + 1] == [s[0]] + t[..k'];
      assert s[k' + 1..] == t[k'..];
    }
  }

  /**
   * In a sorted board the entries with score at most `x` are exactly the
   * first CountAtMost of them.
   */
  lemma {:induction false} CountAtMostSplits(s: seq<Entry>, x: int)
    requires SortedByScore(s)
    ensures var k := CountAtMost(s, x);
      && (forall i :: 0 <= i < k ==> s[i].score <= x)
      && (forall i :: k <= i < |s| ==> x < s[i].score)
  {
    if s == [] {
    } else if x < s[0].score {
      CountAtMostNone(s, x);
    } else {
      var t := s[1..];
      assert SortedByScore(t);
      CountAtMostSplits(t, x);
      forall i | 0 < i < |s| ensures s[i] == t[i - 1] { }
    }
  }

  lemma {:induction false} CountAtMostNone(s: seq<Entry>, x: int)
    requires SortedByScore(s)
    requires s != [] && x < s[0].score
    ensures CountAtMost(s, x) == 0
  {
    if |s| > 1 {
      CountAtMostNone(s[1..], x);
    }
  }

  // ---------------------------------------------------------------------
  // StableSort is Python's stable `sorted`

  /** Sorting keeps, for every score, the entries with that score in their input order. */
  lemma {:induction false} StableSortIsStable(s: seq<Entry>, k: int)
    ensures WithScore(StableSort(s), k) == WithScore(s, k)
  {
    if s != [] {
      var init, last := s[..|s| - 1], s[|s| - 1];
      assert s == init + [last];
      StableSortIsStable(init, k);
      StableSortSorted(init);
      InsertWithScore(StableSort(init), last, k);
      WithScoreAppend(init, [last], k);
    }
  }

  /** Two sorted sequences that agree on every score's run of entries are equal. */
  lemma {:induction false} StableSortUnique(r: seq<Entry>, t: seq<Entry>)
    requires SortedByScore(r) && SortedByScore(t)
    requires forall k :: WithScore(r, k) == WithScore(t, k)
    ensures r == t
  {
    SameRunsSameEmptiness(r, t);
    if r != [] {
      var a, b := r[0].score, t[0].score;
      assert WithScore(r, a) == WithScore(t, a);
      assert WithScore(r, b) == WithScore(t, b);
      WithScoreEmpty(r, b);
      WithScoreEmpty(t, a);
      assert a == b;
      assert r[0] == WithScore(r, a)[0] == WithScore(t, a)[0] == t[0];
      forall k ensures WithScore(r[1..], k) == WithScore(t[1..], k) {
        var h := if r[0].score == k then [r[0]] else [];
        assert WithScore(r, k) == h + WithScore(r[1..], k);
        assert WithScore(t, k) == h + WithScore(t[1..], k);
        assert WithScore(r[1..], k) == WithScore(r, k)[|h|..];
        assert WithScore(t[1..], k) == WithScore(t, k)[|h|..];
      }
      StableSortUnique(r[1..], t[1..]);
      assert r == [r[0]] + r[1..] && t == [t[0]] + t[1..];
    }
  }

  lemma SameRunsSameEmptiness(r: seq<Entry>, t: seq<Entry>)
    requires forall k :: WithScore(r, k) == WithScore(t, k)
    ensures r == [] <==> t == []
  {
    if r != [] {
      assert WithScore(t, r[0].score) == WithScore(r, r[0].score) != [];
    }
    if t != [] {
      assert WithScore(r, t[0].score) == WithScore(t, t[0].score) != [];
    }
  }

  /**
   * StableSort(s) is exactly the result of a stable sort by score: it
   * has that property, and it is the only sequence that has it.
   */
  lemma StableSortCharacterized(s: seq<Entry>, r: seq<Entry>)
    ensures IsStableSortOf(r, s) <==> r == StableSort(s)
  {
    StableSortSorted(s);
    forall k ensures WithScore(StableSort(s), k) == WithScore(s, k) {
      StableSortIsStable(s, k);
    }
    if IsStableSortOf(r, s) {
      StableSortUnique(r, StableSort(s));
    }
  }

  /** A board that is already sorted is left as it is by the sort. */
  lemma {:induction false} SortedIsFixpoint(s: seq<Entry>)
    requires SortedByScore(s)
    ensures StableSort(s) == s
  {
    if s != [] {
      var init, last := s[..|s| - 1], s[|s| - 1];
      assert s == init + [last];
      assert StableSort(s) == Insert(StableSort(init), last);
      assert SortedByScore(init);
      SortedIsFixpoint(init);
      assert forall i :: 0 <= i < |init| ==> init[i].score <= last.score;
      InsertAtEnd(init, last);
    }
  }

  lemma {:induction false} InsertAtEnd(s: seq<Entry>, e: Entry)
    requires forall i :: 0 <= i < |s| ==> s[i].score <= e.score
    ensures Insert(s, e) == s + [e]
  {
    if s != [] {
      assert forall i :: 0 <= i < |s[1..]| ==> s[1..][i] == s[i + 1];
      InsertAtEnd(s[1..], e);
      assert s == [s[0]] + s[1..];
    }
  }

  // ---------------------------------------------------------------------
  // Ranked on a sorted board

  /**
   * Adding to a sorted board: the old rows keep their order, `e` goes
   * right after the last row whose score is at most its own (so after
   * every tie), and the result is cut to ten rows.
   */
  lemma RankedOnSortedBoard(board: seq<Entry>, e: Entry)
    requires SortedByScore(board)
    ensures var k := CountAtMost(board, e.score);
      && Ranked(board, e) == Truncate(board[..k] + [e] + board[k..])
      && (forall i :: 0 <= i < k ==> board[i].score <= e.score)
      && (forall i :: k <= i < |board| ==> e.score < board[i].score)
  {
    RankedIsInsert(board, e);
    CountAtMostSplits(board, e.score);
  }

  lemma RankedIsInsert(board: seq<Entry>, e: Entry)
    requires SortedByScore(board)
    ensures var k := CountAtMost(board, e.score);
      Ranked(board, e) == Truncate(board[..k] + [e] + board[k..])
  {
    assert (board + [e])[..|board|] == board;
    SortedIsFixpoint(board);
    InsertPosition(board, e);
  }

  /**
   * On a sorted board the new entry survives the cut exactly when fewer
   * than ten old rows have a score at most its own; then it sits at
   * that position. Otherwise the new board is the first ten old rows.
   */
  lemma NewEntryKeptIff(board: seq<Entry>, e: Entry)
    requires SortedByScore(board)
    ensures var k := CountAtMost(board, e.score);
      var r := Ranked(board, e);
      && (k < Capacity <==> k < |r| && r[k] == e)
      && (k >= Capacity ==> r == board[..Capacity])
  {
    var k := CountAtMost(board, e.score);
    RankedIsInsert(board, e);
    var full := board[..k] + [e] + board[k..];
    assert full[k] == e;
    if k >= Capacity {
      assert full[..Capacity] == board[..Capacity];
    }
  }

  /**
   * A full sorted board that the new entry gets onto loses exactly its
   * last row; the others shift down by one behind the new entry.
   */
  lemma FullBoardDropsLast(board: seq<Entry>, e: Entry)
    requires SortedByScore(board) && |board| == Capacity
    requires CountAtMost(board, e.score) < Capacity
    ensures var k := CountAtMost(board, e.score);
      Ranked(board, e) == board[..k] + [e] + board[k..Capacity - 1]
  {
    var k := CountAtMost(board, e.score);
    RankedIsInsert(board, e);
    var kept := board[..k] + [e] + board[k..Capacity - 1];
    var full := board[..k] + [e] + board[k..];
    assert full == kept + [board[Capacity - 1]] by {
      assert board[k..] == board[k..Capacity - 1] + [board[Capacity - 1]];
    }
    assert Truncate(full) == full[..Capacity];
  }

  /**
   * A full sorted board is left as it is by an entry whose score is at
   * least every row's score (ties included).
   */
  lemma FullBoardRejectsSlowest(board: seq<Entry>, e: Entry)
    requires SortedByScore(board) && |board| == Capacity
    requires CountAtMost(board, e.score) == Capacity
    ensures Ranked(board, e) == board
  {
    RankedIsInsert(board, e);
    var full := board[..Capacity] + [e] + board[Capacity..];
    assert full[..Capacity] == board;
  }
}
