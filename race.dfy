/**
 * The per-session state of the start-light game (`main` in
 * streamlit_app.py): five start lights, the flag that says the lights
 * have gone out and GO may be pressed, the instant they went out, and
 * the leaderboard.
 *
 * The wall clock is a parameter: `armedAt` is the clock reading when the
 * lights go out, `now` the reading when GO is pressed. The random waits
 * between lights are not modelled; only the order of the light changes is.
 */
module Race {
  import opened Leaderboard

  /** A light slot: unlit ('black') or lit ('red'). */
  datatype Light = Black | Red

  /** The number of light slots. */
  const Slots: nat := 5

  /** What pressing GO yields: a reaction time, or a false start. */
  datatype Outcome = Reaction(time: int) | FalseStart

  /** The five slots with the first `n` of them lit. */
  function LitPrefix(n: nat): seq<Light>
    requires n <= Slots
  {
    seq(Slots, j => if j < n then Red else Black)
  }

  /** All five slots unlit. */
  function AllOff(): seq<Light> {
    LitPrefix(0)
  }

  /**
   * Each step of the start sequence changes exactly one slot, the next
   * one in index order, from unlit to lit.
   */
  lemma NextLightOnly(n: nat)
    requires n < Slots
    ensures forall j :: 0 <= j < Slots ==>
      (LitPrefix(n + 1)[j] != LitPrefix(n)[j] <==> j == n)
    ensures LitPrefix(n)[n] == Black && LitPrefix(n + 1)[n] == Red
  {
  }

  class RaceSession {
    var colors: array<Light>
    var readyToClick: bool
    var startTime: int
    var leaderboard: Option<seq<Entry>>

    /**
     * The session always has five light slots. Which of them are lit
     * between two button presses depends on how the last Start Race run
     * ended: all unlit when it ran to its end, the first few lit when a
     * button press cut it short (see LightSequence). A stored board is
     * always sorted by score and at most ten rows long, since only
     * add_to_leaderboard writes it.
     */
    ghost predicate Valid()
      reads this
    {
      && colors.Length == Slots
      && (leaderboard.Some? ==>
            SortedByScore(leaderboard.value) && |leaderboard.value| <= Capacity)
    }

    /** A new session: lights off, not armed, no leaderboard yet. */
    constructor ()
      ensures Valid() && fresh(colors) && colors[..] == AllOff()
      ensures !readyToClick && leaderboard == None
    {
      colors := new Light[Slots](_ => Black);
      readyToClick := false;
      startTime := 0;
      leaderboard := None;
      new;
      assert colors[..] == AllOff();
    }

    /**
     * add_to_leaderboard: a missing or empty board starts empty; the new
     * entry is appended, the board stably sorted by score and cut to ten.
     */
    method AddToLeaderboard(name: string, score: int)
      requires Valid()
      modifies this
      ensures Valid()
      ensures leaderboard == Some(Ranked(Board(old(leaderboard)), Entry(name, score)))
      ensures |leaderboard.value| <= Capacity && SortedByScore(leaderboard.value)
      ensures colors == old(colors) && colors[..] == old(colors[..])
      ensures readyToClick == old(readyToClick) && startTime == old(startTime)
    {
      var board: seq<Entry>;
      if leaderboard.None? || leaderboard.value == [] {
        board := [];
      } else {
        board := leaderboard.value;
      }
      ghost var e := Entry(name, score);
      ghost var ranked := Ranked(board, e);
      assert board == Board(leaderboard);
      RankedBounded(board, e);
      board := board + [Entry(name, score)];
      leaderboard := Some(Truncate(StableSort(board)));
      assert leaderboard.value == ranked;
    }

    /**
     * The first part of Start Race (lines 45-54): every light is reset
     * and the flag cleared, then the first `count` lights come on one at
     * a time in index order. Start Race runs it with count = 5; a button
     * press while the lights are coming on stops the script after fewer.
     * `shown` is the sequence of light states drawn along the way.
     */
    method LightSequence(count: nat) returns (ghost shown: seq<seq<Light>>)
      requires Valid() && count <= Slots
      modifies this
      ensures Valid() && fresh(colors)
      ensures colors[..] == LitPrefix(count)
      ensures !readyToClick && startTime == old(startTime)
      ensures leaderboard == old(leaderboard)
      ensures |shown| == count + 1
      ensures forall k :: 0 <= k <= count ==> shown[k] == LitPrefix(k)
    {
      colors := new Light[Slots](_ => Black);
      readyToClick := false;
      shown := [colors[..]];
      for i := 0 to count
        invariant colors.Length == Slots && fresh(colors)
        invariant colors[..] == LitPrefix(i)
        invariant |shown| == i + 1
        invariant forall k :: 0 <= k <= i ==> shown[k] == LitPrefix(k)
        invariant !readyToClick && startTime == old(startTime)
        invariant leaderboard == old(leaderboard)
      {
        colors[i] := Red;
        shown := shown + [colors[..]];
      }
    }

    /**
     * Start Race run to its end (lines 44-60): the light sequence, then
     * all lights go out together and the session is armed at `armedAt`.
     * `shown` is the sequence of light states drawn along the way.
     */
    method StartRace(armedAt: int) returns (ghost shown: seq<seq<Light>>)
      requires Valid()
      modifies this
      ensures Valid() && fresh(colors) && colors[..] == AllOff()
      ensures readyToClick && startTime == armedAt
      ensures leaderboard == old(leaderboard)
      ensures |shown| == Slots + 2
      ensures forall k :: 0 <= k <= Slots ==> shown[k] == LitPrefix(k)
      ensures shown[Slots + 1] == AllOff()
    {
      shown := LightSequence(Slots);
      colors := new Light[Slots](_ => Black);
      shown := shown + [colors[..]];
      startTime := armedAt;
      readyToClick := true;
    }

    /**
     * GO: when armed, the reaction time is `now` minus the arming
     * instant, the session is disarmed, and a non-empty name puts the
     * time on the leaderboard; when not armed, it is a false start and
     * nothing changes.
     */
    method Go(now: int, name: string) returns (outcome: Outcome)
      requires Valid()
      modifies this
      ensures Valid() && colors == old(colors) && colors[..] == old(colors[..])
      ensures startTime == old(startTime)
      ensures old(readyToClick) ==>
        && outcome == Reaction(now - old(startTime))
        && !readyToClick
        && leaderboard == if name != "" then
             Some(Ranked(Board(old(leaderboard)), Entry(name, now - old(startTime))))
           else old(leaderboard)
      ensures old(readyToClick) && now >= old(startTime) ==> outcome.time >= 0
      ensures !old(readyToClick) ==>
        outcome == FalseStart && !readyToClick && leaderboard == old(leaderboard)
    {
      if readyToClick {
        var endTime := now;
        var reactionTime := endTime - startTime;
        readyToClick := false;
        if name != "" {
          ghost var before := leaderboard;
          AddToLeaderboard(name, reactionTime);
          assert leaderboard == Some(Ranked(Board(before), Entry(name, reactionTime)));
        }
        outcome := Reaction(reactionTime);
      } else {
        outcome := FalseStart;
      }
    }
  }

  /** GO on a fresh session, before any start: a false start, and no board. */
  method GoBeforeStart(now: int, name: string) returns (outcome: Outcome, board: Option<seq<Entry>>)
    ensures outcome == FalseStart && board == None
  {
    var session := new RaceSession();
    outcome := session.Go(now, name);
    board := session.leaderboard;
  }

  /**
   * GO pressed while the lights are coming on: the press stops Start Race
   * after `lit` lights, before the session is armed, so GO is a false
   * start and the lit lights stay lit.
   */
  method GoDuringLights(lit: nat, now: int, name: string)
    returns (outcome: Outcome, lights: seq<Light>, board: Option<seq<Entry>>)
    requires lit <= Slots
    ensures outcome == FalseStart
    ensures lights == LitPrefix(lit)
    ensures board == None
  {
    var session := new RaceSession();
    var _ := session.LightSequence(lit);
    outcome := session.Go(now, name);
    lights := session.colors[..];
    board := session.leaderboard;
  }

  /**
   * A full round on a fresh session: the first GO after the lights go out
   * is timed and puts the named player alone on the board; a second GO
   * without a new start is a false start and leaves the board alone.
   */
  method OneRaceTwoPresses(armedAt: int, first: int, second: int, name: string)
    returns (r1: Outcome, r2: Outcome, board: Option<seq<Entry>>)
    requires name != ""
    ensures r1 == Reaction(first - armedAt)
    ensures r2 == FalseStart
    ensures board == Some([Entry(name, first - armedAt)])
  {
    var session := new RaceSession();
    var _ := session.StartRace(armedAt);
    r1 := session.Go(first, name);
    FirstEntry(Entry(name, first - armedAt));
    assert session.leaderboard == Some([Entry(name, first - armedAt)]);
    r2 := session.Go(second, name);
    board := session.leaderboard;
  }

  /**
   * A timed GO on a session that may already hold a board: the player
   * gets onto the board exactly when fewer than ten stored rows score at
   * most their reaction time, and then sits right after those rows.
   */
  method RaceOnSession(session: RaceSession, armedAt: int, now: int, name: string)
    returns (outcome: Outcome)
    requires session.Valid() && name != ""
    modifies session
    ensures session.Valid() && outcome == Reaction(now - armedAt)
    ensures session.leaderboard.Some?
    ensures var k := CountAtMost(Board(old(session.leaderboard)), now - armedAt);
      var b := session.leaderboard.value;
      k < Capacity <==> k < |b| && b[k] == Entry(name, now - armedAt)
  {
    ghost var before := Board(session.leaderboard);
    var _ := session.StartRace(armedAt);
    outcome := session.Go(now, name);
    NewEntryKeptIff(before, Entry(name, now - armedAt));
  }
}
