/** Choosing which sound to play (cesp.rs): a recent-window per category that keeps picks from repeating.

The clock and the random number generator are parameters: `now` in milliseconds, and a `roll`, the position of
the candidate that the generator chooses (the first one, if there are not that many). */
module Sounds {
  import opened Text
  import opened Collections

  const NO_REPEAT_WINDOW: nat := 3

  /** The sounds below `n` that were not played recently, in order. */
  function Candidates(recent: seq<nat>, n: nat): (r: seq<nat>)
    ensures forall i: nat :: i in r <==> i < n && i !in recent
  {
    if n == 0 then [] else Candidates(recent, n - 1) + if n - 1 in recent then [] else [n - 1]
  }

  /** One pick: the sound, and the recent sounds after it. */
  function Pick(recent: seq<nat>, n: nat, roll: nat): (r: (nat, seq<nat>))
    requires n > 0
    ensures r.0 < n
  {
    var kept := if Candidates(recent, n) == [] then [] else recent;
    var candidates := Candidates(kept, n);
    assert 0 in Candidates([], n);
    var idx := candidates[if roll < |candidates| then roll else 0];
    assert idx in candidates;
    (idx, Trimmed(kept) + [idx])
  }

  /** At most two of the older sounds stay in the window. */
  function Trimmed(recent: seq<nat>): seq<nat> {
    if |recent| >= NO_REPEAT_WINDOW then recent[|recent| - (NO_REPEAT_WINDOW - 1)..] else recent
  }

  /** Drop sounds from the front until the window has room for one more. */
  method Trim(recent: seq<nat>) returns (window: seq<nat>)
    ensures window == Trimmed(recent)
  {
    window := recent;
    while |window| >= NO_REPEAT_WINDOW
      invariant Trimmed(window) == Trimmed(recent)
    {
      assert |window| > NO_REPEAT_WINDOW ==> window[1..][|window| - 3..] == window[|window| - 2..];
      window := window[1..];
    }
  }

  /** One call: `now` is when it looks at the clock, `playedAt` when it notes the time. */
  datatype Call = Call(category: string, count: nat, debounce: int, now: int, playedAt: int, roll: nat)

  datatype Playback = Playback(recent: map<string, seq<nat>>, lastPlayed: map<string, int>) {
    /** Nothing is played without sounds, or too soon after the last one. */
    predicate Quiet(c: Call) {
      c.count == 0 || (c.category in lastPlayed && c.now - lastPlayed[c.category] < c.debounce)
    }

    function RecentIn(category: string): seq<nat> {
      if category in recent then recent[category] else []
    }

    function Picked(c: Call): Option<nat> {
      if Quiet(c) then None else Some(Pick(RecentIn(c.category), c.count, c.roll).0)
    }

    function After(c: Call): Playback {
      if Quiet(c) then this
      else Playback(recent[c.category := Pick(RecentIn(c.category), c.count, c.roll).1],
                    lastPlayed[c.category := c.playedAt])
    }
  }

  class SoundPlaybackState {
    var recent: map<string, seq<nat>>
    var lastPlayed: map<string, int>

    function View(): Playback
      reads this
    {
      Playback(recent, lastPlayed)
    }

    constructor ()
      ensures View() == Playback(map[], map[])
    {
      recent, lastPlayed := map[], map[];
    }

    method PickSound(c: Call) returns (r: Option<nat>)
      modifies this
      ensures r == old(View()).Picked(c) && View() == old(View()).After(c)
    {
      if c.count == 0 {
        return None;
      }
      if c.category in lastPlayed && c.now - lastPlayed[c.category] < c.debounce {
        return None;
      }
      var window := if c.category in recent then recent[c.category] else [];
      var candidates := Candidates(window, c.count);
      if candidates == [] {
        window := [];
        candidates := Candidates([], c.count);
      }
      assert 0 in Candidates([], c.count);
      var idx := candidates[if c.roll < |candidates| then c.roll else 0];
      window := Trim(window);
      recent := recent[c.category := window + [idx]];
      lastPlayed := lastPlayed[c.category := c.playedAt];
      return Some(idx);
    }
  }

  // ---------- A run of picks ----------

  /** All picks of one category with `n` sounds, and the window after the last. */
  function Picks(n: nat, rolls: seq<nat>): (r: (seq<nat>, seq<nat>))
    requires n > 0
    ensures |r.0| == |rolls| && forall i :: 0 <= i < |r.0| ==> r.0[i] < n
  {
    if rolls == [] then ([], [])
    else
      var (picks, recent) := Picks(n, rolls[..|rolls| - 1]);
      var (idx, after) := Pick(recent, n, rolls[|rolls| - 1]);
      (picks + [idx], after)
  }

  /** The last `k` elements. */
  function Last(s: seq<nat>, k: nat): seq<nat> {
    if |s| <= k then s else s[|s| - k..]
  }

  /** With four sounds or more the window holds the last three picks, and never all sounds. */
  lemma {:induction false} WindowIsLastThree(n: nat, rolls: seq<nat>)
    requires n >= 4
    ensures Picks(n, rolls).1 == Last(Picks(n, rolls).0, 3)
  {
    if rolls != [] {
      var before, roll := rolls[..|rolls| - 1], rolls[|rolls| - 1];
      WindowIsLastThree(n, before);
      var (picks, recent) := Picks(n, before);
      SomeCandidate(recent, n);
      LastThreeStep(picks, Pick(recent, n, roll).0);
    }
  }

  lemma LastThreeStep(picks: seq<nat>, idx: nat)
    ensures Trimmed(Last(picks, 3)) + [idx] == Last(picks + [idx], 3)
  {
  }

  /** A window with fewer entries than there are sounds leaves one to choose. */
  lemma SomeCandidate(recent: seq<nat>, n: nat)
    requires |recent| < n
    ensures Candidates(recent, n) != []
  {
    var used := Elements(recent);
    ElementCount(recent);
    var all := Below(n);
    assert !(all <= used) by {
      if all <= used {
        SubsetSize(all, used);
      }
    }
    var x :| x in all && x !in used;
    assert x in Candidates(recent, n);
  }

  function Below(n: nat): (r: set<nat>)
    ensures forall x: nat :: x in r <==> x < n
    ensures |r| == n
  {
    if n == 0 then {} else Below(n - 1) + {n - 1}
  }

  /** With four sounds or more, any four consecutive picks are different, whatever the rolls. */
  lemma {:induction false} FourInARowDiffer(n: nat, rolls: seq<nat>, i: nat, j: nat)
    requires n >= 4 && i < j < |rolls| && j < i + 4
    ensures Picks(n, rolls).0[i] != Picks(n, rolls).0[j]
  {
    var before := rolls[..|rolls| - 1];
    var (picks, recent) := Picks(n, before);
    if j < |before| {
      FourInARowDiffer(n, before, i, j);
    } else {
      WindowIsLastThree(n, before);
      SomeCandidate(recent, n);
      assert picks[i] in recent;
      var (idx, _) := Pick(recent, n, rolls[j]);
      assert idx in Candidates(recent, n);
    }
  }

  // ---------- Few sounds ----------

  /** A window that holds every sound leaves none to choose. */
  lemma {:induction false} NoCandidate(recent: seq<nat>, n: nat)
    requires forall x: nat :: x < n ==> x in recent
    ensures Candidates(recent, n) == []
  {
    if n > 0 {
      NoCandidate(recent, n - 1);
    }
  }

  /** Where the round in progress began, after `k` picks: a full round is over when the next pick comes. */
  function RoundStart(n: nat, k: nat): (r: nat)
    requires n > 0
    ensures r <= k <= r + n
  {
    if k == 0 then 0
    else
      var r := RoundStart(n, k - 1);
      if k - 1 - r == n then k - 1 else r
  }

  lemma {:induction false} RoundStartIs(n: nat, b: nat, j: nat)
    requires n > 0 && 1 <= j <= n
    ensures RoundStart(n, b * n + j) == b * n
  {
    if j > 1 {
      RoundStartIs(n, b, j - 1);
    } else if b > 0 {
      RoundStartIs(n, b - 1, n);
      assert (b - 1) * n + n == b * n;
    }
  }

  /** The window is the round in progress, without repetition. */
  ghost predicate InRound(n: nat, picks: seq<nat>, recent: seq<nat>)
    requires n > 0
  {
    && recent == picks[RoundStart(n, |picks|)..] && Distinct(recent)
    && forall i :: 0 <= i < |recent| ==> recent[i] < n
  }

  lemma RoundGoesOn(n: nat, picks: seq<nat>, recent: seq<nat>, idx: nat)
    requires n > 0 && InRound(n, picks, recent) && |recent| < n && idx < n && idx !in recent
    ensures InRound(n, picks + [idx], recent + [idx])
  {
    assert recent + [idx] == (picks + [idx])[RoundStart(n, |picks|)..];
  }

  lemma PickInRound(n: nat, picks: seq<nat>, recent: seq<nat>, roll: nat)
    requires 1 <= n <= 3 && InRound(n, picks, recent)
    ensures var (idx, after) := Pick(recent, n, roll); InRound(n, picks + [idx], after)
  {
    var idx := Pick(recent, n, roll).0;
    if |recent| == n {
      EverySoundOnce(recent, n);
      NoCandidate(recent, n);
      assert [idx] == (picks + [idx])[|picks|..];
    } else {
      SomeCandidate(recent, n);
      PickGoesOn(recent, n, roll);
      RoundGoesOn(n, picks, recent, idx);
    }
  }

  /** A pick that does not start over is new, and joins the window. */
  lemma PickGoesOn(recent: seq<nat>, n: nat, roll: nat)
    requires n > 0 && Candidates(recent, n) != [] && |recent| < NO_REPEAT_WINDOW
    ensures var (idx, after) := Pick(recent, n, roll); idx !in recent && after == recent + [idx]
  {
    var c := Candidates(recent, n);
    assert c[if roll < |c| then roll else 0] in c;
  }

  lemma {:induction false} WindowIsRound(n: nat, rolls: seq<nat>)
    requires 1 <= n <= 3
    ensures InRound(n, Picks(n, rolls).0, Picks(n, rolls).1)
  {
    if rolls != [] {
      var (picks, recent) := Picks(n, rolls[..|rolls| - 1]);
      WindowIsRound(n, rolls[..|rolls| - 1]);
      PickInRound(n, picks, recent, rolls[|rolls| - 1]);
    }
  }

  lemma {:induction false} EarlierPicks(n: nat, rolls: seq<nat>, k: nat)
    requires n > 0 && k <= |rolls|
    ensures Picks(n, rolls).0[..k] == Picks(n, rolls[..k]).0
  {
    if k < |rolls| {
      EarlierPicks(n, rolls[..|rolls| - 1], k);
      assert rolls[..|rolls| - 1][..k] == rolls[..k];
    } else {
      assert rolls[..k] == rolls;
    }
  }

  /** With at most three sounds, the picks fall into consecutive rounds of `n`, each of which plays every sound
      exactly once. */
  lemma RoundsArePermutations(n: nat, rolls: seq<nat>, b: nat)
    requires 1 <= n <= 3 && b * n + n <= |rolls|
    ensures var round := Picks(n, rolls).0[b * n..b * n + n];
            Distinct(round) && forall x: nat :: x in round <==> x < n
  {
    RoundStartIs(n, b, n);
    FullRound(n, rolls, b * n);
  }

  lemma FullRound(n: nat, rolls: seq<nat>, start: nat)
    requires 1 <= n <= 3 && start + n <= |rolls| && RoundStart(n, start + n) == start
    ensures var round := Picks(n, rolls).0[start..start + n];
            Distinct(round) && forall x: nat :: x in round <==> x < n
  {
    var end := start + n;
    EarlierPicks(n, rolls, end);
    WindowIsRound(n, rolls[..end]);
    var all, recent := Picks(n, rolls).0, Picks(n, rolls[..end]).1;
    assert all[..end][start..] == all[start..end];
    EverySoundOnce(recent, n);
  }

  lemma EverySoundOnce(round: seq<nat>, n: nat)
    requires Distinct(round) && |round| == n && forall i :: 0 <= i < |round| ==> round[i] < n
    ensures forall x: nat :: x in round <==> x < n
  {
    ElementCount(round);
    assert Elements(round) <= Below(n);
    SubsetSize(Elements(round), Below(n));
    assert forall x: nat :: x in Elements(round) <==> x in round;
  }

  // ---------- Runs of calls, in all categories and at all times ----------

  function Played(calls: seq<Call>): Playback {
    if calls == [] then Playback(map[], map[]) else Played(calls[..|calls| - 1]).After(calls[|calls| - 1])
  }

  /** The call plays something in the category. */
  predicate Plays(before: seq<Call>, c: Call, category: string) {
    c.category == category && !Played(before).Quiet(c)
  }

  /** What is played in one category. */
  function PlayedIn(calls: seq<Call>, category: string): seq<nat> {
    if calls == [] then []
    else
      var before, c := calls[..|calls| - 1], calls[|calls| - 1];
      PlayedIn(before, category) + if Plays(before, c, category) then [Played(before).Picked(c).value] else []
  }

  function RollsIn(calls: seq<Call>, category: string): seq<nat> {
    if calls == [] then []
    else
      var before, c := calls[..|calls| - 1], calls[|calls| - 1];
      RollsIn(before, category) + if Plays(before, c, category) then [c.roll] else []
  }

  ghost predicate AlwaysHas(calls: seq<Call>, category: string, n: nat) {
    forall i :: 0 <= i < |calls| && calls[i].category == category ==> calls[i].count == n
  }

  lemma PicksPush(n: nat, rolls: seq<nat>, roll: nat)
    requires n > 0
    ensures var (picks, recent) := Picks(n, rolls);
            var (idx, after) := Pick(recent, n, roll);
            Picks(n, rolls + [roll]) == (picks + [idx], after)
  {
    assert (rolls + [roll])[..|rolls|] == rolls;
  }

  /** The effect of one call on one category. */
  lemma OneCall(p: Playback, c: Call, category: string)
    ensures p.After(c).RecentIn(category)
         == if c.category == category && !p.Quiet(c) then Pick(p.RecentIn(category), c.count, c.roll).1
            else p.RecentIn(category)
    ensures !p.Quiet(c) ==> p.Picked(c) == Some(Pick(p.RecentIn(c.category), c.count, c.roll).0)
  {
  }

  /** What the category has played, and its window, are those of its own picks. */
  predicate PlaysAsPicked(calls: seq<Call>, category: string, n: nat)
    requires n > 0
  {
    (PlayedIn(calls, category), Played(calls).RecentIn(category)) == Picks(n, RollsIn(calls, category))
  }

  /** One more call: a pick of the category, or nothing to it. */
  lemma OneMoreCall(before: seq<Call>, c: Call, category: string, n: nat)
    requires n > 0 && (c.category == category ==> c.count == n)
    requires (PlayedIn(before, category), Played(before).RecentIn(category)) == Picks(n, RollsIn(before, category))
    ensures var calls := before + [c];
            (PlayedIn(calls, category), Played(calls).RecentIn(category)) == Picks(n, RollsIn(calls, category))
  {
    var calls, p := before + [c], Played(before);
    assert calls[..|calls| - 1] == before && calls[|calls| - 1] == c;
    assert Played(calls) == p.After(c);
    OneCall(p, c, category);
    if Plays(before, c, category) {
      assert RollsIn(calls, category) == RollsIn(before, category) + [c.roll];
      assert PlayedIn(calls, category) == PlayedIn(before, category) + [p.Picked(c).value];
      PicksPush(n, RollsIn(before, category), c.roll);
    } else {
      assert RollsIn(calls, category) == RollsIn(before, category);
      assert PlayedIn(calls, category) == PlayedIn(before, category);
    }
  }

  lemma OneMore(before: seq<Call>, c: Call, category: string, n: nat)
    requires n > 0
    ensures PlaysAsPicked(before, category, n) && (c.category == category ==> c.count == n)
        ==> PlaysAsPicked(before + [c], category, n)
  {
    if PlaysAsPicked(before, category, n) && (c.category == category ==> c.count == n) {
      OneMoreCall(before, c, category, n);
    }
  }

  /** A category is not affected by calls for other categories, nor by calls that come too soon. */
  lemma {:induction false} CategoriesAreIndependent(calls: seq<Call>, category: string, n: nat)
    requires n > 0 && AlwaysHas(calls, category, n)
    ensures PlaysAsPicked(calls, category, n)
  {
    if calls != [] {
      var before, c := calls[..|calls| - 1], calls[|calls| - 1];
      assert before + [c] == calls;
      CategoriesAreIndependent(before, category, n);
      OneMore(before, c, category, n);
    }
  }

  /** Over every run of calls: if a category has four sounds or more, any four consecutive sounds of it are
      different. */
  lemma NoRepeatWithinFour(calls: seq<Call>, category: string, n: nat, i: nat, j: nat)
    requires n >= 4 && AlwaysHas(calls, category, n) && i < j < |PlayedIn(calls, category)| && j < i + 4
    ensures PlayedIn(calls, category)[i] != PlayedIn(calls, category)[j]
  {
    CategoriesAreIndependent(calls, category, n);
    FourInARowDiffer(n, RollsIn(calls, category), i, j);
  }

  /** Over every run of calls: if it has three or fewer, they come in rounds that play each once. */
  lemma SmallCategoriesPlayRounds(calls: seq<Call>, category: string, n: nat, b: nat)
    requires 1 <= n <= 3 && AlwaysHas(calls, category, n) && b * n + n <= |PlayedIn(calls, category)|
    ensures var round := PlayedIn(calls, category)[b * n..b * n + n];
            Distinct(round) && forall x: nat :: x in round <==> x < n
  {
    CategoriesAreIndependent(calls, category, n);
    RoundsArePermutations(n, RollsIn(calls, category), b);
  }

  /** Every sound that was not played recently may be next; every sound at all, if all were. */
  lemma AnyCandidateMayBeNext(recent: seq<nat>, n: nat, x: nat) returns (roll: nat)
    requires x < n && (x !in recent || forall y: nat :: y < n ==> y in recent)
    ensures Pick(recent, n, roll).0 == x
  {
    if x in recent {
      NoCandidate(recent, n);
    }
    var candidates := Candidates(if x in recent then [] else recent, n);
    assert x in candidates;
    roll :| 0 <= roll < |candidates| && candidates[roll] == x;
  }

  /** When the category last played something. */
  function LastPlay(calls: seq<Call>, category: string): Option<int> {
    if calls == [] then None
    else
      var before, c := calls[..|calls| - 1], calls[|calls| - 1];
      if Plays(before, c, category) then Some(c.playedAt) else LastPlay(before, category)
  }

  lemma {:induction false} LastPlayIsNoted(calls: seq<Call>, category: string)
    ensures var noted := Played(calls).lastPlayed;
            LastPlay(calls, category) == if category in noted then Some(noted[category]) else None
  {
    if calls != [] {
      LastPlayIsNoted(calls[..|calls| - 1], category);
    }
  }

  /** After every run of calls, a call plays nothing, and changes nothing, exactly if there are no sounds or its
      category last played less than the debounce interval ago. */
  lemma DebounceExactly(calls: seq<Call>, c: Call)
    ensures Played(calls).Picked(c) == None <==>
              || c.count == 0
              || (LastPlay(calls, c.category).Some? && c.now - LastPlay(calls, c.category).value < c.debounce)
    ensures Played(calls).Picked(c) == None ==> Played(calls + [c]) == Played(calls)
  {
    LastPlayIsNoted(calls, c.category);
    assert (calls + [c])[..|calls|] == calls;
  }
}
