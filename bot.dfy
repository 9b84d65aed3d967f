/** The bot's rotation state (index.js:15-16, 86-102): the module-level
    `lines` and `rotateIdx`, replaced wholesale by each refresh and advanced
    one step by each rotate tick. Each step returns what it publishes to the
    chat platform. Timers are not modelled: every step is atomic. */
module Bot {
  import opened Text
  import opened Charts
  import opened Presence
  import Players

  /** The line shown before the first refresh. */
  const LoadingLine: string := "Loading Steam charts\U{2026}"

  /** Cursor position after one rotate tick over n lines. */
  function NextIndex(i: nat, n: nat): (j: nat)
    requires i < n
    ensures j < n
    ensures j == 0 <==> i == n - 1
    ensures i < n - 1 ==> j == i + 1
  {
    (i + 1) % n
  }

  /** Cursor position after k rotate ticks from i over n lines. */
  function Advance(i: nat, n: nat, k: nat): (j: nat)
    requires i < n
    ensures j < n
    decreases k
  {
    if k == 0 then i else Advance(NextIndex(i, n), n, k - 1)
  }

  /** k ticks move the cursor k places round the list. */
  lemma {:induction false} AdvanceIsMod(i: nat, n: nat, k: nat)
    requires i < n
    ensures Advance(i, n, k) == (i + k) % n
    decreases k
  {
    if k > 0 {
      var j := NextIndex(i, n);
      AdvanceIsMod(j, n, k - 1);
      if i < n - 1 {
        assert j + (k - 1) == i + k;
      } else {
        assert j + (k - 1) == (i + k) - n;
        ModShift(i + k, n);
      }
    }
  }

  lemma ModShift(x: nat, n: nat)
    requires 0 < n <= x
    ensures (x - n) % n == x % n
  {
    var q, r := (x - n) / n, (x - n) % n;
    assert x - n == n * q + r;
    assert x == n * (q + 1) + r;
    Players.DivModUnique(x, n, q + 1, r);
  }

  /** Between two refreshes every line is shown: within |lines| ticks the
      cursor reaches each index, and after exactly |lines| ticks it is back. */
  lemma EveryLineShown(i: nat, n: nat, target: nat) returns (k: nat)
    requires i < n && target < n
    ensures 1 <= k <= n && Advance(i, n, k) == target
    ensures Advance(i, n, n) == i
  {
    k := if target > i then target - i else target + n - i;
    AdvanceIsMod(i, n, k);
    AdvanceIsMod(i, n, n);
    Players.DivModUnique(target, n, 0, target);
    Players.DivModUnique(i, n, 0, i);
    ModShift(i + n, n);
    if target <= i {
      ModShift(i + k, n);
    }
  }

  class Rotator {
    /** GUILD_ID, empty when unset. */
    const guildId: string
    /** NICKNAME_PREFIX after its default is applied. */
    const prefix: string
    var lines: seq<string>
    var idx: nat

    /** The cursor always points into the list, which is therefore never empty. */
    ghost predicate Valid()
      reads this
    {
      idx < |lines|
    }

    /** The line on display. */
    function Current(): (line: string)
      reads this
      requires Valid()
      ensures line in lines
    {
      lines[idx]
    }

    constructor (guildId: string, prefix: string)
      ensures Valid()
      ensures lines == [LoadingLine] && idx == 0
      ensures this.guildId == guildId && this.prefix == prefix
    {
      this.guildId := guildId;
      this.prefix := prefix;
      lines := [LoadingLine];
      idx := 0;
    }

    /** refresh: fetch, replace the lines, reset the cursor, publish lines[0]. */
    method Refresh(ranks: Option<seq<RankEntry>>, rows: Option<seq<Capture>>) returns (shown: Published)
      requires WellFormedRows(rows)
      modifies this
      ensures Valid()
      ensures lines == FetchTop5(ranks, rows) && idx == 0
      ensures shown == Publish(guildId, prefix, Current())
    {
      lines := FetchTop5(ranks, rows);
      idx := 0;
      shown := Publish(guildId, prefix, lines[idx]);
    }

    /** The rotate tick: nothing when there are no lines, otherwise advance
      the cursor with wrap-around and publish the line it points to. */
    method Rotate() returns (shown: Option<Published>)
      modifies this
      ensures lines == old(lines)
      ensures old(lines) == [] ==> idx == old(idx) && shown == None
      ensures old(lines) != [] ==> idx == (old(idx) + 1) % |lines|
      ensures old(lines) != [] ==> shown == Some(Publish(guildId, prefix, lines[idx]))
      ensures old(Valid()) ==> Valid() && idx == NextIndex(old(idx), |lines|)
    {
      if |lines| == 0 {
        return None;
      }
      idx := (idx + 1) % |lines|;
      shown := Some(Publish(guildId, prefix, lines[idx]));
    }
  }

  /** Both sources down: the placeholder is shown, and every later tick
      shows it again. */
  method PlaceholderScenario()
  {
    var bot := new Rotator("", "Steam Now");
    var shown := bot.Refresh(None, None);
    assert shown == Published(Placeholder, None);
    var next := bot.Rotate();
    assert next == Some(shown) && bot.idx == 0;
    next := bot.Rotate();
    assert next == Some(shown) && bot.idx == 0;
  }

  /** With the fallback down, a fetch of up to five entries gives one line each. */
  lemma PrimaryOnly(rs: seq<RankEntry>)
    requires 0 < |rs| <= TopN && forall i :: 0 <= i < |rs| ==> rs[i].Entry?
    ensures |FetchTop5(Some(rs), None)| == |rs|
    ensures FetchTop5(Some(rs), None)[0] == FormatLine(PrimaryRecord(rs[0]))
  {
    PrimaryWins(Some(rs), None, None);
  }

  /** Three lines with the cursor on the last one: the next tick wraps to 0. */
  method WrapScenario(a: RankEntry, b: RankEntry, c: RankEntry)
    requires a.Entry? && b.Entry? && c.Entry?
  {
    var bot := new Rotator("guild", "Steam Now");
    PrimaryOnly([a, b, c]);
    PrimaryOnly([a]);
    var _ := bot.Refresh(Some([a, b, c]), None);
    assert |bot.lines| == 3;
    var shown := bot.Rotate();
    shown := bot.Rotate();
    assert bot.idx == 2;
    shown := bot.Rotate();
    assert bot.idx == 0 && shown.Some? && shown.value.status == bot.lines[0];
    var latest := bot.Refresh(Some([a]), None);
    assert bot.idx == 0 && latest.status == FormatLine(PrimaryRecord(a));
  }
}
