/** Source selection and record mapping of fetchTop5 (index.js:20-55).

    The two network responses are inputs. The primary source gives the
    `response.ranks` array of the charts endpoint, or None when the request
    or the JSON parse failed or the path does not hold an array. The
    fallback gives the (rank, name, count) triples that the row pattern
    captured in the listing page, in document order, or None when the
    request or reading the body failed. */
module Charts {
  import opened Text
  import opened Players

  /** The single line shown when neither source gives anything. */
  const Placeholder: string := "Unable to load Steam charts"

  /** Sources keep at most this many entries (slice(0, 5)). */
  const TopN: nat := 5

  /** One element of the primary ranks array. Null is an element that is
      null or undefined: reading a field of it throws, which the surrounding
      try/catch turns into "no data from the primary source". Absent JSON
      fields are None. */
  datatype RankEntry =
    | Null
    | Entry(rank: Option<nat>, name: Option<string>, appName: Option<string>,
            appid: Option<nat>, concurrent: Option<nat>, peak: Option<nat>)

  /** The three groups one match of the fallback row pattern captures:
      the rank digits, the link text and the count with separators. */
  datatype Capture = Capture(rankDigits: string, name: string, countText: string)

  /** A ranked record before formatting; rank None is a missing JSON field,
      which the template prints as "undefined". */
  datatype Record = Record(rank: Option<nat>, name: string, players: nat)

  /** What the row pattern guarantees of its groups: `\d+`, `[^<]+` and `[\d,]+`. */
  predicate WellFormed(m: Capture)
  {
    && |m.rankDigits| > 0 && AllDigits(m.rankDigits)
    && |m.name| > 0 && (forall i :: 0 <= i < |m.name| ==> m.name[i] != '<')
    && |m.countText| > 0
    && (forall i :: 0 <= i < |m.countText| ==> m.countText[i] == ',' || IsDigit(m.countText[i]))
  }

  predicate WellFormedRows(rows: Option<seq<Capture>>)
  {
    rows.Some? ==> forall i :: 0 <= i < |rows.value| ==> WellFormed(rows.value[i])
  }

  // ---------------------------------------------------------------------
  // Field fallback chains

  /** JavaScript truthiness of a string field: present and non-empty. */
  predicate TruthyText(s: Option<string>) { s.Some? && s.value != "" }

  /** JavaScript truthiness of a numeric field: present and non-zero. */
  predicate TruthyCount(n: Option<nat>) { n.Some? && n.value != 0 }

  /** How a possibly missing number prints inside a template literal. */
  function ShowField(n: Option<nat>): (r: string)
    ensures |r| > 0 && forall i :: 0 <= i < |r| ==> r[i] != ' '
  {
    match n
    case Some(v) => NatToString(v)
    case None => "undefined"
  }

  /** x.name || x.app_name || `App ${x.appid}`: never empty. */
  function ResolveName(x: RankEntry): (r: string)
    requires x.Entry?
    ensures r != ""
    ensures TruthyText(x.name) ==> r == x.name.value
    ensures !TruthyText(x.name) && TruthyText(x.appName) ==> r == x.appName.value
    ensures !TruthyText(x.name) && !TruthyText(x.appName) ==> r == "App " + ShowField(x.appid)
  {
    if TruthyText(x.name) then x.name.value
    else if TruthyText(x.appName) then x.appName.value
    else "App " + ShowField(x.appid)
  }

  /** x.concurrent_in_game || x.peak_in_game || 0: a zero current count
      falls through to the peak. */
  function ResolveCount(x: RankEntry): (r: nat)
    requires x.Entry?
    ensures r == 0 <==> !TruthyCount(x.concurrent) && !TruthyCount(x.peak)
    ensures TruthyCount(x.concurrent) ==> r == x.concurrent.value
    ensures !TruthyCount(x.concurrent) && TruthyCount(x.peak) ==> r == x.peak.value
  {
    if TruthyCount(x.concurrent) then x.concurrent.value
    else if TruthyCount(x.peak) then x.peak.value
    else 0
  }

  /** Record of one primary entry: the rank as given, the first truthy
      name field and the first truthy count field. */
  function PrimaryRecord(x: RankEntry): (t: Record)
    requires x.Entry?
    ensures t.rank == x.rank
    ensures t.name != "" && t.name == ResolveName(x)
    ensures t.players == ResolveCount(x)
  {
    Record(x.rank, ResolveName(x), ResolveCount(x))
  }

  /** Record of one fallback match: +m[1], m[2].trim(), +m[3] without commas. */
  function FallbackRecord(m: Capture): (t: Record)
    requires WellFormed(m)
    ensures t.rank == Some(DigitsValue(m.rankDigits))
    ensures t.name == Trim(m.name)
    ensures t.players == DigitsValue(StripCommas(m.countText))
  {
    Record(Some(DigitsValue(m.rankDigits)), Trim(m.name), DigitsValue(StripCommas(m.countText)))
  }

  /** A row that a listing page printed from a rank, a name and a count
      with thousands separators maps back to that rank, name and count. */
  lemma FallbackRecordOfListing(rank: nat, name: string, players: nat)
    requires |name| > 0 && (forall i :: 0 <= i < |name| ==> name[i] != '<')
    requires !IsJsSpace(name[0]) && !IsJsSpace(name[|name| - 1])
    ensures var m := Capture(NatToString(rank), name, Grouped(NatToString(players)));
            WellFormed(m) && FallbackRecord(m) == Record(Some(rank), name, players)
  {
    var g := Grouped(NatToString(players));
    GroupedIsDigitsAndCommas(NatToString(players));
    assert |g| >= |NatToString(players)| > 0;
    ParseShow(rank);
    GroupedCountValue(players);
    TrimNoop(name);
  }

  lemma {:induction false} GroupedIsDigitsAndCommas(s: string)
    requires AllDigits(s)
    ensures forall i :: 0 <= i < |Grouped(s)| ==> Grouped(s)[i] == ',' || IsDigit(Grouped(s)[i])
    decreases |s|
  {
    if |s| > 3 {
      var head := s[..|s| - 3];
      assert AllDigits(head) by {
        forall i | 0 <= i < |head| ensures IsDigit(head[i]) { assert head[i] == s[i]; }
      }
      GroupedIsDigitsAndCommas(head);
    }
  }

  /** A captured rank printed without leading zeros shows as captured. */
  lemma FallbackRankAsCaptured(m: Capture)
    requires WellFormed(m) && Canonical(m.rankDigits)
    ensures ShowField(FallbackRecord(m).rank) == m.rankDigits
  {
    ShowParse(m.rankDigits);
  }

  /** The thousands separators of a captured count are ignored: the count
      text "1,234,567" converts to 1,234,567 players. */
  lemma FallbackCountExample()
    ensures AllDigits(StripCommas("1,234,567"))
    ensures DigitsValue(StripCommas("1,234,567")) == 1_234_567
  {
    ShowExample();
    GroupExample();
    GroupedCountValue(1_234_567);
  }

  lemma ShowExample()
    ensures NatToString(1) == "1" && NatToString(1_234_567) == "1234567"
  {
    assert NatToString(12) == "12";
    assert NatToString(123) == "123";
    assert NatToString(1234) == "1234";
    assert NatToString(12345) == "12345";
    assert NatToString(123456) == "123456";
  }

  lemma GroupExample()
    ensures Grouped("1234567") == "1,234,567"
  {
    assert Grouped("1234") == "1,234";
  }

  // ---------------------------------------------------------------------
  // Display lines

  /** `#${rank} ${name} — ${fmtPlayers(players)}` */
  function FormatLine(t: Record): (r: string)
    ensures |r| > 0 && r[0] == '#'
  {
    "#" + ShowField(t.rank) + " " + t.name + " \U{2014} " + FmtPlayers(t.players)
  }

  /** The text before the first c (all of s when there is none). */
  function BeforeFirst(s: string, c: char): (r: string)
    ensures |r| <= |s| && r == s[..|r|]
    ensures forall i :: 0 <= i < |r| ==> r[i] != c
  {
    if s == [] || s[0] == c then [] else [s[0]] + BeforeFirst(s[1..], c)
  }

  /** The text after the last c (all of s when there is none). */
  function AfterLast(s: string, c: char): (r: string)
    ensures |r| <= |s| && r == s[|s| - |r|..]
    ensures forall i :: 0 <= i < |r| ==> r[i] != c
  {
    if s == [] || s[|s| - 1] == c then [] else AfterLast(s[..|s| - 1], c) + [s[|s| - 1]]
  }

  lemma {:induction false} BeforeFirstSplit(a: string, c: char, b: string)
    requires forall i :: 0 <= i < |a| ==> a[i] != c
    ensures BeforeFirst(a + [c] + b, c) == a
    decreases |a|
  {
    if a != [] {
      assert (a + [c] + b)[1..] == a[1..] + [c] + b;
      BeforeFirstSplit(a[1..], c, b);
    }
  }

  lemma {:induction false} AfterLastSplit(a: string, c: char, b: string)
    requires forall i :: 0 <= i < |b| ==> b[i] != c
    ensures AfterLast(a + [c] + b, c) == b
    decreases |b|
  {
    if b != [] {
      var b' := b[..|b| - 1];
      assert (a + [c] + b)[..|a + [c] + b| - 1] == a + [c] + b';
      AfterLastSplit(a, c, b');
    }
  }

  /** Where the middle part of a three-part concatenation lies. */
  lemma Middle(p: string, x: string, q: string)
    ensures |p + x + q| == |p| + |x| + |q|
    ensures (p + x + q)[|p|..|p| + |x|] == x
  {
  }

  /** The three fields can be read back from a display line: the rank runs
      from after '#' to the first space, the count is everything after the
      last space, and the name is what lies between the space after the rank
      and the " — " before the count. */
  lemma LineFields(t: Record)
    ensures BeforeFirst(FormatLine(t)[1..], ' ') == ShowField(t.rank)
    ensures AfterLast(FormatLine(t), ' ') == FmtPlayers(t.players)
    ensures var line := FormatLine(t);
            var a, b := |ShowField(t.rank)| + 2, |line| - |FmtPlayers(t.players)| - 3;
            a <= b && line[a..b] == t.name && line[b..b + 3] == " \U{2014} "
  {
    var rank, count, dash := ShowField(t.rank), FmtPlayers(t.players), " \U{2014} ";
    var line := FormatLine(t);
    var rest := t.name + dash + count;
    assert line[1..] == rank + [' '] + rest;
    BeforeFirstSplit(rank, ' ', rest);
    var front := "#" + rank + " " + t.name + " \U{2014}";
    assert line == front + [' '] + count;
    AfterLastSplit(front, ' ', count);
    var head := "#" + rank + " ";
    assert line == head + t.name + (dash + count);
    Middle(head, t.name, dash + count);
    assert line == (head + t.name) + dash + count;
    Middle(head + t.name, dash, count);
  }

  // ---------------------------------------------------------------------
  // The two sources and their precedence

  /** The primary source yields data: the ranks array is present and
      non-empty, and none of the first five elements is null. */
  predicate PrimaryUsable(ranks: Option<seq<RankEntry>>)
  {
    && ranks.Some? && |ranks.value| > 0
    && forall i :: 0 <= i < |ranks.value| && i < TopN ==> ranks.value[i].Entry?
  }

  /** The fallback source yields data: the page was read and at least one row matched. */
  predicate FallbackUsable(rows: Option<seq<Capture>>)
  {
    rows.Some? && |rows.value| > 0
  }

  /** The formatted lines of the primary source, when it yields data. */
  function PrimaryLines(ranks: Option<seq<RankEntry>>): (r: Option<seq<string>>)
    ensures r.Some? <==> PrimaryUsable(ranks)
    ensures r.Some? ==> |r.value| == Min(TopN, |ranks.value|)
    ensures r.Some? ==> forall i :: 0 <= i < |r.value| ==>
              ranks.value[i].Entry? && r.value[i] == FormatLine(PrimaryRecord(ranks.value[i]))
  {
    if PrimaryUsable(ranks) then
      var rs := ranks.value;
      Some(seq(Min(TopN, |rs|), i requires 0 <= i < Min(TopN, |rs|) => FormatLine(PrimaryRecord(rs[i]))))
    else None
  }

  /** The formatted lines of the fallback source, when it yields data. */
  function FallbackLines(rows: Option<seq<Capture>>): (r: Option<seq<string>>)
    requires WellFormedRows(rows)
    ensures r.Some? <==> FallbackUsable(rows)
    ensures r.Some? ==> |r.value| == Min(TopN, |rows.value|)
    ensures r.Some? ==> forall i :: 0 <= i < |r.value| ==>
              r.value[i] == FormatLine(FallbackRecord(rows.value[i]))
  {
    if FallbackUsable(rows) then
      var ms := rows.value;
      Some(seq(Min(TopN, |ms|), i requires 0 <= i < Min(TopN, |ms|) => FormatLine(FallbackRecord(ms[i]))))
    else None
  }

  /** fetchTop5: the primary lines when there are any, else the fallback
      lines when there are any, else the placeholder alone. */
  function FetchTop5(ranks: Option<seq<RankEntry>>, rows: Option<seq<Capture>>): (lines: seq<string>)
    requires WellFormedRows(rows)
    ensures 1 <= |lines| <= TopN
    ensures lines == [Placeholder] <==> !PrimaryUsable(ranks) && !FallbackUsable(rows)
  {
    match PrimaryLines(ranks)
    case Some(top) =>
      assert top[0][0] == '#' != Placeholder[0];
      top
    case None =>
      match FallbackLines(rows)
      case Some(top) =>
        assert top[0][0] == '#' != Placeholder[0];
        top
      case None => [Placeholder]
  }

  /** When the primary source yields data the result is its first five
      records in array order, and the fallback has no influence at all. */
  lemma PrimaryWins(ranks: Option<seq<RankEntry>>, rows: Option<seq<Capture>>, rows': Option<seq<Capture>>)
    requires WellFormedRows(rows) && WellFormedRows(rows')
    requires PrimaryUsable(ranks)
    ensures FetchTop5(ranks, rows) == FetchTop5(ranks, rows')
    ensures |FetchTop5(ranks, rows)| == Min(TopN, |ranks.value|)
    ensures forall i :: 0 <= i < |FetchTop5(ranks, rows)| ==>
              FetchTop5(ranks, rows)[i] == FormatLine(PrimaryRecord(ranks.value[i]))
  {
  }

  /** When the primary source yields nothing, the result is the first five
      fallback rows in document order, if there are any. */
  lemma FallbackWhenPrimaryFails(ranks: Option<seq<RankEntry>>, rows: Option<seq<Capture>>)
    requires WellFormedRows(rows)
    requires !PrimaryUsable(ranks) && FallbackUsable(rows)
    ensures |FetchTop5(ranks, rows)| == Min(TopN, |rows.value|)
    ensures forall i :: 0 <= i < |FetchTop5(ranks, rows)| ==>
              FetchTop5(ranks, rows)[i] == FormatLine(FallbackRecord(rows.value[i]))
  {
  }

  /** A null among the first five ranks sends the whole fetch to the
      fallback, even when the other entries are fine. */
  lemma NullEntryFallsBack(ranks: seq<RankEntry>, rows: Option<seq<Capture>>, k: nat)
    requires WellFormedRows(rows)
    requires k < |ranks| && k < TopN && ranks[k].Null?
    ensures FetchTop5(Some(ranks), rows) == FetchTop5(None, rows)
  {
  }

  /** A missing rank, name and id still give a line: "#undefined App undefined — …". */
  lemma UndefinedFieldsExample()
    ensures var x := Entry(None, None, Some(""), None, Some(0), None);
            FetchTop5(Some([x]), None) == ["#undefined App undefined \U{2014} 0"]
  {
    var x := Entry(None, None, Some(""), None, Some(0), None);
    assert PrimaryUsable(Some([x]));
    UndefinedRecord(x);
    UndefinedLine();
    assert PrimaryLines(Some([x])).value == [FormatLine(PrimaryRecord(x))];
  }

  lemma UndefinedRecord(x: RankEntry)
    requires x == Entry(None, None, Some(""), None, Some(0), None)
    ensures PrimaryRecord(x) == Record(None, "App undefined", 0)
  {
  }

  lemma UndefinedLine()
    ensures FormatLine(Record(None, "App undefined", 0)) == "#undefined App undefined \U{2014} 0"
  {
    assert ShowField(None) == "undefined";
    assert FmtPlayers(0) == "0";
    assert FormatLine(Record(None, "App undefined", 0)) == "#" + "undefined" + " " + "App undefined" + " \U{2014} " + "0";
  }
}
