/** What the bot hands to the chat platform for one display line
    (setPresence and maybeSetNickname, index.js:63-81): the status text is
    the line itself; the nickname is the configured prefix, a bullet and the
    line cut to 24 characters, and is only set when both a guild id and a
    prefix are configured. */
module Presence {
  import opened Text

  /** Lines longer than this are cut for the nickname. */
  const ShortWidth: nat := 24

  const Ellipsis: char := '\U{2026}'

  /** line.length > 24 ? line.slice(0, 24) + '…' : line */
  function Shorten(line: string): (r: string)
    ensures |r| <= ShortWidth + 1
    ensures |line| <= ShortWidth ==> r == line
    ensures |line| > ShortWidth ==> |r| == ShortWidth + 1 && r[ShortWidth] == Ellipsis
    ensures r[..Min(|r|, ShortWidth)] == line[..Min(|r|, ShortWidth)]
  {
    if |line| > ShortWidth then line[..ShortWidth] + [Ellipsis] else line
  }

  /** Shortening a shortened line changes nothing more. */
  lemma ShortenIdempotent(line: string)
    ensures Shorten(Shorten(line)) == Shorten(line)
  {
    if |line| > ShortWidth {
      var s := Shorten(line);
      assert s[..ShortWidth] == line[..ShortWidth];
      assert s == s[..ShortWidth] + [Ellipsis];
    }
  }

  /** The lines a nickname shows in full are exactly those of at most 24
      characters and those of 25 whose last character already is '…'. */
  lemma ShortenFixedPoint(line: string)
    ensures Shorten(line) == line <==>
              |line| <= ShortWidth || (|line| == ShortWidth + 1 && line[ShortWidth] == Ellipsis)
  {
    if |line| == ShortWidth + 1 && line[ShortWidth] == Ellipsis {
      assert line == line[..ShortWidth] + [Ellipsis];
    }
  }

  /** The nickname to set for a line, or None when nickname updates are off
      (an empty guild id or an empty prefix). */
  function Nickname(guildId: string, prefix: string, line: string): (r: Option<string>)
    ensures r.Some? <==> guildId != "" && prefix != ""
    ensures r.Some? ==> |r.value| <= |prefix| + 3 + ShortWidth + 1
    ensures r.Some? ==> |r.value| == |prefix| + 3 + |Shorten(line)|
    ensures r.Some? ==> r.value[..|prefix|] == prefix && r.value[|prefix| + 3..] == Shorten(line)
    ensures r.Some? ==> r.value[|prefix|..|prefix| + 3] == " \U{2022} "
  {
    if guildId == "" || prefix == "" then None
    else Some(prefix + " \U{2022} " + Shorten(line))
  }

  /** Everything one publish step hands to the chat platform. */
  datatype Published = Published(status: string, nickname: Option<string>)

  function Publish(guildId: string, prefix: string, line: string): (p: Published)
    ensures p.status == line
    ensures p.nickname.Some? <==> guildId != "" && prefix != ""
    ensures p.nickname == Nickname(guildId, prefix, line)
  {
    Published(line, Nickname(guildId, prefix, line))
  }
}
