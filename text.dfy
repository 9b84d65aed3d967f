/** Text helpers shared by the model: the JavaScript string and number
    conversions that the bot relies on (String(n), unary plus on a digit
    string, String.prototype.trim, removing thousands separators). */
module Text {

  datatype Option<+T> = None | Some(value: T)

  function Min(a: nat, b: nat): nat { if a <= b then a else b }

  predicate IsDigit(c: char) { '0' <= c <= '9' }

  predicate AllDigits(s: string) { forall i :: 0 <= i < |s| ==> IsDigit(s[i]) }

  /** A digit string as String(n) prints it: non-empty, no leading zero. */
  predicate Canonical(s: string)
  {
    |s| > 0 && AllDigits(s) && (s[0] == '0' ==> s == "0")
  }

  function DigitChar(d: nat): (c: char)
    requires d < 10
    ensures IsDigit(c) && c as int - '0' as int == d
  {
    ('0' as int + d) as char
  }

  function DigitValue(c: char): (d: nat)
    requires IsDigit(c)
    ensures d < 10 && DigitChar(d) == c
  {
    c as int - '0' as int
  }

  /** Decimal rendering of a non-negative integer, what String(n) and a
      template literal give for an integral number. */
  function NatToString(n: nat): (s: string)
    ensures Canonical(s)
    decreases n
  {
    if n < 10 then [DigitChar(n)] else NatToString(n / 10) + [DigitChar(n % 10)]
  }

  /** Numeric value of a digit string, what unary plus gives for it; the
      empty string converts to 0, as +"" does. */
  function DigitsValue(s: string): (r: nat)
    requires AllDigits(s)
    ensures s != [] && s[0] != '0' ==> r > 0
    decreases |s|
  {
    if s == [] then 0 else DigitsValue(s[..|s| - 1]) * 10 + DigitValue(s[|s| - 1])
  }

  /** Reading back a rendered number gives the number. */
  lemma {:induction false} ParseShow(n: nat)
    ensures DigitsValue(NatToString(n)) == n
    decreases n
  {
    if n >= 10 {
      var s := NatToString(n);
      assert s[..|s| - 1] == NatToString(n / 10);
      ParseShow(n / 10);
    }
  }

  /** Rendering the value of a canonical digit string gives the string back. */
  lemma {:induction false} ShowParse(s: string)
    requires Canonical(s)
    ensures NatToString(DigitsValue(s)) == s
    decreases |s|
  {
    if |s| > 1 {
      var t := s[..|s| - 1];
      assert t[0] == s[0];
      ShowParse(t);
      var v := DigitsValue(s);
      assert v / 10 == DigitsValue(t) && v % 10 == DigitValue(s[|s| - 1]);
      assert s == t + [s[|s| - 1]];
    }
  }

  // ---------------------------------------------------------------------
  // Thousands separators

  /** The string with every ',' removed, as replace(/,/g, '') does. */
  function StripCommas(s: string): (r: string)
    ensures |r| <= |s|
    ensures forall i :: 0 <= i < |r| ==> r[i] != ','
    ensures (forall i :: 0 <= i < |s| ==> s[i] == ',' || IsDigit(s[i])) ==> AllDigits(r)
  {
    if s == [] then [] else (if s[0] == ',' then [] else [s[0]]) + StripCommas(s[1..])
  }

  lemma {:induction false} StripCommasAppend(a: string, b: string)
    ensures StripCommas(a + b) == StripCommas(a) + StripCommas(b)
    decreases |a|
  {
    if a == [] {
      assert a + b == b;
    } else {
      var first := if a[0] == ',' then [] else [a[0]];
      assert (a + b)[0] == a[0];
      assert (a + b)[1..] == a[1..] + b;
      StripCommasAppend(a[1..], b);
      assert StripCommas(a + b) == first + StripCommas(a[1..] + b);
      assert StripCommas(a) == first + StripCommas(a[1..]);
    }
  }

  /** A string without commas is left as it is. */
  lemma {:induction false} StripCommasNone(s: string)
    requires forall i :: 0 <= i < |s| ==> s[i] != ','
    ensures StripCommas(s) == s
    decreases |s|
  {
    if s != [] {
      StripCommasNone(s[1..]);
    }
  }

  /** A digit string with a ',' between every group of three digits counted
      from the right, the way a listing page prints a large count. */
  function Grouped(s: string): (r: string)
    ensures |r| >= |s|
    decreases |s|
  {
    if |s| <= 3 then s else Grouped(s[..|s| - 3]) + "," + s[|s| - 3..]
  }

  /** A separator between two parts disappears, and the comma-free right part is kept. */
  lemma StripAroundComma(g: string, tail: string)
    requires forall i :: 0 <= i < |tail| ==> tail[i] != ','
    ensures StripCommas(g + "," + tail) == StripCommas(g) + tail
  {
    var front := g + ",";
    StripCommasAppend(front, tail);
    StripCommasAppend(g, ",");
    StripCommasNone(tail);
    var sg := StripCommas(g);
    assert StripCommas(",") == [];
    assert StripCommas(front) == sg + [] == sg;
  }

  /** Removing the separators from a grouped digit string restores it. */
  lemma {:induction false} StripGrouped(s: string)
    requires AllDigits(s)
    ensures StripCommas(Grouped(s)) == s
    decreases |s|
  {
    if |s| > 3 {
      var head, tail := s[..|s| - 3], s[|s| - 3..];
      assert AllDigits(head) by {
        forall i | 0 <= i < |head| ensures IsDigit(head[i]) { assert head[i] == s[i]; }
      }
      assert forall i :: 0 <= i < |tail| ==> tail[i] != ',' by {
        forall i | 0 <= i < |tail| ensures tail[i] != ',' { assert tail[i] == s[|s| - 3 + i]; }
      }
      StripGrouped(head);
      StripAroundComma(Grouped(head), tail);
      assert s == head + tail;
    } else {
      StripCommasNone(s);
    }
  }

  /** The count a listing page shows as n with thousands separators converts back to n. */
  lemma GroupedCountValue(n: nat)
    ensures AllDigits(StripCommas(Grouped(NatToString(n))))
    ensures DigitsValue(StripCommas(Grouped(NatToString(n)))) == n
  {
    StripGrouped(NatToString(n));
    ParseShow(n);
  }

  // ---------------------------------------------------------------------
  // String.prototype.trim

  /** The characters JavaScript's trim removes: WhiteSpace (tab, vertical
      tab, form feed, space, no-break space, byte order mark and the Unicode
      Zs category) and LineTerminator (LF, CR, U+2028, U+2029). */
  predicate IsJsSpace(c: char)
  {
    c == '\t' || c == '\n' || c == '\U{000B}' || c == '\U{000C}' || c == '\r' ||
    c == ' ' || c == '\U{00A0}' || c == '\U{1680}' ||
    ('\U{2000}' <= c <= '\U{200A}') ||
    c == '\U{2028}' || c == '\U{2029}' || c == '\U{202F}' || c == '\U{205F}' ||
    c == '\U{3000}' || c == '\U{FEFF}'
  }

  function TrimStart(s: string): (r: string)
    ensures |r| <= |s| && r == s[|s| - |r|..]
    ensures forall i :: 0 <= i < |s| - |r| ==> IsJsSpace(s[i])
    ensures r != [] ==> !IsJsSpace(r[0])
    decreases |s|
  {
    if s != [] && IsJsSpace(s[0]) then TrimStart(s[1..]) else s
  }

  function TrimEnd(s: string): (r: string)
    ensures |r| <= |s| && r == s[..|r|]
    ensures forall i :: |r| <= i < |s| ==> IsJsSpace(s[i])
    ensures r != [] ==> !IsJsSpace(r[|r| - 1])
    decreases |s|
  {
    if s != [] && IsJsSpace(s[|s| - 1]) then TrimEnd(s[..|s| - 1]) else s
  }

  /** The string without its leading and trailing white space. */
  function Trim(s: string): (r: string)
    ensures r != [] ==> !IsJsSpace(r[0]) && !IsJsSpace(r[|r| - 1])
  {
    var t := TrimStart(s);
    var r := TrimEnd(t);
    assert r != [] ==> r[0] == t[0];
    r
  }

  /** Trim removes exactly a white-space prefix and a white-space suffix. */
  lemma TrimSlice(s: string) returns (lo: nat, hi: nat)
    ensures lo <= hi <= |s| && Trim(s) == s[lo..hi]
    ensures forall i :: 0 <= i < lo ==> IsJsSpace(s[i])
    ensures forall i :: hi <= i < |s| ==> IsJsSpace(s[i])
  {
    var t := TrimStart(s);
    lo := |s| - |t|;
    hi := lo + |TrimEnd(t)|;
    forall i | hi <= i < |s| ensures IsJsSpace(s[i]) {
      assert s[i] == t[i - lo];
    }
  }

  /** A string with no white space at either end is its own trim. */
  lemma TrimNoop(s: string)
    requires s != [] ==> !IsJsSpace(s[0]) && !IsJsSpace(s[|s| - 1])
    ensures Trim(s) == s
  {
  }

  lemma TrimIdempotent(s: string)
    ensures Trim(Trim(s)) == Trim(s)
  {
    TrimNoop(Trim(s));
  }
}
