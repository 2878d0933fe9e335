/** The header lines of a unified diff: what the hunk pattern matches, and decimal numbers. */
module HunkHeaders {
  import opened Options

  // ---- numbers ----

  predicate IsDigit(c: char) {
    '0' <= c <= '9'
  }

  predicate IsNumber(s: string) {
    s != [] && forall i :: 0 <= i < |s| ==> IsDigit(s[i])
  }

  function DigitValue(c: char): nat
    requires IsDigit(c)
  {
    c as int - '0' as int
  }

  function Value(s: string): nat
    requires forall i :: 0 <= i < |s| ==> IsDigit(s[i])
  {
    if s == [] then 0 else 10 * Value(s[..|s| - 1]) + DigitValue(s[|s| - 1])
  }

  function Digit(d: nat): char
    requires d < 10
  {
    ('0' as int + d) as char
  }

  function Decimal(n: nat): string {
    if n < 10 then [Digit(n)] else Decimal(n / 10) + [Digit(n % 10)]
  }

  lemma {:induction false} DecimalRoundTrip(n: nat)
    ensures IsNumber(Decimal(n)) && Value(Decimal(n)) == n
  {
    if n < 10 {
      assert Decimal(n)[..0] == [];
    } else {
      DecimalRoundTrip(n / 10);
      assert Decimal(n)[..|Decimal(n)| - 1] == Decimal(n / 10);
    }
  }

  ghost function PowerOfTen(n: nat): nat {
    if n == 0 then 1 else 10 * PowerOfTen(n - 1)
  }

  lemma TimesTen(x: nat, y: nat, z: nat)
    ensures 10 * (x * y + z) == x * (10 * y) + 10 * z
  {
  }

  /** Positional notation in base ten. */
  lemma {:induction false} ValueIsPositional(a: string, b: string, c: char)
    requires (forall i :: 0 <= i < |a| ==> IsDigit(a[i])) && (forall i :: 0 <= i < |b| ==> IsDigit(b[i])) && IsDigit(c)
    ensures (forall i :: 0 <= i < |a + b| ==> IsDigit((a + b)[i]))
            && Value(a + b) == Value(a) * PowerOfTen(|b|) + Value(b)
    ensures Value([c]) == c as int - '0' as int
  {
    assert [c][..0] == [];
    if b == [] {
      assert a + b == a;
    } else {
      var n := |b| - 1;
      ValueIsPositional(a, b[..n], c);
      assert (a + b)[..|a + b| - 1] == a + b[..n] && (a + b)[|a + b| - 1] == b[n];
      TimesTen(Value(a), PowerOfTen(n), Value(b[..n]));
    }
  }

  // ---- the matcher ----

  /** How many digits the text starts with. */
  function Span(s: string): (n: nat)
    ensures n <= |s|
    ensures forall i :: 0 <= i < n ==> IsDigit(s[i])
    ensures n < |s| ==> !IsDigit(s[n])
  {
    if s == [] || !IsDigit(s[0]) then 0 else 1 + Span(s[1..])
  }

  /** What follows a literal, when the text starts with it. */
  function After(s: string, literal: string): Option<string> {
    if literal <= s then Some(s[|literal|..]) else None
  }

  /** A number and what follows it. */
  function Number(s: string): Option<(nat, string)> {
    var n := Span(s);
    if n == 0 then None else Some((Value(s[..n]), s[n..]))
  }

  /** A count after a comma, if there is one, and what follows. */
  function Count(s: string): (Option<nat>, string) {
    if s != [] && s[0] == ',' && Number(s[1..]).Some? then
      (Some(Number(s[1..]).value.0), Number(s[1..]).value.1)
    else (None, s)
  }

  /** One side of a header: a start and an optional count. */
  function Side(s: string): Option<((nat, Option<nat>), string)> {
    var start := Number(s);
    if start.None? then None
    else
      var count := Count(start.value.1);
      Some(((start.value.0, count.0), count.1))
  }

  /** The hunk pattern applied to one line: start and count of the new side. */
  function MatchHunk(line: string): Option<(nat, Option<nat>)> {
    var older := After(line, "@@ -");
    if older.None? || Side(older.value).None? then None
    else
      var newer := After(Side(older.value).value.1, " +");
      if newer.None? || Side(newer.value).None? then None
      else
        var side := Side(newer.value).value;
        if After(side.1, " @@").None? then None else Some(side.0)
  }

  // ---- the format the pattern stands for ----

  datatype SideText = SideText(start: string, count: Option<string>)

  predicate IsSide(side: SideText) {
    IsNumber(side.start) && (side.count.Some? ==> IsNumber(side.count.value))
  }

  function SideString(side: SideText): string {
    side.start + if side.count.Some? then "," + side.count.value else ""
  }

  function HeaderString(older: SideText, newer: SideText, tail: string): string {
    "@@ -" + (SideString(older) + (" +" + (SideString(newer) + (" @@" + tail))))
  }

  function SideValue(side: SideText): (nat, Option<nat>)
    requires IsSide(side)
  {
    (Value(side.start), if side.count.Some? then Some(Value(side.count.value)) else None)
  }

  lemma {:induction false} SpanOfNumber(digits: string, rest: string)
    requires forall i :: 0 <= i < |digits| ==> IsDigit(digits[i])
    requires rest != [] ==> !IsDigit(rest[0])
    ensures Span(digits + rest) == |digits|
  {
    if digits == [] {
      assert digits + rest == rest;
    } else {
      SpanOfNumber(digits[1..], rest);
      assert (digits + rest)[1..] == digits[1..] + rest;
    }
  }

  lemma ReadNumber(digits: string, rest: string)
    requires IsNumber(digits) && (rest != [] ==> !IsDigit(rest[0]))
    ensures Number(digits + rest) == Some((Value(digits), rest))
  {
    SpanOfNumber(digits, rest);
    assert (digits + rest)[..|digits|] == digits && (digits + rest)[|digits|..] == rest;
  }

  lemma ReadAfter(literal: string, rest: string)
    ensures After(literal + rest, literal) == Some(rest)
  {
    assert (literal + rest)[|literal|..] == rest;
  }

  lemma ReadSide(side: SideText, rest: string)
    requires IsSide(side) && rest != [] && rest[0] == ' '
    ensures Side(SideString(side) + rest) == Some((SideValue(side), rest))
  {
    hide Value, Number, Span;
    if side.count.Some? {
      var counted := side.count.value + rest;
      ReadNumber(side.count.value, rest);
      ReadNumber(side.start, "," + counted);
      assert ("," + counted)[1..] == counted;
      assert SideString(side) + rest == side.start + ("," + counted);
    } else {
      ReadNumber(side.start, rest);
      assert SideString(side) + rest == side.start + rest;
    }
  }

  /** Whatever has the header format is matched, with the values it spells. */
  lemma HeaderMatches(older: SideText, newer: SideText, tail: string)
    requires IsSide(older) && IsSide(newer)
    ensures MatchHunk(HeaderString(older, newer, tail)) == Some(SideValue(newer))
  {
    var last := " @@" + tail;
    var middle := " +" + (SideString(newer) + last);
    ReadAfter("@@ -", SideString(older) + middle);
    ReadSide(older, middle);
    ReadAfter(" +", SideString(newer) + last);
    ReadSide(newer, last);
    ReadAfter(" @@", tail);
  }

  lemma SplitAfter(s: string, literal: string)
    requires After(s, literal).Some?
    ensures s == literal + After(s, literal).value
  {
  }

  lemma SplitNumber(s: string) returns (digits: string)
    requires Number(s).Some?
    ensures IsNumber(digits) && s == digits + Number(s).value.1 && Number(s).value.0 == Value(digits)
  {
    digits := s[..Span(s)];
  }

  /** What a side that was read looks like. */
  lemma SplitSide(s: string) returns (side: SideText)
    requires Side(s).Some?
    ensures IsSide(side) && SideValue(side) == Side(s).value.0
    ensures s == SideString(side) + Side(s).value.1
  {
    hide Number, Value, IsNumber;
    var start := SplitNumber(s);
    var rest := Number(s).value.1;
    if Count(rest).0.Some? {
      var count := SplitNumber(rest[1..]);
      side := SideText(start, Some(count));
      assert rest == "," + rest[1..];
    } else {
      side := SideText(start, None);
    }
  }

  /** The pattern matches nothing else, so it decides the format. */
  lemma MatchIsHeader(line: string)
    ensures MatchHunk(line).Some? <==>
              exists older, newer, tail :: IsSide(older) && IsSide(newer) && line == HeaderString(older, newer, tail)
  {
    if MatchHunk(line).Some? {
      var a := After(line, "@@ -").value;
      var older := SplitSide(a);
      var b := Side(a).value.1;
      var c := After(b, " +").value;
      var newer := SplitSide(c);
      var d := Side(c).value.1;
      SplitAfter(line, "@@ -");
      SplitAfter(b, " +");
      SplitAfter(d, " @@");
      assert line == HeaderString(older, newer, After(d, " @@").value);
    }
    forall older, newer, tail | IsSide(older) && IsSide(newer) && line == HeaderString(older, newer, tail)
      ensures MatchHunk(line).Some?
    {
      HeaderMatches(older, newer, tail);
    }
  }

  /** Either side of a header may leave out its count; the numbers of the new side are what is read. */
  lemma HeaderSpelled(older: string, a: string, b: string, c: string, d: string, tail: string)
    requires IsNumber(a) && IsNumber(b) && IsNumber(c) && IsNumber(d)
    requires older == a || older == a + ("," + b)
    ensures MatchHunk("@@ -" + (older + (" +" + ((c + ("," + d)) + (" @@" + tail)))))
         == Some((Value(c), Some(Value(d))))
    ensures MatchHunk("@@ -" + (older + (" +" + (c + (" @@" + tail))))) == Some((Value(c), None))
  {
    var side := if older == a then SideText(a, None) else SideText(a, Some(b));
    var counted, bare := SideText(c, Some(d)), SideText(c, None);
    HeaderMatches(side, counted, tail);
    HeaderMatches(side, bare, tail);
    hide MatchHunk, Value, IsNumber;
    assert a + "" == a && c + "" == c;
    assert SideString(side) == older && SideString(counted) == c + ("," + d) && SideString(bare) == c;
  }
}
