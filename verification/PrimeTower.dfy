/** The prime-tower check of exported G-code: find the marked block in the text, read its G1-G3
    lines through modal X and Y, and compare the bounding box with the tower's footprint. */
module PrimeTower {
  import opened Wrappers

  datatype Point = Point(x: real, y: real)

  datatype Box = Box(minX: real, maxX: real, minY: real, maxY: real)

  const FEATURE := ";TYPE:Prime tower"
  const START := "; WIPE_TOWER_START"
  const END := "; WIPE_TOWER_END"

  // ---------- finding the block ----------

  predicate At(s: string, w: string, i: nat) {
    i + |w| <= |s| && s[i..i + |w|] == w
  }

  /** The first place at or after `from` where `w` stands. */
  function IndexOf(s: string, w: string, from: nat): (r: Option<nat>)
    ensures r.Some? ==> from <= r.value && At(s, w, r.value) && forall i | from <= i < r.value :: !At(s, w, i)
    ensures r.None? ==> forall i | from <= i :: !At(s, w, i)
    decreases |s| - from
  {
    if from + |w| > |s| then None
    else if At(s, w, from) then Some(from)
    else IndexOf(s, w, from + 1)
  }

  datatype Block = Block(marker: nat, start: nat, end: nat)

  /** The three markers; a marker that is missing, or stands no later than the one before it,
      fails the check. */
  function Locate(source: string): Option<Block> {
    match IndexOf(source, FEATURE, 0)
    case None => None
    case Some(marker) =>
      match IndexOf(source, START, marker)
      case None => None
      case Some(start) =>
        match IndexOf(source, END, start)
        case None => None
        case Some(end) => if start > marker && end > start then Some(Block(marker, start, end)) else None
  }

  lemma DifferentWords(s: string, i: nat)
    ensures !(At(s, FEATURE, i) && At(s, START, i)) && !(At(s, START, i) && At(s, END, i))
  {
    if i + |FEATURE| <= |s| {
      assert s[i..i + |FEATURE|][1] == s[i + 1];
    }
    if i + |START| <= |s| {
      assert s[i..i + |START|][1] == s[i + 1] && s[i..i + |START|][13] == s[i + 13];
    }
    if i + |END| <= |s| {
      assert s[i..i + |END|][13] == s[i + 13];
    }
  }

  /** The block is found if and only if the three markers stand in the text in this order. */
  lemma LocateSucceedsIff(source: string)
    ensures Locate(source).Some? <==> exists m: nat, s: nat, e: nat ::
              At(source, ";TYPE:Prime tower", m) && At(source, "; WIPE_TOWER_START", s) && At(source, "; WIPE_TOWER_END", e) && m < s < e
  {
    hide At;
    if m: nat, s: nat, e: nat :| At(source, FEATURE, m) && At(source, START, s) && At(source, END, e) && m < s < e {
      var m0 := IndexOf(source, FEATURE, 0).value;
      var s0 := IndexOf(source, START, m0).value;
      var e0 := IndexOf(source, END, s0).value;
      DifferentWords(source, m0);
      DifferentWords(source, s0);
    }
  }

  /** Splits at line feeds, each with at most one carriage return before it. */
  function SplitLines(s: string): seq<string>
    decreases |s|
  {
    match IndexOf(s, "\n", 0)
    case None => [s]
    case Some(i) => [if i > 0 && s[i - 1] == '\r' then s[..i - 1] else s[..i]] + SplitLines(s[i + 1..])
  }

  /** Lines written one after the other, each but the last ended by LF or, where `crlf` says so,
      by CR LF. */
  function Write(lines: seq<string>, crlf: seq<bool>): string
    requires |lines| == |crlf| + 1
  {
    if crlf == [] then lines[0]
    else lines[0] + ((if crlf[0] then "\r\n" else "\n") + Write(lines[1..], crlf[1..]))
  }

  lemma FirstBreak(s: string, i: nat)
    requires i < |s| && s[i] == '\n' && forall k | 0 <= k < i :: s[k] != '\n'
    ensures IndexOf(s, "\n", 0) == Some(i)
  {
    assert At(s, "\n", i) by {
      assert s[i..i + 1] == "\n";
    }
    forall k: nat | k < i ensures !At(s, "\n", k) {
      assert s[k..k + 1][0] == s[k];
    }
  }

  lemma NoBreak(s: string)
    requires forall k | 0 <= k < |s| :: s[k] != '\n'
    ensures IndexOf(s, "\n", 0) == None
  {
    forall k: nat ensures !At(s, "\n", k) {
      if k + 1 <= |s| {
        assert s[k..k + 1][0] == s[k];
      }
    }
  }

  /** Where a text breaks for the first time decides its first line and the rest. */
  lemma BreakSplits(text: string, i: nat, rest: string)
    requires i < |text| && text[i] == '\n' && (forall k | 0 <= k < i :: text[k] != '\n') && text[i + 1..] == rest
    ensures SplitLines(text) == [if i > 0 && text[i - 1] == '\r' then text[..i - 1] else text[..i]] + SplitLines(rest)
  {
    FirstBreak(text, i);
    hide IndexOf;
  }

  lemma FirstLine(line: string, crlf: bool, rest: string)
    requires (forall k | 0 <= k < |line| :: line[k] != '\n') && (!crlf && line != "" ==> line[|line| - 1] != '\r')
    ensures SplitLines(line + ((if crlf then "\r\n" else "\n") + rest)) == [line] + SplitLines(rest)
  {
    hide SplitLines;
    var text := line + ((if crlf then "\r\n" else "\n") + rest);
    var i := if crlf then |line| + 1 else |line|;
    assert forall k | 0 <= k < |line| :: text[k] == line[k];
    assert text[i] == '\n' && text[i + 1..] == rest && text[..|line|] == line;
    BreakSplits(text, i, rest);
  }

  /** Splitting gives back the lines that were written, whatever mix of line ends was used; only a
      line that ends in CR itself must not be ended by LF alone. */
  lemma {:induction false} SplitReadsWhatWasWritten(lines: seq<string>, crlf: seq<bool>)
    requires |lines| == |crlf| + 1
    requires forall i | 0 <= i < |lines| :: '\n' !in lines[i]
    requires forall i | 0 <= i < |crlf| :: !crlf[i] && lines[i] != "" ==> lines[i][|lines[i]| - 1] != '\r'
    ensures SplitLines(Write(lines, crlf)) == lines
    decreases |crlf|
  {
    if crlf == [] {
      NoBreak(lines[0]);
    } else {
      FirstLine(lines[0], crlf[0], Write(lines[1..], crlf[1..]));
      SplitReadsWhatWasWritten(lines[1..], crlf[1..]);
    }
  }

  // ---------- reading a line ----------

  predicate IsDigit(c: char) {
    '0' <= c <= '9'
  }

  predicate IsWord(c: char) {
    IsDigit(c) || 'a' <= c <= 'z' || 'A' <= c <= 'Z' || c == '_'
  }

  /** G1, G2 or G3 at the start of the line, not continued by a word character. */
  predicate IsMotion(line: string) {
    && |line| >= 2 && line[0] == 'G' && line[1] in "123"
    && (|line| > 2 ==> !IsWord(line[2]))
  }

  /** The end of the digits that start at `i`. */
  function DigitsEnd(line: string, i: nat): (j: nat)
    requires i <= |line|
    ensures i <= j <= |line| && (forall k | i <= k < j :: IsDigit(line[k])) && (j < |line| ==> !IsDigit(line[j]))
    decreases |line| - i
  {
    if i < |line| && IsDigit(line[i]) then DigitsEnd(line, i + 1) else i
  }

  function DigitValue(c: char): nat
    requires IsDigit(c)
  {
    c as int - '0' as int
  }

  predicate AllDigits(s: string) {
    forall i | 0 <= i < |s| :: IsDigit(s[i])
  }

  /** The value of a row of digits. */
  function Digits(s: string): nat
    requires AllDigits(s)
  {
    if s == "" then 0 else 10 * Digits(s[..|s| - 1]) + DigitValue(s[|s| - 1])
  }

  function Power10(n: nat): (p: nat)
    ensures p > 0
  {
    if n == 0 then 1 else 10 * Power10(n - 1)
  }

  /** The digits that start at `i`, with a fraction if digits follow the point. */
  function UnsignedAt(line: string, i: nat): Option<real>
    requires i <= |line|
  {
    var point := DigitsEnd(line, i);
    if point == i then None
    else
      var end := if point < |line| && line[point] == '.' then DigitsEnd(line, point + 1) else point;
      var whole := Digits(line[i..point]) as real;
      Some(if end > point + 1 then whole + Fraction(line[point + 1..end]) else whole)
  }

  function Fraction(s: string): real
    requires AllDigits(s)
  {
    Digits(s) as real / Power10(|s|) as real
  }

  /** The number that starts at `i`, with or without a minus sign. */
  function NumberAt(line: string, i: nat): Option<real>
    requires i <= |line|
  {
    if i < |line| && line[i] == '-' then
      match UnsignedAt(line, i + 1)
      case None => None
      case Some(v) => Some(-v)
    else UnsignedAt(line, i)
  }

  lemma Tenfold(a: nat, p: nat, f: nat)
    ensures 10 * (a * p + f) == a * (10 * p) + 10 * f
  {
  }

  lemma {:induction false} DigitsJoin(a: string, b: string)
    requires AllDigits(a) && AllDigits(b)
    ensures AllDigits(a + b) && Digits(a + b) == Digits(a) * Power10(|b|) + Digits(b)
  {
    if b == "" {
      assert a + b == a;
    } else {
      var front := b[..|b| - 1];
      assert (a + b)[..|a + b| - 1] == a + front;
      DigitsJoin(a, front);
      Tenfold(Digits(a), Power10(|front|), Digits(front));
    }
  }

  lemma {:induction false} DigitsEndThere(line: string, i: nat, j: nat)
    requires i <= j <= |line| && (forall k | i <= k < j :: IsDigit(line[k])) && (j < |line| ==> !IsDigit(line[j]))
    ensures DigitsEnd(line, i) == j
    decreases j - i
  {
    if i < j {
      DigitsEndThere(line, i + 1, j);
    }
  }

  function FractionText(fraction: string): string {
    if fraction != "" then "." + fraction else ""
  }

  lemma DigitsBetween(line: string, a: string, b: string, c: string) returns (i: nat, j: nat)
    requires line == a + b + c
    requires AllDigits(b) && (c != "" ==> !IsDigit(c[0]))
    ensures i == |a| && j == |a| + |b| <= |line| && DigitsEnd(line, i) == j && line[i..j] == b
    ensures if c == "" then j == |line| else j < |line| && line[j] == c[0]
  {
    i, j := |a|, |a| + |b|;
    assert forall k | i <= k < j :: line[k] == b[k - i];
    DigitsEndThere(line, i, j);
  }

  /** `rest` does not go on with more digits, nor with a point and a digit if there is no fraction
      yet. */
  predicate Continues(fraction: string, rest: string) {
    rest != "" && (IsDigit(rest[0]) || (fraction == "" && rest[0] == '.' && |rest| > 1 && IsDigit(rest[1])))
  }

  lemma WholeIsRead(before: string, whole: string, rest: string)
    requires whole != "" && AllDigits(whole) && !Continues("", rest)
    ensures UnsignedAt(before + whole + rest, |before|) == Some(Digits(whole) as real)
  {
    hide Digits, DigitsEnd, AllDigits, Fraction;
    var line := before + whole + rest;
    var i, point := DigitsBetween(line, before, whole, rest);
    if rest != "" && rest[0] == '.' {
      assert |rest| > 1 ==> line[point + 1] == rest[1];
      DigitsEndThere(line, point + 1, point + 1);
    }
  }

  lemma Regroup(a: string, b: string, c: string, d: string)
    ensures a + b + c + d == a + (b + c + d) == a + (b + c) + d
    ensures a + "" + d == a + d
  {
  }

  lemma PointIsPassed(line: string, i: nat, point: nat, end: nat, whole: string, fraction: string)
    requires i < point < |line| && line[point] == '.' && point + 1 < end <= |line|
    requires DigitsEnd(line, i) == point && DigitsEnd(line, point + 1) == end
    requires line[i..point] == whole && line[point + 1..end] == fraction && AllDigits(whole) && AllDigits(fraction)
    ensures UnsignedAt(line, i) == Some(Digits(whole) as real + Fraction(fraction))
  {
    hide Digits, DigitsEnd, Fraction;
  }

  lemma DecimalParts(line: string, before: string, whole: string, tail: string, dotted: string, fraction: string, rest: string)
    requires line == before + whole + tail && line == dotted + fraction + rest
    requires |dotted| == |before| + |whole| + 1 && tail != "" && tail[0] == '.'
    requires whole != "" && AllDigits(whole) && fraction != "" && AllDigits(fraction)
    requires rest != "" ==> !IsDigit(rest[0])
    ensures UnsignedAt(line, |before|) == Some(Digits(whole) as real + Fraction(fraction))
  {
    assert !IsDigit('.');
    hide Digits, DigitsEnd, IsDigit, AllDigits, Fraction, UnsignedAt;
    var i, point := DigitsBetween(line, before, whole, tail);
    var after, end := DigitsBetween(line, dotted, fraction, rest);
    PointIsPassed(line, i, point, end, whole, fraction);
  }

  lemma DecimalIsRead(before: string, whole: string, fraction: string, rest: string)
    requires whole != "" && AllDigits(whole) && fraction != "" && AllDigits(fraction)
    requires rest != "" ==> !IsDigit(rest[0])
    ensures UnsignedAt(before + whole + "." + fraction + rest, |before|) == Some(Digits(whole) as real + Fraction(fraction))
  {
    hide Digits, IsDigit, AllDigits, Fraction, UnsignedAt;
    Regroup(before + whole, ".", fraction, rest);
    DecimalParts(before + whole + "." + fraction + rest, before, whole, "." + fraction + rest, before + whole + ".", fraction, rest);
  }

  lemma UnsignedIsRead(before: string, whole: string, fraction: string, rest: string)
    requires whole != "" && AllDigits(whole) && AllDigits(fraction) && !Continues(fraction, rest)
    ensures var line := before + whole + FractionText(fraction) + rest;
            UnsignedAt(line, |before|) == Some(Digits(whole) as real + Fraction(fraction))
  {
    assert fraction == "" ==> Fraction(fraction) == 0.0;
    assert rest != "" ==> !IsDigit(rest[0]);
    hide Digits, IsDigit, AllDigits, Fraction, UnsignedAt;
    if fraction == "" {
      WholeIsRead(before, whole, rest);
      Regroup(before + whole, "", "", rest);
    } else {
      DecimalIsRead(before, whole, fraction, rest);
      Regroup(before + whole, ".", fraction, rest);
    }
  }

  /** A written number, followed by anything that does not continue it, be it a bare point, reads
      as its decimal value: sign, whole part and fraction. */
  lemma NumberIsRead(before: string, minus: bool, whole: string, fraction: string, rest: string)
    requires whole != "" && AllDigits(whole) && AllDigits(fraction) && !Continues(fraction, rest)
    ensures var line := before + (if minus then "-" else "") + whole + FractionText(fraction) + rest;
            var value := Digits(whole) as real + Fraction(fraction);
            NumberAt(line, |before|) == Some(if minus then -value else value)
  {
    hide Digits, DigitsEnd, UnsignedAt, Fraction;
    var signed := before + (if minus then "-" else "");
    var line := signed + whole + FractionText(fraction) + rest;
    UnsignedIsRead(signed, whole, fraction, rest);
    if minus {
      assert line[|before|] == '-';
    } else {
      assert signed == before && line[|before|] == whole[0];
    }
  }

  /** An `axis` word such as X12.5 starts at `i`; a letter inside a longer word does not count. */
  predicate WordAt(line: string, axis: char, i: nat) {
    i < |line| && line[i] == axis && (i > 0 ==> !IsWord(line[i - 1])) && NumberAt(line, i + 1).Some?
  }

  lemma {:induction false} DigitsStart(line: string, i: nat)
    requires i <= |line|
    ensures DigitsEnd(line, i) > i <==> i < |line| && '0' <= line[i] <= '9'
  {
  }

  /** There is a number exactly if a digit stands there, or a minus sign and a digit. */
  lemma NumberSucceedsIff(line: string, i: nat)
    requires i <= |line|
    ensures NumberAt(line, i).Some? <==>
              || (i < |line| && '0' <= line[i] <= '9')
              || (i + 1 < |line| && line[i] == '-' && '0' <= line[i + 1] <= '9')
  {
    hide Digits, Fraction, DigitsEnd;
    DigitsStart(line, i);
    if i < |line| {
      DigitsStart(line, i + 1);
    }
  }

  /** What an axis word is: the letter, not preceded by a letter, a digit or an underscore, and
      followed by a number. */
  lemma WordAtIff(line: string, axis: char, i: nat)
    ensures WordAt(line, axis, i) <==>
              && i < |line| && line[i] == axis
              && (i == 0 || !('0' <= line[i - 1] <= '9' || 'a' <= line[i - 1] <= 'z' || 'A' <= line[i - 1] <= 'Z' || line[i - 1] == '_'))
              && (|| (i + 1 < |line| && '0' <= line[i + 1] <= '9')
                  || (i + 2 < |line| && line[i + 1] == '-' && '0' <= line[i + 2] <= '9'))
  {
    hide NumberAt;
    if i < |line| {
      NumberSucceedsIff(line, i + 1);
    }
  }

  /** The number of the first `axis` word at or after `from`. */
  function AxisFrom(line: string, axis: char, from: nat): Option<real>
    decreases |line| - from
  {
    if from >= |line| then None
    else if WordAt(line, axis, from) then NumberAt(line, from + 1)
    else AxisFrom(line, axis, from + 1)
  }

  /** The first word counts, and only words count. */
  lemma {:induction false} AxisFromIsFirst(line: string, axis: char, from: nat) returns (i: nat)
    ensures AxisFrom(line, axis, from).None? ==> forall j: nat | from <= j :: !WordAt(line, axis, j)
    ensures AxisFrom(line, axis, from).Some? ==>
              && from <= i && WordAt(line, axis, i) && AxisFrom(line, axis, from) == NumberAt(line, i + 1)
              && forall j: nat | from <= j < i :: !WordAt(line, axis, j)
    decreases |line| - from
  {
    i := from;
    assert from >= |line| ==> forall j: nat | from <= j :: !WordAt(line, axis, j);
    hide WordAt, NumberAt;
    if from < |line| && !WordAt(line, axis, from) {
      i := AxisFromIsFirst(line, axis, from + 1);
    }
  }

  function Axis(line: string, axis: char): Option<real> {
    if IsMotion(line) then AxisFrom(line, axis, 0) else None
  }

  // ---------- modal coordinates ----------

  /** The coordinate given by the latest motion line that gives one. */
  function LastSeen(lines: seq<string>, axis: char): Option<real> {
    if lines == [] then None
    else if Axis(lines[|lines| - 1], axis).Some? then Axis(lines[|lines| - 1], axis)
    else LastSeen(lines[..|lines| - 1], axis)
  }

  /** One point after each motion line, once both coordinates have been seen. */
  function PointsOf(lines: seq<string>): seq<Point> {
    if lines == [] then []
    else
      var x, y := LastSeen(lines, 'X'), LastSeen(lines, 'Y');
      PointsOf(lines[..|lines| - 1])
      + if IsMotion(lines[|lines| - 1]) && x.Some? && y.Some? then [Point(x.value, y.value)] else []
  }

  method ReadPoints(lines: seq<string>) returns (points: seq<Point>)
    ensures points == PointsOf(lines)
  {
    var x: Option<real>, y: Option<real> := None, None;
    points := [];
    for k := 0 to |lines|
      invariant x == LastSeen(lines[..k], 'X') && y == LastSeen(lines[..k], 'Y')
      invariant points == PointsOf(lines[..k])
    {
      var line := lines[k];
      assert lines[..k + 1][..k] == lines[..k] && lines[..k + 1][k] == line;
      if IsMotion(line) {
        var xWord, yWord := AxisFrom(line, 'X', 0), AxisFrom(line, 'Y', 0);
        if xWord.Some? {
          x := xWord;
        }
        if yWord.Some? {
          y := yWord;
        }
        if x.Some? && y.Some? {
          points := points + [Point(x.value, y.value)];
        }
      }
    }
    assert lines[..|lines|] == lines;
  }

  /** Line `j` gives the coordinate and no later line does. */
  ghost predicate LatestGiving(lines: seq<string>, axis: char, v: real, j: nat) {
    && j < |lines| && Axis(lines[j], axis) == Some(v)
    && forall k | j < k < |lines| :: Axis(lines[k], axis) == None
  }

  lemma {:induction false} LastSeenIsLatest(lines: seq<string>, axis: char, v: real)
    ensures LastSeen(lines, axis) == Some(v) <==> exists j: nat :: LatestGiving(lines, axis, v, j)
  {
    hide Axis;
    if lines != [] {
      var n, front := |lines| - 1, lines[..|lines| - 1];
      if Axis(lines[n], axis) == Some(v) {
        assert LatestGiving(lines, axis, v, n);
      } else if Axis(lines[n], axis) == None {
        LastSeenIsLatest(front, axis, v);
        if j: nat :| LatestGiving(front, axis, v, j) {
          assert LatestGiving(lines, axis, v, j);
        }
        if j: nat :| LatestGiving(lines, axis, v, j) {
          assert LatestGiving(front, axis, v, j);
        }
      }
    }
  }

  /** Line `k` is a motion line and both coordinates have been given by then. */
  predicate GivesPoint(lines: seq<string>, k: nat) {
    && k < |lines| && IsMotion(lines[k])
    && LastSeen(lines[..k + 1], 'X').Some? && LastSeen(lines[..k + 1], 'Y').Some?
  }

  function PointAfter(lines: seq<string>, k: nat): Point
    requires GivesPoint(lines, k)
  {
    Point(LastSeen(lines[..k + 1], 'X').value, LastSeen(lines[..k + 1], 'Y').value)
  }

  lemma EarlierLines(lines: seq<string>, k: nat)
    requires lines != [] && k < |lines| - 1
    ensures GivesPoint(lines[..|lines| - 1], k) <==> GivesPoint(lines, k)
    ensures GivesPoint(lines, k) ==> PointAfter(lines[..|lines| - 1], k) == PointAfter(lines, k)
  {
    hide IsMotion, LastSeen;
    assert lines[..|lines| - 1][..k + 1] == lines[..k + 1];
  }

  lemma LastLine(lines: seq<string>)
    requires lines != []
    ensures PointsOf(lines) == PointsOf(lines[..|lines| - 1])
              + if GivesPoint(lines, |lines| - 1) then [PointAfter(lines, |lines| - 1)] else []
  {
    hide IsMotion, LastSeen;
    assert lines[..|lines|] == lines;
  }

  lemma OnlyLinesGive(lines: seq<string>)
    ensures forall k: nat :: GivesPoint(lines, k) ==> k < |lines|
  {
    hide IsMotion, LastSeen;
  }

  /** The points are the modal positions after the motion lines that follow both first
      coordinates: one for each such line, in the order of the lines. */
  lemma {:induction false} PointsAreModalPositions(lines: seq<string>) returns (at: seq<nat>)
    ensures forall k: nat :: k in at <==> GivesPoint(lines, k)
    ensures forall i, j | 0 <= i < j < |at| :: at[i] < at[j]
    ensures |PointsOf(lines)| == |at| && forall j | 0 <= j < |at| :: PointsOf(lines)[j] == PointAfter(lines, at[j])
  {
    at := [];
    OnlyLinesGive(lines);
    if lines != [] {
      hide GivesPoint, PointAfter, PointsOf;
      var n, front := |lines| - 1, lines[..|lines| - 1];
      assert |front| == n;
      OnlyLinesGive(front);
      at := PointsAreModalPositions(front);
      forall k: nat | k < n
        ensures GivesPoint(front, k) <==> GivesPoint(lines, k)
        ensures GivesPoint(lines, k) ==> PointAfter(front, k) == PointAfter(lines, k)
      {
        EarlierLines(lines, k);
      }
      LastLine(lines);
      forall j | 0 <= j < |at| ensures at[j] < n && GivesPoint(lines, at[j]) && PointAfter(front, at[j]) == PointAfter(lines, at[j]) {
        assert at[j] in at && GivesPoint(front, at[j]);
      }
      if GivesPoint(lines, n) {
        at := at + [n];
      }
    }
  }

  // ---------- the footprint ----------

  function Least(values: seq<real>): (m: real)
    requires values != []
    ensures m in values && forall v <- values :: m <= v
  {
    if |values| == 1 then values[0]
    else
      assert values == [values[0]] + values[1..];
      var m := Least(values[1..]);
      if values[0] < m then values[0] else m
  }

  function Greatest(values: seq<real>): (m: real)
    requires values != []
    ensures m in values && forall v <- values :: v <= m
  {
    if |values| == 1 then values[0]
    else
      assert values == [values[0]] + values[1..];
      var m := Greatest(values[1..]);
      if values[0] > m then values[0] else m
  }

  function Xs(points: seq<Point>): (r: seq<real>)
    ensures |r| == |points| && forall i | 0 <= i < |r| :: r[i] == points[i].x
  {
    seq(|points|, i requires 0 <= i < |points| => points[i].x)
  }

  function Ys(points: seq<Point>): (r: seq<real>)
    ensures |r| == |points| && forall i | 0 <= i < |r| :: r[i] == points[i].y
  {
    seq(|points|, i requires 0 <= i < |points| => points[i].y)
  }

  function Motion(points: seq<Point>): Box
    requires points != []
  {
    Box(Least(Xs(points)), Greatest(Xs(points)), Least(Ys(points)), Greatest(Ys(points)))
  }

  /** The tower's footprint, or its position alone if it has none. */
  function Footprint(footprint: Option<Box>, position: Point): Box {
    match footprint
    case Some(box) => box
    case None => Box(position.x, position.x, position.y, position.y)
  }

  predicate Within(p: Point, box: Box) {
    box.minX - 1.0 <= p.x <= box.maxX + 1.0 && box.minY - 1.0 <= p.y <= box.maxY + 1.0
  }

  /** The motion of the tower in an exported file, if the file shows any. */
  function TowerPoints(source: string): Option<seq<Point>> {
    match Locate(source)
    case None => None
    case Some(b) =>
      var points := PointsOf(SplitLines(source[b.start..b.end]));
      if points == [] then None else Some(points)
  }

  predicate StaysOn(motion: Box, box: Box) {
    && motion.minX >= box.minX - 1.0 && motion.maxX <= box.maxX + 1.0
    && motion.minY >= box.minY - 1.0 && motion.maxY <= box.maxY + 1.0
  }

  lemma LeastAbove(values: seq<real>, bound: real)
    requires values != []
    ensures Least(values) >= bound <==> forall i | 0 <= i < |values| :: values[i] >= bound
  {
    var k :| 0 <= k < |values| && values[k] == Least(values);
    assert forall i | 0 <= i < |values| :: values[i] in values;
  }

  lemma GreatestBelow(values: seq<real>, bound: real)
    requires values != []
    ensures Greatest(values) <= bound <==> forall i | 0 <= i < |values| :: values[i] <= bound
  {
    var k :| 0 <= k < |values| && values[k] == Greatest(values);
    assert forall i | 0 <= i < |values| :: values[i] in values;
  }

  /** The four comparisons hold exactly if no single point leaves the widened footprint. */
  lemma BoxTestIsPointwise(points: seq<Point>, box: Box)
    requires points != []
    ensures StaysOn(Motion(points), box) <==> forall p <- points :: Within(p, box)
  {
    hide Least, Greatest;
    LeastAbove(Xs(points), box.minX - 1.0);
    GreatestBelow(Xs(points), box.maxX + 1.0);
    LeastAbove(Ys(points), box.minY - 1.0);
    GreatestBelow(Ys(points), box.maxY + 1.0);
    if StaysOn(Motion(points), box) {
      forall p <- points ensures Within(p, box) {
        var i :| 0 <= i < |points| && points[i] == p;
        assert Xs(points)[i] == p.x && Ys(points)[i] == p.y;
      }
    }
    if forall p <- points :: Within(p, box) {
      assert forall i | 0 <= i < |points| :: Within(points[i], box);
    }
  }

  // ---------- the configuration header ----------

  /** What the header lines of the file say; a value that is no number is `None`. */
  datatype Header = Header(xs: seq<Option<real>>, ys: seq<Option<real>>, selectedX: Option<real>, selectedY: Option<real>)

  /** The plate as the application projects it. */
  datatype Tower = Tower(displayIndex: nat, position: Point, footprint: Option<Box>)

  /** `toBeCloseTo` with a number of digits accepts less than half a unit of the last digit. */
  predicate CloseTo(actual: Option<real>, expected: real, halfUnit: real) {
    actual.Some? && -halfUnit < actual.value - expected < halfUnit
  }

  const FIVE_DIGITS := 0.000005
  const TWO_DIGITS := 0.005

  /** The native position of the tower; an index beyond the arrays has none. */
  function Native(header: Header, tower: Tower): Option<Point> {
    if tower.displayIndex < |header.xs| && tower.displayIndex < |header.ys|
       && header.xs[tower.displayIndex].Some? && header.ys[tower.displayIndex].Some?
    then Some(Point(header.xs[tower.displayIndex].value, header.ys[tower.displayIndex].value)) else None
  }

  /** The header holds both complete arrays, the native position is the plate's and the selected
      values are the native position. */
  predicate HeaderFits(header: Header, tower: Tower) {
    && header.selectedX.Some? && header.selectedY.Some?
    && |header.xs| > 1 && |header.ys| == |header.xs|
    && Native(header, tower).Some?
    && var native := Native(header, tower).value;
       && CloseTo(Some(native.x), tower.position.x, FIVE_DIGITS) && CloseTo(Some(native.y), tower.position.y, FIVE_DIGITS)
       && CloseTo(header.selectedX, native.x, TWO_DIGITS) && CloseTo(header.selectedY, native.y, TWO_DIGITS)
  }

  method ExpectPrimeTower(source: string, header: Header, tower: Tower) returns (ok: bool)
    ensures ok <==> HeaderFits(header, tower) && TowerPoints(source).Some? &&
                    forall p <- TowerPoints(source).value :: Within(p, Footprint(tower.footprint, Native(header, tower).value))
  {
    if header.selectedX.None? || header.selectedY.None? || |header.xs| <= 1 || |header.ys| != |header.xs| {
      return false;
    }
    var found := Locate(source);
    if found.None? {
      return false;
    }
    var points := ReadPoints(SplitLines(source[found.value.start..found.value.end]));
    if points == [] {
      return false;
    }
    var native := Native(header, tower);
    if native.None? || !HeaderFits(header, tower) {
      return false;
    }
    var box := Footprint(tower.footprint, native.value);
    BoxTestIsPointwise(points, box);
    ok := StaysOn(Motion(points), box);
  }

  /** What is accepted, in numbers. */
  lemma AcceptedInNumbers(header: Header, tower: Tower)
    ensures HeaderFits(header, tower) <==>
              && header.selectedX.Some? && header.selectedY.Some? && |header.xs| > 1 && |header.ys| == |header.xs|
              && tower.displayIndex < |header.xs|
              && header.xs[tower.displayIndex].Some? && header.ys[tower.displayIndex].Some?
              && var x, y := header.xs[tower.displayIndex].value, header.ys[tower.displayIndex].value;
                 && -0.000005 < x - tower.position.x < 0.000005 && -0.000005 < y - tower.position.y < 0.000005
                 && -0.005 < header.selectedX.value - x < 0.005 && -0.005 < header.selectedY.value - y < 0.005
    ensures HeaderFits(header, tower) ==>
              var x, y := header.xs[tower.displayIndex].value, header.ys[tower.displayIndex].value;
              forall p: Point :: Within(p, Footprint(tower.footprint, Native(header, tower).value)) <==>
                match tower.footprint
                case Some(b) => b.minX - 1.0 <= p.x <= b.maxX + 1.0 && b.minY - 1.0 <= p.y <= b.maxY + 1.0
                case None => x - 1.0 <= p.x <= x + 1.0 && y - 1.0 <= p.y <= y + 1.0
  {
  }

  /** What an accepted file guarantees about the plate: the exported selection is at the plate's
      position up to both tolerances, and the tower moves within the plate's footprint or, if it
      has none, around the plate's position. */
  lemma AcceptedTowerIsOnPlate(source: string, header: Header, tower: Tower)
    requires HeaderFits(header, tower) && TowerPoints(source).Some?
    requires forall p <- TowerPoints(source).value :: Within(p, Footprint(tower.footprint, Native(header, tower).value))
    ensures CloseTo(header.selectedX, tower.position.x, TWO_DIGITS + FIVE_DIGITS)
    ensures CloseTo(header.selectedY, tower.position.y, TWO_DIGITS + FIVE_DIGITS)
    ensures forall p <- TowerPoints(source).value ::
              match tower.footprint
              case Some(box) => Within(p, box)
              case None =>
                && -1.0 - FIVE_DIGITS < p.x - tower.position.x < 1.0 + FIVE_DIGITS
                && -1.0 - FIVE_DIGITS < p.y - tower.position.y < 1.0 + FIVE_DIGITS
  {
    hide TowerPoints;
    forall p | p in TowerPoints(source).value && tower.footprint.None?
      ensures -1.0 - FIVE_DIGITS < p.x - tower.position.x < 1.0 + FIVE_DIGITS
      ensures -1.0 - FIVE_DIGITS < p.y - tower.position.y < 1.0 + FIVE_DIGITS
    {
      assert Within(p, Footprint(tower.footprint, Native(header, tower).value));
    }
  }

  // ---------- what the result depends on ----------

  /** The scanned text starts with the first start marker after the first feature marker and
      contains no end marker, which stands right behind it. */
  lemma BlockIsDelimited(source: string)
    requires Locate(source).Some?
    ensures var b := Locate(source).value; var text := source[b.start..b.end];
            && b.marker < b.start < b.end < |source|
            && At(source, FEATURE, b.marker) && (forall i | 0 <= i < b.marker :: !At(source, FEATURE, i))
            && At(source, START, b.start) && (forall i | b.marker <= i < b.start :: !At(source, START, i))
            && At(source, END, b.end) && forall i: nat :: !At(text, END, i)
  {
    var b := Locate(source).value;
    var text := source[b.start..b.end];
    forall i: nat ensures !At(text, END, i) {
      if b.start + i < b.end {
        IndexIsFirst(source, END, b.start, b.start + i);
      }
      NotAtInside(source, b.start, b.end, END, i);
    }
  }

  lemma IndexIsFirst(s: string, w: string, from: nat, k: nat)
    requires IndexOf(s, w, from).Some? && from <= k < IndexOf(s, w, from).value
    ensures !At(s, w, k)
  {
    hide At;
  }

  lemma NotAtInside(s: string, a: nat, b: nat, w: string, i: nat)
    requires a <= b <= |s| && w != "" && (a + i < b ==> !At(s, w, a + i))
    ensures !At(s[a..b], w, i)
  {
    if i + |w| <= b - a {
      SubSlice(s, a, b, i, i + |w|);
    }
  }

  lemma SubSlice(s: string, a: nat, b: nat, c: nat, d: nat)
    requires a <= b <= |s| && c <= d <= b - a
    ensures s[a..b][c..d] == s[a + c..a + d]
  {
    var l, r := s[a..b][c..d], s[a + c..a + d];
    assert |l| == |r|;
    assert forall k | 0 <= k < |l| :: l[k] == r[k];
  }

  lemma AtPrefix(s: string, t: string, n: nat, w: string, i: nat)
    requires n <= |s| && n <= |t| && s[..n] == t[..n] && i + |w| <= n
    ensures At(s, w, i) <==> At(t, w, i)
  {
    assert s[i..i + |w|] == s[..n][i..i + |w|];
    assert t[i..i + |w|] == t[..n][i..i + |w|];
  }

  lemma {:induction false} IndexOfPrefix(s: string, t: string, n: nat, w: string, from: nat)
    requires n <= |s| && n <= |t| && s[..n] == t[..n]
    requires IndexOf(s, w, from).Some? && IndexOf(s, w, from).value + |w| <= n
    ensures IndexOf(t, w, from) == IndexOf(s, w, from)
    decreases |s| - from
  {
    AtPrefix(s, t, n, w, from);
    if !At(s, w, from) {
      IndexOfPrefix(s, t, n, w, from + 1);
    }
  }

  lemma MarkersInOrder(source: string)
    requires Locate(source).Some?
    ensures var b := Locate(source).value;
            b.marker + |FEATURE| <= b.end + |END| && b.start + |START| <= b.end + |END|
  {
    BlockIsDelimited(source);
    var b := Locate(source).value;
    Letter(source, START, b.start, 1);
    Letter(source, END, b.end, 0);
  }

  lemma Letter(s: string, w: string, i: nat, j: nat)
    requires At(s, w, i) && j < |w|
    ensures s[i + j] == w[j]
  {
    assert s[i..i + |w|][j] == s[i + j];
  }

  lemma LocatePrefix(source: string, other: string)
    requires Locate(source).Some?
    requires var n := Locate(source).value.end + |END|; n <= |source| && n <= |other| && source[..n] == other[..n]
    ensures Locate(other) == Locate(source)
  {
    hide IndexOf, At;
    MarkersInOrder(source);
    var b := Locate(source).value;
    var n := b.end + |END|;
    IndexOfPrefix(source, other, n, FEATURE, 0);
    IndexOfPrefix(source, other, n, START, b.marker);
    IndexOfPrefix(source, other, n, END, b.start);
  }

  /** Nothing after the first end marker matters: any text that agrees up to and including it
      has the same block, the same points and the same bounds. */
  lemma OnlyTextUpToEndMatters(source: string, other: string)
    requires Locate(source).Some?
    requires var n := Locate(source).value.end + |END|; n <= |source| && n <= |other| && source[..n] == other[..n]
    ensures Locate(other) == Locate(source) && TowerPoints(other) == TowerPoints(source)
  {
    hide Locate, PointsOf, SplitLines, IndexOf;
    BlockIsDelimited(source);
    LocatePrefix(source, other);
    var b := Locate(source).value;
    var n := b.end + |END|;
    SliceOfPrefix(source, n, b.start, b.end);
    SliceOfPrefix(other, n, b.start, b.end);
  }

  lemma SliceOfPrefix(s: string, n: nat, a: nat, b: nat)
    requires a <= b <= n <= |s|
    ensures s[a..b] == s[..n][a..b]
  {
  }

  lemma AppendingChangesNothing(source: string, suffix: string)
    requires Locate(source).Some?
    ensures Locate(source + suffix) == Locate(source) && TowerPoints(source + suffix) == TowerPoints(source)
  {
    BlockIsDelimited(source);
    var n := Locate(source).value.end + |END|;
    assert (source + suffix)[..n] == source[..n];
    OnlyTextUpToEndMatters(source, source + suffix);
  }
}
