/** The reader against an independent meaning of G-code: a program is a list of commands with
    optional coordinates, its text is what an exporter writes for it, and reading the text gives
    exactly the positions the program visits. */
module TowerPrograms {
  import opened Wrappers
  import opened PrimeTower

  /** A number as it is written. */
  datatype Numeral = Numeral(minus: bool, whole: string, fraction: string)

  datatype Command = Command(code: string, x: Option<Numeral>, y: Option<Numeral>)

  predicate WellFormed(n: Numeral) {
    n.whole != "" && AllDigits(n.whole) && AllDigits(n.fraction)
  }

  /** Codes are words without the two axis letters. */
  predicate Writable(c: Command) {
    && c.code != "" && (forall i | 0 <= i < |c.code| :: IsWord(c.code[i]) && c.code[i] != 'X' && c.code[i] != 'Y')
    && (c.x.Some? ==> WellFormed(c.x.value))
    && (c.y.Some? ==> WellFormed(c.y.value))
  }

  function NumeralText(n: Numeral): string {
    (if n.minus then "-" else "") + n.whole + FractionText(n.fraction)
  }

  function AxisText(axis: char, n: Option<Numeral>): string {
    if n.None? then "" else " " + [axis] + NumeralText(n.value)
  }

  function Text(c: Command): string {
    c.code + (AxisText('X', c.x) + AxisText('Y', c.y))
  }

  function Value(n: Numeral): real
    requires WellFormed(n)
  {
    var size := Digits(n.whole) as real + Fraction(n.fraction);
    if n.minus then -size else size
  }

  function ValueOf(n: Option<Numeral>): Option<real>
    requires n.Some? ==> WellFormed(n.value)
  {
    if n.None? then None else Some(Value(n.value))
  }

  // ---------- what a program does ----------

  /** Where the tool is after a program, as far as it was told, and the positions it visited. */
  datatype Journey = Journey(x: Option<real>, y: Option<real>, visited: seq<Point>)

  predicate Moves(c: Command) {
    c.code == "G1" || c.code == "G2" || c.code == "G3"
  }

  function Execute(j: Journey, c: Command): Journey
    requires Writable(c)
  {
    if !Moves(c) then j
    else
      var x := if c.x.Some? then ValueOf(c.x) else j.x;
      var y := if c.y.Some? then ValueOf(c.y) else j.y;
      Journey(x, y, j.visited + if x.Some? && y.Some? then [Point(x.value, y.value)] else [])
  }

  function ExecuteAll(program: seq<Command>): Journey
    requires forall c <- program :: Writable(c)
  {
    if program == [] then Journey(None, None, [])
    else Execute(ExecuteAll(program[..|program| - 1]), program[|program| - 1])
  }

  function Lines(program: seq<Command>): (r: seq<string>)
    ensures |r| == |program| && forall i | 0 <= i < |r| :: r[i] == Text(program[i])
  {
    seq(|program|, i requires 0 <= i < |program| => Text(program[i]))
  }

  // ---------- reading one command ----------

  predicate Without(s: string, c: char) {
    forall i | 0 <= i < |s| :: s[i] != c
  }

  lemma NumeralHasNoLetters(n: Numeral)
    requires WellFormed(n)
    ensures Without(NumeralText(n), 'X') && Without(NumeralText(n), 'Y') && NumeralText(n) != ""
  {
    var sign, whole, tail := if n.minus then "-" else "", n.whole, FractionText(n.fraction);
    assert forall i | 0 <= i < |tail| :: IsDigit(tail[i]) || tail[i] == '.';
    assert NumeralText(n) == sign + whole + tail;
  }

  /** The first word of the axis decides. */
  lemma {:induction false} FirstWordDecides(line: string, axis: char, from: nat, i: nat)
    requires from <= i && WordAt(line, axis, i) && forall j | from <= j < i :: line[j] != axis
    ensures AxisFrom(line, axis, from) == NumberAt(line, i + 1)
    decreases i - from
  {
    hide NumberAt;
    if from < i {
      FirstWordDecides(line, axis, from + 1, i);
    }
  }

  lemma {:induction false} NoLetterNoWord(line: string, axis: char, from: nat)
    requires Without(line, axis)
    ensures AxisFrom(line, axis, from) == None
    decreases |line| - from
  {
    hide NumberAt;
    if from < |line| {
      NoLetterNoWord(line, axis, from + 1);
    }
  }

  lemma LetterStands(line: string, before: string, axis: char, tail: string)
    requires line == before + " " + [axis] + tail && Without(before, axis) && axis != ' '
    ensures var i := |before| + 1;
            i < |line| && line[i] == axis && line[i - 1] == ' ' && forall j | 0 <= j < i :: line[j] != axis
  {
  }

  /** How the pieces of a number group. */
  lemma Spread(front: string, sign: string, whole: string, fraction: string, rest: string)
    ensures front + (sign + whole + fraction) + rest == front + sign + whole + fraction + rest
  {
  }

  lemma NumeralIsRead(line: string, front: string, n: Numeral, rest: string)
    requires line == front + NumeralText(n) + rest
    requires WellFormed(n) && !Continues(n.fraction, rest)
    ensures NumberAt(line, |front|) == Some(Value(n))
  {
    hide Digits, Fraction, NumberAt, AllDigits, Continues, FractionText;
    var sign := if n.minus then "-" else "";
    NumberIsRead(front, n.minus, n.whole, n.fraction, rest);
    Spread(front, sign, n.whole, FractionText(n.fraction), rest);
  }

  lemma LetterAndNumber(line: string, axis: char, i: nat, v: real)
    requires 0 < i < |line| && line[i] == axis && line[i - 1] == ' ' && !IsWord(' ')
    requires NumberAt(line, i + 1) == Some(v) && forall j | 0 <= j < i :: line[j] != axis
    ensures AxisFrom(line, axis, 0) == Some(v)
  {
    hide NumberAt, IsWord, AxisFrom;
    FirstWordDecides(line, axis, 0, i);
  }

  lemma Behind(a: string, b: string, c: string)
    ensures a + b + c == a + (b + c)
  {
  }

  /** A word written behind a blank, with no such letter before it and no digit or point behind its
      number, is read. */
  lemma WrittenWordIsRead(before: string, axis: char, n: Numeral, rest: string)
    requires WellFormed(n) && Without(before, axis) && (rest != "" ==> rest[0] == ' ')
    requires !IsWord(' ') && axis != ' '
    ensures AxisFrom(before + " " + [axis] + NumeralText(n) + rest, axis, 0) == Some(Value(n))
  {
    assert !Continues(n.fraction, rest);
    hide NumberAt, IsWord, AllDigits, Continues, Without, AxisFrom, NumeralText, Value;
    var front := before + " " + [axis];
    var line := front + NumeralText(n) + rest;
    assert |front| == |before| + 2;
    NumeralIsRead(line, front, n, rest);
    Behind(front, NumeralText(n), rest);
    LetterStands(line, before, axis, NumeralText(n) + rest);
    LetterAndNumber(line, axis, |before| + 1, Value(n));
  }

  lemma AxisTextHasNo(axis: char, n: Option<Numeral>, other: char)
    requires n.Some? ==> WellFormed(n.value)
    requires other != axis && other != ' ' && (other == 'X' || other == 'Y')
    ensures Without(AxisText(axis, n), other)
  {
    if n.Some? {
      NumeralHasNoLetters(n.value);
    }
  }

  lemma WithoutJoins(a: string, b: string, c: char)
    requires Without(a, c) && Without(b, c)
    ensures Without(a + b, c)
  {
  }

  /** How the pieces of a line group. */
  lemma Joined(a: string, b: string, c: string, d: string, e: string)
    ensures a + ((b + c + d) + e) == a + b + c + d + e
  {
  }

  lemma JoinedAtEnd(a: string, x: string, b: string, c: string, d: string)
    ensures a + (x + (b + c + d)) == (a + x) + b + c + d + ""
    ensures a + (x + "") == a + x && a + ("" + x) == a + x
  {
  }

  lemma AxisTextStarts(axis: char, n: Option<Numeral>)
    ensures AxisText(axis, n) != "" ==> AxisText(axis, n)[0] == ' '
    ensures n.Some? ==> AxisText(axis, n) == " " + [axis] + NumeralText(n.value)
    ensures n.None? ==> AxisText(axis, n) == ""
  {
  }

  lemma XIsRead(c: Command)
    requires Writable(c)
    ensures AxisFrom(Text(c), 'X', 0) == ValueOf(c.x)
  {
    assert Without(c.code, 'X');
    assert !IsWord(' ');
    hide NumeralText, AxisText, AxisFrom, Digits, Fraction, IsWord, AllDigits, Without, Value;
    var y := AxisText('Y', c.y);
    AxisTextHasNo('Y', c.y, 'X');
    AxisTextStarts('Y', c.y);
    AxisTextStarts('X', c.x);
    if c.x.None? {
      JoinedAtEnd(c.code, y, "", "", "");
      WithoutJoins(c.code, y, 'X');
      NoLetterNoWord(Text(c), 'X', 0);
    } else {
      Joined(c.code, " ", ['X'], NumeralText(c.x.value), y);
      WrittenWordIsRead(c.code, 'X', c.x.value, y);
    }
  }

  lemma YIsRead(c: Command)
    requires Writable(c)
    ensures AxisFrom(Text(c), 'Y', 0) == ValueOf(c.y)
  {
    assert Without(c.code, 'Y');
    assert !IsWord(' ');
    hide NumeralText, AxisText, AxisFrom, Digits, Fraction, IsWord, AllDigits, Without, Value;
    var x := AxisText('X', c.x);
    AxisTextHasNo('X', c.x, 'Y');
    AxisTextStarts('Y', c.y);
    WithoutJoins(c.code, x, 'Y');
    if c.y.None? {
      JoinedAtEnd(c.code, x, "", "", "");
      NoLetterNoWord(Text(c), 'Y', 0);
    } else {
      JoinedAtEnd(c.code, x, " ", ['Y'], NumeralText(c.y.value));
      WrittenWordIsRead(c.code + x, 'Y', c.y.value, "");
    }
  }

  /** The three motion codes are recognised, and no other: not G0, not G10, not M1. */
  lemma CodeIsRecognised(c: Command)
    requires Writable(c)
    ensures IsMotion(Text(c)) <==> Moves(c)
  {
    var tail := AxisText('X', c.x) + AxisText('Y', c.y);
    assert tail != "" ==> tail[0] == ' ';
    var line := Text(c);
    if |c.code| == 2 {
      assert line[0] == c.code[0] && line[1] == c.code[1] && (|line| > 2 ==> line[2] == ' ');
      assert c.code == [c.code[0], c.code[1]];
    } else if |c.code| == 1 {
      assert |line| > 1 ==> line[1] == ' ';
    } else {
      assert line[2] == c.code[2];
    }
  }

  // ---------- reading a program ----------

  lemma {:induction false} ReadingFollows(program: seq<Command>)
    requires forall c <- program :: Writable(c)
    ensures var j := ExecuteAll(program);
            LastSeen(Lines(program), 'X') == j.x && LastSeen(Lines(program), 'Y') == j.y && PointsOf(Lines(program)) == j.visited
  {
    if program != [] {
      var n, front := |program| - 1, program[..|program| - 1];
      var c := program[n];
      assert forall d <- front :: d in program;
      ReadingFollows(front);
      assert Lines(program)[..n] == Lines(front) && Lines(program)[n] == Text(c);
      assert c in program;
      hide Text, Writable, AxisFrom, IsMotion, Moves, ValueOf, Lines;
      XIsRead(c);
      YIsRead(c);
      CodeIsRecognised(c);
    }
  }

  /** Reading the text of a program gives exactly the positions the program visits, in order. */
  lemma ProgramIsRead(program: seq<Command>)
    requires forall c <- program :: Writable(c)
    ensures PointsOf(Lines(program)) == ExecuteAll(program).visited
  {
    ReadingFollows(program);
  }
}
