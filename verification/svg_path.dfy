/**
 * The SVG rendering of a found path (View.buildSvgPath): a "move to" the
 * centre of the first waypoint's cell followed by a "line to" the centre of
 * every later one, written as the text of an SVG path attribute. The text is
 * shown to determine the path: parsing it back yields the commands, and the
 * cells under their points are the waypoints again.
 */
module SvgPath {
  import opened Options
  import opened Coordinates

  /** One command of an SVG path, with its point in page pixels. */
  datatype Command = MoveTo(p: Coord) | LineTo(p: Coord)

  /**
   * The centre of a cell in page pixels. NodeSize is even, so half of it is
   * a whole number of pixels and the centre lies exactly in the middle.
   */
  function Centre(c: Coord): (p: Coord)
    ensures ToGridCoordinate(p.x, p.y) == c
    ensures 2 * (p.x - c.x * NodeSize) == NodeSize && 2 * (p.y - c.y * NodeSize) == NodeSize
  {
    var p := Coord(c.x * NodeSize + NodeSize / 2, c.y * NodeSize + NodeSize / 2);
    CellOfPixel(c.x, c.y, p.x, p.y);
    p
  }

  /** The line-to commands for the waypoints after the first. */
  function LineTos(path: seq<Coord>): (r: seq<Command>)
    ensures |r| == |path|
    ensures forall i :: 0 <= i < |path| ==> r[i].LineTo? && ToGridCoordinate(r[i].p.x, r[i].p.y) == path[i]
    decreases |path|
  {
    if path == [] then [] else [LineTo(Centre(path[0]))] + LineTos(path[1..])
  }

  /** The commands of a non-empty path: one per waypoint, the first a move and the rest lines. */
  function Commands(path: seq<Coord>): (r: seq<Command>)
    requires |path| > 0
    ensures |r| == |path| && r[0].MoveTo?
    ensures forall i :: 1 <= i < |r| ==> r[i].LineTo?
    ensures forall i :: 0 <= i < |r| ==> ToGridCoordinate(r[i].p.x, r[i].p.y) == path[i]
  {
    [MoveTo(Centre(path[0]))] + LineTos(path[1..])
  }

  // ---------------------------------------------------------------------
  // Writing numbers and commands as text.

  predicate IsDigit(ch: char) {
    '0' <= ch <= '9'
  }

  /** A character that can occur in the text of a number. */
  predicate NumChar(ch: char) {
    IsDigit(ch) || ch == '-'
  }

  function DigitChar(d: nat): (ch: char)
    requires d < 10
    ensures IsDigit(ch) && (ch as int) - ('0' as int) == d
  {
    (('0' as int) + d) as char
  }

  /** The decimal digits of `n`, without leading zeros. */
  function NatToString(n: nat): (s: string)
    ensures |s| > 0 && forall i :: 0 <= i < |s| ==> IsDigit(s[i])
    decreases n
  {
    if n < 10 then [DigitChar(n)] else NatToString(n / 10) + [DigitChar(n % 10)]
  }

  /** How JavaScript writes a whole number when it is concatenated to a string. */
  function IntToString(i: int): (s: string)
    ensures |s| > 0 && forall k :: 0 <= k < |s| ==> NumChar(s[k])
  {
    if i < 0 then "-" + NatToString(-i) else NatToString(i)
  }

  /** The letter of a command: M for a move, L for a line. */
  function Letter(cmd: Command): char {
    if cmd.MoveTo? then 'M' else 'L'
  }

  /** One command as text: its letter, then x and y separated by one space. */
  function Render(cmd: Command): string {
    [Letter(cmd)] + IntToString(cmd.p.x) + " " + IntToString(cmd.p.y)
  }

  /** The texts of the commands joined with nothing in between. */
  function Join(cmds: seq<Command>): string
    decreases |cmds|
  {
    if cmds == [] then "" else Render(cmds[0]) + Join(cmds[1..])
  }

  /**
   * buildSvgPath: the SVG path text of a non-empty path. An empty path makes
   * the source read `path[0][0]` of nothing and throw; its only caller
   * returns before calling it on an empty path.
   */
  function BuildSvgPath(path: seq<Coord>): (s: string)
    requires |path| > 0
    ensures ParseCommands(s) == Some(Commands(path))
  {
    JoinThenParse(Commands(path));
    Join(Commands(path))
  }

  // ---------------------------------------------------------------------
  // Reading the text back.

  /** The value of a string of decimal digits. */
  function ParseNat(s: string): nat
    requires forall i :: 0 <= i < |s| ==> IsDigit(s[i])
    decreases |s|
  {
    if s == [] then 0 else ParseNat(s[..|s| - 1]) * 10 + DigitValue(s[|s| - 1])
  }

  function DigitValue(ch: char): (d: nat)
    requires IsDigit(ch)
    ensures d < 10 && DigitChar(d) == ch
  {
    (ch as int) - ('0' as int)
  }

  /** The text of a whole number: an optional minus sign followed by at least one digit. */
  predicate IsNumber(t: string) {
    if |t| > 0 && t[0] == '-' then
      |t| > 1 && forall i :: 1 <= i < |t| ==> IsDigit(t[i])
    else
      |t| > 0 && forall i :: 0 <= i < |t| ==> IsDigit(t[i])
  }

  function ParseInt(t: string): int
    requires IsNumber(t)
  {
    var magnitude: int := if t[0] == '-' then ParseNat(t[1..]) else ParseNat(t);
    if t[0] == '-' then -magnitude else magnitude
  }

  /** The length of the longest prefix of `s` made of number characters. */
  function NumberLength(s: string): (k: nat)
    ensures k <= |s|
    decreases |s|
  {
    if s == [] || !NumChar(s[0]) then 0 else 1 + NumberLength(s[1..])
  }

  /** Read a whole number from the front of `s`, returning it and the text after it. */
  function ReadNumber(s: string): (r: Option<(int, string)>)
    ensures r.Some? ==> |r.value.1| < |s|
  {
    var k := NumberLength(s);
    if IsNumber(s[..k]) then Some((ParseInt(s[..k]), s[k..])) else None
  }

  /** Read one command from the front of `s`: a letter, a number, one space and a number. */
  function ReadCommand(s: string): (r: Option<(Command, string)>)
    ensures r.Some? ==> |r.value.1| < |s|
  {
    if s == [] || (s[0] != 'M' && s[0] != 'L') then None
    else match ReadNumber(s[1..])
      case None => None
      case Some((x, rest)) =>
        if rest == [] || rest[0] != ' ' then None
        else match ReadNumber(rest[1..])
          case None => None
          case Some((y, tail)) =>
            Some((if s[0] == 'M' then MoveTo(Coord(x, y)) else LineTo(Coord(x, y)), tail))
  }

  /** Read the commands back from SVG path text; None when the text is not of the form written. */
  function ParseCommands(s: string): Option<seq<Command>>
    decreases |s|
  {
    if s == [] then Some([])
    else match ReadCommand(s)
      case None => None
      case Some((cmd, tail)) =>
        match ParseCommands(tail)
        case None => None
        case Some(cmds) => Some([cmd] + cmds)
  }

  // ---------------------------------------------------------------------
  // Properties.

  /** Reading the digits of a number gives the number back. */
  lemma {:induction false} NatRoundTrip(n: nat)
    ensures ParseNat(NatToString(n)) == n
    decreases n
  {
    if n >= 10 {
      var s := NatToString(n);
      NatRoundTrip(n / 10);
      assert s[..|s| - 1] == NatToString(n / 10);
    }
  }

  /** Reading the text of a whole number gives the number back. */
  lemma IntRoundTrip(i: int)
    ensures IsNumber(IntToString(i)) && ParseInt(IntToString(i)) == i
  {
    if i < 0 {
      NatRoundTrip(-i);
      assert IntToString(i)[1..] == NatToString(-i);
    } else {
      NatRoundTrip(i);
    }
  }

  /** The number at the front of `a + b` ends where `a` ends when `b` does not continue it. */
  lemma {:induction false} NumberLengthAppend(a: string, b: string)
    requires forall i :: 0 <= i < |a| ==> NumChar(a[i])
    requires b == [] || !NumChar(b[0])
    ensures NumberLength(a + b) == |a|
    decreases |a|
  {
    if a == [] {
      assert a + b == b;
    } else {
      assert (a + b)[1..] == a[1..] + b;
      NumberLengthAppend(a[1..], b);
    }
  }

  /** A number is read back from the front of its text when what follows does not continue it. */
  lemma ReadNumberOf(i: int, tail: string)
    requires tail == [] || !NumChar(tail[0])
    ensures ReadNumber(IntToString(i) + tail) == Some((i, tail))
  {
    var t := IntToString(i);
    NumberLengthAppend(t, tail);
    assert (t + tail)[..|t|] == t && (t + tail)[|t|..] == tail;
    IntRoundTrip(i);
  }

  /**
   * ReadCommand on a letter followed by the texts it reads: the command of
   * that letter at the point read, and the text after the second number.
   */
  lemma ReadCommandOf(s: string, cmd: Command, afterX: string, tail: string)
    requires s != [] && s[0] == Letter(cmd)
    requires ReadNumber(s[1..]) == Some((cmd.p.x, afterX))
    requires afterX != [] && afterX[0] == ' '
    requires ReadNumber(afterX[1..]) == Some((cmd.p.y, tail))
    ensures ReadCommand(s) == Some((cmd, tail))
  {
  }

  /** The text of a command followed by `tail`: its letter, then the x text, then what follows x. */
  lemma RenderParts(cmd: Command, tail: string)
    ensures var s := Render(cmd) + tail;
            var afterX := " " + IntToString(cmd.p.y) + tail;
            s != [] && s[0] == Letter(cmd) && s[1..] == IntToString(cmd.p.x) + afterX &&
            afterX[0] == ' ' && afterX[1..] == IntToString(cmd.p.y) + tail
  {
    var x, y := IntToString(cmd.p.x), IntToString(cmd.p.y);
    assert Render(cmd) + tail == [Letter(cmd)] + (x + (" " + y + tail));
  }

  /** One command is read back from the front of its text, leaving what follows. */
  lemma RenderThenRead(cmd: Command, tail: string)
    requires tail == [] || !NumChar(tail[0])
    ensures ReadCommand(Render(cmd) + tail) == Some((cmd, tail))
  {
    var afterX := " " + IntToString(cmd.p.y) + tail;
    RenderParts(cmd, tail);
    ReadNumberOf(cmd.p.x, afterX);
    ReadNumberOf(cmd.p.y, tail);
    ReadCommandOf(Render(cmd) + tail, cmd, afterX, tail);
  }

  /** The text of one or more commands starts with a letter, which cannot continue a number. */
  lemma JoinStartsWithLetter(cmds: seq<Command>)
    requires cmds != []
    ensures Join(cmds) != [] && !NumChar(Join(cmds)[0])
  {
    assert Join(cmds)[0] == Render(cmds[0])[0] == Letter(cmds[0]);
  }

  /** The first command is read off the front of joined command texts, leaving the texts of the rest. */
  lemma ReadJoinFront(cmds: seq<Command>)
    requires cmds != []
    ensures ReadCommand(Join(cmds)) == Some((cmds[0], Join(cmds[1..])))
  {
    if cmds[1..] != [] {
      JoinStartsWithLetter(cmds[1..]);
    }
    RenderThenRead(cmds[0], Join(cmds[1..]));
  }

  /** Parsing reads one command off the front and then parses what is left. */
  lemma ParseFront(s: string, cmd: Command, tail: string, cmds: seq<Command>)
    requires ReadCommand(s) == Some((cmd, tail)) && ParseCommands(tail) == Some(cmds)
    ensures ParseCommands(s) == Some([cmd] + cmds)
  {
  }

  /** Joined command texts read back as the commands, in order. */
  lemma {:induction false} JoinThenParse(cmds: seq<Command>)
    ensures ParseCommands(Join(cmds)) == Some(cmds)
    decreases |cmds|
  {
    if cmds != [] {
      ReadJoinFront(cmds);
      JoinThenParse(cmds[1..]);
      ParseFront(Join(cmds), cmds[0], Join(cmds[1..]), cmds[1..]);
      assert [cmds[0]] + cmds[1..] == cmds;
    }
  }

  /** The cells under the points of the commands. */
  function Cells(cmds: seq<Command>): (r: seq<Coord>)
    ensures |r| == |cmds|
    ensures forall i :: 0 <= i < |cmds| ==> r[i] == ToGridCoordinate(cmds[i].p.x, cmds[i].p.y)
    decreases |cmds|
  {
    if cmds == [] then [] else [ToGridCoordinate(cmds[0].p.x, cmds[0].p.y)] + Cells(cmds[1..])
  }

  /**
   * The SVG text determines the path: read back, it gives a move followed by
   * lines, one per waypoint, and the cells under their points are the
   * waypoints in order.
   */
  lemma SvgPathDecodes(path: seq<Coord>)
    requires |path| > 0
    ensures var cmds := ParseCommands(BuildSvgPath(path));
            cmds == Some(Commands(path)) && Cells(cmds.value) == path
  {
    JoinThenParse(Commands(path));
  }

  /** Different paths are drawn with different SVG text. */
  lemma SvgPathInjective(path1: seq<Coord>, path2: seq<Coord>)
    requires |path1| > 0 && |path2| > 0
    requires BuildSvgPath(path1) == BuildSvgPath(path2)
    ensures path1 == path2
  {
    SvgPathDecodes(path1);
    SvgPathDecodes(path2);
  }
}
