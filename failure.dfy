/** One reported violation of the rule and its `file:line:column: message` rendering (failure.go). */
module Failures {
  import opened Wrappers
  import opened Ast
  import opened Decimal

  /** A token.Position (the byte offset is not modelled). Line and column count from 1. */
  datatype Position = Position(filename: string, line: int, column: int)

  /** The zero Position, which token.FileSet gives for a position it does not know. */
  const NoPosition := Position("", 0, 0)

  /** A token.FileSet, seen only through what it resolves positions to. */
  datatype FileSet = FileSet(positions: map<Pos, Position>) {
    /** FileSet.Position: the resolved location of `p`, or the zero Position. */
    function PositionOf(p: Pos): Position {
      if p in positions then positions[p] else NoPosition
    }
  }

  /** A position with a file name, a line and a column: rendered as `file:line:column`. */
  predicate Renderable(p: Position) {
    p.filename != [] && p.line >= 1 && p.column >= 1
  }

  /** token.Position.String for a position that has a file name, a line and a column. */
  function PositionString(p: Position): (s: string)
    requires Renderable(p)
    ensures |s| > |p.filename| && s[..|p.filename|] == p.filename && s[|p.filename|] == ':'
  {
    p.filename + ":" + NatToString(p.line) + ":" + NatToString(p.column)
  }

  datatype Failure = Failure(message: string, node: Node, position: Position) {
    /** Failure.String: the position, then ": ", then the message. */
    function String(): (s: string)
      requires Renderable(position)
      ensures |s| == |PositionString(position)| + 2 + |message|
      ensures s[..|PositionString(position)|] == PositionString(position)
      ensures s[|PositionString(position)|..|PositionString(position)| + 2] == ": "
      ensures s[|s| - |message|..] == message
    {
      PositionString(position) + ": " + message
    }
  }

  /** NewFailure: records the message and the node, and resolves the node's start position. */
  function NewFailure(message: string, node: Node, fs: FileSet): (f: Failure)
    ensures f.message == message && f.node == node
    ensures f.position == fs.PositionOf(node.Pos())
  {
    Failure(message, node, fs.PositionOf(node.Pos()))
  }

  /** The text before the first colon of `s` and the text after it, if `s` has a colon. */
  function SplitAtColon(s: string): (r: Option<(string, string)>)
    ensures r.Some? ==> ':' !in r.value.0 && s == r.value.0 + ":" + r.value.1
    ensures r.None? ==> ':' !in s
  {
    if s == [] then None
    else if s[0] == ':' then Some(([], s[1..]))
    else match SplitAtColon(s[1..])
      case None => None
      case Some((before, after)) => Some(([s[0]] + before, after))
  }

  /**
    Reads a rendered failure back into its position and message: the inverse of
    Failure.String for file names without a colon.
   */
  function ParseFailureString(s: string): Option<(Position, string)> {
    match SplitAtColon(s)
    case None => None
    case Some((file, rest)) =>
      match SplitAtColon(rest)
      case None => None
      case Some((line, rest')) =>
        match SplitAtColon(rest')
        case None => None
        case Some((column, message)) =>
          if AllDigits(line) && AllDigits(column) && |message| >= 1 && message[0] == ' '
          then Some((Position(file, ParseDigits(line), ParseDigits(column)), message[1..]))
          else None
  }

  lemma {:induction false} SplitAtColonOf(before: string, after: string)
    requires ':' !in before
    ensures SplitAtColon(before + ":" + after) == Some((before, after))
  {
    if before != [] {
      var s := before + ":" + after;
      assert s[0] == before[0] && s[0] != ':';
      assert s[1..] == before[1..] + ":" + after;
      SplitAtColonOf(before[1..], after);
      assert [before[0]] + before[1..] == before;
    }
  }

  /**
    Failure.String loses nothing: for a file name without a colon, the position and the
    message can be read back from the rendering.
   */
  lemma StringRoundTrip(f: Failure)
    requires Renderable(f.position) && ':' !in f.position.filename
    ensures ParseFailureString(f.String()) == Some((f.position, f.message))
  {
    var p := f.position;
    var line, column := NatToString(p.line), NatToString(p.column);
    var tail := " " + f.message;
    assert f.String() == p.filename + ":" + (line + ":" + (column + ":" + tail));
    SplitAtColonOf(p.filename, line + ":" + (column + ":" + tail));
    SplitAtColonOf(line, column + ":" + tail);
    SplitAtColonOf(column, tail);
    ParseNatToString(p.line);
    ParseNatToString(p.column);
    assert tail[1..] == f.message;
  }

  /** Two failures with the same rendering agree on position and message. */
  lemma StringInjective(f: Failure, g: Failure)
    requires Renderable(f.position) && ':' !in f.position.filename
    requires Renderable(g.position) && ':' !in g.position.filename
    requires f.String() == g.String()
    ensures f.position == g.position && f.message == g.message
  {
    StringRoundTrip(f);
    StringRoundTrip(g);
  }
}
