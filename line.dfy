/**
 * One log line: `<color>[HH:MM:SS.mmm] [LEVEL] <message><reset>\n`, as `log`
 * and `logf` build it (logs.go), with its parser as the partner that proves
 * every part can be read back.
 */
module Line {
  import opened Bytes
  import opened Wrappers
  import opened TimeFormat

  /** The five entry points Debug, Info, Warn, Error and Fatal (and their f variants). */
  datatype Level = Debug | Info | Warn | Error | Fatal

  /** The level tag (lDEBUG … lFATAL). */
  function Tag(l: Level): (t: seq<byte>)
    ensures 0 < |t| <= 5 && RBracket !in t
  {
    match l
    case Debug => [68, 69, 66, 85, 71]   // "DEBUG"
    case Info  => [73, 78, 70, 79]       // "INFO"
    case Warn  => [87, 65, 82, 78]       // "WARN"
    case Error => [69, 82, 82, 79, 82]   // "ERROR"
    case Fatal => [70, 65, 84, 65, 76]   // "FATAL"
  }

  /** The colour table: one escape sequence per colour used, and the reset sequence. */
  datatype Palette = Palette(cyan: seq<byte>, green: seq<byte>, yellow: seq<byte>,
                             purple: seq<byte>, red: seq<byte>, reset: seq<byte>)

  /** The colour each level's entry point passes to `log`/`logf`. */
  function ColorOf(p: Palette, l: Level): seq<byte> {
    match l
    case Debug => p.cyan
    case Info  => p.green
    case Warn  => p.yellow
    case Error => p.purple
    case Fatal => p.red
  }

  /**
   * The bytes of a line, in the order `log` appends them. The line is the sum
   * of its parts plus 19 framing bytes: '[' (1), the timestamp (12), "] [" (3),
   * "] " (2) and '\n' (1).
   */
  function FormatLine(color: seq<byte>, tag: seq<byte>, msg: seq<byte>, reset: seq<byte>, s: Stamp): (r: seq<byte>)
    ensures |r| == |color| + |tag| + |msg| + |reset| + 19
    ensures r[..|color|] == color && r[|r| - 1] == Newline
  {
    color + [LBracket] + RenderTime(s) + [RBracket, Space, LBracket] + tag + [RBracket, Space] + msg + reset + [Newline]
  }

  /** What ParseLine recovers from a line. */
  datatype Parsed = Parsed(stamp: Stamp, tag: seq<byte>, msg: seq<byte>)

  /** The position of the first `b` in `s`, or `|s|` when there is none. */
  function IndexOf(s: seq<byte>, b: byte): (k: nat)
    ensures k <= |s| && b !in s[..k]
    ensures k < |s| ==> s[k] == b
  {
    if |s| == 0 then 0
    else if s[0] == b then 0
    else
      var k := 1 + IndexOf(s[1..], b);
      assert s[..k] == [s[0]] + s[1..][..k - 1];
      k
  }

  /**
   * Reads a line back, knowing the colour and reset bytes: the timestamp, the
   * tag (everything up to the first ']') and the message.
   */
  function ParseLine(color: seq<byte>, reset: seq<byte>, line: seq<byte>): (r: Option<Parsed>)
    ensures r.Some? ==> RBracket !in r.value.tag
  {
    var c := |color|;
    if |line| < c + 19 + |reset| || line[..c] != color || line[c] != LBracket then None
    else
      match ParseTime(line[c + 1 .. c + 13])
      case None => None
      case Some(s) =>
        if line[c + 13 .. c + 16] != [RBracket, Space, LBracket] then None
        else
          var body := line[c + 16 .. |line| - |reset| - 1];
          if line[|line| - |reset| - 1 .. |line| - 1] != reset || line[|line| - 1] != Newline then None
          else
            var k := IndexOf(body, RBracket);
            if k + 1 < |body| && body[k + 1] == Space then Some(Parsed(s, body[..k], body[k + 2..]))
            else None
  }

  /**
   * The line construction of `log` (and of `logf`, whose rendered message is
   * `msg` here). `stale` is the slice checked out of the pool: it is cut to
   * length 0 first, so the line depends on the inputs alone.
   */
  method BuildLine(stale: seq<byte>, color: seq<byte>, tag: seq<byte>, msg: seq<byte>, reset: seq<byte>, c: Clock)
    returns (line: seq<byte>)
    ensures line == FormatLine(color, tag, msg, reset, ToStamp(c))
    ensures |line| == |color| + |tag| + |msg| + |reset| + 19
  {
    var buf := stale[..0];
    buf := buf + color;
    buf := buf + [LBracket];
    buf := AppendTime(buf, c);
    buf := buf + [RBracket, Space, LBracket];
    buf := buf + tag;
    buf := buf + [RBracket, Space];
    buf := buf + msg;
    buf := buf + reset;
    buf := buf + [Newline];
    line := buf;
  }

  // ---------------------------------------------------------------------------
  // Properties.

  /** Where each part sits in a line. */
  lemma FormatLayout(color: seq<byte>, tag: seq<byte>, msg: seq<byte>, reset: seq<byte>, s: Stamp)
    ensures var line := FormatLine(color, tag, msg, reset, s);
      var c, n := |color|, |line|;
      && n == c + |tag| + |msg| + |reset| + 19
      && line[..c] == color
      && line[c] == LBracket
      && line[c + 1 .. c + 13] == RenderTime(s)
      && line[c + 13 .. c + 16] == [RBracket, Space, LBracket]
      && line[c + 16 .. n - |reset| - 1] == tag + [RBracket, Space] + msg
      && line[n - |reset| - 1 .. n - 1] == reset
      && line[n - 1] == Newline
  {
    var line := FormatLine(color, tag, msg, reset, s);
    var c := |color|;
    var t := RenderTime(s);
    var head := color + [LBracket] + t + [RBracket, Space, LBracket];
    var mid := tag + [RBracket, Space] + msg;
    assert line == head + mid + reset + [Newline];
    assert |head| == c + 16;
    assert line[..c] == head[..c];
    assert line[c + 1 .. c + 13] == head[c + 1 .. c + 13];
    assert line[c + 13 .. c + 16] == head[c + 13 .. c + 16];
  }

  /** The first ']' of `tag + "] " + msg` is the one right after a bracket-free tag. */
  lemma SplitAtTag(tag: seq<byte>, msg: seq<byte>)
    requires RBracket !in tag
    ensures var body := tag + [RBracket, Space] + msg;
      IndexOf(body, RBracket) == |tag| && body[..|tag|] == tag && body[|tag| + 1] == Space
      && body[|tag| + 2..] == msg
  {
    var body := tag + [RBracket, Space] + msg;
    var k := IndexOf(body, RBracket);
    assert body[|tag|] == RBracket;
  }

  /**
   * Round trip: a line formatted with a bracket-free tag and a valid clock
   * parses back to its stamp (with truncated milliseconds), tag and message.
   */
  lemma ParseFormat(color: seq<byte>, tag: seq<byte>, msg: seq<byte>, reset: seq<byte>, c: Clock)
    requires RBracket !in tag && c.Valid()
    ensures ParseLine(color, reset, FormatLine(color, tag, msg, reset, ToStamp(c)))
         == Some(Parsed(ToStamp(c), tag, msg))
  {
    FormatLayout(color, tag, msg, reset, ToStamp(c));
    ParseRender(ToStamp(c));
    SplitAtTag(tag, msg);
  }

  /** A byte sequence with every part of a line in its place is that line. */
  lemma Reassemble(color: seq<byte>, tag: seq<byte>, msg: seq<byte>, reset: seq<byte>, s: Stamp, line: seq<byte>)
    requires var c, n := |color|, |line|;
      && n >= c + 19 + |reset|
      && line[..c] == color
      && line[c] == LBracket
      && line[c + 1 .. c + 13] == RenderTime(s)
      && line[c + 13 .. c + 16] == [RBracket, Space, LBracket]
      && line[c + 16 .. n - |reset| - 1] == tag + [RBracket, Space] + msg
      && line[n - |reset| - 1 .. n - 1] == reset
      && line[n - 1] == Newline
    ensures FormatLine(color, tag, msg, reset, s) == line
  {
    var c, n := |color|, |line|;
    var front := line[..c + 16];
    var back := line[c + 16..];
    assert line == front + back;
    assert front == line[..c] + [line[c]] + line[c + 1 .. c + 13] + line[c + 13 .. c + 16];
    assert back == line[c + 16 .. n - |reset| - 1] + line[n - |reset| - 1 .. n - 1] + [line[n - 1]];
  }

  /** The other direction: a line ParseLine accepts is the formatting of what it returns. */
  lemma FormatParse(color: seq<byte>, reset: seq<byte>, line: seq<byte>)
    requires ParseLine(color, reset, line).Some?
    ensures var p := ParseLine(color, reset, line).value;
      FormatLine(color, p.tag, p.msg, reset, p.stamp) == line
  {
    var p := ParseLine(color, reset, line).value;
    var c, n := |color|, |line|;
    var body := line[c + 16 .. n - |reset| - 1];
    var k := IndexOf(body, RBracket);
    assert body == body[..k] + [body[k], body[k + 1]] + body[k + 2..];
    RenderParse(line[c + 1 .. c + 13]);
    Reassemble(color, p.tag, p.msg, reset, p.stamp, line);
  }

  /** Every level's entry point writes a line that parses back to that level's tag. */
  lemma LevelLineParses(p: Palette, l: Level, msg: seq<byte>, c: Clock)
    requires c.Valid()
    ensures ParseLine(ColorOf(p, l), p.reset, FormatLine(ColorOf(p, l), Tag(l), msg, p.reset, ToStamp(c)))
         == Some(Parsed(ToStamp(c), Tag(l), msg))
  {
    ParseFormat(ColorOf(p, l), Tag(l), msg, p.reset, c);
  }

  /** Distinct levels have distinct tags, so the parsed tag names the level. */
  lemma TagInjective(l1: Level, l2: Level)
    requires Tag(l1) == Tag(l2)
    ensures l1 == l2
  {
    assert Tag(l1)[0] == Tag(l2)[0];
    if |Tag(l1)| == 5 { assert Tag(l1)[1] == Tag(l2)[1]; }
  }
}
