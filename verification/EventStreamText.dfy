// The text of an event stream as it is written, line by line, and what the stream decoder and
// the viewer's reader (packages/normalizers/src/sse.ts, apps/viewer/src/api.ts) read from it.

module EventStreamText {
  import opened Wrappers
  import opened TextLines
  import opened SseDecoding
  import opened ServerEvents

  // ------------------------------------------------------------ one line

  /** A line that is not blank: `name: text`, `name:text`, `name`, or a comment. */
  datatype Written =
    | Spaced(name: string, text: string)
    | Tight(name: string, text: string)
    | Bare(name: string)
    | Note(text: string, spaced: bool)

  function LineOf(w: Written): string {
    match w
    case Spaced(name, text) => name + ": " + text
    case Tight(name, text) => name + ":" + text
    case Bare(name) => name
    case Note(text, spaced) => if spaced then ": " + text else ":" + text
  }

  predicate OneLine(s: string) {
    '\n' !in s && '\r' !in s
  }

  predicate IsName(s: string) {
    s != "" && ':' !in s && OneLine(s)
  }

  /** A text that begins with a space is written after a space. */
  predicate Writable(w: Written) {
    match w
    case Spaced(name, text) => IsName(name) && OneLine(text)
    case Tight(name, text) => IsName(name) && OneLine(text) && (text == "" || text[0] != ' ')
    case Bare(name) => IsName(name)
    case Note(text, spaced) => OneLine(text) && (spaced || text == "" || text[0] != ' ')
  }

  lemma {:induction false} ColonAfterName(name: string, rest: string)
    requires ':' !in name
    ensures ColonAt(name + ":" + rest) == |name| && ColonAt(name) == |name|
  {
    if name == "" {
      assert name + ":" + rest == ":" + rest;
    } else {
      assert (name + ":" + rest)[1..] == name[1..] + ":" + rest && name[0] in name;
      assert forall c | c in name[1..] :: c in name;
      ColonAfterName(name[1..], rest);
    }
  }

  /** What a line gives to a field. */
  function GivenBy(w: Written, name: string): seq<string> {
    match w
    case Spaced(n, text) => if n == name then [text] else []
    case Tight(n, text) => if n == name then [text] else []
    case Bare(n) => if n == name then [""] else []
    case Note(_, _) => []
  }

  function NotedBy(w: Written): seq<string> {
    match w
    case Note(text, _) => [text]
    case _ => []
  }

  const FIELDS := {"event", "data", "id", "retry"}

  function UnknownBy(w: Written): seq<(string, string)> {
    match w
    case Spaced(n, text) => if n in FIELDS then [] else [(n, text)]
    case Tight(n, text) => if n in FIELDS then [] else [(n, text)]
    case Bare(n) => if n in FIELDS then [] else [(n, "")]
    case Note(_, _) => []
  }

  /** Name and value that a line which is no comment is cut into. */
  lemma CutAtColon(name: string, rest: string)
    requires IsName(name)
    ensures var line := name + ":" + rest;
            !IsComment(line) && FieldName(line) == name && FieldValue(line) == StripSpace(rest)
    ensures !IsComment(name) && FieldName(name) == name && FieldValue(name) == ""
  {
    hide ColonAt, StripSpace;
    var line := name + ":" + rest;
    ColonAfterName(name, rest);
    assert line[..|name|] == name && line[|name| + 1..] == rest && line[0] == name[0];
    assert name[0] in name && name[..|name|] == name;
  }

  /** Name and value of a line, as written. */
  lemma FieldAsWritten(w: Written)
    requires Writable(w)
    ensures match w
            case Spaced(n, text) => !IsComment(LineOf(w)) && FieldName(LineOf(w)) == n && FieldValue(LineOf(w)) == text
            case Tight(n, text) => !IsComment(LineOf(w)) && FieldName(LineOf(w)) == n && FieldValue(LineOf(w)) == text
            case Bare(n) => !IsComment(LineOf(w)) && FieldName(LineOf(w)) == n && FieldValue(LineOf(w)) == ""
            case Note(text, _) => IsComment(LineOf(w)) && StripSpace(LineOf(w)[1..]) == text
  {
    hide FieldName, FieldValue, IsComment;
    match w {
      case Spaced(n, text) =>
        assert LineOf(w) == n + ":" + (" " + text) && (" " + text)[1..] == text;
        CutAtColon(n, " " + text);
      case Tight(n, text) => CutAtColon(n, text);
      case Bare(n) => CutAtColon(n, "");
      case Note(text, spaced) => NoteAsWritten(text, spaced);
    }
  }

  lemma NoteAsWritten(text: string, spaced: bool)
    requires spaced || text == "" || text[0] != ' '
    ensures var line := LineOf(Note(text, spaced)); IsComment(line) && StripSpace(line[1..]) == text
  {
    var line := LineOf(Note(text, spaced));
    assert line[1..] == (if spaced then " " + text else text) && (" " + text)[1..] == text;
  }

  lemma LineIsOne(w: Written)
    requires Writable(w)
    ensures LineOf(w) != "" && OneLine(LineOf(w))
  {
  }

  /** The decoder's reading of a line that stands for `w`. */
  lemma LineIsRead(w: Written, name: string)
    requires Writable(w)
    ensures LineOf(w) != "" && OneLine(LineOf(w))
    ensures FieldOf(LineOf(w), name) == GivenBy(w, name)
    ensures (if IsComment(LineOf(w)) then [StripSpace(LineOf(w)[1..])] else []) == NotedBy(w)
    ensures (if !IsComment(LineOf(w)) && !IsKnownField(FieldName(LineOf(w)))
             then [(FieldName(LineOf(w)), FieldValue(LineOf(w)))] else []) == UnknownBy(w)
  {
    hide FieldName, FieldValue, StripSpace, IsComment, LineOf, Writable, OneLine;
    LineIsOne(w);
    FieldAsWritten(w);
  }

  /** Every line is written in one of these ways. */
  lemma EveryLineIsWritten(line: string) returns (w: Written)
    requires line != "" && OneLine(line)
    ensures Writable(w) && LineOf(w) == line
  {
    var i := ColonAt(line);
    if i == |line| {
      assert line[..i] == line;
      w := Bare(line);
    } else {
      var rest := line[i + 1..];
      var spaced := rest != "" && rest[0] == ' ';
      var text := if spaced then rest[1..] else rest;
      assert line == line[..i] + ":" + rest && rest == (if spaced then " " else "") + text;
      w := if i == 0 then Note(text, spaced) else if spaced then Spaced(line[..i], text) else Tight(line[..i], text);
      assert LineOf(w) == line;
    }
  }

  // ------------------------------------------------------------ one block

  function Lines(block: seq<Written>): (r: seq<string>)
    ensures |r| == |block|
  {
    seq(|block|, i requires 0 <= i < |block| => LineOf(block[i]))
  }

  predicate AllWritable(block: seq<Written>) {
    forall i | 0 <= i < |block| :: Writable(block[i])
  }

  /** The values given to a field, in order. */
  function Given(block: seq<Written>, name: string): seq<string>
    decreases |block|
  {
    if block == [] then [] else Given(block[..|block| - 1], name) + GivenBy(block[|block| - 1], name)
  }

  function Notes(block: seq<Written>): seq<string>
    decreases |block|
  {
    if block == [] then [] else Notes(block[..|block| - 1]) + NotedBy(block[|block| - 1])
  }

  function Unknown(block: seq<Written>): seq<(string, string)>
    decreases |block|
  {
    if block == [] then [] else Unknown(block[..|block| - 1]) + UnknownBy(block[|block| - 1])
  }

  /** The text of the lines, each with a line feed. */
  function LfText(block: seq<Written>): string
    decreases |block|
  {
    if block == [] then "" else LfText(block[..|block| - 1]) + LineOf(block[|block| - 1]) + "\n"
  }

  function LastGiven(values: seq<string>): Option<string> {
    if values == [] then None else Some(values[|values| - 1])
  }

  function LastWithoutNul(values: seq<string>): Option<string> {
    if values == [] then None
    else if '\0' !in values[|values| - 1] then Some(values[|values| - 1])
    else LastWithoutNul(values[..|values| - 1])
  }

  predicate AllDigits(s: string) {
    forall k | 0 <= k < |s| :: s[k] in "0123456789"
  }

  predicate OnlyDigits(s: string) {
    s != "" && AllDigits(s)
  }

  function Power(n: nat): nat {
    if n == 0 then 1 else 10 * Power(n - 1)
  }

  /** The number that digits stand for, each by its place. */
  function Positional(s: string): nat
    requires AllDigits(s)
  {
    if s == "" then 0 else Digit(s[0]) * Power(|s| - 1) + Positional(s[1..])
  }

  function Digit(c: char): nat
    requires c in "0123456789"
  {
    IsDigit(c);
    c as int - '0' as int
  }

  function LastNumber(values: seq<string>): Option<nat> {
    if values == [] then None
    else if OnlyDigits(values[|values| - 1]) then Some(Positional(values[|values| - 1]))
    else LastNumber(values[..|values| - 1])
  }

  /** The texts, a line feed between any two. */
  function WithLineFeeds(texts: seq<string>): string {
    if texts == [] then "" else if |texts| == 1 then texts[0] else texts[0] + "\n" + WithLineFeeds(texts[1..])
  }

  function DataOf(block: seq<Written>): Option<string> {
    if Given(block, "data") == [] then None else Some(WithLineFeeds(Given(block, "data")))
  }

  /** The frame a block tells. */
  function Told(index: nat, block: seq<Written>): Frame {
    Frame(index, LastGiven(Given(block, "event")), DataOf(block), LastWithoutNul(Given(block, "id")),
          LastNumber(Given(block, "retry")), Notes(block), Unknown(block), LfText(block) + "\n")
  }

  lemma LinesNext(block: seq<Written>)
    requires block != []
    ensures Lines(block) == Lines(block[..|block| - 1]) + [LineOf(block[|block| - 1])]
  {
  }

  lemma {:induction false} FieldsAreGiven(block: seq<Written>, name: string)
    requires AllWritable(block)
    ensures FieldValues(Lines(block), name) == Given(block, name)
    decreases |block|
  {
    hide FieldOf, LineOf, GivenBy;
    if block != [] {
      FieldsAreGiven(block[..|block| - 1], name);
      LinesNext(block);
      LineIsRead(block[|block| - 1], name);
      FieldValuesNext(Lines(block[..|block| - 1]), LineOf(block[|block| - 1]), name);
    }
  }

  lemma {:induction false} OthersAreTold(block: seq<Written>)
    requires AllWritable(block)
    ensures Comments(Lines(block)) == Notes(block) && UnknownFields(Lines(block)) == Unknown(block)
    decreases |block|
  {
    hide LineOf, NotedBy, UnknownBy, StripSpace, IsKnownField, FieldName, FieldValue;
    if block != [] {
      OthersAreTold(block[..|block| - 1]);
      LinesNext(block);
      LineIsRead(block[|block| - 1], "");
      FieldsNext(Lines(block[..|block| - 1]), LineOf(block[|block| - 1]));
    }
  }

  lemma {:induction false} IdWithoutNul(values: seq<string>)
    ensures Last(NulFree(values)) == LastWithoutNul(values)
    decreases |values|
  {
    if values != [] {
      IdWithoutNul(values[..|values| - 1]);
    }
  }

  lemma {:induction false} PositionalLast(s: string)
    requires s != "" && AllDigits(s)
    ensures AllDigits(s[..|s| - 1]) && Positional(s) == 10 * Positional(s[..|s| - 1]) + Digit(s[|s| - 1])
    decreases |s|
  {
    hide Digit;
    var n := |s| - 1;
    if n == 0 {
      assert s[1..] == "" && s[..0] == "";
    } else {
      PositionalLast(s[1..]);
      assert s[1..][..n - 1] == s[..n][1..] && s[..n][0] == s[0] && s[1..][n - 1] == s[n];
      TenTimes(Digit(s[0]), Power(n - 1));
    }
  }

  lemma TenTimes(d: nat, p: nat)
    ensures d * (10 * p) == 10 * (d * p)
  {
  }

  lemma {:induction false} DigitsArePositional(s: string)
    requires AllDigits(s)
    ensures forall k | 0 <= k < |s| :: '0' <= s[k] <= '9'
    ensures DigitsValue(s) == Positional(s)
    decreases |s|
  {
    hide Positional;
    forall k | 0 <= k < |s| ensures '0' <= s[k] <= '9' {
      IsDigit(s[k]);
    }
    if s == "" {
      NoDigits();
    } else {
      PositionalLast(s);
      DigitsArePositional(s[..|s| - 1]);
    }
  }

  lemma NoDigits()
    ensures AllDigits("") && Positional("") == 0
  {
  }

  lemma SameDigits(s: string)
    ensures OnlyDigits(s) <==> IsDigits(s)
  {
    forall k | 0 <= k < |s| ensures s[k] in "0123456789" <==> '0' <= s[k] <= '9' {
      IsDigit(s[k]);
    }
  }

  lemma IsDigit(c: char)
    ensures c in "0123456789" <==> '0' <= c <= '9'
  {
    if '0' <= c <= '9' {
      assert "0123456789"[c as int - '0' as int] == c;
    }
  }

  lemma {:induction false} RetryIsNumber(values: seq<string>)
    ensures Last(Retries(values)) == LastNumber(values)
    decreases |values|
  {
    hide OnlyDigits, IsDigits, DigitsValue, Positional;
    if values != [] {
      var v := values[|values| - 1];
      RetryIsNumber(values[..|values| - 1]);
      SameDigits(v);
      if OnlyDigits(v) {
        NumberOf(v);
      }
    }
  }

  lemma {:induction false} NumberOf(v: string)
    requires OnlyDigits(v)
    ensures IsDigits(v) && DigitsValue(v) == Positional(v)
  {
    hide DigitsValue, Positional;
    DigitsArePositional(v);
  }

  lemma {:induction false} JoinedTexts(texts: seq<string>)
    ensures Join(texts) == WithLineFeeds(texts)
    decreases |texts|
  {
    if |texts| > 1 {
      JoinedTexts(texts[1..]);
      JoinSplit(texts[..1], texts[1..]);
      assert texts == texts[..1] + texts[1..];
    }
  }

  lemma {:induction false} JoinedLines(block: seq<Written>)
    requires block != []
    ensures Join(Lines(block)) + "\n" == LfText(block)
    decreases |block|
  {
    hide LineOf;
    LinesNext(block);
    if |block| == 1 {
      assert block[..0] == [];
    } else {
      JoinedLines(block[..|block| - 1]);
      JoinSplit(Lines(block[..|block| - 1]), [LineOf(block[|block| - 1])]);
    }
  }

  /** The frame of a block's lines is the frame the block tells. */
  lemma BlockIsRead(index: nat, block: seq<Written>)
    requires AllWritable(block) && block != []
    ensures FrameOf(index, Lines(block)) == Told(index, block)
  {
    hide Join, WithLineFeeds, LfText, NulFree, Retries, Given, FieldValues;
    FieldsAreGiven(block, "event");
    FieldsAreGiven(block, "data");
    FieldsAreGiven(block, "id");
    FieldsAreGiven(block, "retry");
    OthersAreTold(block);
    IdWithoutNul(Given(block, "id"));
    RetryIsNumber(Given(block, "retry"));
    JoinedTexts(Given(block, "data"));
    JoinedLines(block);
    assert Join(Lines(block)) + "\n\n" == (Join(Lines(block)) + "\n") + "\n";
  }

  /** The event the viewer shows of a block: the last name or `message`, the last identifier, and
      the data; nothing without data. */
  function EventTold(block: seq<Written>): Option<ServerEvent> {
    match DataOf(block)
    case None => None
    case Some(data) =>
      var names := Given(block, "event");
      Some(ServerEvent(if names == [] then "message" else names[|names| - 1], LastGiven(Given(block, "id")), data))
  }

  lemma BlockIsShown(block: seq<Written>)
    requires AllWritable(block)
    ensures EventOf(Lines(block)) == EventTold(block)
  {
    hide Join, WithLineFeeds, Given, FieldValues;
    FieldsAreGiven(block, "event");
    FieldsAreGiven(block, "data");
    FieldsAreGiven(block, "id");
    JoinedTexts(Given(block, "data"));
  }

  // ------------------------------------------------------------ the text of a stream

  datatype End = Lf | Cr | CrLf

  function EndText(e: End): string {
    match e
    case Lf => "\n"
    case Cr => "\r"
    case CrLf => "\r\n"
  }

  /** The lines, each with its end, and a last line without. */
  function Spell(lines: seq<string>, ends: seq<End>, rest: string): string
    requires |lines| == |ends|
  {
    if lines == [] then rest else lines[0] + EndText(ends[0]) + Spell(lines[1..], ends[1..], rest)
  }

  /** A CR is not followed by the LF of a blank line: that would be one end. */
  predicate Spellable(lines: seq<string>, ends: seq<End>, rest: string) {
    && |lines| == |ends| && OneLine(rest)
    && (forall i | 0 <= i < |lines| :: OneLine(lines[i]))
    && (forall i | 0 <= i < |lines| - 1 :: !(ends[i] == Cr && lines[i + 1] == "" && ends[i + 1] == Lf))
  }

  lemma {:induction false} NoBreak(s: string)
    requires OneLine(s)
    ensures BreakAt(s) == |s|
  {
    if s != "" {
      assert s[0] in s;
      assert forall c | c in s[1..] :: c in s;
      NoBreak(s[1..]);
    }
  }

  lemma {:induction false} SpellStart(lines: seq<string>, ends: seq<End>, rest: string)
    requires Spellable(lines, ends, rest)
    ensures var t := Spell(lines, ends, rest);
            t == "" || t[0] != '\n' || (lines != [] && lines[0] == "" && ends[0] == Lf)
  {
    var t := Spell(lines, ends, rest);
    if lines == [] {
      assert rest != "" ==> rest[0] in rest;
    } else if lines[0] != "" {
      assert t[0] == lines[0][0] && lines[0][0] in lines[0];
    } else {
      assert t[0] == EndText(ends[0])[0];
    }
  }

  lemma {:induction false} FirstSpelled(line: string, e: End, more: string)
    requires OneLine(line) && !(e == Cr && more != "" && more[0] == '\n')
    ensures CutLines(line + EndText(e) + more, true) == FirstLine(line, CutLines(more, true))
  {
    hide CutLines, BreakAt;
    var end := EndText(e);
    var s := line + end + more;
    NoBreak(line);
    assert s == line + (end + more);
    BreakAfter(line, end + more);
    assert s[|line|] == end[0];
    assert s[|line| + |end|..] == more && s[..|line|] == line;
    assert BreakWidth(s, |line|) == |end| by {
      if |line| + 1 < |s| {
        assert s[|line| + 1] == (end + more)[1];
      }
    }
    CutLinesFirst(s, true);
  }

  lemma {:induction false} SpelledLines(lines: seq<string>, ends: seq<End>, rest: string)
    requires Spellable(lines, ends, rest)
    ensures CutLines(Spell(lines, ends, rest), true) == Cut(lines, rest)
    decreases |lines|
  {
    hide CutLines, EndText;
    if lines == [] {
      NoBreak(rest);
      Uncut(rest);
    } else {
      assert Spellable(lines[1..], ends[1..], rest) by {
        forall i | 0 <= i < |lines[1..]| - 1 ensures !(ends[1..][i] == Cr && lines[1..][i + 1] == "" && ends[1..][i + 1] == Lf) {
          assert !(ends[i + 1] == Cr && lines[i + 1 + 1] == "" && ends[i + 1 + 1] == Lf);
        }
      }
      SpelledLines(lines[1..], ends[1..], rest);
      SpellStart(lines[1..], ends[1..], rest);
      if |lines| > 1 {
        assert !(ends[0] == Cr && lines[0 + 1] == "" && ends[0 + 1] == Lf);
      }
      FirstSpelled(lines[0], ends[0], Spell(lines[1..], ends[1..], rest));
      assert lines == [lines[0]] + lines[1..];
    }
  }

  lemma {:induction false} Uncut(rest: string)
    requires BreakAt(rest) == |rest|
    ensures CutLines(rest, true) == Cut([], rest)
  {
  }

  /** A stream: an optional byte order mark, blocks with a blank line after each (an empty block
      is one more blank line), a tail of lines without a blank line after them, and how each line
      ends; the last line of the tail may have no end. */
  datatype Stream = Stream(bom: bool, blocks: seq<seq<Written>>, tail: seq<Written>, ends: seq<End>, ended: bool)

  function BlockLines(blocks: seq<seq<Written>>): seq<string> {
    if blocks == [] then [] else Lines(blocks[0]) + [""] + BlockLines(blocks[1..])
  }

  function EndedLines(s: Stream): seq<string> {
    BlockLines(s.blocks) + Lines(if s.ended || s.tail == [] then s.tail else s.tail[..|s.tail| - 1])
  }

  function LastLine(s: Stream): string {
    if s.ended || s.tail == [] then "" else LineOf(s.tail[|s.tail| - 1])
  }

  function Body(s: Stream): string
    requires |EndedLines(s)| == |s.ends|
  {
    Spell(EndedLines(s), s.ends, LastLine(s))
  }

  ghost predicate Sound(s: Stream) {
    && (forall b | b in s.blocks :: AllWritable(b)) && AllWritable(s.tail)
    && Spellable(EndedLines(s), s.ends, LastLine(s))
    && (s.bom || Body(s) == "" || Body(s)[0] != '\U{FEFF}')
  }

  function TextOf(s: Stream): string
    requires |EndedLines(s)| == |s.ends|
  {
    if s.bom then "\U{FEFF}" + Body(s) else Body(s)
  }

  /** The frames of the blocks that have lines, numbered from `first`. */
  function FramesTold(first: nat, blocks: seq<seq<Written>>): seq<Frame>
    decreases |blocks|
  {
    if blocks == [] then []
    else if blocks[0] == [] then FramesTold(first, blocks[1..])
    else [Told(first, blocks[0])] + FramesTold(first + 1, blocks[1..])
  }

  function EventsTold(blocks: seq<seq<Written>>): seq<ServerEvent>
    decreases |blocks|
  {
    if blocks == [] then []
    else (match EventTold(blocks[0]) case None => [] case Some(e) => [e]) + EventsTold(blocks[1..])
  }

  function TailTold(s: Stream): Option<Incomplete> {
    if s.tail == [] then None
    else
      var text := LfText(s.tail);
      Some(Incomplete(|FramesTold(1, s.blocks)| + 1, if text == "" then "" else text[..|text| - 1]))
  }

  function Filled(blocks: seq<seq<Written>>): seq<seq<Written>> {
    if blocks == [] then [] else (if blocks[0] == [] then [] else [blocks[0]]) + Filled(blocks[1..])
  }

  function AllLinesOfBlocks(blocks: seq<seq<Written>>): (r: seq<seq<string>>)
    ensures |r| == |blocks|
  {
    seq(|blocks|, i requires 0 <= i < |blocks| => Lines(blocks[i]))
  }

  lemma {:induction false} GroupTakes(open: seq<string>, lines: seq<string>, more: seq<string>)
    requires forall i | 0 <= i < |lines| :: lines[i] != ""
    ensures Group(open, lines + more) == Group(open + lines, more)
    decreases |lines|
  {
    hide Group;
    if lines == [] {
      assert lines + more == more && open + lines == open;
    } else {
      assert lines + more == [lines[0]] + (lines[1..] + more);
      GroupLine(open, lines[0], lines[1..] + more);
      GroupTakes(open + [lines[0]], lines[1..], more);
      assert open + lines == (open + [lines[0]]) + lines[1..];
    }
  }

  lemma {:induction false} GroupBlank(open: seq<string>, more: seq<string>)
    ensures var g := Group([], more);
            Group(open, [""] + more) == Grouped((if open == [] then [] else [open]) + g.groups, g.open)
  {
    assert ([""] + more)[1..] == more;
  }

  lemma LinesAreFilled(block: seq<Written>)
    requires AllWritable(block)
    ensures forall i | 0 <= i < |block| :: Lines(block)[i] != "" && OneLine(Lines(block)[i])
  {
    forall i | 0 <= i < |block| ensures Lines(block)[i] != "" && OneLine(Lines(block)[i]) {
      LineIsRead(block[i], "");
    }
  }

  lemma {:induction false} GroupsAreBlocks(blocks: seq<seq<Written>>, tail: seq<Written>)
    requires (forall b | b in blocks :: AllWritable(b)) && AllWritable(tail)
    ensures Group([], BlockLines(blocks) + Lines(tail)) == Grouped(AllLinesOfBlocks(Filled(blocks)), Lines(tail))
    decreases |blocks|
  {
    hide Group, Lines, AllWritable, AllLinesOfBlocks;
    if blocks == [] {
      assert BlockLines(blocks) + Lines(tail) == Lines(tail) + [];
      LinesAreFilled(tail);
      GroupTakes([], Lines(tail), []);
      assert [] + Lines(tail) == Lines(tail);
      GroupNothing(Lines(tail));
      NoBlocksFilled();
    } else {
      assert blocks[0] in blocks;
      GroupsAreBlocks(blocks[1..], tail);
      FirstBlock(blocks[0], BlockLines(blocks[1..]) + Lines(tail));
      assert BlockLines(blocks) + Lines(tail) == Lines(blocks[0]) + ([""] + (BlockLines(blocks[1..]) + Lines(tail)));
      FilledFirst(blocks);
    }
  }

  lemma NoBlocksFilled()
    ensures AllLinesOfBlocks(Filled([])) == []
  {
  }

  lemma {:induction false} FirstBlock(block: seq<Written>, more: seq<string>)
    requires AllWritable(block)
    ensures var g := Group([], more);
            Group([], Lines(block) + ([""] + more)) == Grouped((if block == [] then [] else [Lines(block)]) + g.groups, g.open)
  {
    hide Group, AllWritable;
    LinesAreFilled(block);
    GroupTakes([], Lines(block), [""] + more);
    assert [] + Lines(block) == Lines(block);
    GroupBlank(Lines(block), more);
  }

  lemma {:induction false} FilledFirst(blocks: seq<seq<Written>>)
    requires blocks != []
    ensures AllLinesOfBlocks(Filled(blocks))
         == (if blocks[0] == [] then [] else [Lines(blocks[0])]) + AllLinesOfBlocks(Filled(blocks[1..]))
  {
    hide Lines;
    var f := Filled(blocks[1..]);
    if blocks[0] == [] {
      assert [] + f == f;
      assert [] + AllLinesOfBlocks(f) == AllLinesOfBlocks(f);
    } else {
      assert AllLinesOfBlocks([blocks[0]] + f) == [Lines(blocks[0])] + AllLinesOfBlocks(f);
    }
  }

  lemma {:induction false} FramesAreTold(first: nat, blocks: seq<seq<Written>>)
    requires forall b | b in blocks :: AllWritable(b)
    ensures FramesFrom(first, AllLinesOfBlocks(Filled(blocks))) == FramesTold(first, blocks)
    ensures |FramesTold(first, blocks)| == |Filled(blocks)|
    decreases |blocks|
  {
    hide FrameOf, Told, Lines, AllWritable;
    if blocks != [] {
      assert blocks[0] in blocks;
      if blocks[0] == [] {
        FramesAreTold(first, blocks[1..]);
        assert [] + Filled(blocks[1..]) == Filled(blocks[1..]);
      } else {
        FramesAreTold(first + 1, blocks[1..]);
        BlockIsRead(first, blocks[0]);
        var all := AllLinesOfBlocks(Filled(blocks));
        assert all[1..] == AllLinesOfBlocks(Filled(blocks[1..]));
      }
    }
  }

  lemma {:induction false} EventsAreTold(blocks: seq<seq<Written>>)
    requires forall b | b in blocks :: AllWritable(b)
    ensures EventsOfBlocks(AllLinesOfBlocks(Filled(blocks))) == EventsTold(blocks)
    decreases |blocks|
  {
    hide EventOf, EventTold, Lines, AllWritable;
    if blocks != [] {
      assert blocks[0] in blocks;
      EventsAreTold(blocks[1..]);
      if blocks[0] == [] {
        NothingTold();
        assert [] + Filled(blocks[1..]) == Filled(blocks[1..]);
      } else {
        BlockIsShown(blocks[0]);
        var all := AllLinesOfBlocks(Filled(blocks));
        assert all[1..] == AllLinesOfBlocks(Filled(blocks[1..]));
      }
    }
  }

  lemma NothingTold()
    ensures EventTold([]) == None
  {
  }

  lemma BodyLines(s: Stream)
    requires Sound(s)
    ensures AllLines(Body(s)) == BlockLines(s.blocks) + Lines(s.tail)
  {
    hide CutLines, Spellable, Spell, LineOf;
    SpelledLines(EndedLines(s), s.ends, LastLine(s));
    if s.ended || s.tail == [] {
      assert EndedLines(s) + [] == EndedLines(s);
    } else {
      var n := |s.tail| - 1;
      LineIsRead(s.tail[n], "");
      LinesNext(s.tail);
      assert BlockLines(s.blocks) + (Lines(s.tail[..n]) + [LineOf(s.tail[n])])
          == BlockLines(s.blocks) + Lines(s.tail[..n]) + [LineOf(s.tail[n])];
    }
  }

  lemma StrippedText(s: Stream)
    requires Sound(s)
    ensures StripBom(TextOf(s)) == Body(s)
  {
    hide Body, AllWritable, Spell;
    if s.bom {
      assert ("\U{FEFF}" + Body(s))[1..] == Body(s);
    }
  }

  /** The one-shot reading of a stream's text is what the stream tells. */
  lemma StreamIsRead(s: Stream)
    requires Sound(s)
    ensures OneShot(TextOf(s)) == Decoded(FramesTold(1, s.blocks), TailTold(s))
  {
    hide AllLines, Group, Join, LfText, Lines, BlockLines, Body, TextOf, FramesFrom, FramesTold;
    StrippedText(s);
    BodyLines(s);
    GroupsAreBlocks(s.blocks, s.tail);
    FramesAreTold(1, s.blocks);
    if s.tail != [] {
      JoinedLines(s.tail);
      var text := LfText(s.tail);
      assert text[..|text| - 1] == Join(Lines(s.tail));
      TailHasLines(s.tail);
    }
  }

  lemma TailHasLines(tail: seq<Written>)
    ensures tail != [] ==> Lines(tail) != []
    ensures tail == [] ==> Lines(tail) == []
  {
  }

  /** For every limits and every cutting of a stream's text: decoding succeeds exactly when the
      buffer limit holds, no block's text and no tail's is longer than the frame limit, no block
      asks for a retry beyond 2^53 - 1, and the blocks are not too many; then it gives the frames
      and the tail that the stream tells. */
  lemma {:induction false} DecodedAsWritten(l: Limits, chunks: seq<string>, s: Stream)
    requires l.Valid() && Sound(s) && Concat(chunks) == TextOf(s)
    ensures Decode(l, chunks).Ok?
       <==> && BufferFits(l, chunks)
            && (forall b | b in s.blocks ::
                  |LfText(b)| <= l.frame
                  && (LastNumber(Given(b, "retry")).Some? ==> LastNumber(Given(b, "retry")).value <= 9_007_199_254_740_991))
            && |LfText(s.tail)| <= l.frame
            && |FramesTold(1, s.blocks)| <= l.frames
    ensures Decode(l, chunks).Ok? ==> Decode(l, chunks).value == Decoded(FramesTold(1, s.blocks), TailTold(s))
  {
    hide Decode, BufferFits, OneShot, TextOf, FramesTold, AllLines, Group, Concat, Body, LfText, Lines, BlockLines, FramesFit, Sound, AllWritable;
    DecodeMeaning(l, chunks);
    StreamIsRead(s);
    StrippedText(s);
    BodyLines(s);
    SoundBlocks(s);
    GroupsAreBlocks(s.blocks, s.tail);
    FramesAreTold(1, s.blocks);
    LimitsAsWritten(l, s.blocks, s.tail);
  }

  lemma SoundBlocks(s: Stream)
    requires Sound(s)
    ensures (forall b | b in s.blocks :: AllWritable(b)) && AllWritable(s.tail)
  {
  }

  lemma {:induction false} SizeAsWritten(block: seq<Written>)
    ensures Size(Lines(block)) == |LfText(block)|
    decreases |block|
  {
    hide LineOf;
    if block != [] {
      SizeAsWritten(block[..|block| - 1]);
      LinesNext(block);
      SizeNext(Lines(block[..|block| - 1]), LineOf(block[|block| - 1]));
    }
  }

  lemma {:induction false} FilledBlocks(blocks: seq<seq<Written>>, b: seq<Written>)
    ensures b in Filled(blocks) <==> b in blocks && b != []
    decreases |blocks|
  {
    if blocks != [] {
      FilledBlocks(blocks[1..], b);
    }
  }

  predicate BlockFits(l: Limits, b: seq<Written>) {
    && |LfText(b)| <= l.frame
    && (LastNumber(Given(b, "retry")).Some? ==> LastNumber(Given(b, "retry")).value <= 9_007_199_254_740_991)
  }

  lemma BlockLimits(l: Limits, b: seq<Written>)
    requires AllWritable(b)
    ensures BlockFits(l, b) <==> Size(Lines(b)) <= l.frame && RetryIsSafe(Lines(b))
    ensures b == [] ==> BlockFits(l, b)
  {
    hide Size, LfText, Given, Retries, FieldValues, Lines;
    SizeAsWritten(b);
    FieldsAreGiven(b, "retry");
    RetryIsNumber(Given(b, "retry"));
    if b == [] {
      NothingGiven();
    }
  }

  lemma NothingGiven()
    ensures LfText([]) == "" && Given([], "retry") == []
  {
  }

  lemma {:induction false} LimitsAsWritten(l: Limits, blocks: seq<seq<Written>>, tail: seq<Written>)
    requires (forall b | b in blocks :: AllWritable(b)) && AllWritable(tail)
    ensures FramesFit(l, Grouped(AllLinesOfBlocks(Filled(blocks)), Lines(tail)))
       <==> (forall b | b in blocks :: BlockFits(l, b)) && |LfText(tail)| <= l.frame && |Filled(blocks)| <= l.frames
  {
    hide Lines, AllWritable, BlockFits, Size, RetryIsSafe, LfText, Filled;
    var filled := Filled(blocks);
    var groups := AllLinesOfBlocks(filled);
    SizeAsWritten(tail);
    forall b ensures b in filled <==> b in blocks && b != [] {
      FilledBlocks(blocks, b);
    }
    forall b | b in blocks
      ensures BlockFits(l, b) <==> Size(Lines(b)) <= l.frame && RetryIsSafe(Lines(b))
      ensures b == [] ==> BlockFits(l, b)
    {
      BlockLimits(l, b);
    }
    forall k | 0 <= k < |groups| ensures groups[k] == Lines(filled[k]) && filled[k] in blocks {
      assert filled[k] in filled;
    }
    if forall k | 0 <= k < |groups| :: Size(groups[k]) <= l.frame && RetryIsSafe(groups[k]) {
      forall b | b in blocks ensures BlockFits(l, b) {
        if b != [] {
          var k :| 0 <= k < |filled| && filled[k] == b;
          assert groups[k] == Lines(b);
        }
      }
    }
  }

  /** The viewer shows what the blocks tell, and then what the tail tells. */
  lemma StreamIsShown(s: Stream)
    requires Sound(s) && !s.bom
    ensures EventsIn(Normalize(TextOf(s))) == EventsTold(s.blocks + [s.tail])
  {
    hide AllLines, Group, Lines, BlockLines, Body, EventOf, EventTold, EventsIn, Normalize, EventsTold, AllWritable, Sound, EventsOfBlocks;
    SoundBlocks(s);
    assert Body(s) == TextOf(s) && AllLines(Body(s)) == BlockLines(s.blocks) + Lines(s.tail) by {
      SoundText(s);
    }
    GroupsAreBlocks(s.blocks, s.tail);
    ViewerReadsGroups(TextOf(s));
    EventsAreTold(s.blocks);
    BlockIsShown(s.tail);
    EventsToldNext(s.blocks, s.tail);
  }

  lemma SoundText(s: Stream)
    requires Sound(s) && !s.bom
    ensures |EndedLines(s)| == |s.ends| && Body(s) == TextOf(s) && AllLines(Body(s)) == BlockLines(s.blocks) + Lines(s.tail)
  {
    hide Body, AllLines, AllWritable;
    BodyLines(s);
  }

  lemma {:induction false} EventsToldNext(blocks: seq<seq<Written>>, tail: seq<Written>)
    ensures EventsTold(blocks + [tail]) == EventsTold(blocks) + Optional(EventTold(tail))
    decreases |blocks|
  {
    hide EventTold, EventsTold;
    EventsToldFirst(blocks + [tail]);
    EventsToldFirst(blocks);
    if blocks == [] {
      assert (blocks + [tail])[1..] == [];
      EventsToldFirst([]);
    } else {
      EventsToldNext(blocks[1..], tail);
      assert (blocks + [tail])[1..] == blocks[1..] + [tail];
    }
  }

  lemma {:induction false} EventsToldFirst(blocks: seq<seq<Written>>)
    ensures EventsTold(blocks) == if blocks == [] then [] else Optional(EventTold(blocks[0])) + EventsTold(blocks[1..])
  {
    hide EventTold;
  }

  // ------------------------------------------------------------ every text

  lemma {:induction false} OneLineBefore(text: string)
    ensures OneLine(text[..BreakAt(text)])
  {
    var line := text[..BreakAt(text)];
    forall k | 0 <= k < |line| ensures line[k] != '\n' && line[k] != '\r' {
      BreakAtIsFirst(text, k);
    }
  }

  /** Every text is lines with their ends, and a rest. */
  lemma {:induction false} Unspell(text: string) returns (lines: seq<string>, ends: seq<End>, rest: string)
    ensures Spellable(lines, ends, rest) && Spell(lines, ends, rest) == text
    decreases |text|
  {
    hide BreakAt;
    var i := BreakAt(text);
    OneLineBefore(text);
    if i == |text| {
      lines, ends, rest := [], [], text;
      assert text[..i] == text;
    } else {
      var w := BreakWidth(text, i);
      var e := if w == 2 then CrLf else if text[i] == '\n' then Lf else Cr;
      var moreLines, moreEnds, last := Unspell(text[i + w..]);
      lines, ends, rest := [text[..i]] + moreLines, [e] + moreEnds, last;
      assert lines[1..] == moreLines && ends[1..] == moreEnds;
      assert text == text[..i] + EndText(e) + text[i + w..];
      SpellableFront(text[..i], e, moreLines, moreEnds, last);
    }
  }

  lemma {:induction false} SpellableFront(line: string, e: End, lines: seq<string>, ends: seq<End>, rest: string)
    requires OneLine(line) && Spellable(lines, ends, rest)
    requires var t := Spell(lines, ends, rest); !(e == Cr && t != "" && t[0] == '\n')
    ensures Spellable([line] + lines, [e] + ends, rest)
  {
    var all, es := [line] + lines, [e] + ends;
    if lines != [] && lines[0] == "" && ends[0] == Lf {
      assert Spell(lines, ends, rest)[0] == '\n';
    }
    forall i | 0 <= i < |all| - 1 ensures !(es[i] == Cr && all[i + 1] == "" && es[i + 1] == Lf) {
      if i > 0 {
        assert !(ends[i - 1] == Cr && lines[i - 1 + 1] == "" && ends[i - 1 + 1] == Lf);
      }
    }
  }

  ghost predicate Divides(blocks: seq<seq<Written>>, tail: seq<Written>, ended: bool, lines: seq<string>, rest: string) {
    && (forall b | b in blocks :: AllWritable(b)) && AllWritable(tail)
    && BlockLines(blocks) + Lines(if ended || tail == [] then tail else tail[..|tail| - 1]) == lines
    && (if ended || tail == [] then "" else LineOf(tail[|tail| - 1])) == rest
  }

  lemma {:induction false} Divide(lines: seq<string>, rest: string) returns (blocks: seq<seq<Written>>, tail: seq<Written>, ended: bool)
    requires OneLine(rest) && forall i | 0 <= i < |lines| :: OneLine(lines[i])
    ensures Divides(blocks, tail, ended, lines, rest)
    decreases |lines|
  {
    hide Writable, LineOf, Divides;
    if lines == [] {
      if rest == "" {
        blocks, tail, ended := [], [], true;
        NothingDivides();
      } else {
        var w := EveryLineIsWritten(rest);
        blocks, tail, ended := [], [w], false;
        RestDivides(w);
      }
    } else {
      blocks, tail, ended := Divide(lines[1..], rest);
      assert lines == [lines[0]] + lines[1..];
      if lines[0] == "" {
        BlankDivides(blocks, tail, ended, lines[1..], rest);
        blocks := [[]] + blocks;
      } else {
        var w := EveryLineIsWritten(lines[0]);
        LineDivides(w, blocks, tail, ended, lines[1..], rest);
        if blocks == [] {
          ended := ended || tail == [];
          tail := [w] + tail;
        } else {
          blocks := [[w] + blocks[0]] + blocks[1..];
        }
      }
    }
  }

  lemma NothingDivides()
    ensures Divides([], [], true, [], "")
  {
  }

  lemma RestDivides(w: Written)
    requires Writable(w)
    ensures Divides([], [w], false, [], LineOf(w))
  {
    assert [w][..0] == [] && BlockLines([]) + Lines([]) == [];
  }

  lemma BlankDivides(blocks: seq<seq<Written>>, tail: seq<Written>, ended: bool, lines: seq<string>, rest: string)
    requires Divides(blocks, tail, ended, lines, rest)
    ensures Divides([[]] + blocks, tail, ended, [""] + lines, rest)
  {
    hide Writable, LineOf;
    assert ([[]] + blocks)[1..] == blocks && Lines([]) == [];
    assert BlockLines([[]] + blocks) == [""] + BlockLines(blocks);
    assert forall b | b in [[]] + blocks :: AllWritable(b);
  }

  lemma LineDivides(w: Written, blocks: seq<seq<Written>>, tail: seq<Written>, ended: bool, lines: seq<string>, rest: string)
    requires Writable(w) && Divides(blocks, tail, ended, lines, rest)
    ensures blocks == [] ==> Divides([], [w] + tail, ended || tail == [], [LineOf(w)] + lines, rest)
    ensures blocks != [] ==> Divides([[w] + blocks[0]] + blocks[1..], tail, ended, [LineOf(w)] + lines, rest)
  {
    hide Writable, LineOf;
    if blocks == [] {
      var all := [w] + tail;
      if ended || tail == [] {
        assert Lines(all) == [LineOf(w)] + Lines(tail);
      } else {
        assert all[..|all| - 1] == [w] + tail[..|tail| - 1];
        assert Lines(all[..|all| - 1]) == [LineOf(w)] + Lines(tail[..|tail| - 1]);
      }
    } else {
      var all := [[w] + blocks[0]] + blocks[1..];
      assert all[1..] == blocks[1..] && blocks[0] in blocks;
      assert Lines([w] + blocks[0]) == [LineOf(w)] + Lines(blocks[0]);
      assert BlockLines(all) == [LineOf(w)] + BlockLines(blocks);
      forall b | b in all ensures AllWritable(b) {
        if b != all[0] {
          assert b in blocks;
        }
      }
    }
  }

  /** Every text is the text of a stream, so what is read of streams is said of every text. */
  lemma EveryTextIsWritten(text: string) returns (s: Stream)
    ensures Sound(s) && TextOf(s) == text
  {
    hide Spell, Spellable, AllWritable, Lines, BlockLines, LineOf;
    var bom := text != "" && text[0] == '\U{FEFF}';
    var body := if bom then text[1..] else text;
    var lines, ends, rest := Unspell(body);
    assert |lines| == |ends| && OneLine(rest) && forall i | 0 <= i < |lines| :: OneLine(lines[i]) by {
      SpelledParts(lines, ends, rest);
    }
    var blocks, tail, ended := Divide(lines, rest);
    s := Stream(bom, blocks, tail, ends, ended);
    if bom {
      assert text == "\U{FEFF}" + body;
    }
  }

  lemma SpelledParts(lines: seq<string>, ends: seq<End>, rest: string)
    requires Spellable(lines, ends, rest)
    ensures |lines| == |ends| && OneLine(rest) && forall i | 0 <= i < |lines| :: OneLine(lines[i])
  {
  }
}
