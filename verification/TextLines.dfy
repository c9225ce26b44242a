// Lines and fields of a server-sent event stream, shared by the stream decoder
// (packages/normalizers/src/sse.ts) and the viewer's reader (apps/viewer/src/api.ts).
// A Dafny `char` stands for one code unit of the decoded text.

module Wrappers {
  datatype Option<+T> = None | Some(value: T)

  datatype Result<+T, +E> = Ok(value: T) | Err(error: E)
}

module TextLines {
  import opened Wrappers

  predicate IsBreak(c: char) {
    c == '\n' || c == '\r'
  }

  /** Position of the first CR or LF, or the length when there is none. */
  function BreakAt(s: string): (i: nat)
    ensures i <= |s|
    ensures i < |s| ==> IsBreak(s[i])
  {
    if s == "" || IsBreak(s[0]) then 0 else 1 + BreakAt(s[1..])
  }

  /** Nothing in front of the first line end is one. */
  lemma {:induction false} BreakAtIsFirst(s: string, k: nat)
    requires k < BreakAt(s)
    ensures !IsBreak(s[k])
  {
    if k > 0 {
      BreakAtIsFirst(s[1..], k - 1);
    }
  }

  lemma {:induction false} BreakAtPrefix(a: string, b: string)
    requires BreakAt(a) < |a|
    ensures BreakAt(a + b) == BreakAt(a)
  {
    if !IsBreak(a[0]) {
      assert (a + b)[1..] == a[1..] + b;
      BreakAtPrefix(a[1..], b);
    }
  }

  /** A CR directly followed by LF is one line end of two characters. */
  function BreakWidth(s: string, i: nat): (w: nat)
    requires i < |s| && IsBreak(s[i])
    ensures 1 <= w <= 2 && i + w <= |s|
  {
    if s[i] == '\r' && i + 1 < |s| && s[i + 1] == '\n' then 2 else 1
  }

  /** No line end yet, or one that more text could still turn into CRLF. */
  predicate Undecided(s: string, i: nat, final: bool)
    requires i <= |s|
  {
    i == |s| || (s[i] == '\r' && i == |s| - 1 && !final)
  }

  datatype Cut = Cut(lines: seq<string>, rest: string)

  /** The lines of `s` whose end is certain, and what is left. While more text may
      still arrive a trailing CR is undecided: it may be the first half of CRLF. */
  function CutLines(s: string, final: bool): (c: Cut)
    ensures |c.rest| <= |s|
    decreases |s|
  {
    var i := BreakAt(s);
    if Undecided(s, i, final) then Cut([], s)
    else FirstLine(s[..i], CutLines(s[i + BreakWidth(s, i)..], final))
  }

  function FirstLine(line: string, c: Cut): Cut {
    Cut([line] + c.lines, c.rest)
  }

  /** Cutting goes on with the rest of an earlier cut in front of new text. */
  function Resume(c: Cut, more: string, final: bool): Cut {
    var d := CutLines(c.rest + more, final);
    Cut(c.lines + d.lines, d.rest)
  }

  lemma {:induction false} LineEndInPrefix(a: string, b: string)
    requires !Undecided(a, BreakAt(a), false)
    ensures BreakAt(a + b) == BreakAt(a)
    ensures var i := BreakAt(a);
            var w := BreakWidth(a, i);
            BreakWidth(a + b, i) == w && (a + b)[..i] == a[..i] && (a + b)[i + w..] == a[i + w..] + b
  {
    BreakAtPrefix(a, b);
  }

  lemma ResumeAfterFirstLine(line: string, c: Cut, more: string, final: bool)
    ensures Resume(FirstLine(line, c), more, final) == FirstLine(line, Resume(c, more, final))
  {
    var d := CutLines(c.rest + more, final);
    assert ([line] + c.lines) + d.lines == [line] + (c.lines + d.lines);
  }

  lemma {:induction false} ResumeUndecided(a: string, b: string, final: bool)
    requires Undecided(a, BreakAt(a), false)
    ensures Resume(CutLines(a, false), b, final) == CutLines(a + b, final)
  {
    assert [] + CutLines(a + b, final).lines == CutLines(a + b, final).lines;
  }

  lemma {:induction false} CutLinesFirst(s: string, final: bool)
    requires !Undecided(s, BreakAt(s), final)
    ensures var i := BreakAt(s);
            CutLines(s, final) == FirstLine(s[..i], CutLines(s[i + BreakWidth(s, i)..], final))
  {
  }

  /** Cutting is incremental: the rest of a first piece is all that has to be kept. */
  lemma {:induction false} CutLinesIncremental(a: string, b: string, final: bool)
    ensures CutLines(a + b, final) == Resume(CutLines(a, false), b, final)
    decreases |a|
  {
    hide CutLines, Resume, FirstLine, BreakAt;
    var i := BreakAt(a);
    if Undecided(a, i, false) {
      ResumeUndecided(a, b, final);
    } else {
      var t := a[i + BreakWidth(a, i)..];
      LineEndInPrefix(a, b);
      CutLinesFirst(a, false);
      CutLinesFirst(a + b, final);
      CutLinesIncremental(t, b, final);
      ResumeAfterFirstLine(a[..i], CutLines(t, false), b, final);
    }
  }

  function Concat(parts: seq<string>): string {
    if parts == [] then "" else Concat(parts[..|parts| - 1]) + parts[|parts| - 1]
  }

  lemma {:induction false} ConcatSplit(a: seq<string>, b: seq<string>)
    ensures Concat(a + b) == Concat(a) + Concat(b)
    decreases |b|
  {
    if b == [] {
      assert a + b == a;
    } else {
      var front, last := b[..|b| - 1], b[|b| - 1];
      assert (a + b)[..|a + b| - 1] == a + front;
      ConcatSplit(a, front);
      assert (Concat(a) + Concat(front)) + last == Concat(a) + (Concat(front) + last);
    }
  }

  /** Lines joined by a single LF. */
  function Join(lines: seq<string>): string {
    if lines == [] then ""
    else if |lines| == 1 then lines[0]
    else Join(lines[..|lines| - 1]) + "\n" + lines[|lines| - 1]
  }

  lemma {:induction false} JoinSplit(a: seq<string>, b: seq<string>)
    requires a != [] && b != []
    ensures Join(a + b) == Join(a) + "\n" + Join(b)
    decreases |b|
  {
    assert (a + b)[..|a + b| - 1] == a + b[..|b| - 1];
    if |b| > 1 {
      JoinSplit(a, b[..|b| - 1]);
    } else {
      assert a + b[..|b| - 1] == a;
    }
  }

  lemma {:induction false} JoinNonEmpty(lines: seq<string>)
    requires lines != [] && lines[0] != ""
    ensures Join(lines) != ""
  {
  }

  /** One leading space of a value is not part of it. */
  function StripSpace(v: string): string {
    if v != "" && v[0] == ' ' then v[1..] else v
  }

  function ColonAt(s: string): (i: nat)
    ensures i <= |s|
    ensures ':' !in s[..i]
    ensures i < |s| ==> s[i] == ':'
  {
    if s == "" || s[0] == ':' then 0 else 1 + ColonAt(s[1..])
  }

  predicate IsComment(line: string) {
    line != "" && line[0] == ':'
  }

  function FieldName(line: string): string {
    line[..ColonAt(line)]
  }

  function FieldValue(line: string): string {
    var i := ColonAt(line);
    if i == |line| then "" else StripSpace(line[i + 1..])
  }

  /** The values given to field `name` by `lines`, in order. */
  function FieldValues(lines: seq<string>, name: string): seq<string> {
    if lines == [] then []
    else
      var line := lines[|lines| - 1];
      FieldValues(lines[..|lines| - 1], name) + FieldOf(line, name)
  }

  function FieldOf(line: string, name: string): seq<string> {
    if !IsComment(line) && FieldName(line) == name then [FieldValue(line)] else []
  }

  lemma {:induction false} FieldValuesNext(lines: seq<string>, line: string, name: string)
    ensures FieldValues(lines + [line], name) == FieldValues(lines, name) + FieldOf(line, name)
  {
    assert (lines + [line])[..|lines + [line]| - 1] == lines;
  }

  function Last<T>(s: seq<T>): Option<T> {
    if s == [] then None else Some(s[|s| - 1])
  }

  function GetOr<T>(o: Option<T>, default: T): T {
    match o
    case None => default
    case Some(v) => v
  }

  lemma BlankLineHasNoField(name: string)
    requires name != ""
    ensures FieldOf("", name) == []
  {
    assert FieldName("") == "";
  }

  lemma {:induction false} BlankLineInFront(lines: seq<string>, name: string)
    requires name != ""
    ensures FieldValues([""] + lines, name) == FieldValues(lines, name)
    decreases |lines|
  {
    hide FieldOf;
    var all := [""] + lines;
    if lines == [] {
      assert all[..|all| - 1] == [];
      BlankLineHasNoField(name);
    } else {
      assert all[..|all| - 1] == [""] + lines[..|lines| - 1];
      BlankLineInFront(lines[..|lines| - 1], name);
    }
  }
}
