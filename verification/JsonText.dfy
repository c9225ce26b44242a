// The text that `JSON.stringify` makes of a value, which the archive's digest is taken of
// (apps/daemon/src/archive/tkr-integrity.ts): different values have different texts.

module JsonText {
  import opened Ordering
  import opened JsonValues
  import opened CanonicalJson

  // ------------------------------------------------------------ strings

  function Hex(n: nat): char
    requires n < 16
  {
    "0123456789abcdef"[n]
  }

  function Escape(c: char): string {
    match c
    case '\"' => "\\\""
    case '\\' => "\\\\"
    case '\n' => "\\n"
    case '\r' => "\\r"
    case '\t' => "\\t"
    case '\U{0008}' => "\\b"
    case '\U{000C}' => "\\f"
    case _ => if c < ' ' then "\\u00" + [Hex(c as int / 16), Hex(c as int % 16)] else [c]
  }

  function Escaped(s: string): string {
    if s == "" then "" else Escape(s[0]) + Escaped(s[1..])
  }

  function Quote(s: string): string {
    "\"" + Escaped(s) + "\""
  }

  lemma HexUnique(m: nat, n: nat)
    requires m < 16 && n < 16 && Hex(m) == Hex(n)
    ensures m == n
  {
  }

  predicate Plain(c: char) {
    c >= ' ' && c != '\"' && c != '\\'
  }

  lemma EscapeShape(c: char)
    ensures Plain(c) ==> Escape(c) == [c]
    ensures !Plain(c) ==> |Escape(c)| >= 2 && Escape(c)[0] == '\\'
    ensures !Plain(c) ==> (|Escape(c)| == 2 <==> Escape(c)[1] != 'u') && (|Escape(c)| == 2 || |Escape(c)| == 6)
  {
  }

  lemma EscapeDigits(c: char)
    requires |Escape(c)| == 6
    ensures c as int < 32 && Escape(c)[4] == Hex(c as int / 16) && Escape(c)[5] == Hex(c as int % 16)
  {
  }

  /** No escape is the beginning of another. */
  lemma EscapeUnique(c: char, d: char, x: string, y: string)
    requires Escape(c) + x == Escape(d) + y
    ensures c == d && x == y
  {
    var e, f := Escape(c), Escape(d);
    EscapeShape(c);
    EscapeShape(d);
    assert (e + x)[0] == (f + y)[0] && e[0] == f[0];
    if Plain(c) {
      assert x == (e + x)[1..] && y == (f + y)[1..];
    } else {
      assert (e + x)[1] == e[1] && (f + y)[1] == f[1];
      var n := |e|;
      assert |f| == n;
      assert e == (e + x)[..n] && f == (f + y)[..n] && x == (e + x)[n..] && y == (f + y)[n..];
      SameEscape(c, d);
    }
  }

  lemma SameEscape(c: char, d: char)
    requires Escape(c) == Escape(d)
    ensures c == d
  {
    EscapeShape(c);
    EscapeShape(d);
    if !Plain(c) && |Escape(c)| == 6 {
      EscapeDigits(c);
      EscapeDigits(d);
      HexUnique(c as int / 16, d as int / 16);
      HexUnique(c as int % 16, d as int % 16);
    }
  }

  lemma {:induction false} EscapedUnique(s: string, t: string, x: string, y: string)
    requires Escaped(s) + "\"" + x == Escaped(t) + "\"" + y
    ensures s == t && x == y
  {
    hide Escape;
    if s == "" {
      if t == "" {
        assert x == ("\"" + x)[1..] && y == ("\"" + y)[1..];
        assert Escaped(s) + "\"" + x == "\"" + x && Escaped(t) + "\"" + y == "\"" + y;
      } else {
        QuoteEndsFirst(t, x, y);
      }
    } else if t == "" {
      QuoteEndsFirst(s, y, x);
    } else {
      var u, v := Escaped(s[1..]) + "\"" + x, Escaped(t[1..]) + "\"" + y;
      EscapedFirst(s, x);
      EscapedFirst(t, y);
      EscapeUnique(s[0], t[0], u, v);
      EscapedUnique(s[1..], t[1..], x, y);
      assert s == [s[0]] + s[1..] && t == [t[0]] + t[1..];
    }
  }

  lemma {:induction false} EscapedFirst(s: string, x: string)
    requires s != ""
    ensures Escaped(s) + "\"" + x == Escape(s[0]) + (Escaped(s[1..]) + "\"" + x)
  {
    hide Escape;
    Associative(Escape(s[0]), Escaped(s[1..]), "\"", x);
  }

  lemma Associative(a: string, b: string, c: string, d: string)
    ensures ((a + b) + c) + d == a + ((b + c) + d)
  {
  }

  lemma {:induction false} QuoteEndsFirst(t: string, x: string, y: string)
    requires t != ""
    ensures Escaped("") + "\"" + x != Escaped(t) + "\"" + y
  {
    hide Escape;
    EscapeShape(t[0]);
    assert (Escaped(t) + "\"" + y)[0] == Escape(t[0])[0];
    assert (Escaped("") + "\"" + x)[0] == '\"';
  }

  lemma QuoteUnique(s: string, t: string, x: string, y: string)
    requires Quote(s) + x == Quote(t) + y
    ensures s == t && x == y
  {
    assert Escaped(s) + "\"" + x == (Quote(s) + x)[1..] && Escaped(t) + "\"" + y == (Quote(t) + y)[1..];
    EscapedUnique(s, t, x, y);
  }

  /** What a text between quotes stands for, as section 7 of RFC 8259 has it for what is written
      here; none for a broken escape. */
  function Read(t: string): (s: seq<int>)
    decreases |t|
  {
    if t == "" then []
    else if t[0] != '\\' || |t| < 2 then [t[0] as int] + Read(t[1..])
    else if t[1] == 'u' && |t| >= 6 then
      [((HexValue(t[2]) * 16 + HexValue(t[3])) * 16 + HexValue(t[4])) * 16 + HexValue(t[5])] + Read(t[6..])
    else [Named(t[1])] + Read(t[2..])
  }

  function HexValue(c: char): int {
    if '0' <= c <= '9' then c as int - '0' as int
    else if 'a' <= c <= 'f' then c as int - 'a' as int + 10
    else if 'A' <= c <= 'F' then c as int - 'A' as int + 10
    else -1
  }

  /** What the character after a backslash stands for. */
  function Named(c: char): int {
    match c
    case 'b' => 8
    case 't' => 9
    case 'n' => 10
    case 'f' => 12
    case 'r' => 13
    case _ => c as int
  }

  lemma HexReads(n: nat)
    requires n < 16
    ensures HexValue(Hex(n)) == n && ('0' <= Hex(n) <= '9' || 'a' <= Hex(n) <= 'f')
  {
  }

  lemma {:induction false} EscapeReads(c: char, rest: string)
    ensures Read(Escape(c) + rest) == [c as int] + Read(rest)
  {
    var e := Escape(c);
    EscapeShape(c);
    assert (e + rest)[|e|..] == rest;
    if |e| == 6 {
      HexReads(c as int / 16);
      HexReads(c as int % 16);
      assert e == "\\u00" + [Hex(c as int / 16), Hex(c as int % 16)];
      assert (e + rest)[2] == '0' && (e + rest)[3] == '0';
    } else {
      assert (e + rest)[0] == e[0];
    }
  }

  /** Read back, an escaped string gives its characters. */
  lemma {:induction false} EscapedReads(s: string)
    ensures Read(Escaped(s)) == seq(|s|, i requires 0 <= i < |s| => s[i] as int)
  {
    hide Escape, Read;
    if s == "" {
      NothingRead();
    } else {
      EscapedReads(s[1..]);
      EscapeReads(s[0], Escaped(s[1..]));
    }
  }

  lemma NothingRead()
    ensures Read("") == []
  {
  }

  /** The short escapes are used where there are any, and hexadecimal digits are small letters. */
  lemma EscapeIsShort(c: char)
    ensures |Escape(c)| == 2 <==> c == '\"' || c == '\\' || c as int in {8, 9, 10, 12, 13}
    ensures |Escape(c)| == 6 ==> forall i | 0 <= i < 6 :: !('A' <= Escape(c)[i] <= 'Z')
    ensures |Escape(c)| in {1, 2, 6} && (|Escape(c)| == 6 ==> c < ' ')
  {
    EscapeShape(c);
    if |Escape(c)| == 6 {
      EscapeDigits(c);
      HexReads(c as int / 16);
      HexReads(c as int % 16);
      assert Escape(c) == "\\u00" + [Hex(c as int / 16), Hex(c as int % 16)];
    }
  }

  // ------------------------------------------------------------ values

  /** `number` writes numbers. An array or object lists its parts, each but the first after a
      comma, and then its end. */
  function Stringify(number: real -> string, j: Json): string
    decreases j, 1
  {
    match j
    case Null => "null"
    case Bool(b) => if b then "true" else "false"
    case Number(n) => number(n)
    case Str(s) => Quote(s)
    case Arr(items) => "[" + FirstItem(number, items)
    case Obj(members) => "{" + FirstMember(number, members)
  }

  function FirstItem(number: real -> string, items: seq<Json>): string
    decreases items, 1
  {
    if items == [] then "]" else Stringify(number, items[0]) + MoreItems(number, items[1..])
  }

  function MoreItems(number: real -> string, items: seq<Json>): string
    decreases items, 0
  {
    if items == [] then "]" else "," + Stringify(number, items[0]) + MoreItems(number, items[1..])
  }

  function MemberText(number: real -> string, m: Member): string
    decreases m, 1
  {
    Quote(m.name) + ":" + Stringify(number, m.value)
  }

  function FirstMember(number: real -> string, members: seq<Member>): string
    decreases members, 1
  {
    if members == [] then "}" else MemberText(number, members[0]) + MoreMembers(number, members[1..])
  }

  function MoreMembers(number: real -> string, members: seq<Member>): string
    decreases members, 0
  {
    if members == [] then "}" else "," + MemberText(number, members[0]) + MoreMembers(number, members[1..])
  }

  predicate NumberChar(c: char) {
    c in "+-.0123456789Ee"
  }

  predicate NumberText(s: string) {
    s != "" && forall k | 0 <= k < |s| :: NumberChar(s[k])
  }

  /** The numbers in question are written in the characters of numbers, each in its own way. */
  ghost predicate Writes(number: real -> string, good: real -> bool) {
    && (forall n | good(n) :: NumberText(number(n)))
    && (forall m, n | good(m) && good(n) && number(m) == number(n) :: m == n)
  }

  predicate AllGood(good: real -> bool, j: Json) {
    match j
    case Number(n) => good(n)
    case Arr(items) => forall i | 0 <= i < |items| :: AllGood(good, items[i])
    case Obj(members) => forall i | 0 <= i < |members| :: AllGood(good, members[i].value)
    case _ => true
  }

  /** What may follow a value. */
  predicate Ends(x: string) {
    x == "" || x[0] == ',' || x[0] == ']' || x[0] == '}'
  }

  datatype Shape = NullShape | BoolShape | NumberShape | StrShape | ArrShape | ObjShape | NoShape

  function ShapeOf(j: Json): Shape {
    match j
    case Null => NullShape
    case Bool(_) => BoolShape
    case Number(_) => NumberShape
    case Str(_) => StrShape
    case Arr(_) => ArrShape
    case Obj(_) => ObjShape
  }

  function ShapeAt(c: char): Shape {
    if c == 'n' then NullShape
    else if c == 't' || c == 'f' then BoolShape
    else if NumberChar(c) then NumberShape
    else if c == '\"' then StrShape
    else if c == '[' then ArrShape
    else if c == '{' then ObjShape
    else NoShape
  }

  /** The first character tells what a text is of. */
  lemma {:induction false} FirstCharacter(number: real -> string, good: real -> bool, j: Json, x: string)
    requires Writes(number, good) && AllGood(good, j)
    ensures var t := Stringify(number, j) + x; t != "" && ShapeAt(t[0]) == ShapeOf(j) != NoShape
  {
    hide FirstItem, FirstMember, Escaped;
    var t := Stringify(number, j);
    assert t != "" && (t + x)[0] == t[0];
  }

  lemma Drop(a: string, b: string, x: string, y: string)
    requires |a| == |b| && a + x == b + y
    ensures a == b && x == y
  {
    assert a == (a + x)[..|a|] && b == (b + y)[..|a|];
    assert x == (a + x)[|a|..] && y == (b + y)[|a|..];
  }

  lemma NumberUnique(s: string, t: string, x: string, y: string)
    requires NumberText(s) && NumberText(t) && Ends(x) && Ends(y) && s + x == t + y
    ensures s == t && x == y
  {
    hide NumberText, Ends;
    NumberStops(s, x, t, y);
    NumberStops(t, y, s, x);
    Drop(s, t, x, y);
  }

  lemma NumberStops(s: string, x: string, t: string, y: string)
    requires NumberText(t) && Ends(x)
    ensures |s| < |t| ==> s + x != t + y
  {
    if |s| < |t| && x != "" {
      assert (t + y)[|s|] == t[|s|] && (s + x)[|s|] == x[0];
    }
  }

  lemma {:induction false} MoreEnds(number: real -> string, items: seq<Json>, members: seq<Member>, x: string)
    ensures Ends(MoreItems(number, items) + x) && Ends(MoreMembers(number, members) + x)
    ensures (MoreItems(number, items) + x)[..1] == (if items == [] then "]" else ",")
    ensures (MoreMembers(number, members) + x)[..1] == (if members == [] then "}" else ",")
  {
    hide Stringify, MemberText;
    assert (MoreItems(number, items) + x)[0] == MoreItems(number, items)[0];
    assert (MoreMembers(number, members) + x)[0] == MoreMembers(number, members)[0];
  }

  /** No text of a value is the beginning of another where a value may end. */
  lemma {:induction false} ValueUnique(number: real -> string, good: real -> bool, a: Json, b: Json, x: string, y: string)
    requires Writes(number, good) && AllGood(good, a) && AllGood(good, b) && Ends(x) && Ends(y)
    requires Stringify(number, a) + x == Stringify(number, b) + y
    ensures a == b && x == y
    decreases a, 1
  {
    hide Writes, NumberText, FirstItem, FirstMember, Quote, Ends, MoreItems, MoreMembers;
    FirstCharacter(number, good, a, x);
    FirstCharacter(number, good, b, y);
    assert ShapeOf(a) == ShapeOf(b);
    match (a, b) {
      case (Null, Null) => Drop("null", "null", x, y);
      case (Bool(p), Bool(q)) =>
        assert (Stringify(number, a) + x)[0] == (if p then 't' else 'f') && (Stringify(number, b) + y)[0] == (if q then 't' else 'f');
        Drop(Stringify(number, a), Stringify(number, b), x, y);
      case (Number(m), Number(n)) =>
        NumbersWritten(number, good, m, n);
        NumberUnique(number(m), number(n), x, y);
      case (Str(s), Str(t)) => QuoteUnique(s, t, x, y);
      case (Arr(p), Arr(q)) =>
        AfterBracket("[", FirstItem(number, p), x, FirstItem(number, q), y);
        FirstItemUnique(number, good, p, q, x, y);
      case (Obj(p), Obj(q)) =>
        AfterBracket("{", FirstMember(number, p), x, FirstMember(number, q), y);
        FirstMemberUnique(number, good, p, q, x, y);
      case _ => assert false;
    }
  }

  lemma NumbersWritten(number: real -> string, good: real -> bool, m: real, n: real)
    requires Writes(number, good) && good(m) && good(n)
    ensures NumberText(number(m)) && NumberText(number(n)) && (number(m) == number(n) ==> m == n)
  {
  }

  lemma AfterBracket(bracket: string, s: string, x: string, t: string, y: string)
    requires (bracket + s) + x == (bracket + t) + y
    ensures s + x == t + y
  {
    assert (bracket + s) + x == bracket + (s + x) && (bracket + t) + y == bracket + (t + y);
    Drop(bracket, bracket, s + x, t + y);
  }

  lemma {:induction false} FirstItemUnique(number: real -> string, good: real -> bool, a: seq<Json>, b: seq<Json>, x: string, y: string)
    requires Writes(number, good) && AllGood(good, Arr(a)) && AllGood(good, Arr(b))
    requires FirstItem(number, a) + x == FirstItem(number, b) + y
    ensures a == b && x == y
    decreases a, 1
  {
    hide Stringify, MoreItems, Writes;
    if a == [] && b == [] {
      Drop("]", "]", x, y);
    } else if a == [] {
      NotClosed(number, good, b[0], MoreItems(number, b[1..]), x, y);
    } else if b == [] {
      NotClosed(number, good, a[0], MoreItems(number, a[1..]), y, x);
    } else {
      ItemUnique(number, good, a, b, x, y);
    }
  }

  lemma {:induction false} NotClosed(number: real -> string, good: real -> bool, j: Json, more: string, x: string, y: string)
    requires Writes(number, good) && AllGood(good, j)
    ensures "]" + x != (Stringify(number, j) + more) + y
  {
    hide Stringify, Writes;
    FirstCharacter(number, good, j, more + y);
    assert (Stringify(number, j) + more) + y == Stringify(number, j) + (more + y);
    assert ("]" + x)[0] == ']';
  }

  lemma {:induction false} ItemUnique(number: real -> string, good: real -> bool, a: seq<Json>, b: seq<Json>, x: string, y: string)
    requires Writes(number, good) && AllGood(good, Arr(a)) && AllGood(good, Arr(b)) && a != [] && b != []
    requires (Stringify(number, a[0]) + MoreItems(number, a[1..])) + x == (Stringify(number, b[0]) + MoreItems(number, b[1..])) + y
    ensures a == b && x == y
    decreases a, 0
  {
    hide Stringify, MoreItems, MoreMembers, Writes, Ends;
    var u, v := MoreItems(number, a[1..]) + x, MoreItems(number, b[1..]) + y;
    assert (Stringify(number, a[0]) + MoreItems(number, a[1..])) + x == Stringify(number, a[0]) + u;
    assert (Stringify(number, b[0]) + MoreItems(number, b[1..])) + y == Stringify(number, b[0]) + v;
    MoreEnds(number, a[1..], [], x);
    MoreEnds(number, b[1..], [], y);
    ValueUnique(number, good, a[0], b[0], u, v);
    MoreItemsUnique(number, good, a[1..], b[1..], x, y);
    assert a == [a[0]] + a[1..] && b == [b[0]] + b[1..];
  }

  lemma {:induction false} MoreItemsUnique(number: real -> string, good: real -> bool, a: seq<Json>, b: seq<Json>, x: string, y: string)
    requires Writes(number, good) && AllGood(good, Arr(a)) && AllGood(good, Arr(b))
    requires MoreItems(number, a) + x == MoreItems(number, b) + y
    ensures a == b && x == y
    decreases a, 1
  {
    hide Stringify, MoreMembers, Writes;
    MoreEnds(number, a, [], x);
    MoreEnds(number, b, [], y);
    if a == [] || b == [] {
      assert a == [] && b == [];
      Drop("]", "]", x, y);
    } else {
      Comma(Stringify(number, a[0]), MoreItems(number, a[1..]), x);
      Comma(Stringify(number, b[0]), MoreItems(number, b[1..]), y);
      Drop(",", ",", (Stringify(number, a[0]) + MoreItems(number, a[1..])) + x, (Stringify(number, b[0]) + MoreItems(number, b[1..])) + y);
      ItemUnique(number, good, a, b, x, y);
    }
  }

  lemma Comma(s: string, more: string, x: string)
    ensures (("," + s) + more) + x == "," + ((s + more) + x)
  {
  }

  lemma {:induction false} FirstMemberUnique(number: real -> string, good: real -> bool, a: seq<Member>, b: seq<Member>, x: string, y: string)
    requires Writes(number, good) && AllGood(good, Obj(a)) && AllGood(good, Obj(b))
    requires FirstMember(number, a) + x == FirstMember(number, b) + y
    ensures a == b && x == y
    decreases a, 1
  {
    hide Stringify, MoreMembers, Writes, Quote;
    if a == [] && b == [] {
      Drop("}", "}", x, y);
    } else if a == [] {
      NotEmpty(number, b[0], MoreMembers(number, b[1..]), x, y);
    } else if b == [] {
      NotEmpty(number, a[0], MoreMembers(number, a[1..]), y, x);
    } else {
      MemberUnique(number, good, a, b, x, y);
    }
  }

  lemma {:induction false} NotEmpty(number: real -> string, m: Member, more: string, x: string, y: string)
    ensures "}" + x != (MemberText(number, m) + more) + y
  {
    hide Stringify, Escaped;
    assert ((MemberText(number, m) + more) + y)[0] == MemberText(number, m)[0] == '\"';
    assert ("}" + x)[0] == '}';
  }

  lemma {:induction false} MemberParts(number: real -> string, m: Member, more: string, x: string)
    ensures (MemberText(number, m) + more) + x == Quote(m.name) + (":" + (Stringify(number, m.value) + (more + x)))
  {
    hide Stringify, Quote;
  }

  lemma {:induction false} MemberUnique(number: real -> string, good: real -> bool, a: seq<Member>, b: seq<Member>, x: string, y: string)
    requires Writes(number, good) && AllGood(good, Obj(a)) && AllGood(good, Obj(b)) && a != [] && b != []
    requires (MemberText(number, a[0]) + MoreMembers(number, a[1..])) + x == (MemberText(number, b[0]) + MoreMembers(number, b[1..])) + y
    ensures a == b && x == y
    decreases a, 0
  {
    hide Stringify, MoreMembers, MoreItems, MemberText, Quote, Writes, Ends;
    var u, v := MoreMembers(number, a[1..]) + x, MoreMembers(number, b[1..]) + y;
    MemberParts(number, a[0], MoreMembers(number, a[1..]), x);
    MemberParts(number, b[0], MoreMembers(number, b[1..]), y);
    QuoteUnique(a[0].name, b[0].name, ":" + (Stringify(number, a[0].value) + u), ":" + (Stringify(number, b[0].value) + v));
    Drop(":", ":", Stringify(number, a[0].value) + u, Stringify(number, b[0].value) + v);
    MoreEnds(number, [], a[1..], x);
    MoreEnds(number, [], b[1..], y);
    ValueUnique(number, good, a[0].value, b[0].value, u, v);
    MoreMembersUnique(number, good, a[1..], b[1..], x, y);
    assert a == [a[0]] + a[1..] && b == [b[0]] + b[1..];
  }

  lemma {:induction false} MoreMembersUnique(number: real -> string, good: real -> bool, a: seq<Member>, b: seq<Member>, x: string, y: string)
    requires Writes(number, good) && AllGood(good, Obj(a)) && AllGood(good, Obj(b))
    requires MoreMembers(number, a) + x == MoreMembers(number, b) + y
    ensures a == b && x == y
    decreases a, 1
  {
    hide Stringify, MemberText, MoreItems, Writes;
    MoreEnds(number, [], a, x);
    MoreEnds(number, [], b, y);
    if a == [] || b == [] {
      assert a == [] && b == [];
      Drop("}", "}", x, y);
    } else {
      Comma(MemberText(number, a[0]), MoreMembers(number, a[1..]), x);
      Comma(MemberText(number, b[0]), MoreMembers(number, b[1..]), y);
      Drop(",", ",", (MemberText(number, a[0]) + MoreMembers(number, a[1..])) + x, (MemberText(number, b[0]) + MoreMembers(number, b[1..])) + y);
      MemberUnique(number, good, a, b, x, y);
    }
  }

  // ------------------------------------------------------------ canonical text

  lemma {:induction false} NormalizeKeepsNumbers(good: real -> bool, j: Json)
    requires AllGood(good, j)
    ensures AllGood(good, Normalize(j))
    decreases j
  {
    match j {
      case Arr(items) =>
        forall i | 0 <= i < |items| ensures AllGood(good, Normalize(items[i])) {
          NormalizeKeepsNumbers(good, items[i]);
        }
      case Obj(members) =>
        forall i | 0 <= i < |members| ensures AllGood(good, NormalMembers(members)[i].value) {
          NormalizeKeepsNumbers(good, members[i].value);
        }
        SortedKeepNumbers(good, NormalMembers(members));
      case _ =>
    }
  }

  lemma {:induction false} SortedKeepNumbers(good: real -> bool, members: seq<Member>)
    requires AllGood(good, Obj(members))
    ensures AllGood(good, Obj(Sort(members, ByName)))
  {
    hide Sort, ByName, AllGood;
    ByNameOrder();
    SortSorts(members, ByName);
    var sorted := Sort(members, ByName);
    forall i | 0 <= i < |sorted| ensures AllGood(good, sorted[i].value) {
      assert sorted[i] in multiset(sorted) && sorted[i] in members;
      var k :| 0 <= k < |members| && members[k] == sorted[i];
      PartsAreGood(good, members, k);
    }
    GoodParts(good, sorted);
  }

  lemma PartsAreGood(good: real -> bool, members: seq<Member>, k: nat)
    requires AllGood(good, Obj(members)) && k < |members|
    ensures AllGood(good, members[k].value)
  {
  }

  lemma GoodParts(good: real -> bool, members: seq<Member>)
    requires forall i | 0 <= i < |members| :: AllGood(good, members[i].value)
    ensures AllGood(good, Obj(members))
  {
  }

  /** What the digest is taken of is the same for two values if and only if they are the same up
      to the order of members: serialization tells all other values apart. */
  lemma {:induction false} CanonicalTextIsExact(number: real -> string, good: real -> bool, a: Json, b: Json)
    requires Writes(number, good) && AllGood(good, a) && AllGood(good, b)
    requires DistinctNames(a) && DistinctNames(b)
    ensures var stringify := j => Stringify(number, j);
            CanonicalText(stringify, a) == CanonicalText(stringify, b) <==> SameValue(a, b)
  {
    hide Stringify, Normalize, SameValue, Writes, AllGood, DistinctNames;
    NormalizeDecides(a, b);
    NormalizeKeepsNumbers(good, a);
    NormalizeKeepsNumbers(good, b);
    var s, t := Stringify(number, Normalize(a)), Stringify(number, Normalize(b));
    if s == t {
      assert s + "" == t + "";
      ValueUnique(number, good, Normalize(a), Normalize(b), "", "");
    }
  }
}
