// The archive's encodings (apps/daemon/src/archive/tkr-integrity.ts): canonical base64,
// canonical JSON, and the check of an archive against its manifest.

/** Sections 4 and 3.5 of RFC 4648. */
module Base64 {
  type Byte = b: int | 0 <= b < 256

  type Sextet = n: int | 0 <= n < 64

  function Letter(n: Sextet): char {
    if n < 26 then ('A' as int + n) as char
    else if n < 52 then ('a' as int + n - 26) as char
    else if n < 62 then ('0' as int + n - 52) as char
    else if n == 62 then '+'
    else '/'
  }

  predicate IsLetter(c: char) {
    'A' <= c <= 'Z' || 'a' <= c <= 'z' || '0' <= c <= '9' || c == '+' || c == '/'
  }

  function Value(c: char): Sextet
    requires IsLetter(c)
  {
    if 'A' <= c <= 'Z' then c as int - 'A' as int
    else if 'a' <= c <= 'z' then c as int - 'a' as int + 26
    else if '0' <= c <= '9' then c as int - '0' as int + 52
    else if c == '+' then 62
    else 63
  }

  lemma LetterValue(n: Sextet)
    ensures IsLetter(Letter(n)) && Value(Letter(n)) == n && Letter(n) != '='
  {
  }

  lemma ValueLetter(c: char)
    requires IsLetter(c)
    ensures Letter(Value(c)) == c
  {
  }

  /** Three bytes give four letters; one or two bytes at the end are padded. */
  function Encode(b: seq<Byte>): string {
    if |b| == 0 then ""
    else if |b| == 1 then [Letter(b[0] / 4), Letter(b[0] % 4 * 16), '=', '=']
    else if |b| == 2 then [Letter(b[0] / 4), Letter(b[0] % 4 * 16 + b[1] / 16), Letter(b[1] % 16 * 4), '=']
    else Quad(b[0], b[1], b[2]) + Encode(b[3..])
  }

  function Quad(x: Byte, y: Byte, z: Byte): (q: string)
    ensures |q| == 4
  {
    [Letter(x / 4), Letter(x % 4 * 16 + y / 16), Letter(y % 16 * 4 + z / 64), Letter(z % 64)]
  }

  predicate AllLetters(s: string) {
    forall i | 0 <= i < |s| :: IsLetter(s[i])
  }

  /** Whole quads, padding only at the very end, and pad bits that are zero. */
  predicate Canonical(s: string) {
    || s == ""
    || (|s| == 4 && s[2..] == "==" && AllLetters(s[..2]) && Value(s[1]) % 16 == 0)
    || (|s| == 4 && s[3] == '=' && AllLetters(s[..3]) && Value(s[2]) % 4 == 0)
    || (|s| >= 4 && AllLetters(s[..4]) && Canonical(s[4..]))
  }

  function Decode(s: string): seq<Byte>
    requires Canonical(s)
  {
    if s == "" then []
    else if s[2] == '=' then [Value(s[0]) * 4 + Value(s[1]) / 16]
    else if s[3] == '=' then
      [Value(s[0]) * 4 + Value(s[1]) / 16, Value(s[1]) % 16 * 16 + Value(s[2]) / 4]
    else
      [Value(s[0]) * 4 + Value(s[1]) / 16, Value(s[1]) % 16 * 16 + Value(s[2]) / 4, Value(s[2]) % 4 * 64 + Value(s[3])]
      + Decode(s[4..])
  }

  lemma QuadLetters(x: Byte, y: Byte, z: Byte)
    ensures var q := Quad(x, y, z);
            && AllLetters(q) && q[2] != '=' && q[3] != '='
            && Value(q[0]) * 4 + Value(q[1]) / 16 == x
            && Value(q[1]) % 16 * 16 + Value(q[2]) / 4 == y
            && Value(q[2]) % 4 * 64 + Value(q[3]) == z
  {
    hide Letter, Value, IsLetter;
    LetterValue(x / 4);
    LetterValue(x % 4 * 16 + y / 16);
    LetterValue(y % 16 * 4 + z / 64);
    LetterValue(z % 64);
  }

  lemma PadIsNoLetter()
    ensures !IsLetter('=')
  {
  }

  lemma EncodingOfOne(x: Byte)
    ensures Canonical(Encode([x])) && Decode(Encode([x])) == [x]
  {
    hide Letter, Value, IsLetter, Quad;
    PadIsNoLetter();
    LetterValue(x / 4);
    LetterValue(x % 4 * 16);
  }

  lemma EncodingOfTwo(x: Byte, y: Byte)
    ensures Canonical(Encode([x, y])) && Decode(Encode([x, y])) == [x, y]
  {
    hide Letter, Value, IsLetter, Quad;
    PadIsNoLetter();
    LetterValue(x / 4);
    LetterValue(x % 4 * 16 + y / 16);
    LetterValue(y % 16 * 4);
    assert Encode([x, y]) == [Letter(x / 4), Letter(x % 4 * 16 + y / 16), Letter(y % 16 * 4), '='];
  }

  lemma {:induction false} QuadInFront(x: Byte, y: Byte, z: Byte, rest: string)
    requires Canonical(rest)
    ensures var s := Quad(x, y, z) + rest; Canonical(s) && Decode(s) == [x, y, z] + Decode(rest)
  {
    hide Letter, Value, IsLetter, Quad;
    QuadLetters(x, y, z);
    var s := Quad(x, y, z) + rest;
    assert s[..4] == Quad(x, y, z) && s[4..] == rest;
  }

  lemma {:induction false} EncodingIsCanonical(b: seq<Byte>)
    ensures Canonical(Encode(b)) && Decode(Encode(b)) == b
  {
    hide Letter, Value, IsLetter, Quad, Canonical, Decode;
    if |b| == 0 {
      EmptyIsCanonical();
    } else if |b| == 1 {
      EncodingOfOne(b[0]);
      assert b == [b[0]];
    } else if |b| == 2 {
      EncodingOfTwo(b[0], b[1]);
      assert b == [b[0], b[1]];
    } else {
      EncodingIsCanonical(b[3..]);
      QuadInFront(b[0], b[1], b[2], Encode(b[3..]));
      assert b == [b[0], b[1], b[2]] + b[3..];
    }
  }

  lemma EmptyIsCanonical()
    ensures Canonical("") && Decode("") == []
  {
  }

  lemma ValuesQuad(a: Sextet, b: Sextet, c: Sextet, d: Sextet)
    ensures Quad(a * 4 + b / 16, b % 16 * 16 + c / 4, c % 4 * 64 + d) == [Letter(a), Letter(b), Letter(c), Letter(d)]
  {
    hide Letter;
    var x, y, z := a * 4 + b / 16, b % 16 * 16 + c / 4, c % 4 * 64 + d;
    assert x / 4 == a && x % 4 == b / 16 && y / 16 == b % 16 && y % 16 == c / 4 && z / 64 == c % 4 && z % 64 == d;
  }

  lemma PadBits(a: Sextet, b: Sextet, c: Sextet)
    ensures var x, y := a * 4 + b / 16, b % 16 * 16 + c / 4;
            && x / 4 == a && (b % 16 == 0 ==> x % 4 * 16 == b)
            && x % 4 * 16 + y / 16 == b && (c % 4 == 0 ==> y % 16 * 4 == c)
  {
    var x, y := a * 4 + b / 16, b % 16 * 16 + c / 4;
    assert x / 4 == a && x % 4 == b / 16 && y / 16 == b % 16 && y % 16 == c / 4;
  }

  lemma {:induction false} CanonicalIsEncoding(s: string)
    requires Canonical(s)
    ensures Encode(Decode(s)) == s
  {
    hide Letter, Value, IsLetter, Quad;
    if s != "" {
      PadIsNoLetter();
      ValueLetter(s[0]);
      ValueLetter(s[1]);
      if s[2] == '=' {
        assert s == [s[0], s[1], '=', '='];
        PadBits(Value(s[0]), Value(s[1]), 0);
      } else if s[3] == '=' {
        ValueLetter(s[2]);
        assert s == [s[0], s[1], s[2], '='];
        PadBits(Value(s[0]), Value(s[1]), Value(s[2]));
      } else {
        ValueLetter(s[2]);
        ValueLetter(s[3]);
        ValuesQuad(Value(s[0]), Value(s[1]), Value(s[2]), Value(s[3]));
        CanonicalIsEncoding(s[4..]);
        assert s == [s[0], s[1], s[2], s[3]] + s[4..];
      }
    }
  }

  /** A decoder as lenient as it likes that undoes the encoding. */
  ghost predicate Undoes(decode: string -> seq<Byte>) {
    forall b :: decode(Encode(b)) == b
  }

  datatype Checked = Refused | Accepted(bytes: seq<Byte>)

  function CanonicalBase64(decode: string -> seq<Byte>, value: string): Checked {
    var bytes := decode(value);
    if Encode(bytes) != value then Refused else Accepted(bytes)
  }

  /** Encoding again and comparing accepts exactly the canonical encodings. */
  lemma {:induction false} AcceptsExactlyCanonical(decode: string -> seq<Byte>, value: string)
    requires Undoes(decode)
    ensures CanonicalBase64(decode, value) == if Canonical(value) then Accepted(Decode(value)) else Refused
  {
    hide Canonical, Encode, Decode;
    if Canonical(value) {
      CanonicalIsEncoding(value);
      assert decode(Encode(Decode(value))) == Decode(value);
    } else {
      EncodingIsCanonical(decode(value));
    }
  }
}

module CanonicalJson {
  import opened Ordering
  import opened JsonValues

  predicate ByName(a: Member, b: Member) {
    StringLe(a.name, b.name)
  }

  /** Members sorted by name, at every depth. */
  function Normalize(j: Json): Json
    decreases j, 1
  {
    match j
    case Arr(items) => Arr(seq(|items|, i requires 0 <= i < |items| => Normalize(items[i])))
    case Obj(members) => Obj(Sort(NormalMembers(members), ByName))
    case _ => j
  }

  function NormalMembers(members: seq<Member>): (r: seq<Member>)
    ensures |r| == |members|
    decreases members, 0
  {
    seq(|members|, i requires 0 <= i < |members| => NormalMember(members[i]))
  }

  function NormalMember(m: Member): Member
    decreases m, 0
  {
    Member(m.name, Normalize(m.value))
  }

  predicate Named(members: seq<Member>) {
    forall i, k | 0 <= i < k < |members| :: members[i].name != members[k].name
  }

  /** Names are distinct in every object. */
  predicate DistinctNames(j: Json) {
    match j
    case Arr(items) => forall i | 0 <= i < |items| :: DistinctNames(items[i])
    case Obj(members) => Named(members) && forall i | 0 <= i < |members| :: DistinctNames(members[i].value)
    case _ => true
  }

  function Find(members: seq<Member>, name: string): (i: nat)
    ensures i <= |members|
    ensures i < |members| ==> members[i].name == name
    ensures forall k | 0 <= k < i :: members[k].name != name
  {
    if members == [] || members[0].name == name then 0 else 1 + Find(members[1..], name)
  }

  /** The same value, whatever the order of members. */
  predicate SameValue(a: Json, b: Json)
    decreases a
  {
    match (a, b)
    case (Arr(x), Arr(y)) => |x| == |y| && forall i | 0 <= i < |x| :: SameValue(x[i], y[i])
    case (Obj(x), Obj(y)) =>
      |x| == |y| && forall i | 0 <= i < |x| ::
        Find(y, x[i].name) < |y| && SameValue(x[i].value, y[Find(y, x[i].name)].value)
    case _ => a == b
  }

  lemma ByNameOrder()
    ensures TotalPreorder(ByName)
  {
    hide StringLe;
    forall a, b ensures ByName(a, b) || ByName(b, a) {
      StringLeTotal(a.name, b.name);
    }
    forall a, b, c | ByName(a, b) && ByName(b, c) ensures ByName(a, c) {
      StringLeTransitive(a.name, b.name, c.name);
    }
  }

  lemma {:induction false} NormalAt(members: seq<Member>, i: nat)
    requires i < |members|
    ensures NormalMembers(members)[i] == NormalMember(members[i]) && NormalMembers(members)[i].name == members[i].name
  {
    hide Normalize;
  }

  lemma {:induction false} NormalNames(members: seq<Member>)
    requires Named(members)
    ensures NoDuplicates(NormalMembers(members))
    ensures forall a, b | a in NormalMembers(members) && b in NormalMembers(members) && a.name == b.name :: a == b
  {
    hide NormalMembers, NormalMember;
    var n := NormalMembers(members);
    forall i | 0 <= i < |n| ensures n[i].name == members[i].name {
      NormalAt(members, i);
    }
  }

  /** Sorted lists are equal when they have the same members, and only then. */
  lemma {:induction false} SortedMembers(x: seq<Member>, y: seq<Member>)
    requires Named(x) && Named(y)
    ensures Sort(NormalMembers(x), ByName) == Sort(NormalMembers(y), ByName)
       <==> SameSet(NormalMembers(x), NormalMembers(y))
  {
    hide Sort, StringLe, NormalMembers;
    var a, b := NormalMembers(x), NormalMembers(y);
    ByNameOrder();
    SortSorts(a, ByName);
    SortSorts(b, ByName);
    NormalNames(x);
    NormalNames(y);
    if Sort(a, ByName) == Sort(b, ByName) {
      forall m ensures m in a <==> m in b {
        assert m in multiset(a) <==> m in multiset(b);
      }
    } else if SameSet(a, b) {
      SameElementsSameMultiset(a, b);
      forall m, n | m in multiset(Sort(a, ByName)) && n in multiset(Sort(a, ByName)) && ByName(m, n) && ByName(n, m) ensures m == n {
        StringLeAntisymmetric(m.name, n.name);
        assert m in a && n in a;
      }
      SortedOnce(Sort(a, ByName), Sort(b, ByName), ByName);
    }
  }

  ghost predicate SameSet(a: seq<Member>, b: seq<Member>) {
    forall m :: m in a <==> m in b
  }

  /** Normalized, the members of `x` are found in `y` under their names. */
  ghost predicate AllFound(x: seq<Member>, y: seq<Member>) {
    |x| == |y| && forall i | 0 <= i < |x| ::
      Find(y, x[i].name) < |y| && NormalMember(x[i]) == NormalMember(y[Find(y, x[i].name)])
  }

  lemma {:induction false} FoundGivesSet(x: seq<Member>, y: seq<Member>)
    requires Named(x) && Named(y) && AllFound(x, y)
    ensures SameSet(NormalMembers(x), NormalMembers(y))
  {
    hide NormalMember, NormalMembers, Find;
    var a, b := NormalMembers(x), NormalMembers(y);
    forall i | 0 <= i < |a| ensures a[i] in b {
      NormalAt(x, i);
      NormalAt(y, Find(y, x[i].name));
    }
    NormalNames(x);
    NormalNames(y);
    SameSize(a, b);
  }

  lemma SameSize(a: seq<Member>, b: seq<Member>)
    requires NoDuplicates(a) && NoDuplicates(b) && |a| == |b| && forall i | 0 <= i < |a| :: a[i] in b
    ensures SameSet(a, b)
  {
    DistinctCounts(a);
    DistinctCounts(b);
    assert multiset(a) <= multiset(b);
    var rest := multiset(b) - multiset(a);
    assert |rest| == |b| - |a| == 0 && multiset(b) == multiset(a) + rest;
    forall m ensures m in a <==> m in b {
      assert m in multiset(a) <==> m in multiset(b);
    }
  }

  lemma {:induction false} SetGivesFound(x: seq<Member>, y: seq<Member>)
    requires Named(x) && Named(y) && SameSet(NormalMembers(x), NormalMembers(y))
    ensures AllFound(x, y)
  {
    hide NormalMember, NormalMembers, Find;
    var a, b := NormalMembers(x), NormalMembers(y);
    NormalNames(x);
    NormalNames(y);
    SameElementsSameMultiset(a, b);
    assert |multiset(a)| == |a| && |multiset(b)| == |b|;
    forall i | 0 <= i < |x| ensures Find(y, x[i].name) < |y| && NormalMember(x[i]) == NormalMember(y[Find(y, x[i].name)]) {
      NormalAt(x, i);
      assert a[i] in b;
      var k :| 0 <= k < |b| && b[k] == a[i];
      NormalAt(y, k);
      assert Find(y, x[i].name) == k;
    }
  }

  lemma {:induction false} MembersAgree(x: seq<Member>, y: seq<Member>)
    requires Named(x) && Named(y)
    requires forall i, k | 0 <= i < |x| && 0 <= k < |y| ::
               SameValue(x[i].value, y[k].value) <==> Normalize(x[i].value) == Normalize(y[k].value)
    ensures SameValue(Obj(x), Obj(y)) <==> SameSet(NormalMembers(x), NormalMembers(y))
  {
    hide Normalize, NormalMembers, Find, SameSet;
    assert SameValue(Obj(x), Obj(y)) <==> AllFound(x, y);
    if AllFound(x, y) {
      FoundGivesSet(x, y);
    }
    if SameSet(NormalMembers(x), NormalMembers(y)) {
      SetGivesFound(x, y);
    }
  }

  lemma ItemsAgree(x: seq<Json>, y: seq<Json>)
    requires forall i | 0 <= i < |x| && i < |y| :: SameValue(x[i], y[i]) <==> Normalize(x[i]) == Normalize(y[i])
    ensures SameValue(Arr(x), Arr(y)) <==> Normalize(Arr(x)) == Normalize(Arr(y))
  {
    if Normalize(Arr(x)) == Normalize(Arr(y)) {
      var a, b := Normalize(Arr(x)).items, Normalize(Arr(y)).items;
      assert |a| == |x| && |b| == |y|;
      forall i | 0 <= i < |x| ensures SameValue(x[i], y[i]) {
        assert a[i] == Normalize(x[i]) && b[i] == Normalize(y[i]);
      }
    }
  }

  /** Two values normalize alike exactly when they are the same up to the order of members. */
  lemma {:induction false} NormalizeDecides(a: Json, b: Json)
    requires DistinctNames(a) && DistinctNames(b)
    ensures SameValue(a, b) <==> Normalize(a) == Normalize(b)
    decreases a
  {
    match (a, b) {
      case (Arr(x), Arr(y)) =>
        forall i | 0 <= i < |x| && i < |y| ensures SameValue(x[i], y[i]) <==> Normalize(x[i]) == Normalize(y[i]) {
          NormalizeDecides(x[i], y[i]);
        }
        ItemsAgree(x, y);
      case (Obj(x), Obj(y)) =>
        forall i, k | 0 <= i < |x| && 0 <= k < |y|
          ensures SameValue(x[i].value, y[k].value) <==> Normalize(x[i].value) == Normalize(y[k].value)
        {
          NormalizeDecides(x[i].value, y[k].value);
        }
        MembersAgree(x, y);
        SortedMembers(x, y);
      case _ => OthersAgree(a, b);
    }
  }

  lemma {:induction false} OthersAgree(a: Json, b: Json)
    requires !(a.Arr? && b.Arr?) && !(a.Obj? && b.Obj?)
    ensures SameValue(a, b) <==> Normalize(a) == Normalize(b)
  {
  }

  function CanonicalText(stringify: Json -> string, j: Json): string {
    stringify(Normalize(j))
  }

  /** The digest input does not depend on the order of keys, and it tells two values that differ
      in more apart as soon as serialization tells their two normal forms apart. */
  lemma {:induction false} CanonicalTextDecides(stringify: Json -> string, a: Json, b: Json)
    requires DistinctNames(a) && DistinctNames(b)
    ensures SameValue(a, b) ==> CanonicalText(stringify, a) == CanonicalText(stringify, b)
    ensures (stringify(Normalize(a)) == stringify(Normalize(b)) ==> Normalize(a) == Normalize(b)) ==>
              (CanonicalText(stringify, a) == CanonicalText(stringify, b) <==> SameValue(a, b))
  {
    hide SameValue, Normalize;
    NormalizeDecides(a, b);
  }
}