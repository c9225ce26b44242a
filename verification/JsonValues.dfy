// JSON values as `JSON.parse` gives them. Members keep their order; names are distinct.

module JsonValues {
  import opened Wrappers

  datatype Member = Member(name: string, value: Json)

  datatype Json =
    | Null
    | Bool(b: bool)
    | Number(n: real)
    | Str(s: string)
    | Arr(items: seq<Json>)
    | Obj(members: seq<Member>)

  /** `JSON.parse`: nothing when the text is not JSON. */
  type Parser = string -> Option<Json>

  function Lookup(members: seq<Member>, name: string): Option<Json> {
    if members == [] then None
    else if members[0].name == name then Some(members[0].value)
    else Lookup(members[1..], name)
  }

  /** The field of an object; nothing when the value is no object or has no such field. */
  function Field(j: Json, name: string): Option<Json> {
    if j.Obj? then Lookup(j.members, name) else None
  }

  function StringField(j: Json, name: string): Option<string> {
    match Field(j, name)
    case Some(Str(s)) => Some(s)
    case _ => None
  }

  function RecordField(j: Json, name: string): Option<Json> {
    match Field(j, name)
    case Some(Obj(members)) => Some(Obj(members))
    case _ => None
  }

  predicate IsInteger(n: real) {
    n == n.Floor as real
  }

  function IntegerField(j: Json, name: string): Option<int> {
    match Field(j, name)
    case Some(Number(n)) => if IsInteger(n) then Some(n.Floor) else None
    case _ => None
  }

  /** A count of tokens: a whole number that is not negative. */
  function TokenField(j: Json, name: string): Option<nat> {
    var n := IntegerField(j, name);
    if n.Some? && n.value >= 0 then Some(n.value) else None
  }

  function ArrayField(j: Json, name: string): Option<seq<Json>> {
    match Field(j, name)
    case Some(Arr(items)) => Some(items)
    case _ => None
  }

  /** An object whose first member of that name has the value. */
  ghost predicate Has(j: Json, name: string, value: Json) {
    j.Obj? && exists i | 0 <= i < |j.members| ::
      j.members[i] == Member(name, value) && forall k | 0 <= k < i :: j.members[k].name != name
  }

  lemma {:induction false} MemberIsFound(members: seq<Member>, name: string, value: Json)
    ensures Lookup(members, name) == Some(value) <==> Has(Obj(members), name, value)
    decreases |members|
  {
    if members != [] {
      var rest := members[1..];
      MemberIsFound(rest, name, value);
      if members[0].name == name {
        assert members[0] == Member(name, members[0].value);
        assert Lookup(members, name) == Some(value) ==> members[0] == Member(name, value);
      } else {
        if Has(Obj(rest), name, value) {
          var i :| 0 <= i < |rest| && rest[i] == Member(name, value) && forall k | 0 <= k < i :: rest[k].name != name;
          assert members[i + 1] == Member(name, value);
          forall k | 0 <= k < i + 1 ensures members[k].name != name {
            if k > 0 {
              assert members[k] == rest[k - 1];
            }
          }
        }
        if Has(Obj(members), name, value) {
          var i :| 0 <= i < |members| && members[i] == Member(name, value) && forall k | 0 <= k < i :: members[k].name != name;
          assert rest[i - 1] == Member(name, value);
          forall k | 0 <= k < i - 1 ensures rest[k].name != name {
            assert rest[k] == members[k + 1];
          }
        }
      }
    }
  }

  /** What each way of reading a field finds: the member's value, when it is of the kind. */
  lemma FieldsAreFound(j: Json, name: string)
    ensures forall v :: Field(j, name) == Some(v) <==> Has(j, name, v)
    ensures forall s :: StringField(j, name) == Some(s) <==> Has(j, name, Str(s))
    ensures forall m :: RecordField(j, name) == Some(Obj(m)) <==> Has(j, name, Obj(m))
    ensures forall a :: ArrayField(j, name) == Some(a) <==> Has(j, name, Arr(a))
    ensures forall n: int :: IntegerField(j, name) == Some(n) <==> Has(j, name, Number(n as real))
    ensures forall n: nat :: TokenField(j, name) == Some(n) <==> Has(j, name, Number(n as real))
    ensures RecordField(j, name).Some? ==> RecordField(j, name).value.Obj?
  {
    hide Has, Lookup;
    forall v ensures Field(j, name) == Some(v) <==> Has(j, name, v) {
      if j.Obj? {
        MemberIsFound(j.members, name, v);
      } else {
        OnlyObjectsHave(j, name, v);
      }
    }
    forall n: int ensures IntegerField(j, name) == Some(n) <==> Has(j, name, Number(n as real)) {
      assert IntegerField(j, name) == Some(n) <==> Field(j, name) == Some(Number(n as real));
    }
  }

  lemma OnlyObjectsHave(j: Json, name: string, v: Json)
    ensures !j.Obj? ==> !Has(j, name, v)
  {
  }

  lemma SameOption<T(!new)>(a: Option<T>, b: Option<T>)
    requires forall v :: a == Some(v) <==> b == Some(v)
    ensures a == b
  {
    assert a.Some? ==> b == Some(a.value);
    assert b.Some? ==> a == Some(b.value);
  }

  /** The left operand unless it is missing, as `??` has it for values that are not null. */
  function Or<T>(a: Option<T>, b: Option<T>): Option<T> {
    if a.Some? then a else b
  }

  /** `value ?? fallback` on a JSON value. */
  function OrElse(value: Option<Json>, fallback: Json): Json {
    if value.None? || value.value.Null? then fallback else value.value
  }

  function Digit(n: nat): char
    requires n < 10
  {
    "0123456789"[n]
  }

  function Decimal(n: nat): string {
    if n < 10 then [Digit(n)] else Decimal(n / 10) + [Digit(n % 10)]
  }

  /** The number that decimal digits stand for. */
  function Counted(digits: string): int {
    if digits == "" then 0 else 10 * Counted(digits[..|digits| - 1]) + (digits[|digits| - 1] as int - '0' as int)
  }

  /** `Decimal` writes a number in digits, the first of which is no zero unless it is the only one. */
  lemma {:induction false} DecimalCounts(n: nat)
    ensures var d := Decimal(n);
            && d != "" && (forall i | 0 <= i < |d| :: '0' <= d[i] <= '9') && (d[0] == '0' ==> |d| == 1)
            && Counted(d) == n
    decreases n
  {
    var d := Decimal(n);
    var last := Digit(n % 10);
    assert last as int - '0' as int == n % 10;
    if n < 10 {
      assert d[..0] == "";
    } else {
      DecimalCounts(n / 10);
      assert d[..|d| - 1] == Decimal(n / 10);
    }
  }
}
