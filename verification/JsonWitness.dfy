/** A printer and a parser that meet `Codec.Lawful`: what is assumed of JSON is consistent. The
    printer puts a value in front of whatever comes after it. */
module JsonWitness {
  import opened ByteStrings
  import opened JsonDocs

  function Unary(n: nat, rest: Bytes): (r: Bytes)
    ensures r != []
  {
    if n == 0 then [0] + rest else [1] + Unary(n - 1, rest)
  }

  function NumberCode(n: int, rest: Bytes): Bytes {
    if n < 0 then [1] + Unary(-n, rest) else [0] + Unary(n, rest)
  }

  function TextCode(t: Text, rest: Bytes): Bytes {
    Unary(|t|, t + rest)
  }

  /** The keys of an object in some order. */
  ghost function Listing(keys: set<Text>): (ks: seq<Text>)
    ensures forall k :: k in ks <==> k in keys
  {
    if keys == {} then []
    else
      var k :| k in keys;
      [k] + Listing(keys - {k})
  }

  ghost function Code(j: Json, rest: Bytes): (r: Bytes)
    ensures r != []
    decreases j
  {
    match j
    case Null => [0] + rest
    case Number(n) => [1] + NumberCode(n, rest)
    case String(t) => [2] + TextCode(t, rest)
    case Array(items) => [3] + ItemsCode(j, 0, rest)
    case Object(fields) => [4] + FieldsCode(j, Listing(fields.Keys), rest)
  }

  ghost function ItemsCode(j: Json, i: nat, rest: Bytes): Bytes
    requires j.Array? && i <= |j.items|
    decreases j, |j.items| - i
  {
    if i == |j.items| then [0] + rest else [1] + Code(j.items[i], ItemsCode(j, i + 1, rest))
  }

  ghost function FieldsCode(j: Json, ks: seq<Text>, rest: Bytes): Bytes
    requires j.Object? && forall k :: k in ks ==> k in j.fields
    decreases j, |ks|
  {
    if ks == [] then [0] + rest
    else [1] + TextCode(ks[0], Code(j.fields[ks[0]], FieldsCode(j, ks[1..], rest)))
  }

  lemma SameHead(s: byte, a: Bytes, t: byte, b: Bytes)
    requires [s] + a == [t] + b
    ensures s == t && a == b
  {
    assert ([s] + a)[0] == s && ([t] + b)[0] == t;
    assert ([s] + a)[1..] == a && ([t] + b)[1..] == b;
  }

  lemma {:induction false} UnaryInjective(m: nat, x: Bytes, n: nat, y: Bytes)
    requires Unary(m, x) == Unary(n, y)
    ensures m == n && x == y
  {
    SameHead(if m == 0 then 0 else 1, if m == 0 then x else Unary(m - 1, x),
             if n == 0 then 0 else 1, if n == 0 then y else Unary(n - 1, y));
    if m > 0 {
      UnaryInjective(m - 1, x, n - 1, y);
    }
  }

  lemma NumberInjective(m: int, x: Bytes, n: int, y: Bytes)
    requires NumberCode(m, x) == NumberCode(n, y)
    ensures m == n && x == y
  {
    var a, b := if m < 0 then -m else m, if n < 0 then -n else n;
    SameHead(if m < 0 then 1 else 0, Unary(a, x), if n < 0 then 1 else 0, Unary(b, y));
    UnaryInjective(a, x, b, y);
  }

  lemma TextInjective(s: Text, x: Bytes, t: Text, y: Bytes)
    requires TextCode(s, x) == TextCode(t, y)
    ensures s == t && x == y
  {
    UnaryInjective(|s|, s + x, |t|, t + y);
    assert s == (s + x)[..|s|] && t == (t + y)[..|s|];
    assert x == (s + x)[|s|..] && y == (t + y)[|s|..];
  }

  function Tag(j: Json): byte {
    match j
    case Null => 0
    case Number(_) => 1
    case String(_) => 2
    case Array(_) => 3
    case Object(_) => 4
  }

  lemma CodeStarts(j: Json, rest: Bytes)
    ensures Code(j, rest) == [Tag(j)] + Code(j, rest)[1..]
  {
  }

  lemma {:induction false} CodeInjective(a: Json, x: Bytes, b: Json, y: Bytes)
    requires Code(a, x) == Code(b, y)
    ensures a == b && x == y
    decreases a
  {
    CodeStarts(a, x);
    CodeStarts(b, y);
    SameHead(Tag(a), Code(a, x)[1..], Tag(b), Code(b, y)[1..]);
    match a {
      case Null => SameHead(0, x, 0, y);
      case Number(n) =>
        SameHead(1, NumberCode(n, x), 1, NumberCode(b.n, y));
        NumberInjective(n, x, b.n, y);
      case String(t) =>
        SameHead(2, TextCode(t, x), 2, TextCode(b.text, y));
        TextInjective(t, x, b.text, y);
      case Array(_) =>
        SameHead(3, ItemsCode(a, 0, x), 3, ItemsCode(b, 0, y));
        ItemsInjective(a, 0, x, b, y);
      case Object(fields) =>
        var ks, ls := Listing(fields.Keys), Listing(b.fields.Keys);
        SameHead(4, FieldsCode(a, ks, x), 4, FieldsCode(b, ls, y));
        FieldsInjective(a, ks, x, b, ls, y);
        assert forall k :: k in fields <==> k in ks;
        assert forall k :: k in b.fields <==> k in ls;
        assert fields == b.fields;
    }
  }

  lemma {:induction false} ItemsInjective(a: Json, i: nat, x: Bytes, b: Json, y: Bytes)
    requires a.Array? && b.Array? && i <= |a.items| && i <= |b.items|
    requires ItemsCode(a, i, x) == ItemsCode(b, i, y)
    ensures a.items[i..] == b.items[i..] && x == y
    decreases a, |a.items| - i
  {
    var endA, endB := i == |a.items|, i == |b.items|;
    SameHead(if endA then 0 else 1, if endA then x else Code(a.items[i], ItemsCode(a, i + 1, x)),
             if endB then 0 else 1, if endB then y else Code(b.items[i], ItemsCode(b, i + 1, y)));
    if !endA {
      CodeInjective(a.items[i], ItemsCode(a, i + 1, x), b.items[i], ItemsCode(b, i + 1, y));
      ItemsInjective(a, i + 1, x, b, y);
      assert a.items[i..] == [a.items[i]] + a.items[i + 1..] && b.items[i..] == [b.items[i]] + b.items[i + 1..];
    }
  }

  lemma {:induction false} FieldsInjective(a: Json, ks: seq<Text>, x: Bytes, b: Json, ls: seq<Text>, y: Bytes)
    requires a.Object? && forall k :: k in ks ==> k in a.fields
    requires b.Object? && forall k :: k in ls ==> k in b.fields
    requires FieldsCode(a, ks, x) == FieldsCode(b, ls, y)
    ensures ks == ls && x == y && forall k :: k in ks ==> a.fields[k] == b.fields[k]
    decreases a, |ks|
  {
    var endA, endB := ks == [], ls == [];
    var restA := if endA then x else Code(a.fields[ks[0]], FieldsCode(a, ks[1..], x));
    var restB := if endB then y else Code(b.fields[ls[0]], FieldsCode(b, ls[1..], y));
    SameHead(if endA then 0 else 1, if endA then x else TextCode(ks[0], restA),
             if endB then 0 else 1, if endB then y else TextCode(ls[0], restB));
    if !endA {
      TextInjective(ks[0], restA, ls[0], restB);
      CodeInjective(a.fields[ks[0]], FieldsCode(a, ks[1..], x), b.fields[ls[0]], FieldsCode(b, ls[1..], y));
      FieldsInjective(a, ks[1..], x, b, ls[1..], y);
      assert ks == [ks[0]] + ks[1..] && ls == [ls[0]] + ls[1..];
    }
  }

  ghost function Parse(b: Bytes): Json {
    if exists j :: Code(j, []) == b then
      var j :| Code(j, []) == b;
      j
    else Null
  }

  ghost function Witness(): Codec {
    Codec((j: Json) => Code(j, []), (b: Bytes) => Parse(b))
  }

  lemma LawfulCodecExists()
    ensures Witness().Lawful()
  {
    forall j: Json
      ensures Parse(Code(j, [])) == j
    {
      CodeInjective(j, [], Parse(Code(j, [])), []);
    }
  }
}
