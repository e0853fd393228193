/** JSON documents, and the client's base64url fields inside them. The text form of a document
    is left to a printer and a parser that are inverse on arrays and objects. */
module JsonDocs {
  import opened ByteStrings
  import Base64

  datatype Json =
    | Null
    | Number(n: int)
    | String(text: Text)
    | Array(items: seq<Json>)
    | Object(fields: map<Text, Json>)

  datatype Codec = Codec(render: Json -> Bytes, parse: Bytes -> Json)
  {
    ghost predicate Lawful() {
      forall j: Json {:trigger render(j)} :: j.Array? || j.Object? ==> render(j) != [] && parse(render(j)) == j
    }
  }

  /** `ToB64` and `FromB64` */
  function ToB64(b: Bytes): Text {
    Base64.Encode(Base64.UrlNoPadding, b)
  }

  function FromB64(t: Text): Bytes {
    Base64.Decode(Base64.UrlNoPadding, t)
  }

  lemma FromToB64(b: Bytes)
    ensures FromB64(ToB64(b)) == b
  {
    Base64.RoundTrip(Base64.UrlNoPadding, b);
  }

  /** `toString()`: empty for anything but a string. */
  function StringOf(j: Json): Text {
    if j.String? then j.text else []
  }

  /** `object().value(name).toString()` */
  function Field(j: Json, name: Text): Text {
    if j.Object? && name in j.fields then StringOf(j.fields[name]) else []
  }

  /** An object of named byte strings. */
  function MapDoc(m: map<Text, Bytes>): Json {
    Object(map k | k in m :: String(ToB64(m[k])))
  }

  function MapOf(j: Json): map<Text, Bytes> {
    if j.Object? then map k | k in j.fields :: FromB64(StringOf(j.fields[k])) else map[]
  }

  lemma MapRoundTrip(m: map<Text, Bytes>)
    ensures MapOf(MapDoc(m)) == m
  {
    forall k | k in m
      ensures MapOf(MapDoc(m))[k] == m[k]
    {
      FromToB64(m[k]);
    }
  }

  /** Any document can be read: one that is no object or no array has no entries, and an entry that
      is no string reads as empty. */
  lemma OddDocuments(j: Json)
    ensures !j.Object? ==> MapOf(j) == map[]
    ensures j.Object? ==>
              && MapOf(j).Keys == j.fields.Keys
              && forall k :: k in j.fields && !j.fields[k].String? ==> MapOf(j)[k] == []
    ensures !j.Array? ==> ListOf(j) == []
    ensures j.Array? ==>
              && |ListOf(j)| == |j.items|
              && forall i :: 0 <= i < |j.items| && !j.items[i].String? ==> ListOf(j)[i] == []
  {
    assert FromB64([]) == [];
  }

  /** An array of byte strings. */
  function ListDoc(bs: seq<Bytes>): Json {
    Array(seq(|bs|, i requires 0 <= i < |bs| => String(ToB64(bs[i]))))
  }

  function ListOf(j: Json): seq<Bytes> {
    if j.Array? then seq(|j.items|, i requires 0 <= i < |j.items| => FromB64(StringOf(j.items[i]))) else []
  }

  lemma ListRoundTrip(bs: seq<Bytes>)
    ensures ListOf(ListDoc(bs)) == bs
  {
    forall i | 0 <= i < |bs|
      ensures ListOf(ListDoc(bs))[i] == bs[i]
    {
      FromToB64(bs[i]);
    }
  }
}
