/** The message search: a table of keyed token digests that should agree with scanning the
    messages' words. */
module Search {
  import opened ByteStrings
  import opened Primitives
  import opened Transport

  /** `QString::toLower`, whatever it does to a text. */
  type Lower = Text -> Text

  function SpaceAtEnd(t: Text): (n: nat)
    ensures n <= |t|
  {
    if |t| >= 1 && SpaceLength(t[|t| - 1..]) == 1 then 1
    else if |t| >= 2 && SpaceLength(t[|t| - 2..]) == 2 then 2
    else if |t| >= 3 && SpaceLength(t[|t| - 3..]) == 3 then 3
    else 0
  }

  function TrimEnd(t: Text): Text
    decreases |t|
  {
    if SpaceAtEnd(t) == 0 then t else TrimEnd(t[..|t| - SpaceAtEnd(t)])
  }

  function TrimStart(t: Text): Text
    decreases |t|
  {
    if SpaceLength(t) == 0 then t else TrimStart(t[SpaceLength(t)..])
  }

  /** The white space of the regular expression `\s`, which is ASCII only. */
  predicate Separator(b: byte) {
    9 <= b <= 13 || b == 32
  }

  /** It is the part of the white space that fits in one byte of UTF-8. */
  lemma SeparatorIff(b: byte)
    ensures Separator(b) <==> b < 0x80 && IsSpace(b)
  {
  }

  /** The maximal separator-free words of a text, `word` being the one in progress. */
  function Words(t: Text, word: Text): seq<Text> {
    if t == [] then (if word == [] then [] else [word])
    else if Separator(t[0]) then (if word == [] then [] else [word]) + Words(t[1..], [])
    else Words(t[1..], word + [t[0]])
  }

  function Tokenize(lower: Lower, text: Text): seq<Text> {
    Words(lower(TrimEnd(TrimStart(text))), [])
  }

  lemma {:induction false} WordsHaveNoSeparator(t: Text, word: Text)
    requires forall b :: b in word ==> !Separator(b)
    ensures forall w :: w in Words(t, word) ==> w != [] && forall b :: b in w ==> !Separator(b)
  {
    if t != [] {
      WordsHaveNoSeparator(t[1..], if Separator(t[0]) then [] else word + [t[0]]);
    }
  }

  predicate SeparatorFree(t: Text) {
    forall b :: b in t ==> !Separator(b)
  }

  /** A separator ends a word: the words of a text are those before and those after it. */
  lemma {:induction false} WordsSplit(a: Text, sep: byte, b: Text, word: Text)
    requires Separator(sep)
    ensures Words(a + [sep] + b, word) == Words(a, word) + Words(b, [])
  {
    if a == [] {
      assert ([] + [sep] + b)[1..] == b;
    } else {
      assert (a + [sep] + b)[1..] == a[1..] + [sep] + b;
      if Separator(a[0]) {
        WordsSplit(a[1..], sep, b, []);
      } else {
        WordsSplit(a[1..], sep, b, word + [a[0]]);
      }
    }
  }

  /** A text without separators is one word. */
  lemma {:induction false} OneWord(t: Text, word: Text)
    requires SeparatorFree(t)
    ensures Words(t, word) == if word + t == [] then [] else [word + t]
  {
    if t == [] {
      assert word + t == word;
    } else {
      OneWord(t[1..], word + [t[0]]);
      assert word + [t[0]] + t[1..] == word + t;
    }
  }

  /** A word stands in a text when separators or the ends of the text surround it. */
  predicate StandsIn(word: Text, t: Text, i: nat) {
    && word != [] && SeparatorFree(word)
    && i + |word| <= |t| && t[i..i + |word|] == word
    && (i > 0 ==> Separator(t[i - 1]))
    && (i + |word| < |t| ==> Separator(t[i + |word|]))
  }

  lemma WordFirst(word: Text, t: Text)
    requires StandsIn(word, t, 0)
    ensures word in Words(t, [])
  {
    var n := |word|;
    OneWord(word, []);
    assert [] + word == word;
    if n < |t| {
      WordsSplit(word, t[n], t[n + 1..], []);
      assert t == word + [t[n]] + t[n + 1..];
    } else {
      assert t == word;
    }
  }

  /** Every word that stands in a text is among its words. */
  lemma WordIsFound(word: Text, t: Text, i: nat)
    requires StandsIn(word, t, i)
    ensures word in Words(t, [])
  {
    if i == 0 {
      WordFirst(word, t);
    } else {
      WordFirst(word, t[i..]);
      WordsSplit(t[..i - 1], t[i - 1], t[i..], []);
      assert t == t[..i - 1] + [t[i - 1]] + t[i..];
    }
  }

  /** White space at either end does not matter, and the rest is lower-cased before it is split. */
  lemma TokenizeTrims(lower: Lower, text: Text)
    requires SpaceLength(text) == 0 && SpaceAtEnd(text) == 0
    ensures Tokenize(lower, text) == Words(lower(text), [])
  {
  }

  /** One white space character more at either end changes nothing. */
  lemma TrimmedSpace(cp: nat, text: Text)
    requires cp < 0x1_0000 && IsSpace(cp)
    ensures TrimStart(Utf8Of(cp) + text) == TrimStart(text)
    ensures TrimEnd(text + Utf8Of(cp)) == TrimEnd(text)
  {
    var space := Utf8Of(cp);
    SpaceLengthIff(cp, text);
    assert (space + text)[|space|..] == text;
    SpaceAtEndIs(cp, text);
    assert (text + space)[..|text|] == text;
  }

  lemma SpaceAtEndIs(cp: nat, text: Text)
    requires cp < 0x1_0000 && IsSpace(cp)
    ensures SpaceAtEnd(text + Utf8Of(cp)) == |Utf8Of(cp)|
  {
    var space := Utf8Of(cp);
    var t := text + space;
    SpaceLengthIff(cp, []);
    assert space + [] == space;
    assert t[|t| - |space|..] == space;
    assert t[|t| - 1..] == [space[|space| - 1]];
    if |space| == 3 {
      assert t[|t| - 2..] == space[1..];
    }
  }

  // ---- the index ----

  datatype TokenRow = TokenRow(conversationId: Text, messageId: Text, digest: Bytes, positionHint: int)

  function TokenRows(c: Suite, key: Bytes, conversationId: Text, messageId: Text, tokens: seq<Text>)
    : (rows: seq<TokenRow>)
    ensures |rows| == |tokens|
  {
    seq(|tokens|, i requires 0 <= i < |tokens| => TokenRow(conversationId, messageId, Hmac(c, key, tokens[i]), i))
  }

  /** The i-th token's row: its HMAC under the index key, with its place as the hint. */
  lemma TokenRowAt(c: Suite, key: Bytes, conversationId: Text, messageId: Text, tokens: seq<Text>, i: nat)
    requires i < |tokens| && key != []
    ensures TokenRows(c, key, conversationId, messageId, tokens)[i]
         == TokenRow(conversationId, messageId, c.mac(key, tokens[i]), i)
  {
  }

  /** SELECT message_id ... WHERE token_digest = ?; SQL leaves the order open. */
  function IdsByDigest(rows: seq<TokenRow>, digest: Bytes): seq<Text> {
    if rows == [] then []
    else
      var last := rows[|rows| - 1];
      IdsByDigest(rows[..|rows| - 1], digest) + if last.digest == digest then [last.messageId] else []
  }

  function Found(c: Suite, key: Bytes, lower: Lower, rows: seq<TokenRow>, query: Text): seq<Text> {
    var tokens := Tokenize(lower, query);
    if tokens == [] then [] else IdsByDigest(rows, Hmac(c, key, tokens[0]))
  }

  class SearchService {
    const c: Suite
    const key: Bytes
    const lower: Lower
    var rows: seq<TokenRow>

    constructor (c: Suite, key: Bytes, lower: Lower, rows: seq<TokenRow>)
      ensures this.c == c && this.key == key && this.lower == lower && this.rows == rows
    {
      this.c, this.key, this.lower, this.rows := c, key, lower, rows;
    }

    /** insertOk(i) tells whether the i-th insertion works. A message is indexed token by token,
        with its position as a hint, up to the first failure. */
    method IndexMessage(conversationId: Text, messageId: Text, plaintext: Text, insertOk: nat -> bool)
      returns (ok: bool, ghost inserted: nat)
      modifies this
      ensures
        var all := TokenRows(c, key, conversationId, messageId, Tokenize(lower, plaintext));
        && inserted <= |all| && rows == old(rows) + all[..inserted]
        && (ok <==> inserted == |all|)
        && (!ok <==> inserted < |all| && (key == [] || !insertOk(inserted)))
        && forall i :: 0 <= i < inserted ==> insertOk(i)
    {
      var tokens := Tokenize(lower, plaintext);
      var position := 0;
      inserted := 0;
      while position < |tokens|
        invariant 0 <= position == inserted <= |tokens|
        invariant rows == old(rows) + TokenRows(c, key, conversationId, messageId, tokens)[..position]
        invariant forall i :: 0 <= i < position ==> insertOk(i)
        invariant position > 0 ==> key != []
      {
        var digest := Hmac(c, key, tokens[position]);
        if digest == [] || !insertOk(position) {
          return false, inserted;
        }
        rows := rows + [TokenRow(conversationId, messageId, digest, position)];
        position, inserted := position + 1, inserted + 1;
      }
      return true, inserted;
    }

    method FindMessageIds(query: Text) returns (ids: seq<Text>)
      ensures ids == Found(c, key, lower, rows, query)
    {
      var tokens := Tokenize(lower, query);
      if tokens == [] {
        return [];
      }
      ids := IdsByDigest(rows, Hmac(c, key, tokens[0]));
    }
  }

  // ---- agreement with a scan ----

  datatype Document = Document(conversationId: Text, messageId: Text, plaintext: Text)

  /** The table after indexing these messages, in this order, with insertions that work: under an
      empty key nothing is ever inserted. */
  function Indexed(c: Suite, key: Bytes, lower: Lower, docs: seq<Document>): seq<TokenRow> {
    if docs == [] then []
    else
      var d := docs[|docs| - 1];
      Indexed(c, key, lower, docs[..|docs| - 1])
      + if key == [] then [] else TokenRows(c, key, d.conversationId, d.messageId, Tokenize(lower, d.plaintext))
  }

  /** The message id once per occurrence of the token among these tokens. */
  function ScanTokens(messageId: Text, tokens: seq<Text>, token: Text): seq<Text> {
    if tokens == [] then []
    else
      ScanTokens(messageId, tokens[..|tokens| - 1], token) + if tokens[|tokens| - 1] == token then [messageId] else []
  }

  /** The plain scan over the messages' words. */
  function Scan(lower: Lower, docs: seq<Document>, token: Text): seq<Text> {
    if docs == [] then []
    else
      var d := docs[|docs| - 1];
      Scan(lower, docs[..|docs| - 1], token) + ScanTokens(d.messageId, Tokenize(lower, d.plaintext), token)
  }

  function WordsOf(tokens: seq<Text>): set<Text> {
    set t | t in tokens
  }

  /** The words of these messages. */
  function Vocabulary(lower: Lower, docs: seq<Document>): set<Text> {
    if docs == [] then {}
    else Vocabulary(lower, docs[..|docs| - 1]) + WordsOf(Tokenize(lower, docs[|docs| - 1].plaintext))
  }

  /** Another of these words has the token's digest. */
  predicate Collides(c: Suite, key: Bytes, words: set<Text>, token: Text) {
    exists t :: t in words && t != token && Hmac(c, key, t) == Hmac(c, key, token)
  }

  lemma {:induction false} IdsAppend(a: seq<TokenRow>, b: seq<TokenRow>, digest: Bytes)
    ensures IdsByDigest(a + b, digest) == IdsByDigest(a, digest) + IdsByDigest(b, digest)
  {
    if b == [] {
      assert a + b == a;
    } else {
      IdsAppend(a, b[..|b| - 1], digest);
      assert (a + b)[..|a + b| - 1] == a + b[..|b| - 1];
    }
  }

  lemma CollidesInEither(c: Suite, key: Bytes, a: set<Text>, b: set<Text>, token: Text)
    ensures Collides(c, key, a + b, token) <==> Collides(c, key, a, token) || Collides(c, key, b, token)
  {
    if t :| t in a + b && t != token && Hmac(c, key, t) == Hmac(c, key, token) {
      assert t in a || t in b;
    }
    if t :| t in a && t != token && Hmac(c, key, t) == Hmac(c, key, token) {
      assert t in a + b;
    }
    if t :| t in b && t != token && Hmac(c, key, t) == Hmac(c, key, token) {
      assert t in a + b;
    }
  }

  lemma {:induction false} MessageAgrees(c: Suite, key: Bytes, conversationId: Text, messageId: Text,
                                         tokens: seq<Text>, token: Text)
    ensures
      var ids := IdsByDigest(TokenRows(c, key, conversationId, messageId, tokens), Hmac(c, key, token));
      var scan := ScanTokens(messageId, tokens, token);
      if Collides(c, key, WordsOf(tokens), token) then |ids| > |scan| else ids == scan
  {
    if tokens != [] {
      var n := |tokens| - 1;
      var init, last := tokens[..n], tokens[n];
      var rows := TokenRows(c, key, conversationId, messageId, tokens);
      MessageAgrees(c, key, conversationId, messageId, init, token);
      assert rows[..n] == TokenRows(c, key, conversationId, messageId, init);
      assert WordsOf(tokens) == WordsOf(init) + {last};
      CollidesInEither(c, key, WordsOf(init), {last}, token);
      assert Collides(c, key, {last}, token) <==> last != token && Hmac(c, key, last) == Hmac(c, key, token);
    }
  }

  lemma {:induction false} EmptyKeyIndexesNothing(c: Suite, lower: Lower, docs: seq<Document>)
    ensures Indexed(c, [], lower, docs) == []
  {
    if docs != [] {
      EmptyKeyIndexesNothing(c, lower, docs[..|docs| - 1]);
    }
  }

  lemma {:induction false} TableAgrees(c: Suite, key: Bytes, lower: Lower, docs: seq<Document>, token: Text)
    requires key != []
    ensures
      var ids := IdsByDigest(Indexed(c, key, lower, docs), Hmac(c, key, token));
      var scan := Scan(lower, docs, token);
      if Collides(c, key, Vocabulary(lower, docs), token) then |ids| > |scan| else ids == scan
  {
    if docs != [] {
      var n := |docs| - 1;
      var init, d := docs[..n], docs[n];
      var tokens := Tokenize(lower, d.plaintext);
      TableAgrees(c, key, lower, init, token);
      MessageAgrees(c, key, d.conversationId, d.messageId, tokens, token);
      var rows := TokenRows(c, key, d.conversationId, d.messageId, tokens);
      IdsAppend(Indexed(c, key, lower, init), rows, Hmac(c, key, token));
      CollidesInEither(c, key, Vocabulary(lower, init), WordsOf(tokens), token);
    }
  }

  /** After indexing any messages, a query finds, counted with repetitions, the messages a scan
      for its first word finds, exactly when no other indexed word has that word's digest; under
      an empty key it finds nothing. */
  lemma SearchAgreesIff(c: Suite, key: Bytes, lower: Lower, docs: seq<Document>, query: Text)
    requires Tokenize(lower, query) != []
    ensures
      var token := Tokenize(lower, query)[0];
      multiset(Found(c, key, lower, Indexed(c, key, lower, docs), query)) == multiset(Scan(lower, docs, token))
      <==> if key == [] then Scan(lower, docs, token) == [] else !Collides(c, key, Vocabulary(lower, docs), token)
  {
    var token := Tokenize(lower, query)[0];
    if key == [] {
      EmptyKeyIndexesNothing(c, lower, docs);
    } else {
      TableAgrees(c, key, lower, docs, token);
    }
    var ids, scan := Found(c, key, lower, Indexed(c, key, lower, docs), query), Scan(lower, docs, token);
    assert |multiset(ids)| == |ids| && |multiset(scan)| == |scan|;
  }

  lemma {:induction false} TokenIndexed(rows: seq<TokenRow>, i: nat)
    requires i < |rows|
    ensures rows[i].messageId in IdsByDigest(rows, rows[i].digest)
  {
    if i < |rows| - 1 {
      TokenIndexed(rows[..|rows| - 1], i);
    }
  }

  lemma {:induction false} DocumentIndexed(c: Suite, key: Bytes, lower: Lower, docs: seq<Document>, d: Document,
                                           token: Text)
    requires key != [] && d in docs && token in Tokenize(lower, d.plaintext)
    ensures d.messageId in IdsByDigest(Indexed(c, key, lower, docs), Hmac(c, key, token))
  {
    var init, last := docs[..|docs| - 1], docs[|docs| - 1];
    var tokens := Tokenize(lower, last.plaintext);
    var rows := TokenRows(c, key, last.conversationId, last.messageId, tokens);
    IdsAppend(Indexed(c, key, lower, init), rows, Hmac(c, key, token));
    if d == last {
      var k :| 0 <= k < |tokens| && tokens[k] == token;
      TokenIndexed(rows, k);
    } else {
      DocumentIndexed(c, key, lower, init, d, token);
    }
  }

  lemma OneWordQuery(lower: Lower, query: Text)
    requires SpaceLength(query) == 0 && SpaceAtEnd(query) == 0
    requires lower(query) != [] && SeparatorFree(lower(query))
    ensures Tokenize(lower, query) == [lower(query)]
  {
    TokenizeTrims(lower, query);
    OneWord(lower(query), []);
    assert [] + lower(query) == lower(query);
  }

  lemma TokenFinds(c: Suite, key: Bytes, lower: Lower, docs: seq<Document>, d: Document, query: Text, token: Text)
    requires key != [] && d in docs && token in Tokenize(lower, d.plaintext)
    requires Tokenize(lower, query) == [token]
    ensures d.messageId in Found(c, key, lower, Indexed(c, key, lower, docs), query)
  {
    DocumentIndexed(c, key, lower, docs, d, token);
  }

  /** A query of one word finds every indexed message in which that word stands, in upper or lower
      case. */
  lemma WordFinds(c: Suite, key: Bytes, lower: Lower, docs: seq<Document>, d: Document, query: Text, i: nat)
    requires key != [] && d in docs
    requires SpaceLength(query) == 0 && SpaceAtEnd(query) == 0 && SeparatorFree(lower(query))
    requires StandsIn(lower(query), lower(TrimEnd(TrimStart(d.plaintext))), i)
    ensures d.messageId in Found(c, key, lower, Indexed(c, key, lower, docs), query)
  {
    var word := lower(query);
    OneWordQuery(lower, query);
    WordIsFound(word, lower(TrimEnd(TrimStart(d.plaintext))), i);
    TokenFinds(c, key, lower, docs, d, query, word);
  }

  /** A query of white space only finds nothing. */
  lemma {:induction false} BlankTrims(t: Text)
    requires Blank(t)
    ensures TrimStart(t) == []
    decreases |t|
  {
    if t != [] {
      BlankTrims(t[SpaceLength(t)..]);
    }
  }

  lemma BlankFindsNothing(c: Suite, key: Bytes, lower: Lower, rows: seq<TokenRow>, query: Text)
    requires Blank(query) && lower([]) == []
    ensures Found(c, key, lower, rows, query) == []
  {
    BlankTrims(query);
  }
}
