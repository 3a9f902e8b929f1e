/** Path templates: the cursor loop of serializePath, against "read the template once, then substitute". */
module PathTemplate {
  import opened Options
  import opened UriComponents

  const OPEN: Unit := 0x7B
  const CLOSE: Unit := 0x7D
  const SLASH: Unit := 0x2F

  /** What a template is made of. */
  datatype Token = Literal(text: Text) | Hole(key: Text)

  /** The value of each path parameter; null, undefined and missing are all None. */
  type Params = Text -> Option<Text>

  /** The text that takes the place of each key; None is the URIError of a value that cannot be encoded. */
  type Values = Text -> Option<Text>

  /** indexOf: -1 when there is none. */
  function IndexOf(s: Text, u: Unit, from: nat): (r: int)
    ensures r == -1 || from <= r < |s|
    decreases |s| - from
  {
    if from >= |s| then -1 else if s[from] == u then from else IndexOf(s, u, from + 1)
  }

  lemma {:induction false} IndexOfIsFirst(s: Text, u: Unit, from: nat)
    ensures var r := IndexOf(s, u, from);
      if r >= 0 then s[r] == u && forall i | from <= i < r :: s[i] != u
      else forall i | from <= i < |s| :: s[i] != u
    decreases |s| - from
  {
    if from < |s| && s[from] != u {
      IndexOfIsFirst(s, u, from + 1);
    }
  }

  /** The converse: the first occurrence is found. */
  lemma {:induction false} FirstIsFound(s: Text, u: Unit, from: nat, at: nat)
    requires from <= at <= |s| && forall i | from <= i < at :: s[i] != u
    ensures at < |s| && s[at] == u ==> IndexOf(s, u, from) == at
    ensures IndexOf(s, u, from) == IndexOf(s, u, at)
    decreases |s| - from
  {
    if from < at {
      FirstIsFound(s, u, from + 1, at);
    }
  }

  lemma {:induction false} IndexOfSuffix(s: Text, u: Unit, k: nat, from: nat)
    requires k <= |s|
    ensures var r := IndexOf(s[k..], u, from); IndexOf(s, u, k + from) == if r < 0 then -1 else k + r
    decreases |s| - from
  {
    if k + from < |s| && s[k + from] != u {
      IndexOfSuffix(s, u, k, from + 1);
    }
  }

  // ---- the specification ----

  /** Where the first hole opens and closes. */
  datatype Span = NoSpan | Span(open: nat, close: nat)

  /** The first `{` and the first `}` after it. */
  function FirstHole(s: Text): (r: Span)
    ensures r.Span? ==> r.open < r.close < |s|
  {
    var open := IndexOf(s, OPEN, 0);
    if open < 0 then NoSpan
    else
      var close := IndexOf(s, CLOSE, open + 1);
      if close < 0 then NoSpan else Span(open, close)
  }

  /** Reading from the left: the first `{` with a `}` after it opens a hole, unless it is `{}`. */
  function Tokenise(s: Text): seq<Token>
    decreases |s|
  {
    if s == [] then []
    else
      var hole := FirstHole(s);
      if hole.NoSpan? then [Literal(s)]
      else if hole.close == hole.open + 1 then [Literal(s[..hole.close + 1])] + Tokenise(s[hole.close + 1..])
      else [Literal(s[..hole.open])] + ([Hole(s[hole.open + 1..hole.close])] + Tokenise(s[hole.close + 1..]))
  }

  function PrintToken(t: Token): Text {
    match t case Literal(text) => text case Hole(key) => [OPEN] + key + [CLOSE]
  }

  function Print(tokens: seq<Token>): Text {
    if tokens == [] then [] else PrintToken(tokens[0]) + Print(tokens[1..])
  }

  /** Every value goes through encodeURIComponent; a missing one is empty. */
  function Encoded(params: Params): Values {
    (key: Text) => Encode(match params(key) case None => [] case Some(v) => v)
  }

  function Prepend(a: Text, b: Option<Text>): Option<Text> {
    match b case None => None case Some(t) => Some(a + t)
  }

  function SubstituteToken(t: Token, values: Values): Option<Text> {
    match t case Literal(text) => Some(text) case Hole(key) => values(key)
  }

  function Substitute(tokens: seq<Token>, values: Values): Option<Text> {
    if tokens == [] then Some([])
    else
      var first := SubstituteToken(tokens[0], values);
      if first.None? then None else Prepend(first.value, Substitute(tokens[1..], values))
  }

  // ---- reading and printing ----

  /** Where the first `{` and the first `}` after it stand. */
  lemma FirstHoleAt(front: Text, middle: Text, back: Text)
    requires OPEN !in front && CLOSE !in middle
    ensures var s := front + ([OPEN] + middle + [CLOSE] + back);
      FirstHole(s) == Span(|front|, |front| + 1 + |middle|)
  {
    var s := front + ([OPEN] + middle + [CLOSE] + back);
    var open, close := |front|, |front| + 1 + |middle|;
    assert s[open] == OPEN && s[close] == CLOSE;
    assert forall i | 0 <= i < open :: s[i] == front[i];
    assert forall i | open + 1 <= i < close :: s[i] == middle[i - open - 1];
    FirstIsFound(s, OPEN, 0, open);
    FirstIsFound(s, CLOSE, open + 1, close);
  }

  lemma HoleParts(front: Text, middle: Text, back: Text)
    ensures var s := front + ([OPEN] + middle + [CLOSE] + back); var close := |front| + 1 + |middle|;
      && |s| == close + 1 + |back|
      && s[..|front|] == front && s[|front| + 1..close] == middle && s[close + 1..] == back
      && (middle == [] ==> s[..close + 1] == front + [OPEN, CLOSE])
  {
  }

  lemma TokeniseBraces(front: Text, back: Text)
    requires OPEN !in front
    ensures Tokenise(front + ([OPEN] + [] + [CLOSE] + back)) == [Literal(front + [OPEN, CLOSE])] + Tokenise(back)
  {
    FirstHoleAt(front, [], back);
    HoleParts(front, [], back);
    TokeniseBy(front + ([OPEN] + [] + [CLOSE] + back), |front|, |front| + 1);
  }

  lemma TokeniseHole(front: Text, key: Text, back: Text)
    requires OPEN !in front && CLOSE !in key && key != []
    ensures Tokenise(front + ([OPEN] + key + [CLOSE] + back)) == [Literal(front)] + ([Hole(key)] + Tokenise(back))
  {
    HoleSplits(front, key, back);
    TokeniseParts(front + ([OPEN] + key + [CLOSE] + back), Span(|front|, |front| + 1 + |key|), front, key, back);
  }

  ghost predicate Splits(s: Text, hole: Span, front: Text, key: Text, back: Text) {
    && hole.Span? && FirstHole(s) == hole
    && s[..hole.open] == front && s[hole.open + 1..hole.close] == key && s[hole.close + 1..] == back
  }

  lemma HoleSplits(front: Text, key: Text, back: Text)
    requires OPEN !in front && CLOSE !in key
    ensures Splits(front + ([OPEN] + key + [CLOSE] + back), Span(|front|, |front| + 1 + |key|), front, key, back)
  {
    FirstHoleAt(front, key, back);
    HoleParts(front, key, back);
  }

  lemma TokeniseParts(s: Text, hole: Span, front: Text, key: Text, back: Text)
    requires Splits(s, hole, front, key, back) && key != []
    ensures Tokenise(s) == [Literal(front)] + ([Hole(key)] + Tokenise(back))
  {
    TokeniseBy(s, hole.open, hole.close);
  }

  /** The tokens of a template, by its first hole. */
  lemma TokeniseAt(front: Text, middle: Text, back: Text)
    requires OPEN !in front && CLOSE !in middle
    ensures Tokenise(front + ([OPEN] + middle + [CLOSE] + back)) ==
      if middle == [] then [Literal(front + [OPEN, CLOSE])] + Tokenise(back)
      else [Literal(front)] + ([Hole(middle)] + Tokenise(back))
  {
    if middle == [] {
      TokeniseBraces(front, back);
    } else {
      TokeniseHole(front, middle, back);
    }
  }

  lemma TokeniseBy(s: Text, open: nat, close: nat)
    requires FirstHole(s) == Span(open, close)
    ensures Tokenise(s) ==
      if close == open + 1 then [Literal(s[..close + 1])] + Tokenise(s[close + 1..])
      else [Literal(s[..open])] + ([Hole(s[open + 1..close])] + Tokenise(s[close + 1..]))
  {
  }

  /** Every template with a hole or `{}` splits at the first. */
  lemma {:induction false} Split(s: Text) returns (front: Text, middle: Text, back: Text)
    requires FirstHole(s).Span?
    ensures OPEN !in front && CLOSE !in middle
    ensures s == front + ([OPEN] + middle + [CLOSE] + back) && |back| < |s|
  {
    var open, close := FirstHole(s).open, FirstHole(s).close;
    IndexOfIsFirst(s, OPEN, 0);
    IndexOfIsFirst(s, CLOSE, open + 1);
    RejoinWhole(s, open, close);
    front, middle, back := s[..open], s[open + 1..close], s[close + 1..];
  }

  lemma RejoinWhole(s: Text, open: nat, close: nat)
    requires open < close < |s| && s[open] == OPEN && s[close] == CLOSE
    ensures s == s[..open] + ([OPEN] + s[open + 1..close] + [CLOSE] + s[close + 1..])
  {
    Rejoin(s, 0, open, close);
    assert s[0..] == s && s[0..open] == s[..open];
  }

  lemma Rejoin(s: Text, cursor: nat, open: nat, close: nat)
    requires cursor <= open < close < |s| && s[open] == OPEN && s[close] == CLOSE
    ensures s[cursor..] == s[cursor..open] + ([OPEN] + s[open + 1..close] + [CLOSE] + s[close + 1..])
  {
  }

  lemma PrintCons(t: Token, rest: seq<Token>)
    ensures Print([t] + rest) == PrintToken(t) + Print(rest)
  {
  }

  lemma PrintBraces(front: Text, rest: seq<Token>)
    ensures Print([Literal(front + [OPEN, CLOSE])] + rest) == front + ([OPEN] + [] + [CLOSE] + Print(rest))
  {
  }

  lemma PrintHole(front: Text, key: Text, rest: seq<Token>)
    ensures Print([Literal(front)] + ([Hole(key)] + rest)) == front + ([OPEN] + key + [CLOSE] + Print(rest))
  {
  }

  /** Printing the tokens gives the template back. */
  lemma {:induction false} PrintOfTokenise(s: Text)
    ensures Print(Tokenise(s)) == s
    decreases |s|
  {
    if s != [] {
      if FirstHole(s).NoSpan? {
        PrintCons(Literal(s), []);
        assert [Literal(s)] + [] == [Literal(s)];
      } else {
        var front, middle, back := Split(s);
        PrintOfTokenise(back);
        TokeniseAt(front, middle, back);
        if middle == [] {
          PrintBraces(front, Tokenise(back));
        } else {
          PrintHole(front, middle, Tokenise(back));
        }
      }
    }
  }

  /** A key is not empty and holds no `}`; it may hold `{`. A literal holds no hole. */
  predicate IsToken(t: Token) {
    match t
    case Literal(text) => !HasHole(text)
    case Hole(key) => key != [] && CLOSE !in key
  }

  /** A `{` whose first later `}` is not right after it. */
  predicate HasHole(s: Text) {
    exists i :: 0 <= i < |s| && s[i] == OPEN && IndexOf(s, CLOSE, i + 1) > i + 1
  }

  lemma {:induction false} TokensAreWellFormed(s: Text)
    ensures forall t | t in Tokenise(s) :: IsToken(t)
    decreases |s|
  {
    if s != [] {
      if FirstHole(s).NoSpan? {
        NoHole(s);
      } else {
        var front, middle, back := Split(s);
        TokensAreWellFormed(back);
        TokeniseAt(front, middle, back);
        TextHasNoHole(front);
      }
    }
  }

  lemma TextHasNoHole(front: Text)
    requires OPEN !in front
    ensures !HasHole(front) && !HasHole(front + [OPEN, CLOSE])
  {
  }

  lemma NoHole(s: Text)
    requires FirstHole(s).NoSpan?
    ensures !HasHole(s)
  {
    IndexOfIsFirst(s, OPEN, 0);
    if IndexOf(s, OPEN, 0) >= 0 {
      IndexOfIsFirst(s, CLOSE, IndexOf(s, OPEN, 0) + 1);
      forall i | 0 <= i < |s| && s[i] == OPEN
        ensures IndexOf(s, CLOSE, i + 1) < 0
      {
        IndexOfIsFirst(s, CLOSE, i + 1);
      }
    }
  }

  // ---- printed templates are read as meant ----

  /** The pieces a template can be written with: text without `{`, the literal `{}`, and holes. */
  predicate IsPiece(t: Token) {
    match t
    case Literal(text) => OPEN !in text || text == [OPEN, CLOSE]
    case Hole(key) => key != [] && CLOSE !in key
  }

  lemma SubstituteCons(t: Token, rest: seq<Token>, values: Values)
    ensures Substitute([t] + rest, values) ==
      if SubstituteToken(t, values).None? then None else Prepend(SubstituteToken(t, values).value, Substitute(rest, values))
  {
  }

  lemma PrependNothing(o: Option<Text>)
    ensures Prepend([], o) == o
  {
    if o.Some? {
      assert [] + o.value == o.value;
    }
  }

  lemma PrependTwice(a: Text, b: Text, o: Option<Text>)
    ensures Prepend(a, Prepend(b, o)) == Prepend(a + b, o)
  {
    if o.Some? {
      assert a + (b + o.value) == a + b + o.value;
    }
  }

  lemma LiteralOnly(s: Text, values: Values)
    requires s != [] && FirstHole(s).NoSpan?
    ensures Substitute(Tokenise(s), values) == Some(s)
  {
    SubstituteCons(Literal(s), [], values);
    assert [Literal(s)] + [] == [Literal(s)] && s + [] == s;
  }

  /** A template that starts with text, then `{}`. */
  lemma BracesStep(front: Text, back: Text, values: Values)
    requires OPEN !in front
    ensures Substitute(Tokenise(front + ([OPEN] + [] + [CLOSE] + back)), values)
      == Prepend(front + [OPEN, CLOSE], Substitute(Tokenise(back), values))
  {
    TokeniseBraces(front, back);
    SubstituteCons(Literal(front + [OPEN, CLOSE]), Tokenise(back), values);
  }

  /** A template that starts with text, then a hole. */
  lemma HoleStep(front: Text, key: Text, back: Text, values: Values)
    requires OPEN !in front && key != [] && CLOSE !in key
    ensures Substitute(Tokenise(front + ([OPEN] + key + [CLOSE] + back)), values)
      == Prepend(front, Filled(key, Substitute(Tokenise(back), values), values))
  {
    TokeniseHole(front, key, back);
    var rest := Tokenise(back);
    SubstituteCons(Literal(front), [Hole(key)] + rest, values);
    SubstituteCons(Hole(key), rest, values);
  }

  /** The value of a key, then the rest. */
  function Filled(key: Text, rest: Option<Text>, values: Values): Option<Text> {
    if values(key).None? then None else Prepend(values(key).value, rest)
  }

  lemma NoHolePrefix(a: Text, s: Text)
    requires OPEN !in a && FirstHole(s).NoSpan?
    ensures FirstHole(a + s).NoSpan?
  {
    FirstIsFound(a + s, OPEN, 0, |a|);
    AppendParts(a, s);
    IndexOfSuffix(a + s, OPEN, |a|, 0);
    var found := IndexOf(s, OPEN, 0);
    if found >= 0 {
      IndexOfSuffix(a + s, CLOSE, |a|, found + 1);
    }
  }

  /** Text without `{` in front of a template stays in front. */
  lemma {:induction false} LiteralPrefix(a: Text, s: Text, values: Values)
    requires OPEN !in a
    ensures Substitute(Tokenise(a + s), values) == Prepend(a, Substitute(Tokenise(s), values))
  {
    if a == [] {
      assert a + s == s;
      PrependNothing(Substitute(Tokenise(s), values));
    } else if s == [] {
      assert a + s == a + [] == a;
      NoHolePrefix(a, s);
      LiteralOnly(a, values);
    } else if FirstHole(s).NoSpan? {
      NoHolePrefix(a, s);
      LiteralOnly(a + s, values);
      LiteralOnly(s, values);
    } else {
      var front, middle, back := Split(s);
      LiteralBeforeHole(a, front, middle, back, values);
    }
  }

  lemma LiteralBeforeHole(a: Text, front: Text, middle: Text, back: Text, values: Values)
    requires OPEN !in a && OPEN !in front && CLOSE !in middle
    ensures var s := front + ([OPEN] + middle + [CLOSE] + back);
      Substitute(Tokenise(a + s), values) == Prepend(a, Substitute(Tokenise(s), values))
  {
    var rest := Substitute(Tokenise(back), values);
    assert a + (front + ([OPEN] + middle + [CLOSE] + back)) == (a + front) + ([OPEN] + middle + [CLOSE] + back);
    if middle == [] {
      assert [OPEN] + middle + [CLOSE] + back == [OPEN] + [] + [CLOSE] + back;
      BracesStep(front, back, values);
      BracesStep(a + front, back, values);
      PrependTwice(a, front + [OPEN, CLOSE], rest);
      assert a + (front + [OPEN, CLOSE]) == a + front + [OPEN, CLOSE];
    } else {
      HoleStep(front, middle, back, values);
      HoleStep(a + front, middle, back, values);
      PrependTwice(a, front, Filled(middle, rest, values));
    }
  }

  /** Whatever pieces a template was written with, serializing it substitutes exactly those pieces: no
      value, and no piece of text, is ever taken for a hole. */
  lemma {:induction false} PrintedTemplatesMean(tokens: seq<Token>, values: Values)
    requires forall t | t in tokens :: IsPiece(t)
    ensures Substitute(Tokenise(Print(tokens)), values) == Substitute(tokens, values)
  {
    if tokens != [] {
      var first, rest := tokens[0], tokens[1..];
      PrintedTemplatesMean(rest, values);
      assert tokens == [first] + rest && first in tokens;
      SubstituteCons(first, rest, values);
      PieceInFront(first, Print(rest), values);
    }
  }

  lemma PieceInFront(t: Token, s: Text, values: Values)
    requires IsPiece(t)
    ensures Substitute(Tokenise(PrintToken(t) + s), values) ==
      if SubstituteToken(t, values).None? then None
      else Prepend(SubstituteToken(t, values).value, Substitute(Tokenise(s), values))
  {
    match t
    case Hole(key) =>
      NothingInFront(key, s);
      HoleStep([], key, s, values);
      PrependNothing(Filled(key, Substitute(Tokenise(s), values), values));
    case Literal(text) =>
      if OPEN !in text {
        LiteralPrefix(text, s, values);
      } else {
        NothingInFront([], s);
        BracesStep([], s, values);
        assert [OPEN] + [] + [CLOSE] == text && [] + [OPEN, CLOSE] == text;
      }
  }

  lemma NothingInFront(middle: Text, s: Text)
    ensures [] + ([OPEN] + middle + [CLOSE] + s) == [OPEN] + middle + [CLOSE] + s
  {
  }

  // ---- values add no structure ----

  function Literals(tokens: seq<Token>): Text {
    if tokens == [] then []
    else (if tokens[0].Literal? then tokens[0].text else []) + Literals(tokens[1..])
  }

  lemma CountAppend(a: Text, b: Text, u: Unit)
    ensures multiset(a + b)[u] == multiset(a)[u] + multiset(b)[u]
  {
  }

  lemma CountAbsent(a: Text, u: Unit)
    requires u !in a
    ensures multiset(a)[u] == 0
  {
  }

  /** Whatever character no value holds stands in the result only where it stands in the template. */
  lemma {:induction false} ValuesAddNothing(tokens: seq<Token>, values: Values, u: Unit)
    requires Substitute(tokens, values).Some? && forall key | values(key).Some? :: u !in values(key).value
    ensures multiset(Substitute(tokens, values).value)[u] == multiset(Literals(tokens))[u]
  {
    if tokens != [] {
      var first, rest := SubstituteToken(tokens[0], values).value, Substitute(tokens[1..], values).value;
      ValuesAddNothing(tokens[1..], values, u);
      CountAppend(first, rest, u);
      if tokens[0].Hole? {
        CountAbsent(first, u);
        assert Literals(tokens) == Literals(tokens[1..]);
      } else {
        CountAppend(first, Literals(tokens[1..]), u);
      }
    }
  }

  /** So values add no `/`, `{`, `}`, `?` or `#`, and no other character that is escaped. */
  lemma ValuesAddNoStructure(schemaPath: Text, params: Params, u: Unit)
    requires Substitute(Tokenise(schemaPath), Encoded(params)).Some?
    requires u in {0x2F, 0x7B, 0x7D, 0x3F, 0x23} || (!IsPlain(u) && u != 0x25)
    ensures multiset(Substitute(Tokenise(schemaPath), Encoded(params)).value)[u] == multiset(Literals(Tokenise(schemaPath)))[u]
  {
    var values := Encoded(params);
    UnescapedIsPlain(u);
    forall key | values(key).Some?
      ensures u !in values(key).value
    {
      EncodedCharacters(match params(key) case None => [] case Some(v) => v);
    }
    ValuesAddNothing(Tokenise(schemaPath), values, u);
  }

  /** A hole takes the encoding of its value; null, undefined and a missing value leave nothing. */
  lemma HolesAreEncoded(params: Params, key: Text)
    ensures params(key).None? ==> SubstituteToken(Hole(key), Encoded(params)) == Some([])
    ensures params(key).Some? ==> SubstituteToken(Hole(key), Encoded(params)) == Encode(params(key).value)
  {
  }

  // ---- an id with a question mark ----

  /** One parameter, "id", with the value "a?b". */
  function OneId(): Params {
    (key: Text) => if key == Ascii("id") then Some(Ascii("a?b")) else None
  }

  lemma QuestionMarkIsEscaped()
    ensures Encode(Ascii("a?b")) == Some(Ascii("a%3Fb"))
  {
    assert Ascii("b") == ['b' as int] + [] && Ascii("?b") == ['?' as int] + Ascii("b") && Ascii("a?b") == ['a' as int] + Ascii("?b");
    assert "0123456789ABCDEF"[3] == '3' && "0123456789ABCDEF"[15] == 'F';
    assert Ascii("%3Fb") == ['%' as int, '3' as int, 'F' as int] + Ascii("b") && Ascii("a%3Fb") == ['a' as int] + Ascii("%3Fb");
    EncodeAscii('b' as int, [], []);
    EncodeAscii('?' as int, Ascii("b"), Ascii("b"));
    EncodeAscii('a' as int, Ascii("?b"), Ascii("%3Fb"));
  }

  lemma HoleAtTheEnd(front: Text, key: Text, e: Text, values: Values)
    requires OPEN !in front && key != [] && CLOSE !in key && values(key) == Some(e)
    ensures Substitute(Tokenise(front + ([OPEN] + key + [CLOSE] + [])), values) == Some(front + e)
  {
    HoleStep(front, key, [], values);
    assert Substitute(Tokenise([]), values) == Some([]) && e + [] == e;
  }

  lemma TemplateIsSpelled()
    ensures Ascii("/users/{id}") == Ascii("/users/") + ([OPEN] + Ascii("id") + [CLOSE] + [])
    ensures OPEN !in Ascii("/users/") && CLOSE !in Ascii("id") && Ascii("id") != []
    ensures Ascii("/users/a%3Fb") == Ascii("/users/") + Ascii("a%3Fb")
  {
  }

  /** `/users/{id}` with that id is `/users/a%3Fb`: still one path. */
  lemma UserIdIsEscaped()
    ensures Substitute(Tokenise(Ascii("/users/{id}")), Encoded(OneId())) == Some(Ascii("/users/a%3Fb"))
  {
    QuestionMarkIsEscaped();
    TemplateIsSpelled();
    HoleAtTheEnd(Ascii("/users/"), Ascii("id"), Ascii("a%3Fb"), Encoded(OneId()));
  }

  // ---- the functions of the source ----

  /** None is the URIError of a value that cannot be encoded. */
  method SerializePath(schemaPath: Text, params: Params) returns (r: Option<Text>)
    ensures r == Substitute(Tokenise(schemaPath), Encoded(params))
  {
    r := SubstituteFrom(schemaPath, Encoded(params));
  }

  /** The cursor loop. */
  method SubstituteFrom(schemaPath: Text, values: Values) returns (r: Option<Text>)
    ensures r == Substitute(Tokenise(schemaPath), values)
  {
    var chunks: Text := [];
    var cursor: nat := 0;
    ghost var all := Substitute(Tokenise(schemaPath), values);
    assert schemaPath[0..] == schemaPath;
    PrependNothing(all);
    while cursor < |schemaPath|
      invariant cursor <= |schemaPath|
      invariant all == Prepend(chunks, Substitute(Tokenise(schemaPath[cursor..]), values))
      decreases |schemaPath| - cursor
    {
      var chunk, next := TakeChunk(schemaPath, cursor, values);
      if chunk.None? {
        return None;
      }
      PrependTwice(chunks, chunk.value, Substitute(Tokenise(schemaPath[next..]), values));
      chunks := chunks + chunk.value;
      cursor := next;
    }
    assert schemaPath[cursor..] == [] && chunks + [] == chunks;
    return Some(chunks);
  }

  /** What the rest of the template serializes to starts with the chunk and goes on behind `next`; without a chunk
      it cannot be serialized. */
  ghost predicate Takes(s: Text, cursor: nat, chunk: Option<Text>, next: nat, values: Values)
    requires cursor <= |s| && next <= |s|
  {
    Substitute(Tokenise(s[cursor..]), values) ==
      if chunk.None? then None else Prepend(chunk.value, Substitute(Tokenise(s[next..]), values))
  }

  /** The body of the loop: the chunk it pushes and the cursor it moves to are the front of what the rest of the
      template serializes to, and the rest behind it. None is a value that cannot be encoded. */
  method TakeChunk(schemaPath: Text, cursor: nat, values: Values) returns (chunk: Option<Text>, next: nat)
    requires cursor < |schemaPath|
    ensures cursor < next <= |schemaPath| && Takes(schemaPath, cursor, chunk, next, values)
  {
    var open := IndexOf(schemaPath, OPEN, cursor);
    if open < 0 {
      chunk, next := TakeRest(schemaPath, cursor, values);
      return;
    }
    var close := IndexOf(schemaPath, CLOSE, open + 1);
    if close < 0 {
      chunk, next := TakeRest(schemaPath, cursor, values);
      return;
    }
    if close == open + 1 {
      chunk := TakeBraces(schemaPath, cursor, open, close, values);
    } else {
      chunk := TakeHole(schemaPath, cursor, open, close, values);
    }
    next := close + 1;
  }

  /** Everything that is left, when no hole is. */
  method TakeRest(schemaPath: Text, cursor: nat, values: Values) returns (chunk: Option<Text>, next: nat)
    requires cursor < |schemaPath|
    requires IndexOf(schemaPath, OPEN, cursor) < 0 || IndexOf(schemaPath, CLOSE, IndexOf(schemaPath, OPEN, cursor) + 1) < 0
    ensures next == |schemaPath| && chunk.Some? && Takes(schemaPath, cursor, chunk, next, values)
  {
    CursorAtEnd(schemaPath, cursor, values);
    return Some(schemaPath[cursor..]), |schemaPath|;
  }

  /** The text up to `{}`, and `{}` itself. */
  method TakeBraces(schemaPath: Text, cursor: nat, open: nat, close: nat, values: Values) returns (chunk: Option<Text>)
    requires cursor < |schemaPath| && IndexOf(schemaPath, OPEN, cursor) == open
    requires IndexOf(schemaPath, CLOSE, open + 1) == close && close == open + 1
    ensures chunk.Some? && Takes(schemaPath, cursor, chunk, close + 1, values)
  {
    CursorAtBraces(schemaPath, cursor, open, close, values);
    chunk := Some(schemaPath[cursor..close + 1]);
  }

  /** The text up to a hole, then its value. */
  method TakeHole(schemaPath: Text, cursor: nat, open: nat, close: nat, values: Values) returns (chunk: Option<Text>)
    requires cursor < |schemaPath| && IndexOf(schemaPath, OPEN, cursor) == open
    requires IndexOf(schemaPath, CLOSE, open + 1) == close && close > open + 1
    ensures Takes(schemaPath, cursor, chunk, close + 1, values)
  {
    var text, value := schemaPath[cursor..open], values(schemaPath[open + 1..close]);
    CursorAtHole(schemaPath, cursor, open, close, values);
    FilledInFront(text, schemaPath[open + 1..close], Substitute(Tokenise(schemaPath[close + 1..]), values), values);
    chunk := if value.None? then None else Some(text + value.value);
  }

  lemma FilledInFront(front: Text, key: Text, rest: Option<Text>, values: Values)
    ensures Prepend(front, Filled(key, rest, values)) == if values(key).None? then None else Prepend(front + values(key).value, rest)
  {
    if values(key).Some? {
      PrependTwice(front, values(key).value, rest);
    }
  }

  lemma {:induction false} CursorAtEnd(s: Text, cursor: nat, values: Values)
    requires cursor < |s|
    requires IndexOf(s, OPEN, cursor) < 0 || IndexOf(s, CLOSE, IndexOf(s, OPEN, cursor) + 1) < 0
    ensures Substitute(Tokenise(s[cursor..]), values) == Some(s[cursor..]) == Prepend(s[cursor..], Substitute(Tokenise(s[|s|..]), values))
  {
    NoHoleFrom(s, cursor);
    LiteralOnly(s[cursor..], values);
    assert s[|s|..] == [] && s[cursor..] + [] == s[cursor..];
  }

  lemma NoHoleFrom(s: Text, cursor: nat)
    requires cursor <= |s|
    requires IndexOf(s, OPEN, cursor) < 0 || IndexOf(s, CLOSE, IndexOf(s, OPEN, cursor) + 1) < 0
    ensures FirstHole(s[cursor..]).NoSpan?
  {
    IndexOfSuffix(s, OPEN, cursor, 0);
    var found := IndexOf(s[cursor..], OPEN, 0);
    if found >= 0 {
      IndexOfSuffix(s, CLOSE, cursor, found + 1);
    }
  }

  lemma CursorSplits(s: Text, cursor: nat, open: nat, close: nat)
    requires IndexOf(s, OPEN, cursor) == open && IndexOf(s, CLOSE, open + 1) == close
    ensures OPEN !in s[cursor..open] && CLOSE !in s[open + 1..close]
    ensures s[cursor..] == s[cursor..open] + ([OPEN] + s[open + 1..close] + [CLOSE] + s[close + 1..])
  {
    IndexOfIsFirst(s, OPEN, cursor);
    IndexOfIsFirst(s, CLOSE, open + 1);
    Rejoin(s, cursor, open, close);
  }

  lemma CursorAtBraces(s: Text, cursor: nat, open: nat, close: nat, values: Values)
    requires IndexOf(s, OPEN, cursor) == open && IndexOf(s, CLOSE, open + 1) == close && close == open + 1
    ensures Substitute(Tokenise(s[cursor..]), values) == Prepend(s[cursor..close + 1], Substitute(Tokenise(s[close + 1..]), values))
  {
    var front, back := s[cursor..open], s[close + 1..];
    CursorSplits(s, cursor, open, close);
    IndexOfIsFirst(s, OPEN, cursor);
    IndexOfIsFirst(s, CLOSE, open + 1);
    assert s[open + 1..close] == [];
    assert s[cursor..close + 1] == front + [OPEN, CLOSE];
    BracesStep(front, back, values);
  }

  lemma CursorAtHole(s: Text, cursor: nat, open: nat, close: nat, values: Values)
    requires IndexOf(s, OPEN, cursor) == open && IndexOf(s, CLOSE, open + 1) == close && close > open + 1
    ensures Substitute(Tokenise(s[cursor..]), values)
      == Prepend(s[cursor..open], Filled(s[open + 1..close], Substitute(Tokenise(s[close + 1..]), values), values))
  {
    CursorSplits(s, cursor, open, close);
    HoleStep(s[cursor..open], s[open + 1..close], s[close + 1..], values);
  }

  /** The longest prefix that does not end in a slash. */
  method TrimTrailingSlashes(value: Text) returns (r: Text)
    ensures |r| <= |value| && r == value[..|r|]
    ensures forall i | |r| <= i < |value| :: value[i] == '/' as int
    ensures r != [] ==> r[|r| - 1] != '/' as int
  {
    var end := |value|;
    while end > 0 && value[end - 1] == SLASH
      invariant 0 <= end <= |value|
      invariant forall i | end <= i < |value| :: value[i] == SLASH
    {
      end := end - 1;
    }
    return value[..end];
  }
}
