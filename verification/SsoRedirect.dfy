/** The page a native sign-on returns to: normalized when stored and again when used. */
module SsoRedirect {
  import opened Options
  import opened Basics
  import opened UriComponents

  const SSO_REDIRECT_MAX_LENGTH := 2048

  /** "/pages/" */
  const PAGES: Text := [0x2F, 0x70, 0x61, 0x67, 0x65, 0x73, 0x2F]

  /** "/pages/user/index" */
  const DEFAULT_SSO_REDIRECT: Text := PAGES + [0x75, 0x73, 0x65, 0x72, 0x2F, 0x69, 0x6E, 0x64, 0x65, 0x78]

  // ---- trim ----

  /** WhiteSpace and LineTerminator of ECMA-262, sections 12.2 and 12.3. */
  predicate IsSpace(u: Unit) {
    || 0x09 <= u <= 0x0D || u == 0x20 || u == 0xA0 || u == 0xFEFF
    || u == 0x1680 || 0x2000 <= u <= 0x200A || u == 0x2028 || u == 0x2029 || u == 0x202F || u == 0x205F || u == 0x3000
  }

  function TrimStart(s: Text): Text {
    if s != [] && IsSpace(s[0]) then TrimStart(s[1..]) else s
  }

  function TrimEnd(s: Text): Text {
    if s != [] && IsSpace(s[|s| - 1]) then TrimEnd(s[..|s| - 1]) else s
  }

  function Trim(s: Text): Text {
    TrimEnd(TrimStart(s))
  }

  lemma {:induction false} TrimEndIsPrefix(s: Text)
    ensures |TrimEnd(s)| <= |s| && TrimEnd(s) == s[..|TrimEnd(s)|]
    ensures TrimEnd(s) != [] ==> !IsSpace(TrimEnd(s)[|TrimEnd(s)| - 1])
    ensures forall i | |TrimEnd(s)| <= i < |s| :: IsSpace(s[i])
  {
    if s != [] && IsSpace(s[|s| - 1]) {
      TrimEndIsPrefix(s[..|s| - 1]);
    }
  }

  lemma PageStart(s: Text)
    requires StartsWith(s, PAGES)
    ensures |s| >= 7 && s[0] == s[6] == 0x2F && s[1] == 0x70
  {
  }

  lemma PrefixStarts(s: Text, n: nat)
    requires 7 <= n <= |s|
    ensures StartsWith(s[..n], PAGES) <==> StartsWith(s, PAGES)
  {
  }

  /** A page keeps its prefix when trimmed, and can lose only white space at its end. */
  lemma {:induction false} TrimOfPage(s: Text)
    requires StartsWith(s, PAGES)
    ensures Trim(s) == TrimEnd(s) && StartsWith(Trim(s), PAGES)
    ensures Trim(Trim(s)) == Trim(s)
    ensures Trim(s) == s <==> !IsSpace(s[|s| - 1])
  {
    PageStart(s);
    TrimEndIsPrefix(s);
    var n := |TrimEnd(s)|;
    assert n >= 7;
    PrefixStarts(s, n);
    PageStart(TrimEnd(s));
  }

  // ---- the specification ----

  predicate HasControl(s: Text) {
    exists i :: 0 <= i < |s| && (s[i] <= 31 || s[i] == 127)
  }

  /** A page path that no decoding changes. */
  predicate IsPage(s: Text) {
    |s| <= SSO_REDIRECT_MAX_LENGTH && StartsWith(s, PAGES) && PERCENT !in s && !HasControl(s)
  }

  function DecodeTimes(s: Text, n: nat): Option<Text>
    decreases n
  {
    if n == 0 then Some(s)
    else
      var t := Decode(s);
      if t.None? then None else DecodeTimes(t.value, n - 1)
  }

  /** What an accepted redirect is: the page reached by decoding the trimmed value as often as it takes,
      at most twice. `value` is None for anything but a string. */
  ghost predicate Accepts(value: Option<Text>, page: Text) {
    && value.Some?
    && 0 < |Trim(value.value)| <= SSO_REDIRECT_MAX_LENGTH
    && IsPage(page)
    && exists n: nat :: n <= 2 && DecodeTimes(Trim(value.value), n) == Some(page)
  }

  lemma {:induction false} StableUnderDecoding(page: Text, n: nat)
    requires PERCENT !in page
    ensures DecodeTimes(page, n) == Some(page)
  {
    DecodeFixesIff(page);
    if n > 0 {
      StableUnderDecoding(page, n - 1);
    }
  }

  lemma {:induction false} DecodeTimesAdds(s: Text, m: nat, n: nat)
    requires DecodeTimes(s, m).Some?
    ensures DecodeTimes(s, m + n) == DecodeTimes(DecodeTimes(s, m).value, n)
    decreases m
  {
    if m > 0 {
      DecodeTimesAdds(Decode(s).value, m - 1, n);
    }
  }

  /** At most one page is accepted. */
  lemma AcceptedPageIsUnique(value: Option<Text>, p: Text, q: Text)
    requires Accepts(value, p) && Accepts(value, q)
    ensures p == q
  {
    var t := Trim(value.value);
    var m: nat :| m <= 2 && DecodeTimes(t, m) == Some(p);
    var n: nat :| n <= 2 && DecodeTimes(t, n) == Some(q);
    DecodeTimesAdds(t, m, 2 - m);
    DecodeTimesAdds(t, n, 2 - n);
    StableUnderDecoding(p, 2 - m);
    StableUnderDecoding(q, 2 - n);
  }

  // ---- the same in characters ----

  /** White space and line ends, one by one. */
  lemma SpacesAre(u: Unit)
    ensures IsSpace(u) <==> u in {
      0x0009, 0x000A, 0x000B, 0x000C, 0x000D, 0x0020, 0x00A0, 0x1680,
      0x2000, 0x2001, 0x2002, 0x2003, 0x2004, 0x2005, 0x2006, 0x2007, 0x2008, 0x2009, 0x200A,
      0x2028, 0x2029, 0x202F, 0x205F, 0x3000, 0xFEFF}
  {
  }

  lemma {:induction false} TrimStartIsSuffix(s: Text) returns (k: nat)
    ensures k <= |s| && TrimStart(s) == s[k..] && forall i | 0 <= i < k :: IsSpace(s[i])
    ensures k < |s| ==> !IsSpace(s[k])
  {
    if s != [] && IsSpace(s[0]) {
      var n := TrimStartIsSuffix(s[1..]);
      k := n + 1;
      assert s[1..][n..] == s[k..];
      assert forall i | 1 <= i < k :: s[i] == s[1..][i - 1];
    } else {
      k := 0;
    }
  }

  /** Trimming takes the white space at both ends, and nothing else. */
  lemma TrimMeans(s: Text) returns (from: nat, to: nat)
    ensures from <= to <= |s| && Trim(s) == s[from..to]
    ensures forall i | 0 <= i < from || to <= i < |s| :: IsSpace(s[i])
    ensures from < to ==> !IsSpace(s[from]) && !IsSpace(s[to - 1])
  {
    from := TrimStartIsSuffix(s);
    var t := s[from..];
    TrimEndIsPrefix(t);
    to := from + |Trim(s)|;
    assert forall i | to <= i < |s| :: s[i] == t[i - from];
  }

  lemma PathsAreSpelled()
    ensures PAGES == Ascii("/pages/") && DEFAULT_SSO_REDIRECT == Ascii("/pages/user/index")
  {
  }

  /** A page: at most 2048 units, "/pages/" in front, no percent sign, no control character. */
  lemma PageMeans(s: Text)
    ensures IsPage(s) <==>
      && 7 <= |s| <= 2048 && s[..7] == Ascii("/pages/")
      && forall i | 0 <= i < |s| :: s[i] >= 32 && s[i] != 127 && s[i] != '%' as int
  {
    PathsAreSpelled();
    assert StartsWith(s, PAGES) <==> 7 <= |s| && s[..7] == Ascii("/pages/");
  }

  /** What is accepted, decoding by decoding. */
  lemma AcceptsMeans(value: Option<Text>, page: Text)
    ensures Accepts(value, page) <==>
      && value.Some? && 1 <= |Trim(value.value)| <= 2048 && IsPage(page)
      && var once := Decode(Trim(value.value));
           Trim(value.value) == page || once == Some(page) || (once.Some? && Decode(once.value) == Some(page))
  {
    if value.Some? {
      var t := Trim(value.value);
      assert DecodeTimes(t, 0) == Some(t);
      assert DecodeTimes(t, 1) == Decode(t);
      assert DecodeTimes(t, 2) == if Decode(t).None? then None else Decode(Decode(t).value) by {
        if Decode(t).Some? {
          assert DecodeTimes(t, 2) == DecodeTimes(Decode(t).value, 1);
        }
      }
    }
  }

  // ---- the case of escapes ----

  lemma TrimIgnoresCase(s: Text, t: Text)
    requires SameEscapes(s, t)
    ensures SameEscapes(Trim(s), Trim(t))
  {
    StartIgnoresCase(s, t);
    EndIgnoresCase(TrimStart(s), TrimStart(t));
  }

  lemma {:induction false} StartIgnoresCase(s: Text, t: Text)
    requires SameEscapes(s, t)
    ensures SameEscapes(TrimStart(s), TrimStart(t))
  {
    if s != [] {
      assert SameAt(s, t, 0);
      if IsSpace(s[0]) {
        EscapesBehind(s, t, 1);
        StartIgnoresCase(s[1..], t[1..]);
      }
    }
  }

  lemma {:induction false} EndIgnoresCase(s: Text, t: Text)
    requires SameEscapes(s, t)
    ensures SameEscapes(TrimEnd(s), TrimEnd(t))
  {
    if s != [] {
      var last := |s| - 1;
      assert SameAt(s, t, last);
      if IsSpace(s[last]) {
        forall i | 0 <= i < last
          ensures SameAt(s[..last], t[..last], i)
        {
          assert SameAt(s, t, i);
        }
        EndIgnoresCase(s[..last], t[..last]);
      }
    }
  }

  lemma NoEscapesIsEqual(s: Text, t: Text)
    requires SameEscapes(s, t) && PERCENT !in s
    ensures s == t
  {
    forall i | 0 <= i < |s|
      ensures s[i] == t[i]
    {
      assert SameAt(s, t, i);
    }
  }

  lemma AcceptsInEitherCase(s: Text, t: Text, page: Text)
    requires SameEscapes(s, t) && Accepts(Some(s), page)
    ensures Accepts(Some(t), page)
  {
    var a, b := Trim(s), Trim(t);
    TrimIgnoresCase(s, t);
    EscapesIgnoreCase(a, b);
    AcceptsMeans(Some(s), page);
    AcceptsMeans(Some(t), page);
    if a == page {
      NoEscapesIsEqual(a, b);
    }
  }

  lemma SameEscapesIsSymmetric(s: Text, t: Text)
    requires SameEscapes(s, t)
    ensures SameEscapes(t, s)
  {
    SamePercent(s, t);
    forall i | 0 <= i < |s|
      ensures SameAt(t, s, i)
    {
      assert SameAt(s, t, i);
    }
  }

  /** The same pages are accepted whether escapes are written %2f or %2F. */
  lemma AcceptsIgnoresCase(s: Text, t: Text, page: Text)
    requires SameEscapes(s, t)
    ensures Accepts(Some(s), page) <==> Accepts(Some(t), page)
  {
    SameEscapesIsSymmetric(s, t);
    if Accepts(Some(s), page) {
      AcceptsInEitherCase(s, t, page);
    }
    if Accepts(Some(t), page) {
      AcceptsInEitherCase(t, s, page);
    }
  }

  // ---- the functions of the source ----

  /** Over code points: a pair of surrogates counts as one, and is never a control character. */
  method ContainsControlCharacter(s: Text) returns (found: bool)
    ensures found == HasControl(s)
    ensures found <==> exists i :: 0 <= i < |s| && (s[i] < 32 || s[i] == 127)
  {
    var i := 0;
    while i < |s|
      invariant 0 <= i <= |s|
      invariant forall j | 0 <= j < i :: !(s[j] <= 31 || s[j] == 127)
    {
      var point := PointAt(s[i..]);
      var codePoint: int, width: nat := s[i], 1;
      if point.Point? {
        codePoint, width := point.code, point.width;
        assert s[i..][..width] == Utf16(codePoint);
        assert forall j | 0 <= j < width :: s[i + j] == Utf16(codePoint)[j];
      }
      if codePoint <= 31 || codePoint == 127 {
        return true;
      }
      i := i + width;
    }
    return false;
  }

  method NormalizedRedirect(value: Option<Text>) returns (r: Option<Text>)
    ensures r.Some? ==> Accepts(value, r.value)
    ensures r.None? ==> forall page :: !Accepts(value, page)
  {
    if value.None? {
      return None;
    }
    var trimmed := Trim(value.value);
    var decoded := trimmed;
    if decoded == [] || |decoded| > SSO_REDIRECT_MAX_LENGTH {
      return None;
    }
    var attempt: nat := 0;
    while attempt < 2
      invariant attempt <= 2
      invariant DecodeTimes(trimmed, attempt) == Some(decoded)
      invariant |decoded| <= |trimmed|
    {
      var next := Decode(decoded);
      if next.None? {
        NothingAccepted(value, attempt, decoded);
        return None;
      }
      if next.value == decoded {
        break;
      }
      DecodeTimesAdds(trimmed, attempt, 1);
      DecodeShortens(decoded);
      decoded := next.value;
      attempt := attempt + 1;
    }
    DecodeFixesIff(decoded);
    if Decode(decoded) != Some(decoded) {
      NothingAccepted(value, attempt, decoded);
      return None;
    }
    var control := ContainsControlCharacter(decoded);
    if |decoded| > SSO_REDIRECT_MAX_LENGTH || !StartsWith(decoded, PAGES) || StartsWith(decoded, [0x2F, 0x2F]) || control {
      OnlyThisAccepted(value, attempt, decoded);
      PagesAreLocal(decoded);
      return None;
    }
    return Some(decoded);
  }

  /** The test for a protocol-relative path never decides. */
  lemma PagesAreLocal(s: Text)
    ensures StartsWith(s, PAGES) ==> !StartsWith(s, [0x2F, 0x2F])
  {
    if StartsWith(s, PAGES) {
      PageStart(s);
      assert s[..2][1] == s[1];
    }
  }

  /** A page is reached from every text on the way. */
  lemma PageIsAhead(value: Option<Text>, attempt: nat, decoded: Text, page: Text)
    requires value.Some? && attempt <= 2 && DecodeTimes(Trim(value.value), attempt) == Some(decoded)
    ensures Accepts(value, page) ==> DecodeTimes(decoded, 2 - attempt) == Some(page)
  {
    if Accepts(value, page) {
      var t := Trim(value.value);
      var n: nat :| n <= 2 && DecodeTimes(t, n) == Some(page);
      DecodeTimesAdds(t, n, 2 - n);
      StableUnderDecoding(page, 2 - n);
      DecodeTimesAdds(t, attempt, 2 - attempt);
    }
  }

  /** Once a text is stable nothing else is reached. */
  lemma OnlyThisAccepted(value: Option<Text>, attempt: nat, decoded: Text)
    requires value.Some? && attempt <= 2 && DecodeTimes(Trim(value.value), attempt) == Some(decoded) && PERCENT !in decoded
    ensures forall page | Accepts(value, page) :: page == decoded
  {
    forall page
      ensures Accepts(value, page) ==> page == decoded
    {
      PageIsAhead(value, attempt, decoded, page);
      StableUnderDecoding(decoded, 2 - attempt);
    }
  }

  /** A malformed escape, or an escape left after two decodings, shuts every page out. */
  lemma NothingAccepted(value: Option<Text>, attempt: nat, decoded: Text)
    requires value.Some? && attempt <= 2 && DecodeTimes(Trim(value.value), attempt) == Some(decoded)
    requires Decode(decoded).None? || (attempt == 2 && PERCENT in decoded)
    ensures forall page :: !Accepts(value, page)
  {
    if PERCENT !in decoded {
      DecodeWithoutPercent(decoded);
    }
    forall page
      ensures !Accepts(value, page)
    {
      PageIsAhead(value, attempt, decoded, page);
      assert attempt < 2 ==> DecodeTimes(decoded, 2 - attempt) == None;
    }
  }

  // ---- normal forms ----

  ghost function Normalized(value: Option<Text>): (r: Option<Text>)
    ensures r.Some? ==> Accepts(value, r.value)
    ensures r.None? ==> forall page :: !Accepts(value, page)
  {
    if exists page :: Accepts(value, page) then
      var page :| Accepts(value, page);
      Some(page)
    else None
  }

  lemma NormalizedIs(value: Option<Text>, page: Text)
    requires Accepts(value, page)
    ensures Normalized(value) == Some(page)
  {
    AcceptedPageIsUnique(value, page, Normalized(value).value);
  }

  /** A page normalizes to itself without the white space at its end. */
  lemma PageNormalizes(page: Text)
    requires IsPage(page)
    ensures IsPage(Trim(page)) && Normalized(Some(page)) == Some(Trim(page))
  {
    TrimOfPage(page);
    var t := Trim(page);
    TrimEndIsPrefix(page);
    assert forall i | 0 <= i < |t| :: t[i] == page[i];
    assert DecodeTimes(t, 0) == Some(t);
    NormalizedIs(Some(page), t);
  }

  /** An accepted redirect is a page under any number of further decodings. */
  lemma AcceptedIsStable(value: Option<Text>, n: nat)
    requires Normalized(value).Some?
    ensures IsPage(Normalized(value).value) && DecodeTimes(Normalized(value).value, n) == Normalized(value)
  {
    StableUnderDecoding(Normalized(value).value, n);
  }

  /** Normalizing is not idempotent: twice is once with the end trimmed. It is stable from the second time
      on, and already from the first exactly when the result does not end in white space. */
  lemma NormalizingTwice(value: Option<Text>)
    ensures var once := Normalized(value); var twice := Normalized(once);
      && twice == (if once.Some? then Some(Trim(once.value)) else None)
      && Normalized(twice) == twice
      && (twice == once <==> once.None? || !IsSpace(once.value[|once.value| - 1]))
  {
    var once := Normalized(value);
    assert !Accepts(None, []);
    if once.Some? {
      PageNormalizes(once.value);
      TrimOfPage(once.value);
      PageNormalizes(Trim(once.value));
    }
  }

  /** "/pages/%20" is accepted as "/pages/ ", which normalizes to "/pages/". */
  lemma TrailingEscapeIsNotIdempotent()
    ensures var value := Some(PAGES + Escape(0x20));
      Normalized(value) == Some(PAGES + [0x20]) && Normalized(Normalized(value)) == Some(PAGES)
  {
    var s, page := PAGES + Escape(0x20), PAGES + [0x20];
    assert s == [0x2F, 0x70, 0x61, 0x67, 0x65, 0x73, 0x2F, 0x25, 0x32, 0x30];
    assert s[0] == 0x2F && s[|s| - 1] == 0x30;
    assert Trim(s) == s;
    assert Escape(0x20)[3..] == [] && Escape(0x20) == [0x25, 0x32, 0x30];
    assert DecodePoint(Escape(0x20)) == Point(0x20, 1);
    assert Utf16(0x20) == [0x20] && [0x20] + [] == [0x20];
    assert Decode([]) == Some([]);
    assert Decode(Escape(0x20)) == Some([0x20]);
    DecodePrefix(PAGES, Escape(0x20), [0x20]);
    assert DecodeTimes(s, 1) == Some(page) by {
      assert DecodeTimes(page, 0) == Some(page);
    }
    assert page[..7] == PAGES && |page| == 8;
    NormalizedIs(Some(s), page);
    PageNormalizes(page);
    TrimEndIsPrefix(page);
    assert page[..|page| - 1] == PAGES && TrimEnd(page) == TrimEnd(PAGES) == PAGES;
    TrimOfPage(page);
  }

  lemma {:induction false} DecodePrefix(a: Text, b: Text, s: Text)
    requires PERCENT !in a && Decode(b) == Some(s)
    ensures Decode(a + b) == Some(a + s)
  {
    if a == [] {
      assert a + b == b && a + s == s;
    } else {
      DecodePrefix(a[1..], b, s);
      AppendIsAssociative([a[0]], a[1..], b);
      AppendIsAssociative([a[0]], a[1..], s);
      AppendParts([a[0]], a[1..] + b);
      assert a == [a[0]] + a[1..];
    }
  }

  // ---- encoded pages ----

  lemma EncodedIsTrimmed(s: Text)
    requires Encode(s).Some?
    ensures Trim(Encode(s).value) == Encode(s).value && WellFormed(Encode(s).value)
  {
    EncodedCharacters(s);
    var e := Encode(s).value;
    assert forall i | 0 <= i < |e| :: !IsSpace(e[i]) && e[i] < 0x80;
  }

  /** What needs an escape at its start has one when encoded, and still does when encoded again. */
  lemma EncodedStartsWithPercent(s: Text)
    requires s != [] && Encode(s).Some? && !IsUnescaped(s[0])
    ensures Encode(s).value != [] && Encode(s).value[0] == PERCENT && !IsUnescaped(PERCENT)
  {
  }

  /** One level of encoding of a text that needs some. */
  predicate EncodesTo(s: Text, e: Text) {
    e != [] && e[0] == PERCENT && Trim(e) == e && Decode(e) == Some(s)
  }

  lemma EncodingOnce(s: Text, e: Text)
    requires s != [] && !IsUnescaped(s[0]) && Encode(s) == Some(e)
    ensures EncodesTo(s, e) && !IsUnescaped(PERCENT)
  {
    EncodedIsTrimmed(s);
    EncodedStartsWithPercent(s);
    DecodeOfEncode(s, e);
  }

  lemma DepthOne(page: Text, e: Text)
    requires IsPage(page) && EncodesTo(page, e)
    ensures |e| <= SSO_REDIRECT_MAX_LENGTH ==> Normalized(Some(e)) == Some(page)
  {
    assert DecodeTimes(page, 0) == Some(page);
    assert DecodeTimes(e, 1) == Some(page);
    if |e| <= SSO_REDIRECT_MAX_LENGTH {
      NormalizedIs(Some(e), page);
    }
  }

  lemma DepthTwo(page: Text, e1: Text, e2: Text)
    requires IsPage(page) && EncodesTo(page, e1) && EncodesTo(e1, e2)
    ensures |e2| <= SSO_REDIRECT_MAX_LENGTH ==> Normalized(Some(e2)) == Some(page)
  {
    assert DecodeTimes(page, 0) == Some(page);
    assert DecodeTimes(e1, 1) == Some(page);
    assert DecodeTimes(e2, 2) == DecodeTimes(e1, 1);
    if |e2| <= SSO_REDIRECT_MAX_LENGTH {
      NormalizedIs(Some(e2), page);
    }
  }

  lemma DepthThree(e1: Text, e2: Text, e3: Text)
    requires PERCENT in e1 && EncodesTo(e1, e2) && EncodesTo(e2, e3)
    ensures Normalized(Some(e3)) == None
  {
    assert DecodeTimes(e1, 0) == Some(e1);
    assert DecodeTimes(e2, 1) == Some(e1);
    assert DecodeTimes(e3, 2) == DecodeTimes(e2, 1);
    NothingAccepted(Some(e3), 2, e1);
  }

  lemma PageNeedsEncoding(page: Text)
    requires IsPage(page)
    ensures page != [] && !IsUnescaped(page[0])
  {
  }

  /** A page may arrive as it is, encoded, or encoded twice; encoded three times it is refused. */
  lemma {:induction false} EncodingDepth(page: Text, e1: Text, e2: Text, e3: Text)
    requires IsPage(page) && Encode(page) == Some(e1) && Encode(e1) == Some(e2) && Encode(e2) == Some(e3)
    ensures |e1| <= SSO_REDIRECT_MAX_LENGTH ==> Normalized(Some(e1)) == Some(page)
    ensures |e2| <= SSO_REDIRECT_MAX_LENGTH ==> Normalized(Some(e2)) == Some(page)
    ensures Normalized(Some(e3)) == None
  {
    PageNeedsEncoding(page);
    EncodingOnce(page, e1);
    EncodingOnce(e1, e2);
    EncodingOnce(e2, e3);
    DepthOne(page, e1);
    DepthTwo(page, e1, e2);
    DepthThree(e1, e2, e3);
  }

  // ---- storage ----

  ghost function NormalizeOption(value: Option<Text>): Text {
    if Normalized(value).Some? then Normalized(value).value else DEFAULT_SSO_REDIRECT
  }

  lemma DefaultIsPage()
    ensures IsPage(DEFAULT_SSO_REDIRECT) && Trim(DEFAULT_SSO_REDIRECT) == DEFAULT_SSO_REDIRECT
  {
  }

  /** What consuming returns when `stored` can be read: a page that normalizes to itself. */
  ghost function Consumed(stored: Option<Text>): Text {
    NormalizeOption(Normalized(stored))
  }

  /** Storing a path and consuming it gives its stable form; and whatever is in the storage, what comes
      out is a page in stable form. */
  lemma ConsumeIsStable(path: Option<Text>, stored: Option<Text>)
    ensures Consumed(Some(NormalizeOption(path))) == Trim(NormalizeOption(path))
    ensures IsPage(Consumed(stored)) && Normalized(Some(Consumed(stored))) == Some(Consumed(stored))
  {
    DefaultIsPage();
    var p := NormalizeOption(path);
    PageNormalizes(p);
    TrimOfPage(p);
    PageNormalizes(Trim(p));
    NormalizingTwice(stored);
    PageNormalizes(DEFAULT_SSO_REDIRECT);
  }

  /** In words of what is accepted: the page of a stored value without the white space at its end, or the default. */
  lemma ConsumedMeans(stored: Option<Text>)
    ensures forall page | Accepts(stored, page) :: Consumed(stored) == Trim(page)
    ensures (forall page :: !Accepts(stored, page)) ==> Consumed(stored) == DEFAULT_SSO_REDIRECT
  {
    DefaultIsPage();
    forall page | Accepts(stored, page)
      ensures Consumed(stored) == Trim(page)
    {
      NormalizedIs(stored, page);
      PageNormalizes(page);
    }
    assert !Accepts(None, []);
  }

  /** The storage of the runtime; each operation may be missing or throw. None is an absent value or one
      that is no string. */
  class Storage {
    var stored: Option<Text>
    var canSet: bool
    var canGet: bool
    var canRemove: bool

    method PersistSSORedirect(path: Option<Text>)
      modifies this`stored
      ensures stored == if canSet then Some(NormalizeOption(path)) else old(stored)
      ensures canSet ==> forall page | Accepts(path, page) :: stored == Some(page)
      ensures canSet && (forall page :: !Accepts(path, page)) ==> stored == Some(DEFAULT_SSO_REDIRECT)
    {
      if !canSet {
        return;
      }
      var target := NormalizeRedirectOption(path);
      stored := Some(target);
    }

    method ReadStoredSSORedirect() returns (r: Option<Text>)
      ensures r == if canGet then Normalized(stored) else None
      ensures canGet ==> forall page :: Accepts(stored, page) <==> r == Some(page)
    {
      if !canGet {
        return None;
      }
      r := NormalizedRedirect(stored);
      ghost var n := Normalized(stored);
      if r.Some? {
        NormalizedIs(stored, r.value);
      }
      forall page
        ensures Accepts(stored, page) <==> r == Some(page)
      {
        if Accepts(stored, page) {
          AcceptedPageIsUnique(stored, page, r.value);
        }
      }
    }

    method ClearStoredSSORedirect()
      modifies this`stored
      ensures stored == if canRemove then None else old(stored)
    {
      if canRemove {
        stored := None;
      }
    }

    /** Always a page in stable form, even when nothing can be read. */
    method ConsumeStoredSSORedirect() returns (target: Text)
      modifies this`stored
      ensures target == if canGet then Consumed(old(stored)) else DEFAULT_SSO_REDIRECT
      ensures canGet ==> forall page | Accepts(old(stored), page) :: target == Trim(page)
      ensures !canGet || (forall page :: !Accepts(old(stored), page)) ==> target == DEFAULT_SSO_REDIRECT
      ensures IsPage(target) && Normalized(Some(target)) == Some(target)
      ensures stored == if canRemove then None else old(stored)
    {
      var read := ReadStoredSSORedirect();
      target := NormalizeRedirectOption(read);
      ClearStoredSSORedirect();
      ConsumeIsStable(None, old(stored));
      ConsumedMeans(old(stored));
      DefaultIsPage();
      PageNormalizes(DEFAULT_SSO_REDIRECT);
      assert !Accepts(None, []);
    }
  }

  method NormalizeRedirectOption(value: Option<Text>) returns (r: Text)
    ensures r == NormalizeOption(value)
    ensures forall page | Accepts(value, page) :: r == page
    ensures (forall page :: !Accepts(value, page)) ==> r == DEFAULT_SSO_REDIRECT
  {
    var n := NormalizedRedirect(value);
    if n.Some? {
      NormalizedIs(value, n.value);
    }
    r := if n.Some? then n.value else DEFAULT_SSO_REDIRECT;
    forall page | Accepts(value, page)
      ensures r == page
    {
      AcceptedPageIsUnique(value, page, n.value);
    }
  }
}
