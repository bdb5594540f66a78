/** Cache-key templates such as `deps-{{ hash "go.sum" }}`: the grammar, the token scanner and
    the agreement between them (proto/cachekey/parser.go). Strings are byte strings. */
module CacheKeyGrammar {
  const MAX_KEY_LENGTH := 1024
  const MAX_TOKENS := 5
  const MAX_ARG_LENGTH := 255
  const HASH_OUTPUT_LENGTH := 12

  // -------------------------------------------------------- character classes

  datatype Class = Space | Word | NotQuote

  predicate In(c: char, cls: Class) {
    match cls
    case Space => c == ' ' || c == '\t' || c == '\n' || c == '\r' || c == 12 as char
    case Word => 'a' <= c <= 'z' || 'A' <= c <= 'Z' || '0' <= c <= '9' || c == '_'
    case NotQuote => c != '\"'
  }

  predicate All(s: string, cls: Class) {
    forall k | 0 <= k < |s| :: In(s[k], cls)
  }

  predicate Strict(c: char) {
    'a' <= c <= 'z' || 'A' <= c <= 'Z' || '0' <= c <= '9' || c == '-' || c == '_' || c == '.'
  }

  predicate AllStrict(s: string) {
    forall k | 0 <= k < |s| :: Strict(s[k])
  }

  predicate HasBraces(s: string) {
    exists k | 0 <= k < |s| - 1 :: s[k] == '{' && s[k + 1] == '{'
  }

  predicate HasDotDot(s: string) {
    exists k | 0 <= k < |s| - 1 :: s[k] == '.' && s[k + 1] == '.'
  }

  // ------------------------------------------------------------- the grammar

  function ClosingText(w3: string): string {
    "\"" + (w3 + "}}")
  }

  function CallText(w2: string, arg: string, w3: string): string {
    w2 + ("\"" + (arg + ClosingText(w3)))
  }

  function NamedText(fn: string, w2: string, arg: string, w3: string): string {
    fn + CallText(w2, arg, w3)
  }

  function TokenText(w1: string, fn: string, w2: string, arg: string, w3: string): string {
    "{{" + (w1 + NamedText(fn, w2, arg, w3))
  }

  ghost predicate TokenParts(s: string, w1: string, fn: string, w2: string, arg: string, w3: string) {
    && All(w1, Space) && All(w2, Space) && w2 != [] && All(w3, Space)
    && All(fn, Word) && fn != [] && All(arg, NotQuote)
    && s == TokenText(w1, fn, w2, arg, w3)
  }

  /** `s` is a token calling `fn` on `arg`; the three strings are its white space. */
  ghost predicate IsToken(s: string, fn: string, arg: string) {
    exists w1, w2, w3 :: TokenParts(s, w1, fn, w2, arg, w3)
  }

  /** A stretch of the raw key: plain text, or a token with its call. */
  datatype Piece = Text(raw: string) | Token(raw: string, fn: string, arg: string)

  function Concat(ps: seq<Piece>): string {
    if ps == [] then "" else ps[0].raw + Concat(ps[1..])
  }

  function Tokens(ps: seq<Piece>): nat {
    if ps == [] then 0 else (if ps[0].Token? then 1 else 0) + Tokens(ps[1..])
  }

  /** What one stretch of an accepted key must satisfy; `templated` tells whether the key has tokens. */
  predicate GoodPiece(p: Piece, templated: bool) {
    match p
    case Text(raw) => !HasBraces(raw) && (templated ==> AllStrict(raw))
    case Token(_, fn, arg) =>
      && fn == "hash" && 0 < |arg| <= MAX_ARG_LENGTH
      && !HasDotDot(arg) && arg[0] != '/'
  }

  predicate AllGood(ps: seq<Piece>, templated: bool) {
    forall k | 0 <= k < |ps| :: GoodPiece(ps[k], templated)
  }

  /** Tokens are tokens, texts are not empty and not next to each other. */
  ghost predicate WellCut(ps: seq<Piece>) {
    && (forall k | 0 <= k < |ps| && ps[k].Token? :: IsToken(ps[k].raw, ps[k].fn, ps[k].arg))
    && (forall k | 0 <= k < |ps| && ps[k].Text? :: ps[k].raw != [])
    && (forall k | 0 <= k < |ps| - 1 :: ps[k].Token? || ps[k + 1].Token?)
  }

  /** The grammar: `ps` is a reading of the key `raw`. */
  ghost predicate Derives(raw: string, ps: seq<Piece>) {
    && 0 < |raw| <= MAX_KEY_LENGTH
    && Concat(ps) == raw
    && WellCut(ps)
    && Tokens(ps) <= MAX_TOKENS
    && AllGood(ps, Tokens(ps) > 0)
  }

  // ------------------------------------------------------------- the scanner

  /** The longest prefix of `s` in the class. */
  function Span(s: string, cls: Class): (n: nat)
    ensures n <= |s| && All(s[..n], cls)
    ensures n < |s| ==> !In(s[n], cls)
  {
    if s == [] || !In(s[0], cls) then 0
    else
      var n := Span(s[1..], cls);
      assert s[..n + 1] == [s[0]] + s[1..][..n];
      n + 1
  }

  /** What was read, and the text after it. */
  datatype Found = Nothing | At(fn: string, arg: string, rest: string)

  /** The closing quote and braces. */
  function ScanClosing(s: string): (r: Found)
    ensures r.At? ==> |r.rest| < |s|
  {
    if !("\"" <= s) then Nothing else
    var atEnd := s[1..][Span(s[1..], Space)..];
    if "}}" <= atEnd then At("", "", atEnd[2..]) else Nothing
  }

  /** White space, a quoted argument and the closing. */
  function ScanCall(s: string): (r: Found)
    ensures r.At? ==> |r.rest| < |s|
  {
    var c := Span(s, Space);
    if c == 0 || !("\"" <= s[c..]) then Nothing else
    var atArg := s[c..][1..];
    var d := Span(atArg, NotQuote);
    var closing := ScanClosing(atArg[d..]);
    if closing.Nothing? then Nothing else At("", atArg[..d], closing.rest)
  }

  /** The function name and its call. */
  function ScanNamed(s: string): (r: Found)
    ensures r.At? ==> |r.rest| < |s|
  {
    var b := Span(s, Word);
    var call := ScanCall(s[b..]);
    if b == 0 || call.Nothing? then Nothing else At(s[..b], call.arg, call.rest)
  }

  /** The regular expression for a token, anchored at the start of `s`. */
  function TokenPrefix(s: string): (r: Found)
    ensures r.At? ==> |r.rest| < |s|
  {
    if "{{" <= s then ScanNamed(s[2..][Span(s[2..], Space)..]) else Nothing
  }

  predicate TokenAt(s: string, i: nat)
    requires i <= |s|
  {
    TokenPrefix(s[i..]).At?
  }

  lemma TokensMoveUp(s: string)
    requires s != []
    ensures forall i: nat {:trigger TokenAt(s, i)} | 1 <= i <= |s| :: TokenAt(s, i) <==> TokenAt(s[1..], i - 1)
  {
    hide TokenPrefix;
    forall i: nat | 1 <= i <= |s| ensures TokenAt(s, i) <==> TokenAt(s[1..], i - 1) {
      assert s[i..] == s[1..][i - 1..];
    }
  }

  /** The first offset at which a token starts; |s| when there is none. */
  function Leftmost(s: string): (k: nat)
    ensures k <= |s|
    ensures forall i {:trigger TokenAt(s, i)} | 0 <= i < k :: !TokenAt(s, i)
    ensures k < |s| ==> TokenAt(s, k)
  {
    hide TokenPrefix;
    hide TokenAt;
    if s == [] then 0
    else if TokenAt(s, 0) then 0
    else
      TokensMoveUp(s);
      Leftmost(s[1..]) + 1
  }

  /** Leftmost, non-overlapping tokens and the text between them. */
  function Split(s: string): seq<Piece>
    decreases |s|
  {
    if s == [] then []
    else
      var t := TokenPrefix(s);
      if t.At? then [Token(s[..|s| - |t.rest|], t.fn, t.arg)] + Split(t.rest)
      else
        assert s[0..] == s && !TokenAt(s, 0);
        var k := Leftmost(s);
        [Text(s[..k])] + Split(s[k..])
  }

  // ------------------------------------------------- the scanner is the grammar

  lemma {:induction false} SpanIs(a: string, b: string, cls: Class)
    requires All(a, cls) && (b == [] || !In(b[0], cls))
    ensures Span(a + b, cls) == |a| && (a + b)[|a|..] == b && (a + b)[..|a|] == a
    decreases |a|
  {
    if a == [] {
      assert a + b == b;
    } else {
      SpanIs(a[1..], b, cls);
      assert (a + b)[1..] == a[1..] + b;
    }
  }

  lemma Associate(a: string, b: string, c: string)
    ensures (a + b) + c == a + (b + c)
  {
  }

  lemma Halves(s: string, n: nat)
    requires n <= |s|
    ensures s == s[..n] + s[n..]
  {
  }

  lemma StartsWith(p: string, s: string)
    requires p <= s
    ensures s == p + s[|p|..]
  {
  }

  lemma ClosingIsSound(s: string) returns (w3: string)
    requires ScanClosing(s).At?
    ensures All(w3, Space) && s == ClosingText(w3) + ScanClosing(s).rest
  {
    var e := Span(s[1..], Space);
    w3 := s[1..][..e];
    assert s[1..][e..] == "}}" + ScanClosing(s).rest;
    assert s[1..] == w3 + s[1..][e..];
  }

  lemma ClosingIsComplete(w3: string, rest: string)
    requires All(w3, Space)
    ensures ScanClosing(ClosingText(w3) + rest) == At("", "", rest)
  {
    var s := ClosingText(w3) + rest;
    assert s[1..] == w3 + ("}}" + rest);
    SpanIs(w3, "}}" + rest, Space);
  }

  lemma CallAssociates(w2: string, arg: string, w3: string, rest: string)
    ensures CallText(w2, arg, w3) + rest == w2 + ("\"" + (arg + (ClosingText(w3) + rest)))
  {
    Associate(w2, "\"" + (arg + ClosingText(w3)), rest);
    Associate("\"", arg + ClosingText(w3), rest);
    Associate(arg, ClosingText(w3), rest);
  }

  lemma CallIsSound(s: string) returns (w2: string, w3: string)
    requires ScanCall(s).At?
    ensures All(w2, Space) && w2 != [] && All(w3, Space) && All(ScanCall(s).arg, NotQuote)
    ensures s == CallText(w2, ScanCall(s).arg, w3) + ScanCall(s).rest
  {
    var c := Span(s, Space);
    var atArg := s[c..][1..];
    var d := Span(atArg, NotQuote);
    w2 := s[..c];
    w3 := ClosingIsSound(atArg[d..]);
    Halves(atArg, d);
    StartsWith("\"", s[c..]);
    Halves(s, c);
    CallAssociates(w2, atArg[..d], w3, ScanCall(s).rest);
  }

  lemma CallIsComplete(w2: string, arg: string, w3: string, rest: string)
    requires All(w2, Space) && w2 != [] && All(w3, Space) && All(arg, NotQuote)
    ensures ScanCall(CallText(w2, arg, w3) + rest) == At("", arg, rest)
  {
    var closing := ClosingText(w3) + rest;
    CallAssociates(w2, arg, w3, rest);
    SpanIs(w2, "\"" + (arg + closing), Space);
    assert ("\"" + (arg + closing))[1..] == arg + closing;
    SpanIs(arg, closing, NotQuote);
    ClosingIsComplete(w3, rest);
  }

  lemma NamedIsSound(s: string) returns (w2: string, w3: string)
    requires ScanNamed(s).At?
    ensures var r := ScanNamed(s);
            && All(r.fn, Word) && r.fn != [] && All(w2, Space) && w2 != [] && All(w3, Space) && All(r.arg, NotQuote)
            && s == NamedText(r.fn, w2, r.arg, w3) + r.rest
  {
    var r := ScanNamed(s);
    var b := Span(s, Word);
    Halves(s, b);
    w2, w3 := CallIsSound(s[b..]);
    Associate(r.fn, CallText(w2, r.arg, w3), r.rest);
  }

  lemma NamedIsComplete(fn: string, w2: string, arg: string, w3: string, rest: string)
    requires All(fn, Word) && fn != [] && All(w2, Space) && w2 != [] && All(w3, Space) && All(arg, NotQuote)
    ensures ScanNamed(NamedText(fn, w2, arg, w3) + rest) == At(fn, arg, rest)
  {
    var call := CallText(w2, arg, w3) + rest;
    Associate(fn, CallText(w2, arg, w3), rest);
    SpanIs(fn, call, Word);
    CallIsComplete(w2, arg, w3, rest);
  }

  lemma TokenAssociates(w1: string, named: string, rest: string)
    ensures ("{{" + (w1 + named)) + rest == "{{" + (w1 + (named + rest))
  {
    Associate("{{", w1 + named, rest);
    Associate(w1, named, rest);
  }

  /** What the scanner finds is a token. */
  lemma ScanIsSound(s: string) returns (token: string)
    requires TokenPrefix(s).At?
    ensures s == token + TokenPrefix(s).rest
    ensures IsToken(token, TokenPrefix(s).fn, TokenPrefix(s).arg)
  {
    var t := TokenPrefix(s);
    var a := Span(s[2..], Space);
    var w1, atName := s[2..][..a], s[2..][a..];
    var w2, w3 := NamedIsSound(atName);
    token := TokenText(w1, t.fn, w2, t.arg, w3);
    assert TokenParts(token, w1, t.fn, w2, t.arg, w3);
    Halves(s[2..], a);
    StartsWith("{{", s);
    TokenAssociates(w1, NamedText(t.fn, w2, t.arg, w3), t.rest);
  }

  /** A token at the front is found, whatever follows it, and read in the only way. */
  lemma ScanIsComplete(s: string, fn: string, arg: string, rest: string)
    requires IsToken(s, fn, arg)
    ensures TokenPrefix(s + rest) == At(fn, arg, rest)
  {
    var w1, w2, w3 :| TokenParts(s, w1, fn, w2, arg, w3);
    var named := NamedText(fn, w2, arg, w3) + rest;
    TokenAssociates(w1, NamedText(fn, w2, arg, w3), rest);
    assert (s + rest)[2..] == w1 + named;
    SpanIs(w1, named, Space);
    NamedIsComplete(fn, w2, arg, w3, rest);
  }

  /** A token takes at least as many bytes as the hash that replaces it. */
  lemma TokenIsLong(s: string, fn: string, arg: string)
    requires IsToken(s, fn, arg) && |fn| >= 4 && |arg| >= 1
    ensures |s| >= HASH_OUTPUT_LENGTH
  {
    var w1, w2, w3 :| TokenParts(s, w1, fn, w2, arg, w3);
  }

  // ------------------------------------------------------------- one reading

  lemma PutInFront(p: Piece, ps: seq<Piece>)
    requires WellCut(ps)
    requires if p.Token? then IsToken(p.raw, p.fn, p.arg) else p.raw != [] && (ps == [] || ps[0].Token?)
    ensures WellCut([p] + ps) && Concat([p] + ps) == p.raw + Concat(ps)
  {
    assert ([p] + ps)[1..] == ps;
  }

  /** Cutting a key up loses nothing. */
  lemma {:induction false} SplitIsWellCut(s: string)
    ensures Concat(Split(s)) == s && WellCut(Split(s))
    ensures TokenPrefix(s).At? ==> Split(s) != [] && Split(s)[0].Token?
    decreases |s|
  {
    hide TokenPrefix;
    hide Leftmost;
    hide IsToken;
    if s != [] {
      var t := TokenPrefix(s);
      if t.At? {
        var token := ScanIsSound(s);
        assert s[..|s| - |t.rest|] == token;
        SplitIsWellCut(t.rest);
        PutInFront(Token(token, t.fn, t.arg), Split(t.rest));
      } else {
        assert s[0..] == s && !TokenAt(s, 0);
        var k := Leftmost(s);
        assert k < |s| ==> TokenAt(s, k);
        SplitIsWellCut(s[k..]);
        Halves(s, k);
        assert k == |s| ==> s[k..] == [];
        PutInFront(Text(s[..k]), Split(s[k..]));
      }
    } else {
      assert !("{{" <= s);
    }
  }

  lemma NoTokenWithoutBraces(s: string, i: nat)
    requires i <= |s| && !(i + 1 < |s| && s[i] == '{' && s[i + 1] == '{')
    ensures !TokenAt(s, i)
  {
    if i + 1 < |s| {
      assert s[i..][0] == s[i] && s[i..][1] == s[i + 1];
    }
  }

  /** No token starts inside a text, so the text ends where the next token starts. */
  lemma TextEndsAtToken(t: string, rest: string, templated: bool)
    requires t != [] && GoodPiece(Text(t), templated)
    requires rest == [] || (templated && TokenPrefix(rest).At?)
    ensures TokenPrefix(t + rest).Nothing? && Leftmost(t + rest) == |t|
  {
    hide TokenPrefix;
    hide Leftmost;
    var s := t + rest;
    forall i | 0 <= i < |t| ensures !TokenAt(s, i) {
      NoTokenWithoutBraces(s, i);
    }
    assert s[0..] == s && !TokenAt(s, 0);
    assert s[|t|..] == rest;
    assert rest != [] ==> TokenAt(s, |t|);
  }

  lemma {:induction false} OnlyReading(ps: seq<Piece>, templated: bool)
    requires WellCut(ps) && AllGood(ps, templated) && (templated || Tokens(ps) == 0)
    ensures Split(Concat(ps)) == ps
    decreases |ps|
  {
    hide TokenPrefix;
    hide Leftmost;
    hide IsToken;
    hide GoodPiece;
    if ps != [] {
      var p, rest := ps[0], ps[1..];
      OnlyReading(rest, templated);
      var s := Concat(ps);
      assert WellCut(rest);
      if p.Token? {
        ScanIsComplete(p.raw, p.fn, p.arg, Concat(rest));
        assert s[..|p.raw|] == p.raw;
      } else {
        if rest != [] {
          assert rest[0].Token?;
          ScanIsComplete(rest[0].raw, rest[0].fn, rest[0].arg, Concat(rest[1..]));
        }
        TextEndsAtToken(p.raw, Concat(rest), templated);
        assert s[..|p.raw|] == p.raw && s[|p.raw|..] == Concat(rest);
      }
    }
  }

  /** What the parser checks of a key once it is cut up. */
  ghost predicate Accepts(raw: string) {
    && 0 < |raw| <= MAX_KEY_LENGTH
    && Tokens(Split(raw)) <= MAX_TOKENS
    && AllGood(Split(raw), Tokens(Split(raw)) > 0)
  }

  /** The key has a reading exactly when its cut passes the checks, and it has no other reading. */
  lemma AcceptsIsTheGrammar(raw: string)
    ensures Accepts(raw) <==> exists ps :: Derives(raw, ps)
    ensures forall ps | Derives(raw, ps) :: ps == Split(raw)
  {
    forall ps | Derives(raw, ps) ensures ps == Split(raw) && Accepts(raw) {
      OnlyReading(ps, Tokens(ps) > 0);
    }
    SplitIsWellCut(raw);
    if Accepts(raw) {
      assert Derives(raw, Split(raw));
    }
  }
}
