/** Parsing and expanding cache-key templates (proto/cachekey/parser.go). */
module CacheKey {
  import opened Wrappers
  import opened CacheKeyGrammar

  datatype Part = Literal(text: string) | Call(fn: string, arg: string)

  datatype ParseError =
    | Empty
    | TooLong
    | TooManyTokens
    | Straggler(offset: nat)
    | BadLiteral(offset: nat)
    | UnknownFunction(offset: nat)
    | ArgumentTooLong
    | EmptyArgument
    | ParentPath
    | AbsolutePath

  function PartOf(p: Piece): Part {
    match p
    case Text(raw) => Literal(raw)
    case Token(_, fn, arg) => Call(fn, arg)
  }

  function PartsOf(ps: seq<Piece>): (parts: seq<Part>)
    ensures |parts| == |ps| && forall k | 0 <= k < |ps| :: parts[k] == PartOf(ps[k])
  {
    seq(|ps|, k requires 0 <= k < |ps| => PartOf(ps[k]))
  }

  // ---------------------------------------------------------------- the matches

  datatype Match = Match(start: nat, end: nat, fn: string, arg: string)

  lemma RestIsSuffix(s: string)
    requires TokenPrefix(s).At?
    ensures TokenPrefix(s).rest == s[|s| - |TokenPrefix(s).rest|..]
  {
    var token := ScanIsSound(s);
  }

  /** Regexp.FindAllStringSubmatchIndex from offset `at`. */
  function Matches(raw: string, at: nat): (ms: seq<Match>)
    requires at <= |raw|
    ensures ms != [] ==> at <= ms[0].start < ms[0].end <= |raw|
    decreases |raw| - at
  {
    var k := Leftmost(raw[at..]);
    if at + k == |raw| then []
    else
      var t := TokenPrefix(raw[at..][k..]);
      var end := |raw| - |t.rest|;
      [Match(at + k, end, t.fn, t.arg)] + Matches(raw, end)
  }

  lemma LastText(raw: string, at: nat)
    requires at <= |raw| && Matches(raw, at) == []
    ensures Split(raw[at..]) == if at < |raw| then [Text(raw[at..])] else []
  {
    hide TokenPrefix;
    var s := raw[at..];
    if at < |raw| {
      assert s[0..] == s;
      assert s[..|s|] == s && s[|s|..] == [];
    }
  }

  /** The piece of text before a token, if any. */
  function TextBefore(text: string): seq<Piece> {
    if text == [] then [] else [Text(text)]
  }

  lemma SplitAtToken(s: string)
    requires Leftmost(s) < |s|
    ensures var k := Leftmost(s);
            var t := TokenPrefix(s[k..]);
            Split(s) == TextBefore(s[..k]) + ([Token(s[k..|s| - |t.rest|], t.fn, t.arg)] + Split(t.rest))
  {
    hide Leftmost;
    hide TokenPrefix;
    var k := Leftmost(s);
    assert s[0..] == s;
    assert s[k..][..|s[k..]| - |TokenPrefix(s[k..]).rest|] == s[k..|s| - |TokenPrefix(s[k..]).rest|];
    if k > 0 {
      assert !TokenAt(s, 0);
    }
  }

  lemma NextToken(raw: string, at: nat)
    requires at <= |raw| && Matches(raw, at) != []
    ensures var m := Matches(raw, at)[0];
            Split(raw[at..]) == TextBefore(raw[at..m.start])
                                + ([Token(raw[m.start..m.end], m.fn, m.arg)] + Split(raw[m.end..]))
  {
    hide TokenPrefix;
    hide Leftmost;
    hide Split;
    var s := raw[at..];
    var k := Leftmost(s);
    var t := TokenPrefix(s[k..]);
    var end := |raw| - |t.rest|;
    SplitAtToken(s);
    RestIsSuffix(s[k..]);
    assert s[k..] == raw[at + k..];
    assert raw[end..] == t.rest;
    assert s[..k] == raw[at..at + k];
    assert s[k..|s| - |t.rest|] == raw[at + k..end];
  }

  lemma {:induction false} MatchesAreTokens(raw: string, at: nat)
    requires at <= |raw|
    ensures Tokens(Split(raw[at..])) == |Matches(raw, at)|
    decreases |raw| - at
  {
    hide TokenPrefix;
    var ms := Matches(raw, at);
    if ms == [] {
      LastText(raw, at);
    } else {
      var m := ms[0];
      MatchesAreTokens(raw, m.end);
      NextToken(raw, at);
      TokenInFront(TextBefore(raw[at..m.start]), Token(raw[m.start..m.end], m.fn, m.arg), Split(raw[m.end..]));
    }
  }

  lemma TokenInFront(before: seq<Piece>, token: Piece, after: seq<Piece>)
    requires token.Token? && Tokens(before) == 0
    ensures Tokens(before + ([token] + after)) == 1 + Tokens(after)
  {
    TokensAdd(before, [token] + after);
    assert ([token] + after)[1..] == after;
  }

  lemma {:induction false} TokensAdd(a: seq<Piece>, b: seq<Piece>)
    ensures Tokens(a + b) == Tokens(a) + Tokens(b)
    decreases |a|
  {
    if a == [] {
      assert a + b == b;
    } else {
      TokensAdd(a[1..], b);
      assert (a + b)[1..] == a[1..] + b;
    }
  }

  // ----------------------------------------------------------------- the parser

  function FirstBraces(s: string): (k: nat)
    ensures k <= |s|
    ensures k < |s| ==> k + 1 < |s| && s[k] == '{' && s[k + 1] == '{'
    ensures k == |s| <==> !HasBraces(s)
  {
    if |s| < 2 then |s|
    else if s[0] == '{' && s[1] == '{' then 0
    else
      BracesFurtherOn(s);
      FirstBraces(s[1..]) + 1
  }

  lemma BracesFurtherOn(s: string)
    requires |s| >= 2 && !(s[0] == '{' && s[1] == '{')
    ensures HasBraces(s) <==> HasBraces(s[1..])
  {
    var t := s[1..];
    if k :| 0 <= k < |s| - 1 && s[k] == '{' && s[k + 1] == '{' {
      assert k > 0;
      assert t[k - 1] == '{' && t[k - 1 + 1] == '{';
    }
    if k :| 0 <= k < |t| - 1 && t[k] == '{' && t[k + 1] == '{' {
      assert s[k + 1] == '{' && s[k + 1 + 1] == '{';
    }
  }

  /** The check of one literal chunk. */
  function CheckChunk(chunk: string, cursor: nat, templated: bool): (bad: Option<ParseError>)
    ensures bad.None? <==> GoodPiece(Text(chunk), templated)
  {
    var k := FirstBraces(chunk);
    if k < |chunk| then Some(Straggler(cursor + k))
    else if templated && !AllStrict(chunk) then Some(BadLiteral(cursor))
    else None
  }

  /** The check of one call. */
  function CheckCall(raw: string, m: Match): (bad: Option<ParseError>)
    ensures bad.None? <==> GoodPiece(Token(raw, m.fn, m.arg), true)
  {
    if m.fn != "hash" then Some(UnknownFunction(m.start))
    else if |m.arg| > MAX_ARG_LENGTH then Some(ArgumentTooLong)
    else if m.arg == [] then Some(EmptyArgument)
    else if HasDotDot(m.arg) then Some(ParentPath)
    else if m.arg[0] == '/' then Some(AbsolutePath)
    else None
  }

  /** `pieces` is the good part of the cut before `cursor`. */
  ghost predicate Progress(raw: string, pieces: seq<Piece>, cursor: nat, templated: bool) {
    && cursor <= |raw|
    && Split(raw) == pieces + Split(raw[cursor..])
    && AllGood(pieces, templated)
  }

  lemma BadPieceRejects(before: seq<Piece>, p: Piece, after: seq<Piece>, templated: bool)
    requires !GoodPiece(p, templated)
    ensures !AllGood(before + ([p] + after), templated)
  {
    assert (before + ([p] + after))[|before|] == p;
  }

  lemma Regroup(a: seq<Piece>, b: seq<Piece>, c: seq<Piece>)
    ensures a + (b + c) == a + b + c
  {
  }

  /** One pass of the loop: any bad piece rejects the key, and good pieces are kept. */
  lemma StepOver(raw: string, pieces: seq<Piece>, cursor: nat, templated: bool)
    requires Progress(raw, pieces, cursor, templated) && Matches(raw, cursor) != []
    ensures Matches(raw, cursor)[1..] == Matches(raw, Matches(raw, cursor)[0].end)
    ensures var m := Matches(raw, cursor)[0];
            var token := Token(raw[m.start..m.end], m.fn, m.arg);
            var text := raw[cursor..m.start];
            if (text != [] && !GoodPiece(Text(text), templated)) || !GoodPiece(token, templated) then
              !AllGood(Split(raw), templated)
            else
              Progress(raw, pieces + TextBefore(text) + [token], m.end, templated)
  {
    hide TokenPrefix;
    var m := Matches(raw, cursor)[0];
    var token := Token(raw[m.start..m.end], m.fn, m.arg);
    var text, after := raw[cursor..m.start], Split(raw[m.end..]);
    NextToken(raw, cursor);
    if text != [] && !GoodPiece(Text(text), templated) {
      BadPieceRejects(pieces, Text(text), [token] + after, templated);
    }
    Regroup(pieces, TextBefore(text), [token] + after);
    if !GoodPiece(token, templated) {
      BadPieceRejects(pieces + TextBefore(text), token, after, templated);
    }
    Regroup(pieces + TextBefore(text), [token], after);
  }

  lemma StepToEnd(raw: string, pieces: seq<Piece>, cursor: nat, templated: bool)
    requires Progress(raw, pieces, cursor, templated) && Matches(raw, cursor) == []
    ensures Split(raw) == pieces + TextBefore(raw[cursor..])
    ensures AllGood(Split(raw), templated) <==> raw[cursor..] == [] || GoodPiece(Text(raw[cursor..]), templated)
  {
    hide TokenPrefix;
    LastText(raw, cursor);
    if raw[cursor..] != [] {
      assert Split(raw)[|pieces|] == Text(raw[cursor..]);
    }
  }

  /** An error of the walk; a straggler points at two braces of the key. */
  ghost predicate WalkError(raw: string, e: ParseError) {
    && !e.Empty? && !e.TooLong? && !e.TooManyTokens?
    && (e.Straggler? ==> e.offset + 1 < |raw| && raw[e.offset] == '{' && raw[e.offset + 1] == '{')
  }

  lemma ChunkErrors(raw: string, from: nat, to: nat, templated: bool)
    requires from <= to <= |raw|
    ensures var bad := CheckChunk(raw[from..to], from, templated); bad.Some? ==> WalkError(raw, bad.value)
  {
  }

  lemma StepParts(pieces: seq<Piece>, text: string, token: Piece)
    ensures PartsOf(pieces + TextBefore(text)) == PartsOf(pieces) + (if text == [] then [] else [Literal(text)])
    ensures PartsOf(pieces + TextBefore(text) + [token]) == PartsOf(pieces + TextBefore(text)) + [PartOf(token)]
  {
  }

  /** The loop over the matches and the tail after them. */
  method Walk(raw: string, matches: seq<Match>) returns (r: Result<seq<Part>, ParseError>)
    requires matches == Matches(raw, 0)
    ensures r.Ok? <==> AllGood(Split(raw), |matches| > 0)
    ensures r.Ok? ==> r.value == PartsOf(Split(raw))
    ensures r.Err? ==> WalkError(raw, r.error)
  {
    hide CheckChunk;
    hide TokenPrefix;
    hide Leftmost;
    hide Split;
    hide Matches;
    hide PartsOf;
    hide GoodPiece;
    var templated := |matches| > 0;
    var parts: seq<Part> := [];
    var cursor: nat := 0;
    ghost var pieces: seq<Piece> := [];
    assert raw[0..] == raw;
    assert PartsOf(pieces) == [];
    for j := 0 to |matches|
      invariant Progress(raw, pieces, cursor, templated) && matches[j..] == Matches(raw, cursor)
      invariant parts == PartsOf(pieces)
    {
      var m := matches[j];
      assert matches[j..][0] == m && matches[j..][1..] == matches[j + 1..];
      StepOver(raw, pieces, cursor, templated);
      StepParts(pieces, raw[cursor..m.start], Token(raw[m.start..m.end], m.fn, m.arg));
      if m.start > cursor {
        var chunk := raw[cursor..m.start];
        ChunkErrors(raw, cursor, m.start, templated);
        var bad := CheckChunk(chunk, cursor, templated);
        if bad.Some? {
          return Err(bad.value);
        }
        parts := parts + [Literal(chunk)];
      }
      var bad := CheckCall(raw[m.start..m.end], m);
      if bad.Some? {
        return Err(bad.value);
      }
      parts := parts + [Call(m.fn, m.arg)];
      pieces := pieces + TextBefore(raw[cursor..m.start]) + [Token(raw[m.start..m.end], m.fn, m.arg)];
      cursor := m.end;
    }
    StepToEnd(raw, pieces, cursor, templated);
    StepParts(pieces, raw[cursor..], Text(""));
    if cursor < |raw| {
      var chunk := raw[cursor..|raw|];
      assert chunk == raw[cursor..];
      ChunkErrors(raw, cursor, |raw|, templated);
      var bad := CheckChunk(chunk, cursor, templated);
      if bad.Some? {
        return Err(bad.value);
      }
      parts := parts + [Literal(chunk)];
    }
    return Ok(parts);
  }

  /** Accepts exactly the keys of the grammar and returns the parts of their one reading. */
  method Parse(raw: string) returns (r: Result<seq<Part>, ParseError>)
    ensures r.Ok? <==> Accepts(raw)
    ensures r.Ok? ==> r.value == PartsOf(Split(raw))
    ensures r == Err(Empty) <==> raw == []
    ensures r == Err(TooLong) <==> |raw| > MAX_KEY_LENGTH
    ensures r == Err(TooManyTokens) <==> 0 < |raw| <= MAX_KEY_LENGTH && Tokens(Split(raw)) > MAX_TOKENS
    ensures r.Err? && r.error.Straggler? ==>
              r.error.offset + 1 < |raw| && raw[r.error.offset] == '{' && raw[r.error.offset + 1] == '{'
  {
    if raw == [] {
      return Err(Empty);
    }
    if |raw| > MAX_KEY_LENGTH {
      return Err(TooLong);
    }
    hide TokenPrefix;
    hide Leftmost;
    hide Split;
    hide Matches;
    hide Tokens;
    var matches := Matches(raw, 0);
    assert raw[0..] == raw;
    MatchesAreTokens(raw, 0);
    if |matches| > MAX_TOKENS {
      return Err(TooManyTokens);
    }
    r := Walk(raw, matches);
  }
}
