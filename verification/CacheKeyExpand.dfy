/** Expanding templates and the cache entries of a job (proto/cachekey/parser.go,
    agent/internal/runner/cachekey_expand.go). */
module CacheKeyExpand {
  import opened Wrappers
  import opened CacheKeyGrammar
  import opened CacheKey

  /** The agent's hash function; it may fail. */
  type Resolver = string -> Result<string, string>

  predicate IsHex(s: string) {
    forall k | 0 <= k < |s| :: '0' <= s[k] <= '9' || 'a' <= s[k] <= 'f'
  }

  ghost predicate HexResolver(hash: Resolver) {
    forall arg :: hash(arg).Ok? && |hash(arg).value| == HASH_OUTPUT_LENGTH && IsHex(hash(arg).value)
  }

  // -------------------------------------------------------------------- expand

  /** What one part contributes; None when the call fails or answers with the wrong length. */
  function Contribution(p: Part, hash: Resolver): Option<string> {
    match p
    case Literal(text) => Some(text)
    case Call(fn, arg) =>
      if fn == "hash" && hash(arg).Ok? && |hash(arg).value| == HASH_OUTPUT_LENGTH then Some(hash(arg).value) else None
  }

  function Expansion(parts: seq<Part>, hash: Resolver): Option<string> {
    if parts == [] then Some("")
    else
      var head, tail := Contribution(parts[0], hash), Expansion(parts[1..], hash);
      if head.Some? && tail.Some? then Some(head.value + tail.value) else None
  }

  /** The expansion, unless its length or character set is out of bounds. */
  function CheckedExpansion(parts: seq<Part>, hash: Resolver): Option<string> {
    var v := Expansion(parts, hash);
    if v.Some? && v.value != [] && |v.value| <= MAX_KEY_LENGTH && AllStrict(v.value) then v else None
  }

  method Expand(parts: seq<Part>, hash: Resolver) returns (r: Option<string>)
    ensures r == CheckedExpansion(parts, hash)
  {
    var b := "";
    assert parts[0..] == parts;
    assert Expansion(parts, hash).Some? ==> "" + Expansion(parts, hash).value == Expansion(parts, hash).value;
    for i := 0 to |parts|
      invariant Expansion(parts[i..], hash).None? ==> Expansion(parts, hash).None?
      invariant Expansion(parts[i..], hash).Some? ==> Expansion(parts, hash) == Some(b + Expansion(parts[i..], hash).value)
    {
      assert parts[i..][1..] == parts[i + 1..];
      ghost var rest := Expansion(parts[i + 1..], hash);
      if Contribution(parts[i], hash).Some? && rest.Some? {
        Associate(b, Contribution(parts[i], hash).value, rest.value);
      }
      match parts[i] {
        case Literal(text) => b := b + text;
        case Call(fn, arg) =>
          if fn != "hash" {
            return None;
          }
          var v := hash(arg);
          if v.Err? || |v.value| != HASH_OUTPUT_LENGTH {
            return None;
          }
          b := b + v.value;
      }
    }
    assert parts[|parts|..] == [];
    assert b + "" == b;
    if |b| > MAX_KEY_LENGTH || b == [] || !AllStrict(b) {
      return None;
    }
    return Some(b);
  }

  method HasTokens(parts: seq<Part>) returns (yes: bool)
    ensures yes <==> exists k | 0 <= k < |parts| :: parts[k].Call?
  {
    for i := 0 to |parts|
      invariant forall k | 0 <= k < i :: !parts[k].Call?
    {
      if parts[i].Call? {
        return true;
      }
    }
    return false;
  }

  lemma {:induction false} CallsAreTokens(ps: seq<Piece>)
    ensures Tokens(ps) > 0 <==> exists k | 0 <= k < |ps| :: PartsOf(ps)[k].Call?
    decreases |ps|
  {
    if ps != [] {
      CallsAreTokens(ps[1..]);
      assert forall k | 1 <= k < |ps| :: PartsOf(ps)[k] == PartsOf(ps[1..])[k - 1];
      assert ps[0].Token? ==> PartsOf(ps)[0].Call?;
      if Tokens(ps[1..]) > 0 {
        var k :| 0 <= k < |ps[1..]| && PartsOf(ps[1..])[k].Call?;
        assert PartsOf(ps)[k + 1].Call?;
      }
    }
  }

  // ------------------------------------------------------- expansion succeeds

  /** Each hash is no longer than the token it replaces, and everything is in the strict set. */
  lemma {:induction false} ExpansionFits(ps: seq<Piece>, hash: Resolver)
    requires WellCut(ps) && AllGood(ps, true) && HexResolver(hash)
    ensures var v := Expansion(PartsOf(ps), hash);
            v.Some? && |v.value| <= |Concat(ps)| && AllStrict(v.value) && (ps != [] ==> v.value != [])
    decreases |ps|
  {
    if ps != [] {
      ExpansionFits(ps[1..], hash);
      assert PartsOf(ps)[1..] == PartsOf(ps[1..]);
      if ps[0].Token? {
        TokenIsLong(ps[0].raw, ps[0].fn, ps[0].arg);
      }
    }
  }

  /** An accepted key with tokens always expands, to a key no longer than its template and without a brace. */
  lemma TemplateExpands(raw: string, hash: Resolver)
    requires Accepts(raw) && Tokens(Split(raw)) > 0 && HexResolver(hash)
    ensures var out := CheckedExpansion(PartsOf(Split(raw)), hash);
            out.Some? && |out.value| <= |raw| && forall k | 0 <= k < |out.value| :: out.value[k] != '{' && out.value[k] != '}'
  {
    hide Split;
    SplitIsWellCut(raw);
    ExpansionFits(Split(raw), hash);
  }

  /** Strict text reads as itself, with no tokens. */
  lemma StrictTextIsLiteral(out: string)
    requires AllStrict(out) && 0 < |out| <= MAX_KEY_LENGTH
    ensures Split(out) == [Text(out)] && Tokens(Split(out)) == 0 && Accepts(out) && !HasBraces(out)
  {
    hide Split;
    assert Concat([Text(out)]) == out + Concat([]);
    OnlyReading([Text(out)], false);
    assert out + "" == out;
  }

  // --------------------------------------------- braces and tokens agree

  lemma BracesInPart(a: string, b: string, c: string)
    requires HasBraces(b)
    ensures HasBraces(a + b + c)
  {
    var k :| 0 <= k < |b| - 1 && b[k] == '{' && b[k + 1] == '{';
    var s := a + b + c;
    assert s[|a| + k] == '{' && s[|a| + k + 1] == '{';
  }

  lemma TokenHasBraces(s: string, fn: string, arg: string)
    requires IsToken(s, fn, arg)
    ensures HasBraces(s)
  {
    var w1, w2, w3 :| TokenParts(s, w1, fn, w2, arg, w3);
    assert s[0] == '{' && s[0 + 1] == '{';
  }

  lemma {:induction false} TokensShow(ps: seq<Piece>)
    requires WellCut(ps) && Tokens(ps) > 0
    ensures HasBraces(Concat(ps))
    decreases |ps|
  {
    hide IsToken;
    var p, rest := ps[0], ps[1..];
    if p.Token? {
      TokenHasBraces(p.raw, p.fn, p.arg);
      BracesInPart("", p.raw, Concat(rest));
      assert "" + p.raw + Concat(rest) == p.raw + Concat(rest);
    } else {
      TokensShow(rest);
      BracesInPart(p.raw, Concat(rest), "");
      assert p.raw + Concat(rest) + "" == p.raw + Concat(rest);
    }
  }

  /** For an accepted key the cheap probe for two braces tells exactly whether it has tokens. */
  lemma BracesMeanTokens(raw: string)
    requires Accepts(raw)
    ensures HasBraces(raw) <==> Tokens(Split(raw)) > 0
  {
    hide Split;
    SplitIsWellCut(raw);
    var ps := Split(raw);
    if Tokens(ps) > 0 {
      TokensShow(ps);
    } else {
      OnlyText(ps);
    }
  }

  lemma {:induction false} NoTokens(ps: seq<Piece>)
    requires Tokens(ps) == 0
    ensures forall k | 0 <= k < |ps| :: ps[k].Text?
    decreases |ps|
  {
    if ps != [] {
      NoTokens(ps[1..]);
      assert forall k | 1 <= k < |ps| :: ps[k] == ps[1..][k - 1];
    }
  }

  lemma OnlyText(ps: seq<Piece>)
    requires WellCut(ps) && AllGood(ps, false) && Tokens(ps) == 0
    ensures !HasBraces(Concat(ps))
  {
    NoTokens(ps);
    var first := if ps == [] then Text("") else ps[0];
    assert |ps| <= 1;
    if ps != [] {
      assert ps == [ps[0]];
      assert Concat(ps) == ps[0].raw + Concat([]);
      assert ps[0].raw + "" == ps[0].raw;
    }
  }

  // ------------------------------------------------------------ cache entries

  /** The key an entry must end up with; None when the job fails. */
  ghost function ExpandedKey(raw: string, hash: Resolver): Option<string> {
    if !Accepts(raw) then None
    else if Tokens(Split(raw)) == 0 then Some(raw)
    else CheckedExpansion(PartsOf(Split(raw)), hash)
  }

  /** An expanded key has no template left in it; expanding it again changes nothing. */
  lemma ExpandedKeyIsFinal(raw: string, hash: Resolver)
    requires ExpandedKey(raw, hash).Some?
    ensures var key := ExpandedKey(raw, hash).value; !HasBraces(key) && ExpandedKey(key, hash) == Some(key)
  {
    hide Split;
    if Tokens(Split(raw)) == 0 {
      BracesMeanTokens(raw);
    } else {
      StrictTextIsLiteral(ExpandedKey(raw, hash).value);
    }
  }

  class CacheEntry {
    var key: string

    constructor (key: string)
      ensures this.key == key
    {
      this.key := key;
    }
  }

  /** Expands one entry in place. */
  method ExpandEntry(e: CacheEntry, hash: Resolver) returns (ok: bool)
    modifies e
    ensures ok <==> ExpandedKey(old(e.key), hash).Some?
    ensures e.key == if ok then ExpandedKey(old(e.key), hash).value else old(e.key)
  {
    hide Split;
    hide CheckedExpansion;
    var raw := e.key;
    var parts := Parse(raw);
    if parts.Err? {
      return false;
    }
    CallsAreTokens(Split(raw));
    var tokens := HasTokens(parts.value);
    if !tokens {
      return true;
    }
    var expanded := Expand(parts.value, hash);
    if expanded.None? {
      return false;
    }
    e.key := expanded.value;
    return true;
  }

  /** Expands the keys of all entries in place and stops at the first failure. When it succeeds every
      key is its expansion and none holds a template; entries listed twice do no harm. */
  method ExpandCacheKeys(entries: seq<CacheEntry>, hash: Resolver) returns (ok: bool)
    modifies entries
    ensures ok <==> forall e <- entries :: ExpandedKey(old(e.key), hash).Some?
    ensures ok ==> forall e <- entries :: Some(e.key) == ExpandedKey(old(e.key), hash) && !HasBraces(e.key)
    ensures forall e <- entries :: e.key == old(e.key) || Some(e.key) == ExpandedKey(old(e.key), hash)
  {
    hide ExpandedKey;
    for i := 0 to |entries|
      invariant forall e <- entries[..i] :: Some(e.key) == ExpandedKey(old(e.key), hash)
      invariant forall e <- entries | e !in entries[..i] :: e.key == old(e.key)
    {
      var e := entries[i];
      assert entries[..i + 1] == entries[..i] + [e];
      if e in entries[..i] {
        ExpandedKeyIsFinal(old(e.key), hash);
      }
      var done := ExpandEntry(e, hash);
      if !done {
        return false;
      }
    }
    assert entries[..|entries|] == entries;
    forall e <- entries ensures !HasBraces(e.key) {
      ExpandedKeyIsFinal(old(e.key), hash);
    }
    return true;
  }

  // ------------------------------------------------------------ printing back

  function PrintPart(p: Part): string {
    match p
    case Literal(text) => text
    case Call(fn, arg) => TokenText(" ", fn, " ", arg, " ")
  }

  function Print(parts: seq<Part>): string {
    if parts == [] then "" else PrintPart(parts[0]) + Print(parts[1..])
  }

  function PieceOf(p: Part): Piece {
    match p
    case Literal(text) => Text(text)
    case Call(fn, arg) => Token(PrintPart(p), fn, arg)
  }

  function PiecesOf(parts: seq<Part>): (ps: seq<Piece>)
    ensures |ps| == |parts| && forall k | 0 <= k < |ps| :: ps[k] == PieceOf(parts[k])
  {
    seq(|parts|, k requires 0 <= k < |parts| => PieceOf(parts[k]))
  }

  /** A list of parts that can be written as a key. */
  ghost predicate Printable(parts: seq<Part>) {
    && 0 < |Print(parts)| <= MAX_KEY_LENGTH
    && Tokens(PiecesOf(parts)) <= MAX_TOKENS
    && AllGood(PiecesOf(parts), Tokens(PiecesOf(parts)) > 0)
    && (forall k | 0 <= k < |parts| :: match parts[k] case Literal(t) => t != [] case Call(_, arg) => All(arg, NotQuote))
    && (forall k | 0 <= k < |parts| - 1 :: parts[k].Call? || parts[k + 1].Call?)
  }

  lemma {:induction false} PrintIsConcat(parts: seq<Part>)
    ensures Concat(PiecesOf(parts)) == Print(parts)
    decreases |parts|
  {
    if parts != [] {
      PrintIsConcat(parts[1..]);
      assert PiecesOf(parts)[1..] == PiecesOf(parts[1..]);
    }
  }

  /** Parsing a printed list of parts gives the list back; arguments may hold braces or newlines. */
  lemma PrintParses(parts: seq<Part>)
    requires Printable(parts)
    ensures Accepts(Print(parts)) && PartsOf(Split(Print(parts))) == parts
  {
    hide Split;
    hide TokenText;
    var ps := PiecesOf(parts);
    PrintIsConcat(parts);
    forall k | 0 <= k < |ps| && ps[k].Token? ensures IsToken(ps[k].raw, ps[k].fn, ps[k].arg) {
      assert ps[k].fn == "hash";
      assert TokenParts(ps[k].raw, " ", ps[k].fn, " ", ps[k].arg, " ");
    }
    AcceptsIsTheGrammar(Print(parts));
    assert Derives(Print(parts), ps);
    assert PartsOf(ps) == parts;
  }
}
