/** Base64 with the URL-safe alphabet and without padding: RFC 4648, section 5, padding left out
    as section 3.2 allows. */
module Base64Url {
  import opened Wrappers

  type Byte = b: int | 0 <= b < 256

  type Six = v: int | 0 <= v < 64

  /** A 6-bit group as its character. */
  function CharOf(v: Six): char {
    if v < 26 then 'A' + v as char
    else if v < 52 then 'a' + (v - 26) as char
    else if v < 62 then '0' + (v - 52) as char
    else if v == 62 then '-' else '_'
  }

  /** The value of a character, None when it is not in the alphabet. */
  function ValueOf(c: char): Option<Six> {
    if 'A' <= c <= 'Z' then Some(c as int - 'A' as int)
    else if 'a' <= c <= 'z' then Some(c as int - 'a' as int + 26)
    else if '0' <= c <= '9' then Some(c as int - '0' as int + 52)
    else if c == '-' then Some(62)
    else if c == '_' then Some(63)
    else None
  }

  lemma CharRoundTrip(v: Six)
    ensures ValueOf(CharOf(v)) == Some(v)
  {
  }

  // The four 6-bit groups of three bytes, and back.
  function Group0(a: Byte): Six { a / 4 }
  function Group1(a: Byte, b: Byte): Six { a % 4 * 16 + b / 16 }
  function Group2(b: Byte, c: Byte): Six { b % 16 * 4 + c / 64 }
  function Group3(c: Byte): Six { c % 64 }
  function Byte0(u: Six, v: Six): Byte { u * 4 + v / 16 }
  function Byte1(u: Six, v: Six): Byte { u % 16 * 16 + v / 4 }
  function Byte2(u: Six, v: Six): Byte { u % 4 * 64 + v }

  /** Three bytes survive the regrouping. */
  lemma ThreeBytes(a: Byte, b: Byte, c: Byte)
    ensures Byte0(Group0(a), Group1(a, b)) == a
    ensures Byte1(Group1(a, b), Group2(b, c)) == b
    ensures Byte2(Group2(b, c), Group3(c)) == c
  {
  }

  function Encode(bs: seq<Byte>): string {
    if |bs| == 0 then ""
    else if |bs| == 1 then [CharOf(Group0(bs[0])), CharOf(Group1(bs[0], 0))]
    else if |bs| == 2 then [CharOf(Group0(bs[0])), CharOf(Group1(bs[0], bs[1])), CharOf(Group2(bs[1], 0))]
    else
      [CharOf(Group0(bs[0])), CharOf(Group1(bs[0], bs[1])), CharOf(Group2(bs[1], bs[2])), CharOf(Group3(bs[2]))]
      + Encode(bs[3..])
  }

  /** Decoding of complete and final groups; spare bits of the last character are ignored. */
  function DecodeGroups(s: string): Option<seq<Byte>> {
    if |s| == 0 then Some([])
    else if |s| == 1 || ValueOf(s[0]).None? || ValueOf(s[1]).None? then None
    else
      var (u, v) := (ValueOf(s[0]).value, ValueOf(s[1]).value);
      if |s| == 2 then Some([Byte0(u, v)])
      else if ValueOf(s[2]).None? then None
      else
        var w := ValueOf(s[2]).value;
        if |s| == 3 then Some([Byte0(u, v), Byte1(v, w)])
        else
          var rest := DecodeGroups(s[4..]);
          if ValueOf(s[3]).None? || rest.None? then None
          else Some([Byte0(u, v), Byte1(v, w), Byte2(w, ValueOf(s[3]).value)] + rest.value)
  }

  function StripNewlines(s: string): string {
    if s == [] then []
    else (if s[0] == '\n' || s[0] == '\r' then [] else [s[0]]) + StripNewlines(s[1..])
  }

  /** RawURLEncoding.DecodeString: line breaks are skipped wherever they are. */
  function Decode(s: string): Option<seq<Byte>> {
    DecodeGroups(StripNewlines(s))
  }

  predicate InAlphabet(s: string) {
    forall k | 0 <= k < |s| :: ValueOf(s[k]).Some?
  }

  lemma {:induction false} EncodedIsInAlphabet(bs: seq<Byte>)
    ensures InAlphabet(Encode(bs))
    decreases |bs|
  {
    hide ValueOf;
    hide CharOf;
    forall v: Six ensures ValueOf(CharOf(v)) == Some(v) {
      CharRoundTrip(v);
    }
    if |bs| >= 3 {
      EncodedIsInAlphabet(bs[3..]);
    }
  }

  lemma {:induction false} AlphabetHasNoNewlines(s: string)
    requires InAlphabet(s)
    ensures StripNewlines(s) == s
    decreases |s|
  {
    if s != [] {
      AlphabetHasNoNewlines(s[1..]);
    }
  }

  lemma {:induction false} GroupsRoundTrip(bs: seq<Byte>)
    ensures DecodeGroups(Encode(bs)) == Some(bs)
    decreases |bs|
  {
    hide ValueOf;
    hide CharOf;
    hide Group0;
    hide Group1;
    hide Group2;
    hide Group3;
    hide Byte0;
    hide Byte1;
    hide Byte2;
    forall v: Six ensures ValueOf(CharOf(v)) == Some(v) {
      CharRoundTrip(v);
    }
    if |bs| == 0 {
      assert bs == [];
    } else if |bs| == 1 {
      ThreeBytes(bs[0], 0, 0);
      assert bs == [bs[0]];
    } else if |bs| == 2 {
      ThreeBytes(bs[0], bs[1], 0);
      assert bs == [bs[0], bs[1]];
    } else {
      GroupsRoundTrip(bs[3..]);
      OneGroup(bs[0], bs[1], bs[2], Encode(bs[3..]));
      hide DecodeGroups;
      assert bs == [bs[0], bs[1], bs[2]] + bs[3..];
    }
  }

  /** Decoding takes a whole group at a time. */
  lemma OneGroup(a: Byte, b: Byte, c: Byte, rest: string)
    ensures DecodeGroups([CharOf(Group0(a)), CharOf(Group1(a, b)), CharOf(Group2(b, c)), CharOf(Group3(c))] + rest)
            == if DecodeGroups(rest).None? then None else Some([a, b, c] + DecodeGroups(rest).value)
  {
    hide ValueOf;
    hide CharOf;
    hide Group0;
    hide Group1;
    hide Group2;
    hide Group3;
    hide Byte0;
    hide Byte1;
    hide Byte2;
    CharRoundTrip(Group0(a));
    CharRoundTrip(Group1(a, b));
    CharRoundTrip(Group2(b, c));
    CharRoundTrip(Group3(c));
    ThreeBytes(a, b, c);
    var s := [CharOf(Group0(a)), CharOf(Group1(a, b)), CharOf(Group2(b, c)), CharOf(Group3(c))] + rest;
    assert s[4..] == rest;
  }

  /** Decoding gives back every byte string, whatever its length modulo three. */
  lemma RoundTrip(bs: seq<Byte>)
    ensures Decode(Encode(bs)) == Some(bs)
  {
    EncodedIsInAlphabet(bs);
    AlphabetHasNoNewlines(Encode(bs));
    GroupsRoundTrip(bs);
  }
}
