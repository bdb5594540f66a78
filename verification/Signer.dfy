/** Capability tokens of the filesystem artifact store (server/internal/artifacts/signer.go). */
module Signer {
  import opened Wrappers
  import opened Strings
  import opened Decimal
  import opened Base64Url

  /** Times are nanoseconds since 1970. */
  const SECOND := 1_000_000_000

  datatype Verb = PUT | GET

  function Text(verb: Verb): string {
    match verb case PUT => "PUT" case GET => "GET"
  }

  /** HMAC-SHA256 under the signer's secret, as an unknown function of the payload. */
  type Mac = string -> seq<Byte>

  /** Time.Unix: whole seconds, rounded down. */
  function Unix(t: int): int {
    t / SECOND
  }

  function Payload(key: seq<Byte>, verb: Verb, exp: int): string {
    Join([Encode(key), Text(verb), FormatInt(Unix(exp))], '.')
  }

  function Sign(mac: Mac, key: seq<Byte>, verb: Verb, exp: int): string {
    var payload := Payload(key, verb, exp);
    payload + "." + Encode(mac(payload))
  }

  function Verify(mac: Mac, token: string, want: Verb, now: int): Option<seq<Byte>> {
    var parts := Split(token, '.');
    if |parts| != 4 then None
    else if parts[1] != Text(want) then None
    else
      var exp := ParseInt(parts[2]);
      if exp.None? || now > exp.value * SECOND then None
      else if parts[3] != Encode(mac(Join(parts[..3], '.'))) then None
      else Decode(parts[0])
  }

  // ------------------------------------------------------------- no stray dots

  lemma FieldsHaveNoDots(key: seq<Byte>, verb: Verb, n: int)
    ensures '.' !in Encode(key) && '.' !in Text(verb) && '.' !in FormatInt(n)
  {
    EncodedIsInAlphabet(key);
    var s := Encode(key);
    forall k | 0 <= k < |s| ensures s[k] != '.' {
      assert ValueOf(s[k]).Some?;
    }
    FormatNonEmpty(n);
    forall k | 0 <= k < |FormatInt(n)| ensures FormatInt(n)[k] != '.' {
      assert k > 0 ==> IsDigit(FormatInt(n)[k]);
      assert AllDigits(Digits(if n < 0 then -n else n));
    }
  }

  lemma PayloadSplits(key: seq<Byte>, verb: Verb, exp: int)
    ensures Split(Payload(key, verb, exp), '.') == [Encode(key), Text(verb), FormatInt(Unix(exp))]
  {
    FieldsHaveNoDots(key, verb, Unix(exp));
    SplitJoin([Encode(key), Text(verb), FormatInt(Unix(exp))], '.');
  }

  /** The signed text determines the key, the verb and the expiry second. */
  lemma PayloadInjective(k: seq<Byte>, v: Verb, e: int, k2: seq<Byte>, v2: Verb, e2: int)
    requires Payload(k, v, e) == Payload(k2, v2, e2)
    ensures k == k2 && v == v2 && Unix(e) == Unix(e2)
  {
    PayloadSplits(k, v, e);
    PayloadSplits(k2, v2, e2);
    var a := [Encode(k), Text(v), FormatInt(Unix(e))];
    var b := [Encode(k2), Text(v2), FormatInt(Unix(e2))];
    assert a[0] == b[0] && a[1] == b[1] && a[2] == b[2];
    RoundTrip(k);
    RoundTrip(k2);
    assert Text(v)[0] == Text(v2)[0];
    FormatInjective(Unix(e), Unix(e2));
  }

  lemma TokenSplits(mac: Mac, key: seq<Byte>, verb: Verb, exp: int)
    ensures Split(Sign(mac, key, verb, exp), '.')
            == [Encode(key), Text(verb), FormatInt(Unix(exp)), Encode(mac(Payload(key, verb, exp)))]
  {
    hide Join;
    hide Encode;
    hide FormatInt;
    var (a, b, c) := (Encode(key), Text(verb), FormatInt(Unix(exp)));
    var sig := Encode(mac(Payload(key, verb, exp)));
    FieldsHaveNoDots(key, verb, Unix(exp));
    FieldsHaveNoDots(mac(Payload(key, verb, exp)), verb, 0);
    SplitJoin([a, b, c, sig], '.');
    JoinAppend([a, b, c], sig, '.');
    assert [a, b, c] + [sig] == [a, b, c, sig];
    assert Payload(key, verb, exp) + "." + sig == Payload(key, verb, exp) + ("." + sig);
    assert Join([a, b, c, sig], '.') == Sign(mac, key, verb, exp);
  }

  /** A token opens exactly what it was minted for: its verb, up to its expiry second, for any key. */
  lemma VerifyOfSign(mac: Mac, key: seq<Byte>, verb: Verb, exp: int, want: Verb, now: int)
    requires InInt64(Unix(exp))
    ensures Verify(mac, Sign(mac, key, verb, exp), want, now)
            == if want == verb && now <= Unix(exp) * SECOND then Some(key) else None
  {
    hide Encode;
    hide FormatInt;
    hide Decode;
    hide Join;
    TokenSplits(mac, key, verb, exp);
    var parts := Split(Sign(mac, key, verb, exp), '.');
    assert parts[..3] == [Encode(key), Text(verb), FormatInt(Unix(exp))];
    ReadFormat(Unix(exp));
    RoundTrip(key);
    assert Text(want) == Text(verb) ==> Text(want)[0] == Text(verb)[0];
  }

  datatype Grant = Grant(key: seq<Byte>, verb: Verb, exp: int)

  /** Everything before the last dot. */
  function SignedText(token: string): string {
    var parts := Split(token, '.');
    if |parts| < 2 then "" else Join(parts[..|parts| - 1], '.')
  }

  /** If the signed text of every accepted token is one that was really signed, an accepted token
      opens a key that was granted for this verb and has not expired. */
  lemma AcceptedMeansGranted(mac: Mac, token: string, want: Verb, now: int, granted: set<Grant>)
    requires forall g <- granted :: InInt64(Unix(g.exp))
    requires exists g <- granted :: SignedText(token) == Payload(g.key, g.verb, g.exp)
    requires Verify(mac, token, want, now).Some?
    ensures exists g <- granted :: g.key == Verify(mac, token, want, now).value && g.verb == want && now <= Unix(g.exp) * SECOND
  {
    var parts := Split(token, '.');
    var g :| g in granted && SignedText(token) == Payload(g.key, g.verb, g.exp);
    assert forall part <- parts[..3] :: part in parts;
    SplitJoin(parts[..3], '.');
    PayloadSplits(g.key, g.verb, g.exp);
    var fields := [Encode(g.key), Text(g.verb), FormatInt(Unix(g.exp))];
    assert parts[0] == parts[..3][0] == fields[0];
    assert parts[1] == parts[..3][1] == fields[1];
    assert parts[2] == parts[..3][2] == fields[2];
    RoundTrip(g.key);
    ReadFormat(Unix(g.exp));
    assert Text(want)[0] == Text(g.verb)[0];
  }
}
