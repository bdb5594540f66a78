/** Log masking (agent/internal/runner/runner_io.go). */
module Masks {
  const STARS := "***"
  const MIN_MASK := 4

  predicate OccursAt(t: string, m: string, i: nat) {
    i + |m| <= |t| && t[i..i + |m|] == m
  }

  ghost predicate Contains(t: string, m: string) {
    exists i: nat :: OccursAt(t, m, i)
  }

  /** strings.ReplaceAll with three stars: leftmost, non-overlapping. */
  function ReplaceAll(t: string, m: string): string
    requires m != []
  {
    if |t| < |m| then t
    else if t[..|m|] == m then STARS + ReplaceAll(t[|m|..], m)
    else [t[0]] + ReplaceAll(t[1..], m)
  }

  function ApplyAll(text: string, masks: seq<string>): string {
    if masks == [] then text
    else
      var t, m := ApplyAll(text, masks[..|masks| - 1]), masks[|masks| - 1];
      if |m| < MIN_MASK then t else ReplaceAll(t, m)
  }

  /** A replacement can only meet such a mask from the outside. */
  ghost predicate Safe(m: string) {
    m != [] && m[0] != '*' && m[|m| - 1] != '*' && !Contains(m, STARS)
  }

  lemma NoStarsIsSafe(m: string)
    requires m != [] && '*' !in m
    ensures Safe(m)
  {
    forall i: nat ensures !OccursAt(m, STARS, i) {
      if i + 3 <= |m| {
        assert m[i..i + 3][0] == m[i];
      }
    }
  }

  method ApplyMasks(text: string, masks: seq<string>) returns (out: string)
    ensures out == ApplyAll(text, masks)
  {
    out := text;
    for i := 0 to |masks|
      invariant out == ApplyAll(text, masks[..i])
    {
      var m := masks[i];
      assert masks[..i + 1][..i] == masks[..i];
      if |m| < MIN_MASK {
        continue;
      }
      out := ReplaceAll(out, m);
    }
    assert masks[..|masks|] == masks;
  }

  // ------------------------------------------- everything else stays the same

  function Between(pieces: seq<string>, sep: string): string
    requires pieces != []
  {
    if |pieces| == 1 then pieces[0] else pieces[0] + sep + Between(pieces[1..], sep)
  }

  /** The text before a mask ends where the mask is first found. */
  ghost predicate EndsAtFirst(piece: string, m: string) {
    forall i: nat | i < |piece| :: !OccursAt(piece + m, m, i)
  }

  /** The text is cut at the leftmost masks, each cut is filled with three stars, and all else stays as it was. */
  lemma {:induction false} ReplacesOnlyMasks(t: string, m: string) returns (pieces: seq<string>)
    requires m != []
    ensures pieces != [] && Between(pieces, m) == t && Between(pieces, STARS) == ReplaceAll(t, m)
    ensures forall k | 0 <= k < |pieces| - 1 :: EndsAtFirst(pieces[k], m)
    ensures !Contains(pieces[|pieces| - 1], m)
    decreases |t|
  {
    if |t| < |m| {
      pieces := [t];
    } else if t[..|m|] == m {
      var rest := ReplacesOnlyMasks(t[|m|..], m);
      pieces := [""] + rest;
      assert pieces[1..] == rest;
      assert t == "" + m + t[|m|..];
    } else {
      var rest := ReplacesOnlyMasks(t[1..], m);
      pieces := [[t[0]] + rest[0]] + rest[1..];
      assert pieces[1..] == rest[1..];
      LongerFirst(t[0], rest, m);
      LongerFirst(t[0], rest, STARS);
      assert t == [t[0]] + t[1..];
      FirstPieceHolds(t, rest, m);
    }
  }

  lemma LongerFirst(c: char, rest: seq<string>, sep: string)
    requires rest != []
    ensures Between([[c] + rest[0]] + rest[1..], sep) == [c] + Between(rest, sep)
  {
    var longer := [[c] + rest[0]] + rest[1..];
    assert longer[1..] == rest[1..];
    if |rest| > 1 {
      assert ([c] + rest[0]) + sep + Between(rest[1..], sep) == [c] + (rest[0] + sep + Between(rest[1..], sep));
    }
  }

  /** A character in front of the first piece makes no mask, if the text does not start with one. */
  lemma FirstPieceHolds(t: string, rest: seq<string>, m: string)
    requires m != [] && |t| >= |m| && t[..|m|] != m && rest != [] && Between(rest, m) == t[1..]
    ensures |rest| > 1 && EndsAtFirst(rest[0], m) ==> EndsAtFirst([t[0]] + rest[0], m)
    ensures |rest| == 1 && !Contains(rest[0], m) ==> !Contains([t[0]] + rest[0], m)
  {
    if |rest| == 1 {
      assert [t[0]] + rest[0] == t;
      OnlyFurtherOn(t[0], rest[0], t, m);
    } else {
      assert Between(rest, m) == rest[0] + m + Between(rest[1..], m);
      var shown := rest[0] + m;
      assert t == [t[0]] + (shown + Between(rest[1..], m));
      assert [t[0]] + shown <= t;
      OnlyFurtherOn(t[0], shown, t, m);
      hide Between;
      hide OccursAt;
      assert ([t[0]] + rest[0]) + m == [t[0]] + shown;
    }
  }

  lemma OnlyFurtherOn(c: char, shown: string, t: string, m: string)
    requires [c] + shown <= t && |m| <= |t| && t[..|m|] != m
    ensures forall i: nat | OccursAt([c] + shown, m, i) :: i > 0 && OccursAt(shown, m, i - 1)
  {
    forall i: nat | OccursAt([c] + shown, m, i) ensures i > 0 && OccursAt(shown, m, i - 1) {
      NotAtStart(c, shown, t, m, i);
    }
  }

  lemma NotAtStart(c: char, rest: string, t: string, m: string, i: nat)
    requires [c] + rest <= t && |m| <= |t| && t[..|m|] != m && OccursAt([c] + rest, m, i)
    ensures i > 0 && OccursAt(rest, m, i - 1)
  {
    var s := [c] + rest;
    assert s[i..i + |m|] == t[i..i + |m|];
    if i > 0 {
      assert s[i..i + |m|] == rest[i - 1..i - 1 + |m|];
    }
  }

  // ------------------------------------------------- nothing new ever appears

  /** Can be the rest of a safe mask. */
  ghost predicate SafeTail(q: string) {
    (q != [] ==> q[|q| - 1] != '*') && !Contains(q, STARS)
  }

  lemma SafeTailOfTail(q: string)
    requires SafeTail(q) && q != []
    ensures SafeTail(q[1..])
  {
    forall i: nat ensures !OccursAt(q[1..], STARS, i) {
      if OccursAt(q[1..], STARS, i) {
        assert q[i + 1..i + 1 + 3] == q[1..][i..i + 3];
        assert OccursAt(q, STARS, i + 1);
      }
    }
  }

  /** What the result starts with, the text started with: no safe tail runs into the stars. */
  lemma {:induction false} PrefixWasThere(t: string, m: string, q: string)
    requires m != [] && SafeTail(q) && q <= ReplaceAll(t, m)
    ensures q <= t
    decreases |t|
  {
    if |t| >= |m| && q != [] {
      if t[..|m|] == m {
        StarsAreNoSafeTail(q, ReplaceAll(t[|m|..], m));
      } else {
        SafeTailOfTail(q);
        assert ReplaceAll(t, m)[1..] == ReplaceAll(t[1..], m);
        PrefixWasThere(t[1..], m, q[1..]);
        assert t == [t[0]] + t[1..] && q == [q[0]] + q[1..];
      }
    }
  }

  lemma StarsInFront(q: string, rest: string)
    requires q <= STARS + rest && |q| >= 3
    ensures OccursAt(q, STARS, 0)
  {
    assert q[0..0 + 3] == (STARS + rest)[..3] == STARS;
  }

  lemma StarsAreNoSafeTail(q: string, rest: string)
    requires q <= STARS + rest && SafeTail(q)
    ensures q == []
  {
    if |q| >= 3 {
      StarsInFront(q, rest);
    }
  }

  lemma NotInsideStars(rest: string, q: string, j: nat)
    requires q != [] && q[0] != '*' && OccursAt(STARS + rest, q, j)
    ensures j >= 3
  {
    assert q[0] == (STARS + rest)[j];
  }

  lemma SafeIsTail(q: string)
    requires Safe(q)
    ensures SafeTail(q)
  {
  }

  lemma OccursFurtherOn(t: string, q: string, k: nat, i: nat)
    requires k <= |t| && OccursAt(t[k..], q, i)
    ensures OccursAt(t, q, k + i)
  {
    assert t[k..][i..i + |q|] == t[k + i..k + i + |q|];
  }

  lemma OccursInTail(a: string, b: string, q: string, j: nat)
    requires OccursAt(a + b, q, j) && j >= |a|
    ensures OccursAt(b, q, j - |a|)
  {
    assert (a + b)[j..j + |q|] == b[j - |a|..j - |a| + |q|];
  }

  /** A safe mask in the result of a replacement was in the text before, and is not the replaced mask. */
  lemma {:induction false} NothingNew(t: string, m: string, q: string, j: nat) returns (i: nat)
    requires m != [] && Safe(q) && OccursAt(ReplaceAll(t, m), q, j)
    ensures OccursAt(t, q, i) && q != m
    decreases |t|
  {
    SafeIsTail(q);
    if |t| < |m| {
      i := j;
    } else if t[..|m|] == m {
      var rest := ReplaceAll(t[|m|..], m);
      NotInsideStars(rest, q, j);
      OccursInTail(STARS, rest, q, j);
      i := NothingNew(t[|m|..], m, q, j - 3);
      OccursFurtherOn(t, q, |m|, i);
      i := |m| + i;
    } else if j == 0 {
      assert ReplaceAll(t, m)[0..0 + |q|] == q;
      PrefixWasThere(t, m, q);
      i := 0;
    } else {
      OccursInTail([t[0]], ReplaceAll(t[1..], m), q, j);
      i := NothingNew(t[1..], m, q, j - 1);
      OccursFurtherOn(t, q, 1, i);
      i := 1 + i;
    }
  }

  /** Once its own turn has come, a safe mask is gone for good. */
  lemma {:induction false} GoneForGood(text: string, masks: seq<string>, q: string)
    requires q in masks && |q| >= MIN_MASK && Safe(q)
    ensures !Contains(ApplyAll(text, masks), q)
    decreases |masks|
  {
    var init, m := masks[..|masks| - 1], masks[|masks| - 1];
    var t := ApplyAll(text, init);
    assert masks == init + [m];
    if |m| >= MIN_MASK {
      forall j: nat | OccursAt(ReplaceAll(t, m), q, j) ensures q in init && q != m && Contains(t, q) {
        var i := NothingNew(t, m, q, j);
      }
    }
    if q in init {
      GoneForGood(text, init, q);
    }
  }

  // --------------------------------------------------- unsafe masks do return

  lemma ReplaceShort(t: string, m: string)
    requires |t| < |m|
    ensures ReplaceAll(t, m) == t
  {
  }

  lemma ReplaceFirst(m: string, b: string)
    requires m != []
    ensures ReplaceAll(m + b, m) == STARS + ReplaceAll(b, m)
  {
    assert (m + b)[..|m|] == m && (m + b)[|m|..] == b;
  }

  lemma SkipFirst(c: char, t: string, m: string)
    requires m != [] && |t| >= |m| && !OccursAt([c] + t, m, 0)
    ensures ReplaceAll([c] + t, m) == [c] + ReplaceAll(t, m)
  {
    assert ([c] + t)[0..0 + |m|] == ([c] + t)[..|m|] && ([c] + t)[1..] == t;
  }

  lemma {:induction false} OnlyMatch(a: string, m: string, b: string)
    requires m != [] && |b| < |m|
    requires forall i: nat | i < |a| :: !OccursAt(a + (m + b), m, i)
    ensures ReplaceAll(a + (m + b), m) == a + (STARS + b)
    decreases |a|
  {
    hide ReplaceAll;
    if a == [] {
      assert [] + (m + b) == m + b;
      ReplaceFirst(m, b);
      ReplaceShort(b, m);
      assert [] + (STARS + b) == STARS + b;
    } else {
      var t := a[1..] + (m + b);
      assert a + (m + b) == [a[0]] + t;
      SkipFirst(a[0], t, m);
      forall i: nat | i < |a[1..]| ensures !OccursAt(t, m, i) {
        assert ([a[0]] + t)[1..] == t;
        if OccursAt(t, m, i) {
          OccursFurtherOn([a[0]] + t, m, 1, i);
        }
      }
      OnlyMatch(a[1..], m, b);
      assert a + (STARS + b) == [a[0]] + (a[1..] + (STARS + b));
    }
  }

  /** The text on which an unsafe mask reappears around or beside its own replacement. */
  lemma Reappears(m: string) returns (t: string)
    requires |m| >= MIN_MASK && !Safe(m)
    ensures Contains(ReplaceAll(t, m), m)
  {
    if m[0] == '*' {
      t := LeadingStar(m);
    } else if m[|m| - 1] == '*' {
      t := TrailingStar(m);
    } else {
      t := InnerStars(m);
    }
  }

  lemma LeadingStar(m: string) returns (t: string)
    requires |m| >= MIN_MASK && m[0] == '*'
    ensures Contains(ReplaceAll(t, m), m)
  {
    var b := m[1..];
    t := m + b;
    ReplaceFirst(m, b);
    ReplaceShort(b, m);
    assert (STARS + b)[2..2 + |m|] == m;
    assert OccursAt(ReplaceAll(t, m), m, 2);
  }

  lemma ShiftedEnd(m: string, i: nat)
    requires i < |m| - 1 && OccursAt(m[..|m| - 1] + (m + []), m, i)
    ensures m[i] == m[0] && m[i] == m[|m| - 1]
  {
    var n, t := |m|, m[..|m| - 1] + (m + []);
    assert t[i..i + n][0] == t[i] == m[i];
    assert t[i..i + n][n - 1] == t[i + n - 1] == m[i];
  }

  lemma TrailingStar(m: string) returns (t: string)
    requires |m| >= MIN_MASK && m[0] != '*' && m[|m| - 1] == '*'
    ensures Contains(ReplaceAll(t, m), m)
  {
    var n := |m|;
    var a := m[..n - 1];
    t := a + (m + []);
    forall i: nat | i < |a| ensures !OccursAt(a + (m + []), m, i) {
      if OccursAt(t, m, i) {
        ShiftedEnd(m, i);
      }
    }
    OnlyMatch(a, m, []);
    assert (a + (STARS + []))[0..0 + n] == m;
    assert OccursAt(ReplaceAll(t, m), m, 0);
  }

  lemma InnerStars(m: string) returns (t: string)
    requires |m| >= MIN_MASK && m[0] != '*' && m[|m| - 1] != '*' && Contains(m, STARS)
    ensures Contains(ReplaceAll(t, m), m)
  {
    var k := FirstStars(m);
    var a, b := m[..k], m[k + 3..];
    assert m[k..k + 3] == STARS;
    assert m == a + (STARS + b);
    t := a + (m + b);
    forall i: nat | i < |a| ensures !OccursAt(a + (m + b), m, i) {
      if OccursAt(t, m, i) {
        ShiftedStars(m, k, t, i);
      }
    }
    OnlyMatch(a, m, b);
    assert m[0..0 + |m|] == m;
    assert OccursAt(ReplaceAll(t, m), m, 0);
  }

  lemma FirstStars(m: string) returns (k: nat)
    requires Contains(m, STARS)
    ensures OccursAt(m, STARS, k) && forall i: nat | i < k :: !OccursAt(m, STARS, i)
  {
    var last: nat :| OccursAt(m, STARS, last);
    k := 0;
    while !OccursAt(m, STARS, k)
      invariant k <= last && forall i: nat | i < k :: !OccursAt(m, STARS, i)
      decreases last - k
    {
      k := k + 1;
    }
  }

  /** An occurrence of the mask shifted to the left would bring its stars forward, before the first ones. */
  lemma ShiftedStars(m: string, k: nat, t: string, i: nat)
    requires OccursAt(m, STARS, k) && t == m[..k] + (m + m[k + 3..]) && i < k && OccursAt(t, m, i)
    ensures exists j: nat :: j < k && OccursAt(m, STARS, j)
  {
    assert m[k..k + 3] == STARS;
    forall j | i <= j < i + 3 ensures m[j] == '*' {
      assert t[k + j] == m[j];
      assert t[i..i + |m|][k + j - i] == t[k + j];
      assert m[k..k + 3][j - i] == '*';
    }
    assert m[i..i + 3] == STARS;
    assert OccursAt(m, STARS, i);
  }

  /** Exactly the safe masks are kept out: of every text, and whatever the other masks are. Each mask
      without a star is safe. */
  lemma KeptOutIffSafe(q: string)
    requires |q| >= MIN_MASK
    ensures Safe(q) <==> forall text, masks | q in masks :: !Contains(ApplyAll(text, masks), q)
    ensures '*' !in q ==> Safe(q)
  {
    if Safe(q) {
      forall text, masks | q in masks ensures !Contains(ApplyAll(text, masks), q) {
        GoneForGood(text, masks, q);
      }
    } else {
      var t := Reappears(q);
      assert [q][..0] == [];
      assert ApplyAll(t, [q]) == ReplaceAll(t, q);
    }
    if '*' !in q {
      NoStarsIsSafe(q);
    }
  }
}
