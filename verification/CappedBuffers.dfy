/** The bounded buffer behind exec output (agent/internal/podfs/podfs.go). */
module CappedBuffers {
  type Bytes = string

  function Concat(ws: seq<Bytes>): Bytes {
    if ws == [] then "" else Concat(ws[..|ws| - 1]) + ws[|ws| - 1]
  }

  function Take(s: Bytes, max: nat): Bytes {
    if |s| <= max then s else s[..max]
  }

  /** After writing `ws` into an empty buffer: did some write meet the cap? A write that arrives when
      the buffer is exactly full counts even if it is empty. */
  predicate Overflows(ws: seq<Bytes>, max: nat) {
    |Concat(ws)| > max || (ws != [] && |Concat(ws[..|ws| - 1])| >= max)
  }

  class CappedBuffer {
    var w: Bytes
    const max: nat
    var overflowed: bool
    ghost var written: seq<Bytes>

    ghost predicate Valid()
      reads this
    {
      w == Take(Concat(written), max) && (overflowed <==> Overflows(written, max))
    }

    constructor (max: nat)
      ensures Valid() && this.max == max && written == []
    {
      this.max, w, overflowed, written := max, "", false, [];
    }

    /** Always reports the whole of `p` as written; what does not fit is dropped. */
    method Write(p: Bytes) returns (n: nat)
      requires Valid()
      modifies this
      ensures Valid() && written == old(written) + [p] && n == |p|
    {
      written := written + [p];
      assert written[..|written| - 1] == old(written);
      n := |p|;
      var remaining := max - |w|;
      if remaining <= 0 {
        overflowed := true;
      } else if |p| > remaining {
        w := w + p[..remaining];
        overflowed := true;
      } else {
        w := w + p;
      }
    }

    /** Not truncated means that nothing was dropped; the converse fails only for an empty last
        write into a buffer that is exactly full. */
    method Truncated() returns (yes: bool)
      requires Valid()
      ensures !yes ==> w == Concat(written)
      ensures yes && w == Concat(written) ==> written != [] && written[|written| - 1] == "" && |w| == max
    {
      yes := overflowed;
    }
  }

  /** Emptiness of the last write is the only way to be marked truncated without losing a byte. */
  lemma OverflowWithoutLoss(ws: seq<Bytes>, max: nat)
    ensures Overflows(ws, max) && Take(Concat(ws), max) == Concat(ws)
            <==> ws != [] && |Concat(ws)| == max && ws[|ws| - 1] == ""
  {
  }
}
