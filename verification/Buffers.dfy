/** The output vector that encoders append to. */
module Buffers {
  import opened Base

  /** x >> (8 * k). */
  function Shr8(x: nat, k: nat): nat {
    Quot(x, Pow256(k))
  }

  lemma {:induction false} BEShift(n: nat, x: nat, left: nat)
    requires 0 < left <= n
    ensures BE(n - left + 1, Shr8(x, left - 1)) == BE(n - left, Shr8(x, left)) + [Shr8(x, left - 1) % 256]
  {
    DivDiv(x, Pow256(left - 1));
  }

  lemma {:induction false} ShrAll(x: nat, n: nat)
    ensures BE(0, Shr8(x, n)) == [] && Shr8(x, 0) == x
  {
  }

  /** A growing output vector of bytes. */
  class Buffer {
    var bytes: seq<u8>

    constructor ()
      ensures bytes == []
    {
      bytes := [];
    }

    method PushBack(b: u8)
      modifies this
      ensures bytes == old(bytes) + [b]
    {
      bytes := bytes + [b];
    }

    method Append(s: seq<u8>)
      modifies this
      ensures bytes == old(bytes) + s
    {
      bytes := bytes + s;
    }

    /** Appends the low n bytes of x, most significant first, shifting by eight bits less each time. */
    method PushBE(x: nat, n: nat)
      modifies this
      ensures bytes == old(bytes) + BE(n, x)
    {
      var left := n;
      ShrAll(x, n);
      while left > 0
        invariant 0 <= left <= n
        invariant bytes == old(bytes) + BE(n - left, Shr8(x, left))
      {
        BEShift(n, x, left);
        bytes := bytes + [Shr8(x, left - 1) % 256];
        left := left - 1;
      }
    }
  }
}
