/** Moves inside one buffer. */
module Memory {
  /** `b` differs from `b0` at most in `[lo..hi)`. */
  ghost predicate Outside(b: seq<char>, b0: seq<char>, lo: nat, hi: nat) {
    |b| == |b0| && forall k :: 0 <= k < |b| && !(lo <= k < hi) ==> b[k] == b0[k]
  }

  /** `c` is `b` with the `n` bytes at `src` also written at `dst`. */
  ghost predicate Moved(c: seq<char>, b: seq<char>, dst: nat, src: nat, n: nat) {
    && dst + n <= |b| && src + n <= |b|
    && Outside(c, b, dst, dst + n)
    && c[dst..dst + n] == b[src..src + n]
  }

  /** `memmove(buf + dst, buf + src, n)`. */
  method MemMove(buf: array<char>, dst: nat, src: nat, n: nat)
    requires dst + n <= buf.Length && src + n <= buf.Length
    modifies buf
    ensures Moved(buf[..], old(buf[..]), dst, src, n)
  {
    ghost var b := buf[..];
    forall k | 0 <= k < n {
      buf[dst + k] := buf[src + k];
    }
    assert buf[dst..dst + n] == b[src..src + n];
    assert buf[..][dst..dst + n] == buf[dst..dst + n];
  }
}
