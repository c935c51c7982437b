/** Writing into a pre-sized buffer through a cursor. */
module Buffers {
  import opened Wire
  import opened Records

  /** `buf` with `bytes` written at `start`. */
  function Overwrite(buf: seq<byte>, start: nat, bytes: seq<byte>): (r: seq<byte>)
    requires start + |bytes| <= |buf|
    ensures |r| == |buf|
  {
    buf[..start] + bytes + buf[start + |bytes|..]
  }

  /** Writing `more` right behind `bytes` is one longer write. */
  lemma OverwriteMore(buf: seq<byte>, start: nat, bytes: seq<byte>, more: seq<byte>)
    requires start + |bytes| + |more| <= |buf|
    ensures Overwrite(Overwrite(buf, start, bytes), start + |bytes|, more) == Overwrite(buf, start, bytes + more)
  {
  }

  lemma OverwriteNothing(buf: seq<byte>, start: nat)
    requires start <= |buf|
    ensures Overwrite(buf, start, []) == buf
  {
  }

  lemma OverwriteAll(buf: seq<byte>, bytes: seq<byte>)
    requires |bytes| == |buf|
    ensures Overwrite(buf, 0, bytes) == bytes
  {
  }

  method Memcpy(dst: array<byte>, p: nat, src: seq<byte>)
    requires p + |src| <= dst.Length
    modifies dst
    ensures dst[..] == Overwrite(old(dst[..]), p, src)
  {
    forall k | 0 <= k < |src| {
      dst[p + k] := src[k];
    }
  }

  /** `memcpy(*p, r, r->bLength); *p += r->bLength`, after the records `done` were already written from `start` on. */
  method Append(dst: array<byte>, start: nat, p: nat, ghost before: seq<byte>, ghost done: seq<Record>, r: Record)
    returns (q: nat)
    requires |before| == dst.Length && start + |Flatten(done + [r])| <= dst.Length
    requires p == start + |Flatten(done)| <= dst.Length
    requires dst[..] == Overwrite(before, start, Flatten(done))
    modifies dst
    ensures q == start + |Flatten(done + [r])|
    ensures dst[..] == Overwrite(before, start, Flatten(done + [r]))
  {
    FlattenSnoc(done, r);
    OverwriteMore(before, start, Flatten(done), r);
    Memcpy(dst, p, r);
    q := p + |r|;
  }
}
