/** Machine-sized numbers and the optional value used by every other module. */
module Wire {

  // A __u8.
  type byte = x: int | 0 <= x < 0x100

  // A __u16.
  type word = x: int | 0 <= x < 0x1_0000

  // A __u32.
  type dword = x: int | 0 <= x < 0x1_0000_0000

  // A pointer that may be NULL.
  datatype Option<+T> = None | Some(value: T)

  function U8(x: int): byte { x % 0x100 }

  function U16(x: int): word { x % 0x1_0000 }

  function U32(x: int): dword { x % 0x1_0000_0000 }

  /** The little-endian 16-bit number at bytes `lo` (low half) and `hi` (high half). */
  function Word(lo: byte, hi: byte): word { hi * 0x100 + lo }

  /** The elements of `xs` that are there, in order. */
  function Present<T>(xs: seq<Option<T>>): (r: seq<T>)
    ensures |r| <= |xs|
  {
    if xs == [] then []
    else if xs[0].Some? then [xs[0].value] + Present(xs[1..])
    else Present(xs[1..])
  }

  lemma {:induction false} PresentConcat<T>(xs: seq<Option<T>>, ys: seq<Option<T>>)
    ensures Present(xs + ys) == Present(xs) + Present(ys)
  {
    if xs == [] {
      assert xs + ys == ys;
    } else {
      PresentConcat(xs[1..], ys);
      assert (xs + ys)[0] == xs[0] && (xs + ys)[1..] == xs[1..] + ys;
      if xs[0].Some? {
        assert Present(xs + ys) == [xs[0].value] + Present(xs[1..] + ys);
      }
    }
  }

  lemma {:induction false} PresentSnoc<T>(xs: seq<Option<T>>, i: nat)
    requires i < |xs|
    ensures Present(xs[..i + 1]) == Present(xs[..i]) + (if xs[i].Some? then [xs[i].value] else [])
  {
    assert xs[..i + 1] == xs[..i] + [xs[i]];
    PresentConcat(xs[..i], [xs[i]]);
  }

  lemma PresentNone<T>(xs: seq<Option<T>>)
    requires forall k :: 0 <= k < |xs| ==> xs[k].None?
    ensures Present(xs) == []
  {
  }

  lemma {:induction false} PresentAll<T>(xs: seq<Option<T>>, ys: seq<T>)
    requires |xs| == |ys|
    requires forall k :: 0 <= k < |xs| ==> xs[k] == Some(ys[k])
    ensures Present(xs) == ys
  {
    if xs != [] {
      PresentAll(xs[1..], ys[1..]);
    }
  }

  lemma {:induction false} PresentMember<T>(xs: seq<Option<T>>, y: T)
    ensures y in Present(xs) <==> Some(y) in xs
  {
    if xs != [] {
      PresentMember(xs[1..], y);
      assert xs == [xs[0]] + xs[1..];
    }
  }

  lemma SplitAround<T>(xs: seq<T>, k: nat, x: T)
    requires k < |xs|
    ensures xs == xs[..k] + ([xs[k]] + xs[k + 1..])
    ensures xs[k := x] == xs[..k] + ([x] + xs[k + 1..])
  {
  }
}
