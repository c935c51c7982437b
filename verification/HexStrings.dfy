/** Bytes printed as text, on one line or in lines of a given width, into one buffer of exactly the size needed. */
module HexStrings {
  import opened Wire

  // A character of the buffer, or None as long as it was never written.
  type Cell = Option<char>

  function Digit(n: nat): char
    requires n < 16
  {
    if n < 10 then '0' + n as char else 'a' + (n - 10) as char
  }

  /** The two digits of a byte. */
  function Digits(b: byte): (r: string)
    ensures |r| == 2
  {
    [Digit(b / 16), Digit(b % 16)]
  }

  /** The text of the plain form. */
  function Plain(bytes: seq<byte>): (r: string)
    ensures bytes != [] ==> |r| == 3 * |bytes| - 1
  {
    if bytes == [] then ""
    else if |bytes| == 1 then Digits(bytes[0])
    else Plain(bytes[..|bytes| - 1]) + " " + Digits(bytes[|bytes| - 1])
  }

  /** What stands before the `i`-th byte: a new line or a blank. */
  function Gap(i: nat, width: nat): string
    requires width > 0
  {
    if i % width == 0 then "\n\t" else " "
  }

  /** The text of the wide form. */
  function Wide(bytes: seq<byte>, width: nat): string
    requires width > 0
  {
    if bytes == [] then ""
    else
      var last := |bytes| - 1;
      Wide(bytes[..last], width) + Gap(last, width) + Digits(bytes[last])
  }

  lemma LinesSoFar(n: nat, width: nat)
    requires width > 0 && n > 0
    ensures n / width == (n - 1) / width + if n % width == 0 then 1 else 0
  {
    var q, r := (n - 1) / width, (n - 1) % width;
    assert n - 1 == q * width + r;
    if r == width - 1 {
      assert n == (q + 1) * width;
      DivMod(n, width, q + 1, 0);
    } else {
      DivMod(n, width, q, r + 1);
    }
  }

  lemma Distribute(x: int, y: int, width: nat)
    ensures (x + y) * width == x * width + y * width
  {
  }

  lemma MulOrder(a: int, b: int, width: nat)
    ensures a < b ==> a * width + width <= b * width
  {
    if a < b {
      var d: nat := b - a - 1;
      Distribute(a + 1, d, width);
      Distribute(a, 1, width);
      assert d * width >= 0;
    }
  }

  lemma DivMod(n: nat, width: nat, q: nat, r: nat)
    requires width > 0 && n == q * width + r && r < width
    ensures n / width == q && n % width == r
  {
    MulOrder(n / width, q, width);
    MulOrder(q, n / width, width);
  }

  lemma {:induction false} WideLength(bytes: seq<byte>, width: nat)
    requires width > 0 && bytes != []
    ensures |Wide(bytes, width)| == 3 * |bytes| + 1 + (|bytes| - 1) / width
  {
    var last := |bytes| - 1;
    if last == 0 {
      assert Wide(bytes[..0], width) == "";
      DivMod(0, width, 0, 0);
    } else {
      WideLength(bytes[..last], width);
      LinesSoFar(last, width);
    }
  }

  // ---------------------------------------------------------------- reading back

  function Value(c: char): (r: Option<nat>)
    ensures r.Some? ==> r.value < 16
  {
    if '0' <= c <= '9' then Some((c - '0') as nat)
    else if 'a' <= c <= 'f' then Some((c - 'a') as nat + 10)
    else None
  }

  lemma ValueOfDigit(n: nat)
    requires n < 16
    ensures Value(Digit(n)) == Some(n)
  {
  }

  /** The values of the hexadecimal digits in a text. */
  function Nibbles(text: string): (r: seq<nat>)
    ensures forall k :: 0 <= k < |r| ==> r[k] < 16
  {
    if text == "" then []
    else
      var v := Value(text[|text| - 1]);
      if v.Some? then Nibbles(text[..|text| - 1]) + [v.value] else Nibbles(text[..|text| - 1])
  }

  function Paired(ns: seq<nat>): seq<int> {
    if |ns| < 2 then [] else Paired(ns[..|ns| - 2]) + [16 * ns[|ns| - 2] + ns[|ns| - 1]]
  }

  /** The bytes a reader of the digits finds. */
  function Unhex(text: string): seq<int> {
    Paired(Nibbles(text))
  }

  lemma NibblesMore(text: string, c: char)
    ensures Nibbles(text + [c]) == if Value(c).Some? then Nibbles(text) + [Value(c).value] else Nibbles(text)
  {
    assert (text + [c])[..|text|] == text;
  }

  lemma UnhexMore(text: string, gap: string, b: byte)
    requires gap == " " || gap == "\n\t" || gap == ""
    ensures Unhex(text + gap + Digits(b)) == Unhex(text) + [b]
    ensures Nibbles(text + gap + Digits(b)) == Nibbles(text) + [b / 16, b % 16]
  {
    hide Nibbles, Digit;
    assert Nibbles(text + gap) == Nibbles(text) by {
      if gap == "" {
        assert text + gap == text;
      } else if gap == " " {
        NibblesMore(text, ' ');
      } else {
        assert text + gap == text + "\n" + "\t";
        NibblesMore(text, '\n');
        NibblesMore(text + "\n", '\t');
      }
    }
    var h, l := b / 16, b % 16;
    ValueOfDigit(h);
    ValueOfDigit(l);
    assert text + gap + Digits(b) == text + gap + [Digit(h)] + [Digit(l)];
    NibblesMore(text + gap, Digit(h));
    NibblesMore(text + gap + [Digit(h)], Digit(l));
    var ns := Nibbles(text);
    assert ns + [h] + [l] == ns + [h, l];
    assert (ns + [h, l])[..|ns|] == ns;
  }

  lemma {:induction false} PlainReadsBack(bytes: seq<byte>)
    ensures Unhex(Plain(bytes)) == bytes
  {
    hide Unhex, Digits;
    if bytes == [] {
      assert Unhex("") == [] by { NothingToRead(); }
    } else {
      var last := |bytes| - 1;
      PlainReadsBack(bytes[..last]);
      if last == 0 {
        UnhexMore("", "", bytes[0]);
        assert "" + "" + Digits(bytes[0]) == Plain(bytes);
      } else {
        UnhexMore(Plain(bytes[..last]), " ", bytes[last]);
      }
    }
  }

  lemma {:induction false} WideReadsBack(bytes: seq<byte>, width: nat)
    requires width > 0
    ensures Unhex(Wide(bytes, width)) == bytes
  {
    hide Unhex, Digits;
    if bytes == [] {
      assert Unhex("") == [] by { NothingToRead(); }
    } else {
      var last := |bytes| - 1;
      WideReadsBack(bytes[..last], width);
      UnhexMore(Wide(bytes[..last], width), Gap(last, width), bytes[last]);
    }
  }

  lemma NothingToRead()
    ensures Unhex("") == []
  {
  }

  // ---------------------------------------------------------------- printing

  function Cells(text: string): (r: seq<Cell>)
    ensures |r| == |text|
  {
    seq(|text|, i requires 0 <= i < |text| => Some(text[i]))
  }

  /** The whole buffer of the wide form. At an exact multiple of the width the byte before the terminator is never
      written. */
  function WideBuffer(bytes: seq<byte>, width: nat): seq<Cell>
    requires width > 0
  {
    if bytes == [] then [Some('\0')]
    else if |bytes| % width == 0 then Cells(Wide(bytes, width)) + [None, Some('\0')]
    else Cells(Wide(bytes, width)) + [Some('\0')]
  }

  function PlainBuffer(bytes: seq<byte>): seq<Cell> {
    Cells(Plain(bytes)) + [Some('\0')]
  }

  /** The buffer holds `text`, then nothing, and the terminator at the end. */
  ghost predicate Filled(cells: seq<Cell>, text: string) {
    && |text| < |cells| && cells[|cells| - 1] == Some('\0')
    && cells[..|text|] == Cells(text)
    && forall k :: |text| <= k < |cells| - 1 ==> cells[k] == None
  }

  lemma FilledMore(cells: seq<Cell>, text: string, more: string)
    requires Filled(cells, text) && |text| + |more| < |cells|
    ensures Filled(cells[..|text|] + Cells(more) + cells[|text| + |more|..], text + more)
  {
    assert Cells(text + more) == Cells(text) + Cells(more);
  }

  /** Stores characters from `p` on. */
  method Put(result: array<Cell>, p: nat, more: string, ghost text: string)
    requires Filled(result[..], text) && p == |text| && p + |more| < result.Length
    modifies result
    ensures Filled(result[..], text + more)
  {
    FilledMore(result[..], text, more);
    ghost var was := result[..];
    forall k | 0 <= k < |more| {
      result[p + k] := Some(more[k]);
    }
    assert result[..] == was[..p] + Cells(more) + was[p + |more|..];
  }

  lemma DivGrows(a: nat, b: nat, width: nat)
    requires a <= b && width > 0
    ensures a / width <= b / width
  {
    MulOrder(b / width, a / width, width);
  }

  /** One round of the wide form. */
  lemma WideStep(bytes: seq<byte>, i: nat, width: nat)
    requires width > 0 && 1 <= i < |bytes|
    ensures Wide(bytes[..i + 1], width) == Wide(bytes[..i], width) + Gap(i, width) + Digits(bytes[i])
    ensures |Wide(bytes[..i], width)| == 3 * i + 1 + (i - 1) / width
    ensures i / width == (i - 1) / width + if i % width == 0 then 1 else 0
    ensures |Wide(bytes[..i + 1], width)| <= 3 * |bytes| + 1 + |bytes| / width
  {
    hide Gap, Digits;
    assert bytes[..i + 1][..i] == bytes[..i];
    WideLength(bytes[..i], width);
    WideLength(bytes[..i + 1], width);
    LinesSoFar(i, width);
    DivGrows(i, |bytes|, width);
  }

  lemma WideFirst(bytes: seq<byte>, width: nat)
    requires width > 0 && bytes != []
    ensures Wide(bytes[..1], width) == "\n\t" + Digits(bytes[0])
  {
    DivMod(0, width, 0, 0);
    assert bytes[..1][..0] == [];
    assert Wide([], width) + "\n\t" == "\n\t";
  }

  lemma WideDone(cells: seq<Cell>, bytes: seq<byte>, width: nat)
    requires width > 0 && bytes != [] && |cells| == 3 * |bytes| + |bytes| / width + 2
    requires Filled(cells, Wide(bytes, width))
    ensures cells == WideBuffer(bytes, width)
  {
    hide Wide;
    WideLength(bytes, width);
    LinesSoFar(|bytes|, width);
  }

  /** The allocation, its terminator and the first byte. */
  method WideStart(bytes: seq<byte>, width: nat) returns (result: array<Cell>)
    requires width > 0 && bytes != []
    ensures fresh(result) && result.Length == 3 * |bytes| + |bytes| / width + 2
    ensures Filled(result[..], Wide(bytes[..1], width))
  {
    hide Wide, Digits;
    var length := |bytes|;
    var lines := length / width + 1;
    result := new Cell[length * 3 + lines + 1](_ => None);
    result[length * 3 + lines] := Some('\0');
    assert Filled(result[..], "");
    WideFirst(bytes, width);
    hide Filled;
    Put(result, 0, "\n\t", "");
    Put(result, 2, Digits(bytes[0]), "" + "\n\t");
    assert "" + "\n\t" + Digits(bytes[0]) == Wide(bytes[..1], width);
  }

  /** One round of the loop, from the `i`-th byte on. */
  method WideRound(result: array<Cell>, bytes: seq<byte>, width: nat, i: nat, curLine: nat) returns (next: nat)
    requires width > 0 && 1 <= i < |bytes| && curLine == 1 + (i - 1) / width
    requires result.Length == 3 * |bytes| + |bytes| / width + 2
    requires Filled(result[..], Wide(bytes[..i], width))
    modifies result
    ensures next == 1 + i / width
    ensures Filled(result[..], Wide(bytes[..i + 1], width))
  {
    hide Wide, Digits, Filled;
    WideStep(bytes, i, width);
    ghost var before := Wide(bytes[..i], width);
    next := curLine;
    if i % width != 0 {
      Put(result, i * 3 + next, " ", before);
      Put(result, i * 3 + next + 1, Digits(bytes[i]), before + " ");
    } else {
      Put(result, i * 3 + next, "\n\t", before);
      next := next + 1;
      Put(result, i * 3 + next + 1, Digits(bytes[i]), before + "\n\t");
    }
  }

  method HexStringWide(bytes: seq<byte>, width: nat) returns (result: array<Cell>)
    requires width > 0
    ensures fresh(result) && result[..] == WideBuffer(bytes, width)
  {
    hide Wide, Digits, Filled;
    var length := |bytes|;
    if length == 0 {
      result := new Cell[1](_ => Some('\0'));
      return;
    }
    result := WideStart(bytes, width);
    DivMod(0, width, 0, 0);
    var i, curLine := 1, 1;
    while i < length
      invariant 1 <= i <= length && curLine == 1 + (i - 1) / width
      invariant result.Length == 3 * length + length / width + 2
      invariant Filled(result[..], Wide(bytes[..i], width))
    {
      curLine := WideRound(result, bytes, width, i, curLine);
      i := i + 1;
    }
    assert bytes[..length] == bytes;
    WideDone(result[..], bytes, width);
  }

  lemma PlainStep(bytes: seq<byte>, i: nat)
    requires 1 <= i < |bytes|
    ensures Plain(bytes[..i + 1]) == Plain(bytes[..i]) + " " + Digits(bytes[i])
  {
    assert bytes[..i + 1][..i] == bytes[..i];
  }

  /** The plain form, or lines of 32 bytes when there are more. */
  method HexString(bytes: seq<byte>) returns (result: array<Cell>)
    ensures fresh(result)
    ensures result[..] == if |bytes| > 32 then WideBuffer(bytes, 32) else PlainBuffer(bytes)
  {
    hide Wide, Digits, Plain, WideBuffer;
    var length := |bytes|;
    if length == 0 {
      result := new Cell[1](_ => Some('\0'));
      assert Plain(bytes) == "" by { PlainEnds(bytes); }
      return;
    }
    if length > 32 {
      result := HexStringWide(bytes, 32);
      return;
    }
    result := new Cell[length * 3](_ => None);
    result[length * 3 - 1] := Some('\0');
    assert Filled(result[..], "");
    Put(result, 0, Digits(bytes[0]), "");
    PlainEnds(bytes[..1]);
    assert "" + Digits(bytes[0]) == Plain(bytes[..1]);
    var i := 1;
    while i < length
      invariant 1 <= i <= length && result.Length == length * 3
      invariant Filled(result[..], Plain(bytes[..i]))
    {
      PlainStep(bytes, i);
      Put(result, i * 3 - 1, " ", Plain(bytes[..i]));
      Put(result, i * 3, Digits(bytes[i]), Plain(bytes[..i]) + " ");
      i := i + 1;
    }
    assert bytes[..length] == bytes;
  }

  lemma PlainEnds(bytes: seq<byte>)
    ensures bytes == [] ==> Plain(bytes) == ""
    ensures |bytes| == 1 ==> Plain(bytes) == Digits(bytes[0])
  {
  }

  /** The text of a C string: everything up to the terminator, if all of it was written. */
  ghost predicate Spells(cells: seq<Cell>, text: string) {
    exists n :: 0 <= n < |cells| && cells[n] == Some('\0') && cells[..n] == Cells(text) && '\0' !in text
  }

  lemma {:induction false} WideHasNoZero(bytes: seq<byte>, width: nat)
    requires width > 0
    ensures '\0' !in Wide(bytes, width)
  {
    if bytes != [] {
      WideHasNoZero(bytes[..|bytes| - 1], width);
    }
  }

  /** The wide form is a string exactly when the length is no multiple of the width, or zero. */
  lemma WideSpells(bytes: seq<byte>, width: nat)
    requires width > 0
    ensures (exists text :: Spells(WideBuffer(bytes, width), text)) <==> bytes == [] || |bytes| % width != 0
    ensures bytes == [] || |bytes| % width != 0 ==>
              Spells(WideBuffer(bytes, width), Wide(bytes, width)) && Unhex(Wide(bytes, width)) == bytes
  {
    hide Unhex, Digits;
    WideReadsBack(bytes, width);
    WideHasNoZero(bytes, width);
    var text, cells := Wide(bytes, width), WideBuffer(bytes, width);
    if bytes == [] || |bytes| % width != 0 {
      assert cells[|text|] == Some('\0') && cells[..|text|] == Cells(text);
      assert Spells(cells, text);
    } else {
      forall other ensures !Spells(cells, other) {
        Unspelt(cells, text, other);
      }
    }
  }

  lemma Unspelt(cells: seq<Cell>, text: string, other: string)
    requires cells == Cells(text) + [None, Some('\0')] && '\0' !in text
    ensures !Spells(cells, other)
  {
    assert forall k :: 0 <= k < |text| ==> cells[k] == Some(text[k]) && text[k] in text;
    forall n | 0 <= n < |cells| && cells[n] == Some('\0') ensures cells[..n] != Cells(other) {
      assert n == |text| + 1 && cells[..n][|text|] == None;
      assert |other| == n ==> Cells(other)[|text|].Some?;
    }
  }
}
