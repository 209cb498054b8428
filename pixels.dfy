/** app.js `processImage`: binarise an RGBA pixel buffer in place before local OCR.
    Luminance is kept exact by scaling the weights 0.299, 0.587 and 0.114 by 1000, so every
    quantity below is 1000 times the source's. */
module Pixels {

  /** One element of the canvas' `Uint8ClampedArray`. */
  type Byte = x: int | 0 <= x < 256

  /** 1000 × (0.299 R + 0.587 G + 0.114 B). */
  function ScaledLuminance(r: Byte, g: Byte, b: Byte): int {
    299 * r + 587 * g + 114 * b
  }

  /** 1000 × clamp((L - 128) * 2 + 128, 0, 255): the contrast stretch around 128. */
  function ScaledStretch(r: Byte, g: Byte, b: Byte): (v: int)
    ensures 0 <= v <= 255000
    ensures v > 128000 <==> ScaledLuminance(r, g, b) > 128000
  {
    var stretched := (ScaledLuminance(r, g, b) - 128000) * 2 + 128000;
    if stretched > 255000 then 255000 else if stretched < 0 then 0 else stretched
  }

  /** The grey value written to the three colour channels of one pixel: white above 200,
      black below 50, otherwise whichever side of 128 the stretched luminance lies. */
  function Binarise(r: Byte, g: Byte, b: Byte): Byte {
    var v := ScaledStretch(r, g, b);
    if v > 200000 then 255
    else if v < 50000 then 0
    else if v > 128000 then 255
    else 0
  }

  /** The outer thresholds never change the outcome: a pixel turns white exactly when its
      luminance exceeds 128, and black otherwise. */
  lemma BinariseIsMidpointTest(r: Byte, g: Byte, b: Byte)
    ensures Binarise(r, g, b) == (if ScaledLuminance(r, g, b) > 128000 then 255 else 0)
  {
  }

  /** The value written to the colour channels of the pixel that starts at index `p`.
      A last pixel cut short by the end of the buffer reads `undefined` for its missing
      channels; the arithmetic then yields NaN, every comparison fails, and 0 is written. */
  function PixelValue(data: seq<Byte>, p: nat): Byte
    requires p < |data|
  {
    if p + 2 < |data| then Binarise(data[p], data[p + 1], data[p + 2]) else 0
  }

  /** Byte `k` of the buffer after `processImage`. */
  function BinarisedAt(data: seq<Byte>, k: nat): Byte
    requires k < |data|
  {
    if k % 4 == 3 then data[k] else PixelValue(data, k - k % 4)
  }

  /** The buffer `processImage` leaves behind: every colour byte replaced by its pixel's
      grey value, every alpha byte (index 3 of a pixel) untouched. */
  function Binarised(data: seq<Byte>): (out: seq<Byte>)
    ensures |out| == |data|
    ensures forall k :: 0 <= k < |data| && k % 4 == 3 ==> out[k] == data[k]
  {
    seq(|data|, k requires 0 <= k < |data| => BinarisedAt(data, k))
  }

  /** Where byte `k` sits in its pixel. */
  lemma PixelOf(k: nat)
    ensures var p := k - k % 4; 0 <= p <= k < p + 4 && p % 4 == 0 && k % 4 == k - p
  {
  }

  /** Every whole pixel comes out black or white: its three colour bytes are equal, are 0
      or 255, and are 255 exactly when the pixel's luminance exceeds 128. */
  lemma BinarisedPixel(data: seq<Byte>, p: nat)
    requires p % 4 == 0 && p + 2 < |data|
    ensures var out := Binarised(data);
      out[p] == out[p + 1] == out[p + 2] &&
      (out[p] == 0 || out[p] == 255) &&
      (out[p] == 255 <==> ScaledLuminance(data[p], data[p + 1], data[p + 2]) > 128000)
  {
    PixelBytes(data, p);
    BinariseIsMidpointTest(data[p], data[p + 1], data[p + 2]);
  }

  /** The three colour bytes of a whole pixel all hold the pixel's grey value. */
  lemma PixelBytes(data: seq<Byte>, p: nat)
    requires p % 4 == 0 && p + 2 < |data|
    ensures var out := Binarised(data);
      out[p] == PixelValue(data, p) && out[p + 1] == PixelValue(data, p) && out[p + 2] == PixelValue(data, p)
  {
    SamePixel(p, 0);
    SamePixel(p, 1);
    SamePixel(p, 2);
    var out := Binarised(data);
    assert out[p] == BinarisedAt(data, p);
    assert out[p + 1] == BinarisedAt(data, p + 1);
    assert out[p + 2] == BinarisedAt(data, p + 2);
  }

  lemma NextPixel(p: nat)
    requires p % 4 == 0
    ensures (p + 4) % 4 == 0
  {
  }

  /** Byte `j` of the pixel that starts at `p`. */
  lemma SamePixel(p: nat, j: nat)
    requires p % 4 == 0 && j < 4
    ensures (p + j) % 4 == j && (p + j) - (p + j) % 4 == p
  {
  }

  /** Every colour byte of the output is 0 or 255. */
  lemma BinarisedIsBlackOrWhite(data: seq<Byte>, k: nat)
    requires k < |data| && k % 4 != 3
    ensures Binarised(data)[k] == 0 || Binarised(data)[k] == 255
  {
    var p := k - k % 4;
    if p + 2 < |data| {
      BinariseIsMidpointTest(data[p], data[p + 1], data[p + 2]);
    }
  }

  /** Black and white are fixed points of `Binarise`. */
  lemma BinariseKeepsBlackAndWhite(v: Byte)
    requires v == 0 || v == 255
    ensures Binarise(v, v, v) == v
  {
  }

  /** Binarising a binarised buffer changes nothing: black stays black and white stays
      white. */
  lemma BinarisedIsIdempotent(data: seq<Byte>)
    ensures Binarised(Binarised(data)) == Binarised(data)
  {
    forall k | 0 <= k < |data| ensures Binarised(Binarised(data))[k] == Binarised(data)[k] {
      BinarisedTwiceAt(data, k);
    }
  }

  lemma BinarisedTwiceAt(data: seq<Byte>, k: nat)
    requires k < |data|
    ensures Binarised(Binarised(data))[k] == Binarised(data)[k]
  {
    var once := Binarised(data);
    if k % 4 != 3 {
      PixelOf(k);
      var p := k - k % 4;
      assert once[k] == PixelValue(data, p);
      assert Binarised(once)[k] == PixelValue(once, p);
      if p + 2 < |data| {
        BinarisedPixel(data, p);
        BinariseKeepsBlackAndWhite(once[p]);
      }
    }
  }

  /** `buf` holds the output up to byte `i` and the untouched input from there on. */
  predicate DoneUpTo(input: seq<Byte>, buf: seq<Byte>, i: nat) {
    |buf| == |input| &&
    (forall k :: 0 <= k < i && k < |buf| ==> buf[k] == BinarisedAt(input, k)) &&
    (forall k :: i <= k < |buf| ==> buf[k] == input[k])
  }

  /** `buf` with the colour bytes of the pixel at `i` set to `gray`; bytes past the end
      are not written. */
  function WritePixel(buf: seq<Byte>, i: nat, gray: Byte): (out: seq<Byte>)
    ensures |out| == |buf|
  {
    seq(|buf|, k requires 0 <= k < |buf| => if i <= k < i + 3 then gray else buf[k])
  }

  /** Writing the grey value of the pixel at `i` extends the finished part by one pixel. */
  lemma WritePixelAdvances(input: seq<Byte>, buf: seq<Byte>, i: nat)
    requires i % 4 == 0 && i < |buf| && DoneUpTo(input, buf, i)
    ensures DoneUpTo(input, WritePixel(buf, i, PixelValue(input, i)), i + 4)
  {
    var out := WritePixel(buf, i, PixelValue(input, i));
    forall k | i <= k < i + 4 && k < |out| ensures out[k] == BinarisedAt(input, k) {
      PixelOf(k);
    }
  }

  /** `processImage(imageData)`: walks the buffer four bytes at a time and overwrites the
      colour bytes of each pixel with its grey value. */
  method ProcessImage(data: array<Byte>)
    modifies data
    ensures data[..] == Binarised(old(data[..]))
  {
    ghost var input := data[..];
    var i := 0;
    while i < data.Length
      invariant 0 <= i <= data.Length + 3 && i % 4 == 0
      invariant DoneUpTo(input, data[..], i)
    {
      ghost var buf := data[..];
      var gray := if i + 2 < data.Length then Binarise(data[i], data[i + 1], data[i + 2]) else 0;
      assert gray == PixelValue(input, i);
      data[i] := gray;
      if i + 1 < data.Length {
        data[i + 1] := gray;
      }
      if i + 2 < data.Length {
        data[i + 2] := gray;
      }
      assert data[..] == WritePixel(buf, i, gray);
      WritePixelAdvances(input, buf, i);
      NextPixel(i);
      i := i + 4;
    }
    DoneIsBinarised(input, data[..], i);
  }

  /** Once every byte is done, the buffer is the binarised input. */
  lemma DoneIsBinarised(input: seq<Byte>, buf: seq<Byte>, i: nat)
    requires DoneUpTo(input, buf, i) && i >= |buf|
    ensures buf == Binarised(input)
  {
    assert forall k :: 0 <= k < |buf| ==> buf[k] == Binarised(input)[k];
  }
}
