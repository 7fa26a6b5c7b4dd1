// The frame buffer of FrameBuffers.hpp: a height x width grid of colours
// with point reads and writes, and the byte stream its PPM (P6) writer
// emits: a text header, then the stored rows bottom-up, three bytes a pixel.

module FrameBuffers {
  import opened Math3D

  /** One more than the largest `size_t`. */
  const SizeModulus: nat := 0x1_0000_0000_0000_0000

  type SizeT = n: nat | n < SizeModulus

  newtype Byte = x: int | 0 <= x < 256

  // ---------------------------------------------------------------------
  // Decimal formatting of a size (`ofs << width`)

  function DigitChar(d: nat): (ch: char)
    requires d < 10
    ensures '0' <= ch <= '9'
  {
    ('0' as int + d) as char
  }

  function DigitValue(ch: char): (d: nat)
    requires '0' <= ch <= '9'
    ensures d < 10
  {
    ch as int - '0' as int
  }

  ghost predicate AllDigits(s: string) {
    forall i :: 0 <= i < |s| ==> '0' <= s[i] <= '9'
  }

  /** The decimal text of `n`: digits only, never empty, no leading zero. */
  function Decimal(n: nat): (s: string)
    ensures |s| > 0 && AllDigits(s)
    ensures s[0] == '0' ==> n == 0
    decreases n
  {
    if n < 10 then [DigitChar(n)] else Decimal(n / 10) + [DigitChar(n % 10)]
  }

  /** The number a string of decimal digits denotes. */
  function DecimalValue(s: string): nat
    requires AllDigits(s)
  {
    if s == [] then 0 else DecimalValue(s[..|s| - 1]) * 10 + DigitValue(s[|s| - 1])
  }

  /** Reading back the decimal text of `n` gives `n`. */
  lemma {:induction false} DecimalRoundTrip(n: nat)
    ensures DecimalValue(Decimal(n)) == n
    decreases n
  {
    if n >= 10 {
      DecimalRoundTrip(n / 10);
      var s := Decimal(n);
      assert s[..|s| - 1] == Decimal(n / 10);
    }
  }

  // ---------------------------------------------------------------------
  // The PPM header

  /** "P6\n" + width + " " + height + "\n255\n" (FrameBuffers.hpp:58). */
  function HeaderText(width: nat, height: nat): string {
    "P6\n" + Decimal(width) + " " + Decimal(height) + "\n255\n"
  }

  /** The bytes of a text whose characters are all below 256. */
  function Ascii(s: string): (bytes: seq<Byte>)
    requires forall i :: 0 <= i < |s| ==> s[i] as int < 256
    ensures |bytes| == |s|
    ensures forall i :: 0 <= i < |s| ==> bytes[i] as int == s[i] as int
  {
    seq(|s|, i requires 0 <= i < |s| => s[i] as int as Byte)
  }

  /** The header's bytes. */
  function HeaderBytes(width: nat, height: nat): seq<Byte> {
    var text := HeaderText(width, height);
    assert forall i :: 0 <= i < |text| ==> text[i] as int < 256 by {
      assert AllDigits(Decimal(width)) && AllDigits(Decimal(height));
    }
    Ascii(text)
  }

  /** The index of the first space in `s`, or |s| when there is none. */
  function FirstSpace(s: string): (k: nat)
    ensures k <= |s|
    ensures forall i :: 0 <= i < k ==> s[i] != ' '
    ensures k < |s| ==> s[k] == ' '
  {
    if s == [] || s[0] == ' ' then 0 else 1 + FirstSpace(s[1..])
  }

  /** Reads a header back: width and height, or None when the text is not a P6 header. */
  function ParseHeader(text: string): Option<(nat, nat)> {
    if |text| < 8 || text[..3] != "P6\n" || text[|text| - 5..] != "\n255\n" then None
    else
      var middle := text[3..|text| - 5];
      var k := FirstSpace(middle);
      if k == |middle| then None
      else
        var w, h := middle[..k], middle[k + 1..];
        if w == [] || h == [] || !(forall i :: 0 <= i < |w| ==> '0' <= w[i] <= '9')
           || !(forall i :: 0 <= i < |h| ==> '0' <= h[i] <= '9') then None
        else Some((DecimalValue(w), DecimalValue(h)))
  }

  /** The header names the buffer's width and height and can be read back. */
  lemma HeaderRoundTrip(width: nat, height: nat)
    ensures ParseHeader(HeaderText(width, height)) == Some((width, height))
  {
    var dw, dh := Decimal(width), Decimal(height);
    HeaderFraming(dw, dh);
    HeaderFields(dw, dh);
    DecimalRoundTrip(width);
    DecimalRoundTrip(height);
  }

  /** The fixed framing of a header around the two size fields. */
  lemma HeaderFraming(dw: string, dh: string)
    ensures var text := "P6\n" + dw + " " + dh + "\n255\n";
      && |text| >= 8
      && text[..3] == "P6\n"
      && text[|text| - 5..] == "\n255\n"
      && text[3..|text| - 5] == dw + " " + dh
  {
    var text := "P6\n" + dw + " " + dh + "\n255\n";
    assert text[3..|text| - 5] == dw + " " + dh;
  }

  /** The space after the width separates the two size fields. */
  lemma HeaderFields(dw: string, dh: string)
    requires AllDigits(dw)
    ensures var middle := dw + " " + dh;
      && FirstSpace(middle) == |dw|
      && middle[..|dw|] == dw
      && middle[|dw| + 1..] == dh
  {
    SpaceFreeThenSpace(dw, dh);
    var middle := dw + " " + dh;
    assert middle[..|dw|] == dw;
    assert middle[|dw| + 1..] == dh;
  }

  lemma {:induction false} SpaceFreeThenSpace(a: string, b: string)
    requires AllDigits(a)
    ensures FirstSpace(a + " " + b) == |a|
  {
    if a != [] {
      assert (a + " " + b)[1..] == a[1..] + " " + b;
      SpaceFreeThenSpace(a[1..], b);
    }
  }

  // ---------------------------------------------------------------------
  // The pixel payload

  /**
   * One colour channel as the byte the writer emits: `channelByte(x)`
   * stands for `static_cast<unsigned char>(x * 255)`.
   */
  function PixelBytes(c: Color, channelByte: real -> Byte): seq<Byte> {
    [channelByte(c.r), channelByte(c.g), channelByte(c.b)]
  }

  /** Channel `k` of a colour: 0 red, 1 green, 2 blue. */
  function Channel(c: Color, k: nat): real
    requires k < 3
  {
    if k == 0 then c.r else if k == 1 then c.g else c.b
  }

  /** A row's pixels left to right. */
  function RowBytes(row: seq<Color>, channelByte: real -> Byte): seq<Byte> {
    if row == [] then [] else RowBytes(row[..|row| - 1], channelByte) + PixelBytes(row[|row| - 1], channelByte)
  }

  /** A row's bytes are three per pixel, in column order, red, green, blue. */
  lemma {:induction false} RowBytesAt(row: seq<Color>, channelByte: real -> Byte)
    ensures |RowBytes(row, channelByte)| == 3 * |row|
    ensures forall c, k :: 0 <= c < |row| && 0 <= k < 3 ==>
      RowBytes(row, channelByte)[3 * c + k] == channelByte(Channel(row[c], k))
  {
    if row != [] {
      var init := row[..|row| - 1];
      RowBytesAt(init, channelByte);
      forall c, k | 0 <= c < |row| && 0 <= k < 3
        ensures RowBytes(row, channelByte)[3 * c + k] == channelByte(Channel(row[c], k))
      {
        if c < |row| - 1 {
          assert row[c] == init[c];
        }
      }
    }
  }

  /** The first `n` emitted rows: emitted row i is stored row |pixels| - 1 - i. */
  function Payload(pixels: seq<seq<Color>>, n: nat, channelByte: real -> Byte): seq<Byte>
    requires n <= |pixels|
  {
    if n == 0 then [] else Payload(pixels, n - 1, channelByte) + RowBytes(pixels[|pixels| - n], channelByte)
  }

  ghost predicate Rectangular(pixels: seq<seq<Color>>, width: nat) {
    forall r :: 0 <= r < |pixels| ==> |pixels[r]| == width
  }

  /** The position of channel k of column c of emitted row i, in a payload of rows `width` pixels long. */
  function PayloadIndex(width: nat, i: nat, c: nat, k: nat): nat {
    (i * width + c) * 3 + k
  }

  /** Where emitted row i starts in a payload whose rows are `rowLen` bytes long. */
  function RowStart(i: nat, rowLen: nat): nat {
    if i == 0 then 0 else RowStart(i - 1, rowLen) + rowLen
  }

  lemma {:induction false} RowStartIsProduct(i: nat, rowLen: nat)
    ensures RowStart(i, rowLen) == i * rowLen
  {
    if i > 0 {
      RowStartIsProduct(i - 1, rowLen);
      assert (i - 1) * rowLen + rowLen == i * rowLen;
    }
  }

  lemma PayloadIndexSplit(width: nat, i: nat, c: nat, k: nat)
    ensures PayloadIndex(width, i, c, k) == RowStart(i, 3 * width) + (3 * c + k)
  {
    RowStartIsProduct(i, 3 * width);
    assert (i * width + c) * 3 == i * width * 3 + c * 3;
    assert i * width * 3 == i * (3 * width);
  }

  /** The first `n` emitted rows of a rectangular grid hold n rows of 3*width bytes each. */
  lemma {:induction false} PayloadLength(pixels: seq<seq<Color>>, width: nat, n: nat, channelByte: real -> Byte)
    requires Rectangular(pixels, width) && n <= |pixels|
    ensures |Payload(pixels, n, channelByte)| == RowStart(n, 3 * width)
  {
    if n > 0 {
      PayloadLength(pixels, width, n - 1, channelByte);
      RowBytesAt(pixels[|pixels| - n], channelByte);
    }
  }

  /** Byte j of emitted row i is byte j of stored row |pixels|-1-i. */
  lemma {:induction false} PayloadRowAt(pixels: seq<seq<Color>>, width: nat, n: nat, i: nat, j: nat, channelByte: real -> Byte)
    requires Rectangular(pixels, width) && n <= |pixels|
    requires i < n && j < 3 * width
    ensures RowStart(i, 3 * width) + j < |Payload(pixels, n, channelByte)|
    ensures j < |RowBytes(pixels[|pixels| - 1 - i], channelByte)|
    ensures Payload(pixels, n, channelByte)[RowStart(i, 3 * width) + j] == RowBytes(pixels[|pixels| - 1 - i], channelByte)[j]
  {
    var rowLen := 3 * width;
    PayloadLength(pixels, width, n - 1, channelByte);
    RowBytesAt(pixels[|pixels| - n], channelByte);
    var prev := Payload(pixels, n - 1, channelByte);
    assert Payload(pixels, n, channelByte) == prev + RowBytes(pixels[|pixels| - n], channelByte);
    if i < n - 1 {
      PayloadRowAt(pixels, width, n - 1, i, j, channelByte);
    } else {
      RowBytesAt(pixels[|pixels| - 1 - i], channelByte);
    }
  }

  /**
   * The payload of a rectangular grid holds n*width*3 bytes; byte
   * (i*width + c)*3 + k is channel k of stored row |pixels|-1-i, column c.
   */
  lemma PayloadAt(pixels: seq<seq<Color>>, width: nat, n: nat, channelByte: real -> Byte)
    requires Rectangular(pixels, width) && n <= |pixels|
    ensures |Payload(pixels, n, channelByte)| == n * width * 3
    ensures forall i, c, k :: 0 <= i < n && 0 <= c < width && 0 <= k < 3 ==>
      && PayloadIndex(width, i, c, k) < |Payload(pixels, n, channelByte)|
      && Payload(pixels, n, channelByte)[PayloadIndex(width, i, c, k)] == channelByte(Channel(pixels[|pixels| - 1 - i][c], k))
  {
    PayloadLength(pixels, width, n, channelByte);
    RowStartIsProduct(n, 3 * width);
    ReorderProduct(n, width);
    forall i, c, k | 0 <= i < n && 0 <= c < width && 0 <= k < 3
      ensures PayloadIndex(width, i, c, k) < |Payload(pixels, n, channelByte)|
      ensures Payload(pixels, n, channelByte)[PayloadIndex(width, i, c, k)] == channelByte(Channel(pixels[|pixels| - 1 - i][c], k))
    {
      PayloadByteAt(pixels, width, n, i, c, k, channelByte);
    }
  }

  lemma ReorderProduct(n: nat, width: nat)
    ensures n * (3 * width) == n * width * 3
  {
  }

  lemma PayloadByteAt(pixels: seq<seq<Color>>, width: nat, n: nat, i: nat, c: nat, k: nat, channelByte: real -> Byte)
    requires Rectangular(pixels, width) && n <= |pixels|
    requires i < n && c < width && k < 3
    ensures PayloadIndex(width, i, c, k) < |Payload(pixels, n, channelByte)|
    ensures Payload(pixels, n, channelByte)[PayloadIndex(width, i, c, k)] == channelByte(Channel(pixels[|pixels| - 1 - i][c], k))
  {
    PayloadIndexSplit(width, i, c, k);
    PayloadRowAt(pixels, width, n, i, 3 * c + k, channelByte);
    RowBytesAt(pixels[|pixels| - 1 - i], channelByte);
  }

  // ---------------------------------------------------------------------
  // The frame buffer

  /** The outer loop of `writeToFile`: appends the stored rows bottom to top. */
  method AppendRows(prefix: seq<Byte>, pixels: seq<seq<Color>>, channelByte: real -> Byte) returns (stream: seq<Byte>)
    ensures stream == prefix + Payload(pixels, |pixels|, channelByte)
  {
    stream := prefix;
    var row: nat := 0;
    while row < |pixels|
      invariant row <= |pixels|
      invariant stream == prefix + Payload(pixels, row, channelByte)
    {
      var stored := pixels[|pixels| - 1 - row];
      stream := AppendRow(stream, stored, channelByte);
      assert Payload(pixels, row + 1, channelByte) == Payload(pixels, row, channelByte) + RowBytes(stored, channelByte);
      row := row + 1;
    }
  }

  /** The inner loop of `writeToFile`: appends one row's pixels, left to right, three bytes each. */
  method AppendRow(prefix: seq<Byte>, row: seq<Color>, channelByte: real -> Byte) returns (stream: seq<Byte>)
    ensures stream == prefix + RowBytes(row, channelByte)
  {
    stream := prefix;
    var col: nat := 0;
    while col < |row|
      invariant col <= |row|
      invariant stream == prefix + RowBytes(row[..col], channelByte)
    {
      var color := row[col];
      assert row[..col + 1][..col] == row[..col];
      stream := stream + [channelByte(color.r), channelByte(color.g), channelByte(color.b)];
      col := col + 1;
    }
    assert row[..col] == row;
  }

  /** A value that fits in `size_t` is not changed by the wrap-around. */
  lemma SmallSizeUnwrapped(p: nat)
    ensures p < SizeModulus ==> p % SizeModulus == p
  {
  }

  /**
   * `static_cast<size_t>` of a float: the fraction is discarded, toward
   * zero. Defined only when the truncated value fits in `size_t`.
   */
  function TruncateToSize(x: real): (n: SizeT)
    requires -1.0 < x < SizeModulus as real
    ensures x < 0.0 ==> n == 0
    ensures x >= 0.0 ==> n as real <= x < n as real + 1.0
  {
    if x < 0.0 then 0 else x.Floor
  }

  class FrameBuffer {
    const width: SizeT
    const height: SizeT
    const numPixels: SizeT
    const defaultColor: Color
    var pixels: seq<seq<Color>>

    /** `height` rows of `width` cells; `numPixels` is the `size_t` product of the two. */
    ghost predicate Valid()
      reads this
    {
      && |pixels| == height
      && Rectangular(pixels, width)
      && numPixels == (width * height) % SizeModulus
    }

    /** A grid of `height` rows, each of `width` cells set to `defaultColor` (FrameBuffers.hpp:23-31). */
    constructor (width: SizeT, height: SizeT, defaultColor: Color)
      ensures Valid()
      ensures this.width == width && this.height == height && this.defaultColor == defaultColor
      ensures forall r, c :: 0 <= r < height && 0 <= c < width ==> pixels[r][c] == defaultColor
    {
      this.width := width;
      this.height := height;
      this.numPixels := (width * height) % SizeModulus;
      this.defaultColor := defaultColor;
      this.pixels := seq(height, _ => seq(width, _ => defaultColor));
    }

    /**
     * The constructor from a 2D size (FrameBuffers.hpp:32-34): each
     * coordinate truncated to a `size_t`, which the source requires to be
     * in range.
     */
    constructor FromSize(size: Vec2, defaultColor: Color)
      requires -1.0 < size.x < SizeModulus as real && -1.0 < size.y < SizeModulus as real
      ensures Valid()
      ensures width == TruncateToSize(size.x) && height == TruncateToSize(size.y) && this.defaultColor == defaultColor
      ensures forall r, c :: 0 <= r < height && 0 <= c < width ==> pixels[r][c] == defaultColor
    {
      var w := TruncateToSize(size.x);
      var h := TruncateToSize(size.y);
      this.width := w;
      this.height := h;
      this.numPixels := (w * h) % SizeModulus;
      this.defaultColor := defaultColor;
      this.pixels := seq(h, _ => seq(w, _ => defaultColor));
    }

    /** The constructed width, which is also the length of every stored row. */
    function GetWidth(): (w: SizeT)
      reads this
      requires Valid()
      ensures w == width
      ensures forall r :: 0 <= r < |pixels| ==> |pixels[r]| == w
    {
      width
    }

    /** The number of stored rows. */
    function GetHeight(): (h: SizeT)
      reads this
      requires Valid()
      ensures h == |pixels|
    {
      height
    }

    /** width * height, whenever the product fits in a `size_t`. */
    function GetNumPixels(): (n: SizeT)
      reads this
      requires Valid()
      ensures width * height < SizeModulus ==> n == width * height
    {
      var product := width * height;
      SmallSizeUnwrapped(product);
      numPixels
    }

    /** `getColor`: no bounds checking in the source, so the cell must exist. */
    function GetColor(row: nat, col: nat): Color
      reads this
      requires Valid() && row < height && col < width
    {
      pixels[row][col]
    }

    /** `setColor`: overwrites one cell and leaves every other cell and the dimensions alone. */
    method SetColor(row: nat, col: nat, color: Color)
      requires Valid() && row < height && col < width
      modifies this
      ensures Valid()
      ensures pixels == old(pixels)[row := old(pixels)[row][col := color]]
      ensures GetColor(row, col) == color
      ensures forall r, c :: 0 <= r < height && 0 <= c < width && (r, c) != (row, col) ==>
        GetColor(r, c) == old(GetColor(r, c))
    {
      pixels := pixels[row := pixels[row][col := color]];
    }

    /**
     * The byte stream `writeToFile` sends to the file: the header, then
     * the rows bottom-up, each left to right, three bytes a pixel.
     */
    method WriteToFile(channelByte: real -> Byte) returns (stream: seq<Byte>)
      requires Valid()
      ensures stream == HeaderBytes(width, height) + Payload(pixels, height, channelByte)
    {
      stream := AppendRows(HeaderBytes(width, height), pixels, channelByte);
    }
  }
}
