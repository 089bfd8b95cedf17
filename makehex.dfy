/** sw/tools/makehex.py: turns a raw firmware image into the text form
    that a `$readmemh` memory initialiser loads.  The image is padded with
    zero bytes to a whole number of 32-bit words, and every word becomes
    one line of eight lower-case hex digits, most significant byte first,
    the word being taken little-endian from the image.  Reading the file
    and printing the lines are not modelled: the model maps the bytes read
    to the lines printed. */
module MakeHex {

  type byte = x: int | 0 <= x < 0x100

  datatype Option<T> = None | Some(value: T)

  // ---------------------------------------------------------------------
  // Padding (makehex.py lines 7-9)
  // ---------------------------------------------------------------------

  /** How many zero bytes bring `n` bytes up to a multiple of 4. */
  function Padding(n: nat): (k: nat)
    ensures k < 4 && (n + k) % 4 == 0
  {
    (4 - n % 4) % 4
  }

  function Zeros(n: nat): (z: seq<byte>)
    ensures |z| == n && forall i :: 0 <= i < n ==> z[i] == 0
  {
    seq(n, _ => 0)
  }

  /** The image padded to a 4-byte boundary: the input is kept as a
      prefix, the padding is zeros, and the length is the least multiple
      of 4 that is at least the input's length. */
  function Padded(data: seq<byte>): (p: seq<byte>)
    ensures |p| % 4 == 0 && |data| <= |p| < |data| + 4
    ensures p[..|data|] == data
    ensures forall i :: |data| <= i < |p| ==> p[i] == 0
  {
    data + Zeros(Padding(|data|))
  }

  /** No shorter multiple of 4 holds the input. */
  lemma PaddedIsShortest(data: seq<byte>, m: nat)
    requires m % 4 == 0 && |data| <= m
    ensures |Padded(data)| <= m
  {
  }

  /** An image already a whole number of words is left as it is. */
  lemma PaddedAlignedIsSame(data: seq<byte>)
    requires |data| % 4 == 0
    ensures Padded(data) == data
  {
    assert Padded(data) == data + [];
  }

  // ---------------------------------------------------------------------
  // Hex lines (makehex.py lines 11-13)
  // ---------------------------------------------------------------------

  /** A lower-case hex digit, as `%x` prints it. */
  predicate IsHexDigit(c: char)
  {
    '0' <= c <= '9' || 'a' <= c <= 'f'
  }

  function HexDigit(n: int): (c: char)
    requires 0 <= n < 16
    ensures IsHexDigit(c)
  {
    if n < 10 then ('0' as int + n) as char else ('a' as int + n - 10) as char
  }

  /** `"%02x" % b`: two lower-case hex digits. */
  function Hex2(b: byte): (s: string)
    ensures |s| == 2
  {
    [HexDigit(b / 16), HexDigit(b % 16)]
  }

  /** `"%02x%02x%02x%02x" % (w[3], w[2], w[1], w[0])`. */
  function Line(w: seq<byte>): (s: string)
    requires |w| == 4
  {
    [HexDigit(w[3] / 16), HexDigit(w[3] % 16), HexDigit(w[2] / 16), HexDigit(w[2] % 16),
     HexDigit(w[1] / 16), HexDigit(w[1] % 16), HexDigit(w[0] / 16), HexDigit(w[0] % 16)]
  }

  /** Eight characters, each a lower-case hex digit. */
  predicate IsHexLine(s: string)
  {
    |s| == 8 && forall i :: 0 <= i < 8 ==> IsHexDigit(s[i])
  }

  /** The bytes of a word, most significant first, two digits each. */
  lemma LineIsWordBytesReversed(w: seq<byte>)
    requires |w| == 4
    ensures IsHexLine(Line(w))
    ensures Line(w) == Hex2(w[3]) + Hex2(w[2]) + Hex2(w[1]) + Hex2(w[0])
  {
  }

  /** One line per 4-byte slice, in order, each eight hex digits. */
  function HexLines(p: seq<byte>): (lines: seq<string>)
    requires |p| % 4 == 0
    ensures |lines| == |p| / 4
    ensures forall k :: 0 <= k < |lines| ==> IsHexLine(lines[k])
    decreases |p|
  {
    if p == [] then []
    else
      LineIsWordBytesReversed(p[|p| - 4..]);
      HexLines(p[..|p| - 4]) + [Line(p[|p| - 4..])]
  }

  /** Line `k` is the word at bytes 4k..4k+3. */
  lemma {:induction false} HexLinesAt(p: seq<byte>, k: nat)
    requires |p| % 4 == 0 && k < |p| / 4
    ensures HexLines(p)[k] == Line(p[4 * k..4 * k + 4])
    decreases |p|
  {
    if k < |p| / 4 - 1 {
      var q := p[..|p| - 4];
      HexLinesAt(q, k);
      assert q[4 * k..4 * k + 4] == p[4 * k..4 * k + 4];
    }
  }

  /** The whole transformation: bytes read to lines printed. */
  function MakeHex(data: seq<byte>): (lines: seq<string>)
  {
    HexLines(Padded(data))
  }

  /** The script: pad, then emit one line per word. */
  method MakeHexImage(data: seq<byte>) returns (lines: seq<string>)
    ensures lines == MakeHex(data)
  {
    var bindata := PadToWords(data);
    lines := EmitLines(bindata);
  }

  /** The padding loop: append zero bytes until the length is a multiple
      of 4. */
  method PadToWords(data: seq<byte>) returns (bindata: seq<byte>)
    ensures bindata == Padded(data)
  {
    bindata := data;
    while |bindata| % 4 != 0
      invariant |data| <= |bindata| <= |data| + Padding(|data|)
      invariant bindata[..|data|] == data
      invariant forall i :: |data| <= i < |bindata| ==> bindata[i] == 0
      decreases |data| + Padding(|data|) - |bindata|
    {
      bindata := bindata + [0];
    }
    PaddedExactly(data, bindata);
  }

  /** The padded image is the only one of its length with the input as
      prefix and zeros after it. */
  lemma PaddedExactly(data: seq<byte>, b: seq<byte>)
    requires |data| <= |b| <= |data| + Padding(|data|) && |b| % 4 == 0
    requires b[..|data|] == data
    requires forall i :: |data| <= i < |b| ==> b[i] == 0
    ensures b == Padded(data)
  {
    var p := Padded(data);
    assert |b| == |p|;
    forall i | 0 <= i < |b|
      ensures b[i] == p[i]
    {
      if i < |data| {
        assert b[i] == b[..|data|][i] && p[i] == p[..|data|][i];
      }
    }
  }

  /** The output loop: one line for each 4-byte slice. */
  method EmitLines(bindata: seq<byte>) returns (lines: seq<string>)
    requires |bindata| % 4 == 0
    ensures lines == HexLines(bindata)
  {
    lines := [];
    var i := 0;
    while i < |bindata|
      invariant 0 <= i <= |bindata| && i % 4 == 0
      invariant lines == HexLines(bindata[..i])
      decreases |bindata| - i
    {
      var w := bindata[i..i + 4];
      lines := lines + [Line(w)];
      assert bindata[..i + 4][..i] == bindata[..i];
      assert bindata[..i + 4][i..] == w;
      i := i + 4;
    }
    assert bindata[..i] == bindata;
  }

  // ---------------------------------------------------------------------
  // Facts about the output
  // ---------------------------------------------------------------------

  /** One line for each started word of the input. */
  lemma LineCount(data: seq<byte>)
    ensures |MakeHex(data)| == (|data| + 3) / 4
  {
  }

  /** Line k shows bytes 4k+3, 4k+2, 4k+1 and 4k of the padded image, in
      that order, two digits each; past the end of the input the bytes
      are zero. */
  lemma LineByteOrder(data: seq<byte>, k: nat)
    requires k < |MakeHex(data)|
    ensures var p := Padded(data);
      MakeHex(data)[k] == Hex2(p[4 * k + 3]) + Hex2(p[4 * k + 2]) + Hex2(p[4 * k + 1]) + Hex2(p[4 * k])
  {
    var p := Padded(data);
    HexLinesAt(p, k);
    LineIsWordBytesReversed(p[4 * k..4 * k + 4]);
  }

  // ---------------------------------------------------------------------
  // Reading the lines back
  // ---------------------------------------------------------------------

  /** The value of one hex digit, either case. */
  function DigitValue(c: char): (v: Option<int>)
    ensures v.Some? ==> 0 <= v.value < 16
  {
    if '0' <= c <= '9' then Some(c as int - '0' as int)
    else if 'a' <= c <= 'f' then Some(c as int - 'a' as int + 10)
    else if 'A' <= c <= 'F' then Some(c as int - 'A' as int + 10)
    else None
  }

  lemma DigitValueOfHexDigit(n: int)
    requires 0 <= n < 16
    ensures DigitValue(HexDigit(n)) == Some(n)
  {
  }

  /** A string of hex digits as a number, most significant digit first;
      None when some character is not a hex digit. */
  function HexNumber(s: string): (r: Option<nat>)
    decreases |s|
  {
    if s == [] then Some(0)
    else match (HexNumber(s[..|s| - 1]), DigitValue(s[|s| - 1]))
      case (Some(hi), Some(d)) => Some(hi * 16 + d)
      case _ => None
  }

  /** `n` hex digits stand for less than 16^n. */
  lemma {:induction false} HexNumberBound(s: string)
    requires HexNumber(s).Some?
    ensures HexNumber(s).value < Pow16(|s|)
    decreases |s|
  {
    if s != [] {
      HexNumberBound(s[..|s| - 1]);
    }
  }

  function Pow16(n: nat): (r: nat)
    ensures r >= 1
  {
    if n == 0 then 1 else 16 * Pow16(n - 1)
  }

  /** One more digit `n` puts `n` below what was there. */
  lemma HexNumberPush(s: string, n: int)
    requires HexNumber(s).Some? && 0 <= n < 16
    ensures HexNumber(s + [HexDigit(n)]) == Some(HexNumber(s).value * 16 + n)
  {
    var t := s + [HexDigit(n)];
    assert t[..|t| - 1] == s;
    DigitValueOfHexDigit(n);
  }

  /** A 32-bit word from four bytes, least significant first. */
  function LittleEndian(w: seq<byte>): (v: nat)
    requires |w| == 4
    ensures v < 0x1_0000_0000
  {
    var b0: int, b1: int, b2: int, b3: int := w[0], w[1], w[2], w[3];
    b0 + 0x100 * (b1 + 0x100 * (b2 + 0x100 * b3))
  }

  /** A line read as `$readmemh` reads it: eight hex digits giving one
      32-bit word. */
  function ParseLine(s: string): (r: Option<nat>)
    ensures r.Some? ==> r.value < 0x1_0000_0000
  {
    if |s| != 8 then None
    else if HexNumber(s).None? then None
    else
      HexNumberBound(s);
      assert Pow16(8) == 0x1_0000_0000;
      HexNumber(s)
  }

  /** A line reads back as the little-endian word it was printed from. */
  lemma ParseLineOfLine(w: seq<byte>)
    requires |w| == 4
    ensures ParseLine(Line(w)) == Some(LittleEndian(w))
  {
    var s0: string := [];
    var s1 := s0 + [HexDigit(w[3] / 16)];
    var s2 := s1 + [HexDigit(w[3] % 16)];
    var s3 := s2 + [HexDigit(w[2] / 16)];
    var s4 := s3 + [HexDigit(w[2] % 16)];
    var s5 := s4 + [HexDigit(w[1] / 16)];
    var s6 := s5 + [HexDigit(w[1] % 16)];
    var s7 := s6 + [HexDigit(w[0] / 16)];
    var s8 := s7 + [HexDigit(w[0] % 16)];
    assert s8 == Line(w);
    HexNumberPush(s0, w[3] / 16);
    HexNumberPush(s1, w[3] % 16);
    HexNumberPush(s2, w[2] / 16);
    HexNumberPush(s3, w[2] % 16);
    HexNumberPush(s4, w[1] / 16);
    HexNumberPush(s5, w[1] % 16);
    HexNumberPush(s6, w[0] / 16);
    HexNumberPush(s7, w[0] % 16);
  }

  /** A word split into its four bytes, least significant first. */
  function WordBytes(v: nat): (w: seq<byte>)
    requires v < 0x1_0000_0000
    ensures |w| == 4
  {
    var v1 := v / 0x100;
    var v2 := v1 / 0x100;
    var v3 := v2 / 0x100;
    [v % 0x100, v1 % 0x100, v2 % 0x100, v3 % 0x100]
  }

  lemma WordBytesOfLittleEndian(w: seq<byte>)
    requires |w| == 4
    ensures WordBytes(LittleEndian(w)) == w
  {
    var n2: int := w[2] + 0x100 * (w[3] as int);
    var n1: int := w[1] + 0x100 * n2;
    PushByte(w[0], n1);
    PushByte(w[1], n2);
    PushByte(w[2], w[3]);
  }

  /** Putting byte `b` under `n` can be undone by dividing by 256. */
  lemma PushByte(b: byte, n: nat)
    ensures (b + 0x100 * n) % 0x100 == b && (b + 0x100 * n) / 0x100 == n
  {
  }

  /** The bytes a sequence of lines stands for; None if a line does not
      parse. */
  function Decode(lines: seq<string>): (r: Option<seq<byte>>)
    ensures r.Some? ==> |r.value| == 4 * |lines|
    decreases |lines|
  {
    if lines == [] then Some([])
    else match (Decode(lines[..|lines| - 1]), ParseLine(lines[|lines| - 1]))
      case (Some(front), Some(v)) => Some(front + WordBytes(v))
      case _ => None
  }

  /** The lines of a word-aligned image read back as that image. */
  lemma {:induction false} DecodeHexLines(p: seq<byte>)
    requires |p| % 4 == 0
    ensures Decode(HexLines(p)) == Some(p)
    decreases |p|
  {
    if p != [] {
      var q := p[..|p| - 4];
      var w := p[|p| - 4..];
      DecodeHexLines(q);
      var lines := HexLines(p);
      assert lines[..|lines| - 1] == HexLines(q);
      ParseLineOfLine(w);
      WordBytesOfLittleEndian(w);
      assert q + w == p;
    }
  }

  /** The round trip: the printed lines read back as the padded image,
      whose first bytes are the input. */
  lemma RoundTrip(data: seq<byte>)
    ensures Decode(MakeHex(data)) == Some(Padded(data))
    ensures Decode(MakeHex(data)).value[..|data|] == data
  {
    DecodeHexLines(Padded(data));
  }
}
