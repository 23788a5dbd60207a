/** The A-law codec of main/core/g711.c (ITU-T Recommendation G.711, section 3).
  *
  * Samples are 16-bit, codes are bytes.  Shifts of the non-negative magnitude are written as
  * divisions by powers of two; masks and exclusive-or on the code byte are bit-vector operations.
  */
module G711 {

  newtype int16 = x: int | -0x8000 <= x < 0x8000

  /** The last companded magnitude (after the shift by 3) of each segment. */
  const SEG_END: seq<int> := [0x1F, 0x3F, 0x7F, 0xFF, 0x1FF, 0x3FF, 0x7FF, 0xFFF]

  function Pow2(n: nat): (p: nat)
    ensures p >= 1
  {
    if n == 0 then 1 else 2 * Pow2(n - 1)
  }

  function Abs(a: int): int {
    if a < 0 then -a else a
  }

  lemma AbsValue(a: int)
    ensures Abs(a) == if a < 0 then -a else a
  {
  }

  function Max(a: int, b: int): int {
    if a < b then b else a
  }

  /** Magnitude of a sample; negative samples are offset by one so that both signs have 32768 values. */
  function Magnitude(sample: int16): (m: int)
    ensures 0 <= m < 0x8000
  {
    if sample < 0 then -(sample as int) - 1 else sample as int
  }

  /** The segment of a companded magnitude: the first whose end is not exceeded. */
  function Segment(pcm: int, from: nat): (seg: nat)
    requires 0 <= pcm < 0x1000 && from < 8
    requires from > 0 ==> SEG_END[from - 1] < pcm
    ensures from <= seg < 8 && pcm <= SEG_END[seg]
    ensures seg > 0 ==> SEG_END[seg - 1] < pcm
    decreases 8 - from
  {
    if pcm <= SEG_END[from] then from else Segment(pcm, from + 1)
  }

  /** Segment and mantissa of a sample, packed into seven bits. */
  function Companded(sample: int16): (v: int)
    ensures 0 <= v < 128
  {
    var pcm := Magnitude(sample) / 8;
    var seg := Segment(pcm, 0);
    16 * seg + pcm / Width(seg) % 16
  }

  /** What `g711a_encode` computes; its meaning is `CodeIffCell`. */
  function Code(sample: int16): bv8 {
    (Companded(sample) as bv8) ^ (if sample >= 0 then 0xD5 else 0x55)
  }

  /** The segment search loop of `g711a_encode`. */
  method SearchSegment(pcm: int) returns (seg: nat)
    requires 0 <= pcm < 0x1000
    ensures seg < 8 && seg == Segment(pcm, 0)
  {
    seg := 0;
    while pcm > SEG_END[seg]
      invariant 0 <= seg < 8
      invariant seg > 0 ==> SEG_END[seg - 1] < pcm
      invariant Segment(pcm, 0) == Segment(pcm, seg)
      decreases 8 - seg
    {
      seg := seg + 1;
    }
  }

  /** `g711a_encode`.  The source's saturating return for seg >= 8 is dead: pcm is at most 0xFFF. */
  method Encode(sample: int16) returns (code: bv8)
    ensures code == Code(sample)
    ensures Decode(code) as int - HalfWidth(SegOf(code)) <= sample as int < Decode(code) as int + HalfWidth(SegOf(code))
  {
    hide *;
    MagnitudeValue(sample);
    var pcm: int := if sample < 0 then -(sample as int) - 1 else sample as int;
    var mask: bv8 := if sample >= 0 then 0xD5 else 0x55;
    pcm := pcm / 8;
    var seg := SearchSegment(pcm);
    FoundSegment(sample, seg);
    var width := if seg < 2 then 2 else Pow2(seg);
    var aval: bv8 := (seg as bv8) << 4;
    var mantissa := pcm / width % 16;
    aval := aval | (mantissa as bv8);
    code := aval ^ mask;
    JoinBits(seg, mantissa);
    CodeIffCell(sample, code);
  }

  lemma FoundSegment(sample: int16, seg: nat)
    requires Segment(Magnitude(sample) / 8, 0) == seg
    ensures var w := if seg < 2 then 2 else Pow2(seg);
            w > 0 && Companded(sample) == 16 * seg + Magnitude(sample) / 8 / w % 16
    ensures Code(sample) == (Companded(sample) as bv8) ^ (if sample >= 0 then 0xD5 else 0x55)
  {
    WidthValue(seg);
    hide Segment, Pow2;
  }

  lemma WidthValue(seg: nat)
    ensures Width(seg) == if seg < 2 then 2 else Pow2(seg)
  {
    Pow2Table();
  }

  lemma JoinBits(seg: int, mantissa: int)
    requires 0 <= seg < 8 && 0 <= mantissa < 16
    ensures ((seg as bv8) << 4) | (mantissa as bv8) == (16 * seg + mantissa) as bv8
  {
    ByteValue(seg);
    ByteValue(mantissa);
    JoinFields(seg as bv8, mantissa as bv8);
    FieldsValue(((seg as bv8) << 4) | (mantissa as bv8), seg, mantissa);
  }

  lemma FieldsValue(b: bv8, seg: int, mantissa: int)
    requires 0 <= seg < 8 && 0 <= mantissa < 16
    requires (b >> 4) as int == seg && (b & 0x0F) as int == mantissa
    ensures b == (16 * seg + mantissa) as bv8
  {
    HighBits(b);
    LowBits(b);
    ByteValue(16 * seg + mantissa);
    SameValue(b, (16 * seg + mantissa) as bv8);
  }

  /** The two fields of a joined byte are the ones put in. */
  lemma JoinFields(high: bv8, low: bv8)
    requires high < 8 && low < 16
    ensures ((high << 4) | low) >> 4 == high && ((high << 4) | low) & 0x0F == low
  {
  }

  lemma SameValue(a: bv8, b: bv8)
    requires a as int == b as int
    ensures a == b
  {
  }

  /** The three fields of a code byte, after the alternate-bit inversion is undone. */
  function SegOf(code: bv8): (s: int)
    ensures 0 <= s < 8
  {
    (((code ^ 0x55) & 0x70) >> 4) as int
  }

  function MantissaOf(code: bv8): (m: int)
    ensures 0 <= m < 16
  {
    ((code ^ 0x55) & 0x0F) as int
  }

  predicate PositiveCode(code: bv8) {
    (code ^ 0x55) & 0x80 != 0
  }

  /** Reconstructed magnitude of a segment and mantissa, as `g711a_decode` computes it. */
  function Level(seg: int, mantissa: int): int
    requires 0 <= seg < 8
  {
    var t := mantissa * 16;
    if seg == 0 then t + 8
    else if seg == 1 then t + 0x108
    else (t + 0x108) * Pow2(seg - 1)
  }

  function Decode(code: bv8): int16 {
    LevelFits(SegOf(code), MantissaOf(code));
    var t := Level(SegOf(code), MantissaOf(code));
    (if PositiveCode(code) then t else -t) as int16
  }

  lemma Pow2Table()
    ensures Pow2(0) == 1 && Pow2(1) == 2 && Pow2(2) == 4 && Pow2(3) == 8 && Pow2(4) == 16
    ensures Pow2(5) == 32 && Pow2(6) == 64 && Pow2(7) == 128
  {
    assert Pow2(3) == 8;
    assert Pow2(6) == 64;
  }

  /** Companded width of one mantissa step of a segment, and the steps below the segment's first. */
  function Width(seg: nat): (w: int)
    ensures w >= 1
  {
    Pow2(Max(seg, 1))
  }

  function FirstStep(seg: nat): int {
    if seg == 0 then 0 else 16
  }

  /** A segment is sixteen steps wide. */
  lemma SegmentIff(pcm: int, seg: nat)
    requires 0 <= pcm < 0x1000 && seg < 8
    ensures Segment(pcm, 0) == seg
       <==> Width(seg) * FirstStep(seg) <= pcm < Width(seg) * (FirstStep(seg) + 16)
  {
    SegmentEnds(seg);
    SegmentEnds(Segment(pcm, 0));
    if Segment(pcm, 0) != seg {
      EndsIncrease(seg, Segment(pcm, 0));
    }
    hide *;
  }

  lemma EndsIncrease(a: nat, b: nat)
    requires a < 8 && b < 8
    ensures a < b ==> SEG_END[a] <= SEG_END[b - 1]
    ensures b < a ==> SEG_END[b] <= SEG_END[a - 1]
  {
  }

  lemma SegmentEnds(seg: nat)
    requires seg < 8
    ensures SEG_END[seg] + 1 == Width(seg) * (FirstStep(seg) + 16)
    ensures seg > 0 ==> SEG_END[seg - 1] + 1 == Width(seg) * FirstStep(seg)
  {
    Pow2Table();
  }

  /** A level is the middle of its step. */
  lemma LevelIsMiddle(seg: int, mantissa: int)
    requires 0 <= seg < 8
    ensures Level(seg, mantissa) == 8 * Width(seg) * (FirstStep(seg) + mantissa) + 4 * Width(seg)
    ensures Pow2(Max(seg, 1) + 2) == 4 * Width(seg) == HalfWidth(seg)
  {
    if seg >= 2 {
      var p := Pow2(seg - 1);
      assert Width(seg) == 2 * p;
      assert (mantissa * 16 + 0x108) * p == 8 * (2 * p) * (16 + mantissa) + 4 * (2 * p);
    } else {
      Pow2Table();
    }
  }

  /** Half a quantisation step: 2^(max(s, 1) + 2) in segment s. */
  function HalfWidth(seg: nat): int {
    4 * Width(seg)
  }

  lemma HalfWidthIsPow2(seg: nat)
    ensures HalfWidth(seg) == Pow2(Max(seg, 1) + 2)
  {
    assert Pow2(Max(seg, 1) + 2) == 2 * Pow2(Max(seg, 1) + 1);
  }

  lemma LevelFits(seg: int, mantissa: int)
    requires 0 <= seg < 8 && 0 <= mantissa < 16
    ensures HalfWidth(seg) <= Level(seg, mantissa) <= 32256
  {
    LevelIsMiddle(seg, mantissa);
    Pow2Table();
    assert Width(seg) <= 128;
    assert Width(seg) * (FirstStep(seg) + mantissa) >= 0;
    assert seg < 7 ==> Width(seg) <= 64;
    if seg < 7 {
      assert Width(seg) * (FirstStep(seg) + mantissa) <= 64 * 31;
    }
  }

  lemma MulMono(d: int, a: int, b: int)
    requires d > 0 && a < b
    ensures d * a + d <= d * b
  {
    assert d * (b - a - 1) >= 0;
    assert d * (b - a - 1) == d * b - d * a - d;
  }

  lemma DivUnique(x: int, d: int, q: int)
    requires d > 0 && d * q <= x < d * q + d
    ensures x / d == q && x % d == x - d * q
  {
    var r := x / d;
    assert x == d * r + x % d;
    if r < q { MulMono(d, r, q); }
    if q < r { MulMono(d, q, r); }
  }

  /** Dividing by 8 and then by a width finds the step a magnitude lies in. */
  lemma StepIff(mag: int, width: int, k: int)
    requires mag >= 0 && width > 0
    ensures mag / 8 / width == k <==> 8 * width * k <= mag < 8 * width * k + 8 * width
  {
    var q := mag / 8 / width;
    assert width * q <= mag / 8 < width * q + width by {
      assert mag / 8 == width * q + mag / 8 % width;
    }
    if q < k { MulMono(width, q, k); }
    if k < q { MulMono(width, k, q); }
    assert 8 * width * k == 8 * (width * k);
  }

  /** Within a segment the mantissa identifies the step. */
  lemma StepInSegment(pcm: int, w: int, first: int, mantissa: int)
    requires w > 0 && pcm >= 0 && (first == 0 || first == 16) && 0 <= mantissa < 16
    ensures w * first <= pcm < w * (first + 16) && pcm / w % 16 == mantissa <==> pcm / w == first + mantissa
  {
    var q := pcm / w;
    assert w * q <= pcm < w * q + w by {
      assert pcm == w * q + pcm % w;
    }
    if q < first {
      MulMono(w, q, first);
    } else if q < first + 16 {
      MulMono(w, q, first + 16);
      assert w * first <= w * q by { if first < q { MulMono(w, first, q); } }
    } else {
      assert w * (first + 16) <= w * q by { if first + 16 < q { MulMono(w, first + 16, q); } }
    }
  }

  /** The magnitudes of one segment and mantissa are exactly the half-open cell around its level. */
  lemma MagnitudeCell(mag: int, seg: int, mantissa: int)
    requires 0 <= mag < 0x8000 && 0 <= seg < 8 && 0 <= mantissa < 16
    ensures Segment(mag / 8, 0) == seg && mag / 8 / Width(seg) % 16 == mantissa
       <==> Level(seg, mantissa) - HalfWidth(seg) <= mag < Level(seg, mantissa) + HalfWidth(seg)
  {
    hide *;
    var w, first := Width(seg), FirstStep(seg);
    LevelIsMiddle(seg, mantissa);
    SegmentIff(mag / 8, seg);
    StepIff(mag, w, first + mantissa);
    assert first == 0 || first == 16 by { FirstStepValues(seg); }
    StepInSegment(mag / 8, w, first, mantissa);
    assert HalfWidth(seg) == 4 * w by { HalfWidthValue(seg); }
  }

  lemma FirstStepValues(seg: nat)
    ensures FirstStep(seg) == 0 || FirstStep(seg) == 16
  {
  }

  lemma HalfWidthValue(seg: nat)
    ensures HalfWidth(seg) == 4 * Width(seg)
  {
  }

  /** Undoing the inversion: seven value bits come back as they were, the sign bit tells the masks apart. */
  lemma Uninvert(b: bv8, mask: bv8)
    requires b < 128 && (mask == 0xD5 || mask == 0x55)
    ensures (((b ^ mask) ^ 0x55) & 0x70) >> 4 == b >> 4
    ensures ((b ^ mask) ^ 0x55) & 0x0F == b & 0x0F
    ensures ((b ^ mask) ^ 0x55) & 0x80 != 0 <==> mask == 0xD5
  {
  }

  lemma HighBits(b: bv8)
    ensures (b >> 4) as int == b as int / 16
  {
  }

  lemma LowBits(b: bv8)
    ensures (b & 0x0F) as int == b as int % 16
  {
  }

  lemma ByteValue(value: int)
    requires 0 <= value < 128
    ensures (value as bv8) as int == value && value as bv8 < 128
  {
  }

  lemma SplitBits(value: int, mask: bv8)
    requires 0 <= value < 128 && (mask == 0xD5 || mask == 0x55)
    ensures SegOf((value as bv8) ^ mask) == value / 16
    ensures MantissaOf((value as bv8) ^ mask) == value % 16
    ensures PositiveCode((value as bv8) ^ mask) <==> mask == 0xD5
  {
    ByteValue(value);
    Uninvert(value as bv8, mask);
    HighBits(value as bv8);
    LowBits(value as bv8);
  }

  /** A code byte is determined by its three fields. */
  lemma FieldsDetermineCode(a: bv8, b: bv8)
    requires SegOf(a) == SegOf(b) && MantissaOf(a) == MantissaOf(b) && PositiveCode(a) == PositiveCode(b)
    ensures a == b
  {
    assert ((a ^ 0x55) & 0x70) >> 4 == ((b ^ 0x55) & 0x70) >> 4;
    assert (a ^ 0x55) & 0x0F == (b ^ 0x55) & 0x0F;
  }

  /** Encoding, characterised: a sample gets a code exactly when it lies in the half-open cell
    * of half a step on either side of the decoded value.  The 256 cells thus tile the samples. */
  lemma CodeIffCell(sample: int16, code: bv8)
    ensures Code(sample) == code
       <==> Decode(code) as int - HalfWidth(SegOf(code)) <= sample as int < Decode(code) as int + HalfWidth(SegOf(code))
  {
    var mag, seg, mantissa := Magnitude(sample), SegOf(code), MantissaOf(code);
    hide *;
    var c := Code(sample);
    FieldsOfCode(sample);
    MagnitudeCell(mag, seg, mantissa);
    LevelFits(seg, mantissa);
    DecodeValue(code);
    MagnitudeValue(sample);
    if SegOf(Code(sample)) == seg && MantissaOf(Code(sample)) == mantissa
      && PositiveCode(Code(sample)) == PositiveCode(code)
    {
      FieldsDetermineCode(Code(sample), code);
    }
  }

  lemma DecodeValue(code: bv8)
    ensures Decode(code) as int == if PositiveCode(code) then Level(SegOf(code), MantissaOf(code))
                                   else -Level(SegOf(code), MantissaOf(code))
  {
  }

  lemma MagnitudeValue(sample: int16)
    ensures Magnitude(sample) == if sample < 0 then -(sample as int) - 1 else sample as int
  {
  }

  lemma FieldsOfCode(sample: int16)
    ensures SegOf(Code(sample)) == Segment(Magnitude(sample) / 8, 0)
    ensures MantissaOf(Code(sample)) == Magnitude(sample) / 8 / Width(SegOf(Code(sample))) % 16
    ensures PositiveCode(Code(sample)) <==> sample >= 0
  {
    var value, pcm := Companded(sample), Magnitude(sample) / 8;
    var seg := Segment(pcm, 0);
    assert value / 16 == seg && value % 16 == pcm / Width(seg) % 16;
    assert Code(sample) == (value as bv8) ^ (if sample >= 0 then 0xD5 else 0x55);
    hide *;
    SplitBits(value, if sample >= 0 then 0xD5 else 0x55);
  }

  /** Quantisation error of one encode-decode pass: at most 2^(max(s, 1) + 2) in segment s. */
  lemma ErrorBound(sample: int16)
    ensures var d := Decode(Code(sample)) as int - sample as int;
            var half: int := Pow2(Max(SegOf(Code(sample)), 1) + 2);
            -half < d <= half
  {
    CodeIffCell(sample, Code(sample));
    HalfWidthIsPow2(SegOf(Code(sample)));
  }

  /** Encoding undoes decoding, for every code byte. */
  lemma EncodeInvertsDecode(code: bv8)
    ensures Code(Decode(code)) == code
  {
    CodeIffCell(Decode(code), code);
  }

  /** The transfer curve is monotone. */
  lemma Monotone(a: int16, b: int16)
    requires a <= b
    ensures Decode(Code(a)) <= Decode(Code(b))
  {
    var ca, cb := Code(a), Code(b);
    if Decode(ca) > Decode(cb) {
      CodeIffCell(a, ca);
      CodeIffCell(b, cb);
      CodeIffCell(Decode(cb), ca);
      CodeIffCell(a, cb);
      EncodeInvertsDecode(cb);
    }
  }

  /** The levels of a segment lie between the segment's ends. */
  lemma LevelInSegment(seg: int, mantissa: int)
    requires 0 <= seg < 8 && 0 <= mantissa < 16
    ensures Level(seg, mantissa) < 8 * (SEG_END[seg] + 1)
    ensures seg > 0 ==> 8 * (SEG_END[seg - 1] + 1) < Level(seg, mantissa)
  {
    hide *;
    var w, first := Width(seg), FirstStep(seg);
    LevelIsMiddle(seg, mantissa);
    SegmentEnds(seg);
    var steps := w * (first + mantissa);
    assert Level(seg, mantissa) == 8 * steps + 4 * w;
    MulMono(w, first + mantissa, first + 16);
    if mantissa > 0 { MulMono(w, first, first + mantissa); }
  }

  lemma LevelOrder(s: int, m: int, s': int, m': int)
    requires 0 <= s < 8 && 0 <= m < 16 && 0 <= s' < 8 && 0 <= m' < 16
    requires 16 * s + m < 16 * s' + m'
    ensures Level(s, m) < Level(s', m')
  {
    hide *;
    LevelIsMiddle(s, m);
    LevelIsMiddle(s', m');
    if s == s' {
      MulMono(Width(s), FirstStep(s) + m, FirstStep(s) + m');
    } else {
      LevelInSegment(s, m);
      LevelInSegment(s', m');
      EndsIncrease(s, s');
    }
  }

  /** The sign bit of a code is the sign of its value, and with the alternate bits inverted back the
    * other seven order the magnitudes. */
  lemma CodeOrder(a: bv8, b: bv8)
    ensures Decode(a) > 0 <==> a & 0x80 != 0
    ensures Abs(Decode(a) as int) < Abs(Decode(b) as int) <==> (a ^ 0x55) & 0x7F < (b ^ 0x55) & 0x7F
  {
    hide *;
    DecodeValue(a);
    DecodeValue(b);
    LevelFits(SegOf(a), MantissaOf(a));
    LevelFits(SegOf(b), MantissaOf(b));
    AbsValue(Decode(a) as int);
    AbsValue(Decode(b) as int);
    SevenBits(a);
    SevenBits(b);
    SignBit(a);
    LevelIsMiddle(SegOf(a), MantissaOf(a));
    LevelIsMiddle(SegOf(b), MantissaOf(b));
    SameOrder((a ^ 0x55) & 0x7F, (b ^ 0x55) & 0x7F);
    var va, vb := 16 * SegOf(a) + MantissaOf(a), 16 * SegOf(b) + MantissaOf(b);
    if va < vb {
      LevelOrder(SegOf(a), MantissaOf(a), SegOf(b), MantissaOf(b));
    } else if vb < va {
      LevelOrder(SegOf(b), MantissaOf(b), SegOf(a), MantissaOf(a));
    } else {
      assert SegOf(a) == SegOf(b) && MantissaOf(a) == MantissaOf(b);
    }
  }

  lemma SameOrder(a: bv8, b: bv8)
    ensures a < b <==> a as int < b as int
  {
  }

  lemma SignBit(code: bv8)
    ensures PositiveCode(code) <==> code & 0x80 != 0
  {
  }

  lemma SevenBits(code: bv8)
    ensures ((code ^ 0x55) & 0x7F) as int == 16 * SegOf(code) + MantissaOf(code)
  {
    var b := (code ^ 0x55) & 0x7F;
    HighBits(b);
    LowBits(b);
    SevenFields(code ^ 0x55);
  }

  lemma SevenFields(c: bv8)
    ensures (c & 0x7F) >> 4 == (c & 0x70) >> 4 && (c & 0x7F) & 0x0F == c & 0x0F
  {
  }

  lemma EndFields()
    ensures SegOf(0xD5) == SegOf(0x55) == MantissaOf(0xD5) == MantissaOf(0x55) == 0
    ensures SegOf(0xAA) == SegOf(0x2A) == 7 && MantissaOf(0xAA) == MantissaOf(0x2A) == 15
    ensures PositiveCode(0xD5) && PositiveCode(0xAA) && !PositiveCode(0x55) && !PositiveCode(0x2A)
  {
  }

  lemma EndLevels()
    ensures Level(0, 0) == HalfWidth(0) == 8 && Level(7, 15) == 32256 && HalfWidth(7) == 512
  {
    Pow2Table();
  }

  /** Values at the ends of the code range. */
  lemma Landmarks()
    ensures Decode(0xD5) == 8 && Decode(0x55) == -8
    ensures Decode(0xAA) == 32256 && Decode(0x2A) == -32256
    ensures Code(0) == 0xD5 && Code(-1) == 0x55 && Code(32767) == 0xAA && Code(-32768) == 0x2A
  {
    hide *;
    EndFields();
    EndLevels();
    DecodeValue(0xD5);
    DecodeValue(0x55);
    DecodeValue(0xAA);
    DecodeValue(0x2A);
    CodeIffCell(0, 0xD5);
    CodeIffCell(-1, 0x55);
    CodeIffCell(32767, 0xAA);
    CodeIffCell(-32768, 0x2A);
  }

  /** A sample that the codec carries unchanged: the midpoint of its step. */
  predicate IsMidpoint(sample: int16) {
    var half := HalfWidth(Segment(Magnitude(sample) / 8, 0));
    Abs(sample as int) % (2 * half) == half
  }

  /** The two directions are not exact inverses: zero comes back as eight. */
  lemma DecodeDoesNotInvertEncode()
    ensures Decode(Code(0)) == 8
  {
    Pow2Table();
    SplitBits(0, 0xD5);
  }

  /** Decoding undoes encoding exactly on the midpoints. */
  lemma DecodeInvertsEncodeIff(sample: int16)
    ensures Decode(Code(sample)) == sample <==> IsMidpoint(sample)
  {
    var code := Code(sample);
    var seg, mantissa := SegOf(code), MantissaOf(code);
    hide *;
    FieldsOfCode(sample);
    assert IsMidpoint(sample) <==> Abs(sample as int) % (2 * HalfWidth(seg)) == HalfWidth(seg) by {
      MidpointValue(sample);
    }
    CodeIffCell(sample, code);
    DecodeValue(code);
    LevelIsMiddle(seg, mantissa);
    LevelFits(seg, mantissa);
    AbsValue(sample as int);
    OnlyMiddle(Abs(sample as int), Width(seg), FirstStep(seg) + mantissa);
  }

  lemma MidpointValue(sample: int16)
    ensures var half := HalfWidth(Segment(Magnitude(sample) / 8, 0));
            half > 0 && (IsMidpoint(sample) <==> Abs(sample as int) % (2 * half) == half)
  {
  }

  lemma OnlyMiddle(x: int, w: int, k: int)
    requires w > 0 && 8 * w * k <= x <= 8 * w * k + 8 * w
    ensures x % (8 * w) == 4 * w <==> x == 8 * w * k + 4 * w
  {
    var step := 8 * w;
    assert step * k == 8 * w * k;
    if x < step * k + step {
      DivUnique(x, step, k);
    } else {
      assert step * (k + 1) == step * k + step;
      DivUnique(x, step, k + 1);
    }
  }

  function EncodeAll(pcm: seq<int16>): (codes: seq<bv8>)
    ensures |codes| == |pcm|
  {
    seq(|pcm|, i requires 0 <= i < |pcm| => Code(pcm[i]))
  }

  function DecodeAll(codes: seq<bv8>): (pcm: seq<int16>)
    ensures |pcm| == |codes|
  {
    seq(|codes|, i requires 0 <= i < |codes| => Decode(codes[i]))
  }

  /** The error bound, sample by sample, for streams of any length. */
  lemma StreamErrorBound(pcm: seq<int16>, i: nat)
    requires i < |pcm|
    ensures var d := DecodeAll(EncodeAll(pcm))[i] as int - pcm[i] as int;
            var half: int := Pow2(Max(SegOf(EncodeAll(pcm)[i]), 1) + 2);
            -half < d <= half
  {
    ErrorBound(pcm[i]);
  }

  /** No inter-sample state: any split of the byte stream decodes to the same samples. */
  lemma DecodeAnySplit(a: seq<bv8>, b: seq<bv8>)
    ensures DecodeAll(a + b) == DecodeAll(a) + DecodeAll(b)
  {
  }

  /** A second pass through the codec changes nothing, for streams of any length. */
  lemma StreamIdempotent(pcm: seq<int16>)
    ensures EncodeAll(DecodeAll(EncodeAll(pcm))) == EncodeAll(pcm)
    ensures DecodeAll(EncodeAll(DecodeAll(EncodeAll(pcm)))) == DecodeAll(EncodeAll(pcm))
  {
    var codes := EncodeAll(pcm);
    forall i | 0 <= i < |codes|
      ensures EncodeAll(DecodeAll(codes))[i] == codes[i]
    {
      EncodeInvertsDecode(codes[i]);
    }
    assert EncodeAll(DecodeAll(codes)) == codes;
  }
}
