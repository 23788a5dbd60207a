/** The layout of a model pack: what components/pedestrian_detect/pack_model.py writes, and a reader
  * for the format its documentation gives. */
module PackLayout {
  import opened Basics

  type Bytes = seq<byte>

  datatype Format = EDL1 | EDL2

  datatype ModelFile = ModelFile(name: string, data: Bytes)

  /** struct.pack("I", n) on a little-endian host. */
  function LE32(n: nat): (b: Bytes)
    ensures |b| == 4
  {
    [n % 256, n / 256 % 256, n / 0x1_0000 % 256, n / 0x100_0000 % 256]
  }

  function FromLE32(b: Bytes): nat
    requires |b| == 4
  {
    b[0] as int + 256 * b[1] as int + 0x1_0000 * b[2] as int + 0x100_0000 * b[3] as int
  }

  lemma LERoundTrip(n: nat)
    requires n < U32
    ensures FromLE32(LE32(n)) == n
  {
    assert n / 0x1_0000 == n / 256 / 256;
    assert n / 0x100_0000 == n / 256 / 256 / 256;
  }

  /** The low byte comes first; with all bytes zero at the end of the recursion, this alone fixes every
    * number of the header. */
  lemma LowByteFirst(b: Bytes)
    requires |b| == 4
    ensures FromLE32(b) == b[0] as int + 256 * FromLE32(b[1..] + [0])
  {
  }

  /** The format a model file declares in its first four bytes. */
  function FormatOf(data: Bytes): Option<Format> {
    if |data| < 4 then None
    else if data[..4] == Text("EDL1") then Some(EDL1)
    else if data[..4] == Text("EDL2") then Some(EDL2)
    else None
  }

  /** The bytes of an ASCII string; other characters have no encoding here. */
  function Text(s: string): (b: Bytes)
    ensures |b| == |s|
  {
    seq(|s|, i requires 0 <= i < |s| => CharByte(s[i]))
  }

  function CharByte(c: char): byte {
    c as int % 256
  }

  lemma AsciiByte(c: char)
    requires c as int < 128
    ensures CharByte(c) == c as int
  {
  }

  predicate Ascii(s: string) {
    forall i :: 0 <= i < |s| ==> s[i] as int < 128
  }

  lemma TextBytes(s: string, i: nat)
    requires Ascii(s) && i < |s|
    ensures Text(s)[i] as int == s[i] as int
  {
    AsciiByte(s[i]);
  }

  /** A known format is "EDL1" or "EDL2"; its pack begins "PDL1" or "PDL2". */
  lemma FormatBytes(data: Bytes)
    ensures FormatOf(data).Some? <==>
              |data| >= 4 && data[..3] == [69, 68, 76] && (data[3] == 49 || data[3] == 50)
    ensures FormatOf(data).Some? ==> Magic(FormatOf(data).value) == [80] + data[1..4]
    ensures FormatOf(data).Some? ==> (FormatOf(data) == Some(EDL2) <==> data[3] == 50)
  {
    assert Text("EDL1") == [69, 68, 76, 49] && Text("EDL2") == [69, 68, 76, 50];
    assert Text("PDL1") == [80, 68, 76, 49] && Text("PDL2") == [80, 68, 76, 50];
    if |data| >= 4 {
      FirstFour(data);
    }
  }

  lemma FirstFour(data: Bytes)
    requires |data| >= 4
    ensures data[..3] == [data[0], data[1], data[2]] && data[1..4] == [data[1], data[2], data[3]]
    ensures data[..4] == [data[0], data[1], data[2], data[3]]
  {
  }

  /** ASCII text is recoverable from its bytes. */
  lemma TextInjective(a: string, b: string)
    requires Ascii(a) && Ascii(b) && Text(a) == Text(b)
    ensures a == b
  {
    forall i | 0 <= i < |a|
      ensures a[i] == b[i]
    {
      assert Text(a)[i] == Text(b)[i];
      AsciiByte(a[i]);
      AsciiByte(b[i]);
    }
  }

  function Zeros(n: nat): (z: Bytes)
    ensures |z| == n && forall i :: 0 <= i < n ==> z[i] == 0
  {
    seq(n, i => 0)
  }

  /** `read_data`: EDL2 models are padded to a multiple of 16. */
  function Padded(data: Bytes, format: Format): Bytes {
    if format == EDL2 && |data| % 16 != 0 then data + Zeros(16 - |data| % 16) else data
  }

  function Flat(ss: seq<Bytes>): Bytes {
    if ss == [] then [] else Flat(ss[..|ss| - 1]) + ss[|ss| - 1]
  }

  lemma FlatSnoc(ss: seq<Bytes>, i: nat)
    requires i < |ss|
    ensures Flat(ss[..i + 1]) == Flat(ss[..i]) + ss[i]
  {
    assert ss[..i + 1][..i] == ss[..i];
  }

  /** Each piece of a concatenation sits between two prefix sums. */
  lemma {:induction false} FlatPiece(ss: seq<Bytes>, i: nat)
    requires i < |ss|
    ensures |Flat(ss[..i])| + |ss[i]| == |Flat(ss[..i + 1])| <= |Flat(ss)|
    ensures Flat(ss)[|Flat(ss[..i])|..|Flat(ss[..i + 1])|] == ss[i]
  {
    FlatSnoc(ss, i);
    if i == |ss| - 1 {
      assert ss[..i + 1] == ss;
    } else {
      var init := ss[..|ss| - 1];
      FlatPiece(init, i);
      assert init[..i] == ss[..i] && init[..i + 1] == ss[..i + 1];
    }
  }

  lemma FlatLast(ss: seq<Bytes>)
    requires ss != []
    ensures |Flat(ss)| == |Flat(ss[..|ss| - 1])| + |ss[|ss| - 1]|
  {
  }

  lemma {:induction false} FlatOfEqual(ss: seq<Bytes>, width: nat)
    requires forall i :: 0 <= i < |ss| ==> |ss[i]| == width
    ensures |Flat(ss)| == width * |ss|
  {
    if ss == [] {
      assert Flat(ss) == [];
    } else {
      hide *;
      var n := |ss| - 1;
      FlatOfEqual(ss[..n], width);
      FlatLast(ss);
      assert width * (n + 1) == width * n + width;
    }
  }

  lemma {:induction false} FlatAligned(ss: seq<Bytes>)
    requires forall i :: 0 <= i < |ss| ==> |ss[i]| % 16 == 0
    ensures |Flat(ss)| % 16 == 0
  {
    if ss == [] {
      assert Flat(ss) == [];
    } else {
      hide *;
      FlatAligned(ss[..|ss| - 1]);
      FlatLast(ss);
    }
  }

  function Names(files: seq<ModelFile>): (ns: seq<Bytes>)
    ensures |ns| == |files|
  {
    seq(|files|, i requires 0 <= i < |files| => Text(files[i].name))
  }

  function Bins(files: seq<ModelFile>, format: Format): (bs: seq<Bytes>)
    ensures |bs| == |files|
  {
    seq(|files|, i requires 0 <= i < |files| => Padded(files[i].data, format))
  }

  /** Where the names begin: after magic, count and one 12-byte row per model. */
  function NameBase(n: nat): nat {
    8 + 12 * n
  }

  /** Where the data begins: right after the names, or at the next multiple of 16 in PDL2. */
  function DataBase(files: seq<ModelFile>, format: Format): nat {
    var end := NameBase(|files|) + |Flat(Names(files))|;
    if format == EDL1 then end else (end + 15) / 16 * 16
  }

  function NameOffset(files: seq<ModelFile>, i: nat): nat
    requires i <= |files|
  {
    NameBase(|files|) + |Flat(Names(files)[..i])|
  }

  function DataOffset(files: seq<ModelFile>, format: Format, i: nat): nat
    requires i <= |files|
  {
    DataBase(files, format) + |Flat(Bins(files, format)[..i])|
  }

  /** The header row of one model. */
  function Row(files: seq<ModelFile>, format: Format, i: nat): (r: Bytes)
    requires i < |files|
    ensures |r| == 12
  {
    LE32(DataOffset(files, format, i)) + LE32(NameOffset(files, i)) + LE32(|files[i].name|)
  }

  function Rows(files: seq<ModelFile>, format: Format): (rs: seq<Bytes>)
    ensures |rs| == |files|
  {
    seq(|files|, i requires 0 <= i < |files| => Row(files, format, i))
  }

  function Magic(format: Format): (m: Bytes)
    ensures |m| == 4
  {
    Text(if format == EDL1 then "PDL1" else "PDL2")
  }

  function Header(files: seq<ModelFile>, format: Format): Bytes {
    Magic(format) + LE32(|files|) + Flat(Rows(files, format))
  }

  function Padding(files: seq<ModelFile>, format: Format): nat {
    DataBase(files, format) - NameBase(|files|) - |Flat(Names(files))|
  }

  /** The documented file: header, names, padding, data. */
  function Layout(files: seq<ModelFile>, format: Format): Bytes {
    Header(files, format) + Flat(Names(files)) + Zeros(Padding(files, format)) + Flat(Bins(files, format))
  }

  /** What makes a pack possible: at least one model, one known format throughout, ASCII names, and
    * the last data offset - the largest number in the header - in 32 bits. */
  predicate Packable(files: seq<ModelFile>) {
    && files != []
    && FormatOf(files[0].data).Some?
    && (forall i :: 0 <= i < |files| ==> FormatOf(files[i].data) == FormatOf(files[0].data))
    && (forall i :: 0 <= i < |files| ==> Ascii(files[i].name))
    && DataOffset(files, FormatOf(files[0].data).value, |files| - 1) < U32
  }

  /** The same without naming the formats or their encodings. */
  lemma PackableIff(files: seq<ModelFile>)
    requires files != [] && FormatOf(files[0].data).Some?
    ensures Packable(files) <==>
              && (forall i :: 0 <= i < |files| ==> |files[i].data| >= 4 && files[i].data[..4] == files[0].data[..4])
              && (forall i, k :: 0 <= i < |files| && 0 <= k < |files[i].name| ==> files[i].name[k] as int < 128)
              && DataOffset(files, FormatOf(files[0].data).value, |files| - 1) < U32
  {
    hide DataOffset, Text;
    forall i | 0 <= i < |files|
      ensures FormatOf(files[i].data) == FormatOf(files[0].data)
         <==> |files[i].data| >= 4 && files[i].data[..4] == files[0].data[..4]
    {
      FormatBytes(files[i].data);
      FormatBytes(files[0].data);
      if |files[i].data| >= 4 { FirstFour(files[i].data); }
      FirstFour(files[0].data);
    }
  }

  lemma {:induction false} FlatMonotone(ss: seq<Bytes>, i: nat, j: nat)
    requires i <= j <= |ss|
    ensures |Flat(ss[..i])| <= |Flat(ss[..j])|
    decreases j
  {
    if i < j {
      FlatMonotone(ss, i, j - 1);
      FlatSnoc(ss, j - 1);
    }
  }

  /** Every number in the header is at most the last data offset. */
  lemma HeaderNumbers(files: seq<ModelFile>, format: Format, i: nat)
    requires i < |files|
    ensures var top := DataOffset(files, format, |files| - 1);
            && DataOffset(files, format, i) <= top && NameOffset(files, i) <= top
            && |files[i].name| <= top && |files| <= top
  {
    FlatMonotone(Bins(files, format), i, |files| - 1);
    FlatPiece(Names(files), i);
  }

  // ----- tiling -----

  /** The bytes from `from + i` to `from + j` of a file are those of its middle part. */
  lemma SliceOf(pre: Bytes, mid: Bytes, post: Bytes, i: nat, j: nat)
    requires i <= j <= |mid|
    ensures (pre + mid + post)[|pre| + i..|pre| + j] == mid[i..j]
  {
  }

  lemma HeaderSize(files: seq<ModelFile>, format: Format)
    ensures |Header(files, format)| == NameBase(|files|)
  {
    FlatOfEqual(Rows(files, format), 12);
  }

  lemma WholePrefix<T>(s: seq<T>)
    ensures s[..|s|] == s && s[..0] == []
  {
  }

  lemma BaseAligned(files: seq<ModelFile>, format: Format)
    ensures 0 <= Padding(files, format) < 16
    ensures format == EDL1 ==> Padding(files, format) == 0
    ensures format == EDL2 ==> DataBase(files, format) % 16 == 0
  {
  }

  lemma BinAligned(files: seq<ModelFile>, i: nat)
    requires i < |files|
    ensures |Bins(files, EDL2)[i]| % 16 == 0
  {
  }

  lemma NameOffsetNext(files: seq<ModelFile>, i: nat)
    requires i < |files|
    ensures NameOffset(files, i + 1) == NameOffset(files, i) + |files[i].name|
  {
    FlatPiece(Names(files), i);
  }

  lemma DataOffsetNext(files: seq<ModelFile>, format: Format, i: nat)
    requires i < |files|
    ensures DataOffset(files, format, i + 1) == DataOffset(files, format, i) + |Bins(files, format)[i]|
  {
    FlatPiece(Bins(files, format), i);
  }

  lemma OffsetEnds(files: seq<ModelFile>, format: Format)
    ensures NameOffset(files, 0) == NameBase(|files|)
    ensures NameOffset(files, |files|) == NameBase(|files|) + |Flat(Names(files))|
    ensures DataOffset(files, format, 0) == DataBase(files, format)
    ensures DataOffset(files, format, |files|) == DataBase(files, format) + |Flat(Bins(files, format))|
  {
    WholePrefix(Names(files));
    WholePrefix(Bins(files, format));
  }

  lemma LayoutSize(files: seq<ModelFile>, format: Format)
    ensures |Layout(files, format)|
         == |Header(files, format)| + |Flat(Names(files))| + Padding(files, format) + |Flat(Bins(files, format))|
    ensures Padding(files, format) == DataBase(files, format) - NameBase(|files|) - |Flat(Names(files))|
  {
  }

  lemma {:induction false} DataAligned(files: seq<ModelFile>, i: nat)
    requires i <= |files|
    ensures DataOffset(files, EDL2, i) % 16 == 0
  {
    BaseAligned(files, EDL2);
    if i == 0 {
      OffsetEnds(files, EDL2);
    } else {
      DataAligned(files, i - 1);
      DataOffsetNext(files, EDL2, i - 1);
      BinAligned(files, i - 1);
    }
  }

  /** Header, names, padding and data tile the file, piece by piece, with no gap and no overlap; in
    * PDL2 every data offset is a multiple of 16. */
  lemma Tiling(files: seq<ModelFile>, format: Format)
    ensures |Header(files, format)| == NameOffset(files, 0)
    ensures forall i :: 0 <= i < |files| ==> NameOffset(files, i + 1) == NameOffset(files, i) + |files[i].name|
    ensures NameOffset(files, |files|) + Padding(files, format) == DataOffset(files, format, 0)
    ensures forall i :: 0 <= i < |files| ==>
              DataOffset(files, format, i + 1) == DataOffset(files, format, i) + |Bins(files, format)[i]|
    ensures DataOffset(files, format, |files|) == |Layout(files, format)|
    ensures Padding(files, format) < 16
    ensures format == EDL2 ==> forall i :: 0 <= i <= |files| ==> DataOffset(files, format, i) % 16 == 0
  {
    hide *;
    HeaderSize(files, format);
    OffsetEnds(files, format);
    LayoutSize(files, format);
    BaseAligned(files, format);
    forall i | 0 <= i < |files|
      ensures NameOffset(files, i + 1) == NameOffset(files, i) + |files[i].name|
      ensures DataOffset(files, format, i + 1) == DataOffset(files, format, i) + |Bins(files, format)[i]|
    {
      NameOffsetNext(files, i);
      DataOffsetNext(files, format, i);
    }
    if format == EDL2 {
      forall i | 0 <= i <= |files|
        ensures DataOffset(files, format, i) % 16 == 0
      {
        DataAligned(files, i);
      }
    }
  }

  // ----- the reader -----

  datatype Entry = Entry(name: Bytes, data: Bytes)

  /** A number of the header, if the file is long enough. */
  function Number(file: Bytes, at: nat): Option<nat> {
    if at + 4 <= |file| then Some(FromLE32(file[at..at + 4])) else None
  }

  function Slice(file: Bytes, from: nat, to: nat): Option<Bytes> {
    if from <= to <= |file| then Some(file[from..to]) else None
  }

  /** Model i of n, by the documented header; its data runs to the next model's, or to the end. */
  function ReadEntry(file: Bytes, n: nat, i: nat): Option<Entry>
    requires i < n
  {
    var at := 8 + 12 * i;
    var d, a, len := Number(file, at), Number(file, at + 4), Number(file, at + 8);
    var end := if i + 1 < n then Number(file, at + 12) else Some(|file|);
    if d.None? || a.None? || len.None? || end.None? then None
    else
      var name, data := Slice(file, a.value, a.value + len.value), Slice(file, d.value, end.value);
      if name.None? || data.None? then None else Some(Entry(name.value, data.value))
  }

  function ReadCount(file: Bytes): Option<nat> {
    if |file| >= 4 && (file[..4] == Magic(EDL1) || file[..4] == Magic(EDL2)) then Number(file, 4) else None
  }

  /** The three ways to look at a layout: around the rows, around the names, around the data. */
  lemma AroundRows(files: seq<ModelFile>, format: Format)
    ensures |Magic(format) + LE32(|files|)| == 8
    ensures Layout(files, format)
         == (Magic(format) + LE32(|files|)) + Flat(Rows(files, format))
            + (Flat(Names(files)) + Zeros(Padding(files, format)) + Flat(Bins(files, format)))
  {
    Regroup(Magic(format) + LE32(|files|), Flat(Rows(files, format)), Flat(Names(files)),
            Zeros(Padding(files, format)), Flat(Bins(files, format)));
  }

  lemma Regroup(a: Bytes, b: Bytes, c: Bytes, d: Bytes, e: Bytes)
    ensures (a + b) + c + d + e == a + b + (c + d + e)
    ensures (a + b) + c + d + e == (a + b) + c + (d + e)
    ensures (a + b) + c + d + e == ((a + b) + c + d) + e + []
  {
  }

  lemma AroundNames(files: seq<ModelFile>, format: Format)
    ensures Layout(files, format)
         == Header(files, format) + Flat(Names(files)) + (Zeros(Padding(files, format)) + Flat(Bins(files, format)))
  {
    Regroup([], Header(files, format), Flat(Names(files)), Zeros(Padding(files, format)), Flat(Bins(files, format)));
    assert [] + Header(files, format) == Header(files, format);
  }

  lemma AroundData(files: seq<ModelFile>, format: Format) returns (pre: Bytes)
    ensures |pre| == DataBase(files, format)
    ensures Layout(files, format) == pre + Flat(Bins(files, format)) + []
  {
    pre := Header(files, format) + Flat(Names(files)) + Zeros(Padding(files, format));
    HeaderSize(files, format);
  }

  /** The i-th row of the header holds the i-th model's numbers. */
  lemma RowAt(files: seq<ModelFile>, format: Format, i: nat)
    requires i < |files|
    ensures var file, at := Layout(files, format), 8 + 12 * i;
            at + 12 <= |file| && file[at..at + 12] == Rows(files, format)[i]
  {
    hide *;
    var rows := Rows(files, format);
    assert forall k :: 0 <= k < |rows| ==> |rows[k]| == 12 by { RowSizes(files, format); }
    FlatOfEqual(rows[..i], 12);
    FlatPiece(rows, i);
    AroundRows(files, format);
    SliceOf(Magic(format) + LE32(|files|), Flat(rows),
            Flat(Names(files)) + Zeros(Padding(files, format)) + Flat(Bins(files, format)), 12 * i, 12 * i + 12);
  }

  lemma RowSizes(files: seq<ModelFile>, format: Format)
    ensures forall k :: 0 <= k < |files| ==> |Rows(files, format)[k]| == 12
  {
  }

  lemma RowParts(files: seq<ModelFile>, format: Format, i: nat)
    requires i < |files|
    ensures var row := Rows(files, format)[i];
            && |row| == 12
            && row[0..4] == LE32(DataOffset(files, format, i))
            && row[4..8] == LE32(NameOffset(files, i))
            && row[8..12] == LE32(|files[i].name|)
            && row == LE32(DataOffset(files, format, i)) + LE32(NameOffset(files, i)) + LE32(|files[i].name|)
  {
    ThreeWords(LE32(DataOffset(files, format, i)), LE32(NameOffset(files, i)), LE32(|files[i].name|));
    hide LE32, DataOffset, NameOffset;
  }

  lemma ThreeWords(a: Bytes, b: Bytes, c: Bytes)
    requires |a| == |b| == |c| == 4
    ensures (a + b + c)[0..4] == a && (a + b + c)[4..8] == b && (a + b + c)[8..12] == c
  {
  }

  lemma SubSlice(file: Bytes, at: nat, width: nat, i: nat, j: nat)
    requires at + width <= |file| && i <= j <= width
    ensures file[at..at + width][i..j] == file[at + i..at + j]
  {
    var a, b := file[at..at + width][i..j], file[at + i..at + j];
    assert forall k :: 0 <= k < |a| ==> a[k] == b[k];
  }

  lemma NumberValue(file: Bytes, at: nat, n: nat)
    requires at + 4 <= |file| && file[at..at + 4] == LE32(n) && n < U32
    ensures Number(file, at) == Some(n)
  {
    LERoundTrip(n);
  }

  lemma NumbersAt(files: seq<ModelFile>, format: Format, i: nat)
    requires i < |files| && DataOffset(files, format, |files| - 1) < U32
    ensures var file, at := Layout(files, format), 8 + 12 * i;
            && Number(file, at) == Some(DataOffset(files, format, i))
            && Number(file, at + 4) == Some(NameOffset(files, i))
            && Number(file, at + 8) == Some(|files[i].name|)
  {
    hide *;
    var file, at := Layout(files, format), 8 + 12 * i;
    RowAt(files, format, i);
    RowParts(files, format, i);
    HeaderNumbers(files, format, i);
    SubSlice(file, at, 12, 0, 4);
    SubSlice(file, at, 12, 4, 8);
    SubSlice(file, at, 12, 8, 12);
    NumberValue(file, at, DataOffset(files, format, i));
    NumberValue(file, at + 4, NameOffset(files, i));
    NumberValue(file, at + 8, |files[i].name|);
  }

  lemma NameAt(files: seq<ModelFile>, format: Format, i: nat)
    requires i < |files|
    ensures var file, from := Layout(files, format), NameOffset(files, i);
            Slice(file, from, from + |files[i].name|) == Some(Text(files[i].name))
  {
    var names, from := Names(files), NameOffset(files, i);
    assert names[i] == Text(files[i].name) && from == NameBase(|files|) + |Flat(names[..i])|;
    hide Flat, Layout, Header, Names, NameOffset, Text, Padding, Bins, Zeros, NameBase;
    FlatPiece(names, i);
    HeaderSize(files, format);
    AroundNames(files, format);
    SliceOf(Header(files, format), Flat(names), Zeros(Padding(files, format)) + Flat(Bins(files, format)),
            |Flat(names[..i])|, |Flat(names[..i + 1])|);
  }

  lemma DataAt(files: seq<ModelFile>, format: Format, i: nat)
    requires i < |files|
    ensures var file := Layout(files, format);
            Slice(file, DataOffset(files, format, i), DataOffset(files, format, i + 1)) == Some(Bins(files, format)[i])
  {
    var bins := Bins(files, format);
    assert DataOffset(files, format, i) == DataBase(files, format) + |Flat(bins[..i])|;
    assert DataOffset(files, format, i + 1) == DataBase(files, format) + |Flat(bins[..i + 1])|;
    hide Flat, Layout, Header, Names, DataOffset, DataBase, Padding, Bins, Zeros;
    FlatPiece(bins, i);
    var pre := AroundData(files, format);
    SliceOf(pre, Flat(bins), [], |Flat(bins[..i])|, |Flat(bins[..i + 1])|);
  }

  /** `b` is `a` and then fewer than 16 zero bytes; none at all in EDL1. */
  ghost predicate UpToPadding(a: Bytes, b: Bytes, format: Format) {
    && |a| <= |b| < |a| + (if format == EDL1 then 1 else 16)
    && b[..|a|] == a
    && forall i :: |a| <= i < |b| ==> b[i] == 0
  }

  lemma PaddedIsPadding(data: Bytes, format: Format)
    ensures UpToPadding(data, Padded(data, format), format)
  {
  }

  lemma NoPaddingInEDL1(a: Bytes, b: Bytes)
    requires UpToPadding(a, b, EDL1)
    ensures a == b
  {
  }

  lemma BinOf(files: seq<ModelFile>, format: Format, i: nat)
    requires i < |files|
    ensures Bins(files, format)[i] == Padded(files[i].data, format)
  {
  }

  /** A layout begins with the magic and the count. */
  lemma StartOf(files: seq<ModelFile>, format: Format)
    ensures var file := Layout(files, format);
            |file| >= 8 && file[..4] == Magic(format) && file[4..8] == LE32(|files|)
  {
    hide *;
    AroundRows(files, format);
    TwoWords(Magic(format), LE32(|files|), Flat(Rows(files, format)),
             Flat(Names(files)) + Zeros(Padding(files, format)) + Flat(Bins(files, format)));
  }

  lemma ReadsCount(files: seq<ModelFile>, format: Format)
    requires |files| < U32
    ensures ReadCount(Layout(files, format)) == Some(|files|)
  {
    StartOf(files, format);
    hide Layout, LE32, Magic, Number;
    NumberValue(Layout(files, format), 4, |files|);
  }

  lemma FourBytes(file: Bytes, n: nat)
    requires |file| >= 8 && file[4..8] == LE32(n) && n < U32
    ensures n == file[4] as int + 0x100 * file[5] as int + 0x1_0000 * file[6] as int + 0x100_0000 * file[7] as int
  {
    LERoundTrip(n);
    var b := file[4..8];
    assert b[0] == file[4] && b[1] == file[5] && b[2] == file[6] && b[3] == file[7];
    hide LE32;
  }

  lemma TwoWords(a: Bytes, b: Bytes, c: Bytes, d: Bytes)
    requires |a| == |b| == 4
    ensures ((a + b) + c + d)[..4] == a && ((a + b) + c + d)[4..8] == b
  {
  }

  lemma ReadsEntry(files: seq<ModelFile>, format: Format, i: nat)
    requires i < |files| && DataOffset(files, format, |files| - 1) < U32
    ensures ReadEntry(Layout(files, format), |files|, i)
         == Some(Entry(Text(files[i].name), Bins(files, format)[i]))
  {
    hide Layout, Number, Slice, DataOffset, NameOffset, Text, Bins, Flat;
    NumbersAt(files, format, i);
    NameAt(files, format, i);
    DataAt(files, format, i);
    if i + 1 < |files| {
      NumbersAt(files, format, i + 1);
    } else {
      Tiling(files, format);
    }
  }

  /** What the header says in bytes: the models' own format in the magic, their number, and for EDL2
    * models data offsets that are multiples of 16. */
  lemma HeaderBytes(files: seq<ModelFile>, format: Format)
    requires files != [] && FormatOf(files[0].data) == Some(format)
    requires DataOffset(files, format, |files| - 1) < U32
    ensures var file := Layout(files, format);
      && |file| >= 8 && file[..4] == [80] + files[0].data[1..4]
      && |files| == file[4] as int + 0x100 * file[5] as int + 0x1_0000 * file[6] as int + 0x100_0000 * file[7] as int
      && (files[0].data[3] == 50 ==> forall i :: 0 <= i < |files| ==>
            Number(file, 8 + 12 * i).Some? && Number(file, 8 + 12 * i).value % 16 == 0)
  {
    hide *;
    var file := Layout(files, format);
    FormatBytes(files[0].data);
    HeaderNumbers(files, format, 0);
    StartOf(files, format);
    FourBytes(file, |files|);
    forall i | 0 <= i < |files| && format == EDL2
      ensures Number(file, 8 + 12 * i).Some? && Number(file, 8 + 12 * i).value % 16 == 0
    {
      NumbersAt(files, format, i);
      DataAligned(files, i);
    }
  }

  /** Reading a layout recovers every model, in order. */
  lemma ReadsBack(files: seq<ModelFile>, format: Format)
    requires files != [] && DataOffset(files, format, |files| - 1) < U32
    ensures ReadCount(Layout(files, format)) == Some(|files|)
    ensures forall i :: 0 <= i < |files| ==>
              && ReadEntry(Layout(files, format), |files|, i)
                 == Some(Entry(Text(files[i].name), Bins(files, format)[i]))
              && UpToPadding(files[i].data, Bins(files, format)[i], format)
  {
    hide *;
    HeaderNumbers(files, format, 0);
    ReadsCount(files, format);
    forall i | 0 <= i < |files|
      ensures ReadEntry(Layout(files, format), |files|, i) == Some(Entry(Text(files[i].name), Bins(files, format)[i]))
      ensures UpToPadding(files[i].data, Bins(files, format)[i], format)
    {
      ReadsEntry(files, format, i);
      PaddedIsPadding(files[i].data, format);
      BinOf(files, format, i);
    }
  }
}

/** The packer itself. */
module PackModel {
  import opened Basics
  import opened PackLayout

  datatype Error = NoModels | WrongFormat | MixedFormats | BadName | TooLarge

  datatype Result = Packed(file: Bytes) | Failed(error: Error)

  /** The reason given for a failure is a reason. */
  ghost predicate Explains(files: seq<ModelFile>, e: Error) {
    match e
    case WrongFormat => exists i :: 0 <= i < |files| && FormatOf(files[i].data).None?
    case NoModels => files == []
    case MixedFormats =>
      exists i, j :: 0 <= i < j < |files| && FormatOf(files[i].data) != FormatOf(files[j].data)
    case BadName => exists i :: 0 <= i < |files| && !Ascii(files[i].name)
    case TooLarge =>
      && files != [] && FormatOf(files[0].data).Some?
      && DataOffset(files, FormatOf(files[0].data).value, |files| - 1) >= U32
  }

  /** What `struct_pack_string` yields: bytes, Python's None, or one of its three exceptions. */
  datatype PackedString = Encoded(bytes: Bytes) | Nothing | TooLong | NotAscii | CannotPad

  /** `struct_pack_string`: one signed byte a character, then zeros up to `maxLen` if given.  An empty
    * string yields None, which cannot be padded. */
  method StructPackString(s: string, maxLen: Option<nat>) returns (r: PackedString)
    ensures var left := if maxLen.None? then 0 else maxLen.value - |s|;
            r == if left < 0 then TooLong
                 else if !Ascii(s) then NotAscii
                 else if s == "" then if left == 0 then Nothing else CannotPad
                 else Encoded(Text(s) + Zeros(left))
  {
    var max := if maxLen.None? then |s| else maxLen.value;
    if |s| > max {
      return TooLong;
    }
    var left := max - |s|;
    var out: Bytes := [];
    for i := 0 to |s|
      invariant Ascii(s[..i]) && out == Text(s[..i])
    {
      if s[i] as int >= 128 {
        return NotAscii;
      }
      out := out + [s[i] as int];
    }
    assert s[..|s|] == s;
    if |s| == 0 {
      return if left == 0 then Nothing else CannotPad;
    }
    for i := 0 to left
      invariant out == Text(s) + Zeros(i)
    {
      out := out + [0];
    }
    return Encoded(out);
  }

  /** `read_data`. */
  method ReadData(data: Bytes, format: Format) returns (r: Bytes)
    ensures r == Padded(data, format)
  {
    r := data;
    if format == EDL2 && |data| % 16 != 0 {
      var padding := 16 - |data| % 16;
      r := r + Zeros(padding);
    }
  }

  /** The format checks at the start of `pack_models`. */
  method CommonFormat(files: seq<ModelFile>) returns (format: Option<Format>, error: Error)
    ensures format.Some? <==> files != [] && FormatOf(files[0].data).Some?
                              && forall i :: 0 <= i < |files| ==> FormatOf(files[i].data) == FormatOf(files[0].data)
    ensures format.Some? ==> format == FormatOf(files[0].data)
    ensures format.None? ==>
              error == if exists i :: 0 <= i < |files| && FormatOf(files[i].data).None? then WrongFormat
                       else if files == [] then NoModels else MixedFormats
  {
    for i := 0 to |files|
      invariant forall k :: 0 <= k < i ==> FormatOf(files[k].data).Some?
    {
      if FormatOf(files[i].data).None? {
        return None, WrongFormat;
      }
    }
    if |files| == 0 {
      return None, NoModels;
    }
    format := FormatOf(files[0].data);
    for i := 1 to |files|
      invariant forall k :: 0 <= k < i ==> FormatOf(files[k].data) == format
    {
      if FormatOf(files[i].data) != format {
        return None, MixedFormats;
      }
    }
    error := NoModels;
  }

  /** The layout loop: names, data and header rows accumulate while two offsets run along. */
  method LayOut(files: seq<ModelFile>, format: Format, names: seq<string>, bins: seq<Bytes>,
      nameStart: nat, dataStart: nat)
    returns (error: Option<Error>, rowBin: Bytes, nameBin: Bytes, dataBin: Bytes)
    requires |names| == |bins| == |files|
    requires forall i :: 0 <= i < |files| ==> files[i].name == names[i] != ""
    requires bins == Bins(files, format) && forall i :: 0 <= i < |bins| ==> bins[i] != []
    requires nameStart == NameBase(|files|) && dataStart == DataBase(files, format)
    ensures error.None? <==>
              forall i :: 0 <= i < |files| ==> Ascii(files[i].name) && DataOffset(files, format, i) < U32
    ensures error == Some(BadName) ==> exists i :: 0 <= i < |files| && !Ascii(files[i].name)
    ensures error == Some(TooLarge) ==> exists i :: 0 <= i < |files| && DataOffset(files, format, i) >= U32
    ensures error.Some? ==> error.value == BadName || error.value == TooLarge
    ensures error.None? ==>
              && rowBin == Flat(Rows(files, format))
              && nameBin == Flat(Names(files))
              && dataBin == Flat(bins)
  {
    hide *;
    rowBin, nameBin, dataBin := [], [], [];
    var nameOffset, dataOffset := nameStart, dataStart;
    ghost var ns, rs := Names(files), Rows(files, format);
    NothingYet(ns, bins, rs);
    for idx := 0 to |names|
      invariant forall i :: 0 <= i < idx ==> Ascii(files[i].name) && DataOffset(files, format, i) < U32
      invariant rowBin == Flat(rs[..idx]) && nameBin == Flat(ns[..idx]) && dataBin == Flat(bins[..idx])
      invariant idx == 0 ==> nameOffset == nameStart && dataOffset == dataStart
      invariant idx == 0 ==> nameBin == [] && dataBin == []
      invariant idx > 0 ==> nameOffset == NameOffset(files, idx - 1) && dataOffset == DataOffset(files, format, idx - 1)
      invariant idx > 0 ==> nameBin != [] && dataBin != []
    {
      OffsetsAdvance(files, format, idx);
      RowParts(files, format, idx);
      var packed := StructPackString(names[idx], Some(|names[idx]|));
      NoPadding(Text(names[idx]));
      if !packed.Encoded? {
        return Some(BadName), rowBin, nameBin, dataBin;
      }
      assert packed.bytes == ns[idx] by { NameBytes(files, idx); }
      if nameBin == [] {
        nameBin := packed.bytes;
      } else {
        nameBin := nameBin + packed.bytes;
        nameOffset := nameOffset + |names[idx - 1]|;
      }
      if dataBin == [] {
        dataBin := bins[idx];
      } else {
        dataBin := dataBin + bins[idx];
        dataOffset := dataOffset + |bins[idx - 1]|;
      }
      RowNumbers(files, format, idx);
      if dataOffset >= U32 || nameOffset >= U32 || |names[idx]| >= U32 {
        return Some(TooLarge), rowBin, nameBin, dataBin;
      }
      rowBin := rowBin + (LE32(dataOffset) + LE32(nameOffset) + LE32(|names[idx]|));
    }
    WholePrefix(rs);
    WholePrefix(ns);
    WholePrefix(bins);
    error := None;
  }

  lemma NothingYet(ns: seq<Bytes>, bins: seq<Bytes>, rs: seq<Bytes>)
    ensures Flat(ns[..0]) == Flat(bins[..0]) == Flat(rs[..0]) == []
  {
  }

  lemma NoPadding(b: Bytes)
    ensures b + Zeros(0) == b
  {
  }

  lemma NameBytes(files: seq<ModelFile>, i: nat)
    requires i < |files|
    ensures Names(files)[i] == Text(files[i].name)
  {
  }

  lemma OffsetsAdvance(files: seq<ModelFile>, format: Format, idx: nat)
    requires idx < |files|
    ensures var ns, bs, rs := Names(files), Bins(files, format), Rows(files, format);
            && Flat(ns[..idx + 1]) == Flat(ns[..idx]) + ns[idx]
            && Flat(bs[..idx + 1]) == Flat(bs[..idx]) + bs[idx]
            && Flat(rs[..idx + 1]) == Flat(rs[..idx]) + rs[idx]
    ensures idx == 0 ==> NameOffset(files, 0) == NameBase(|files|)
    ensures idx == 0 ==> DataOffset(files, format, 0) == DataBase(files, format)
    ensures idx > 0 ==>
              && NameOffset(files, idx) == NameOffset(files, idx - 1) + |files[idx - 1].name|
              && DataOffset(files, format, idx) == DataOffset(files, format, idx - 1) + |Bins(files, format)[idx - 1]|
  {
    FlatSnoc(Names(files), idx);
    FlatSnoc(Bins(files, format), idx);
    FlatSnoc(Rows(files, format), idx);
    if idx > 0 {
      FlatSnoc(Names(files), idx - 1);
      FlatSnoc(Bins(files, format), idx - 1);
    }
  }

  /** A model's name offset and name length never exceed its data offset. */
  lemma RowNumbers(files: seq<ModelFile>, format: Format, i: nat)
    requires i < |files|
    ensures NameOffset(files, i) <= DataOffset(files, format, i) && |files[i].name| <= DataOffset(files, format, i)
  {
    FlatPiece(Names(files), i);
  }

  /** `pack_models`, from the list of model files on. */
  method PackModels(files: seq<ModelFile>) returns (r: Result)
    requires forall i :: 0 <= i < |files| ==> files[i].name != ""
    ensures r.Packed? <==> Packable(files)
    ensures r.Packed? ==> r.file == Layout(files, FormatOf(files[0].data).value)
    ensures r.Packed? ==>
              && |files[0].data| >= 4 && |r.file| >= 8 && r.file[..4] == [80] + files[0].data[1..4]
              && |files| == r.file[4] as int + 0x100 * r.file[5] as int + 0x1_0000 * r.file[6] as int
                            + 0x100_0000 * r.file[7] as int
              && (files[0].data[3] == 50 ==> forall i :: 0 <= i < |files| ==>
                    Number(r.file, 8 + 12 * i).Some? && Number(r.file, 8 + 12 * i).value % 16 == 0)
    ensures r.Failed? ==> Explains(files, r.error)
  {
    hide *;
    var common, error := CommonFormat(files);
    if common.None? {
      CommonExplained(files, error);
      return Failed(error);
    }
    r := PackCommon(files, common.value);
    if r.Packed? {
      FormatBytes(files[0].data);
      PackedFits(files);
      HeaderBytes(files, common.value);
    }
  }

  lemma PackedFits(files: seq<ModelFile>)
    requires Packable(files)
    ensures files != [] && FormatOf(files[0].data).Some?
    ensures DataOffset(files, FormatOf(files[0].data).value, |files| - 1) < U32
    ensures forall i :: 0 <= i < |files| ==> Ascii(files[i].name)
  {
  }

  /** `pack_models` once the common format is known. */
  method PackCommon(files: seq<ModelFile>, format: Format) returns (r: Result)
    requires files != [] && forall i :: 0 <= i < |files| ==> FormatOf(files[i].data) == Some(format)
    requires forall i :: 0 <= i < |files| ==> files[i].name != ""
    ensures r.Packed? <==> Packable(files)
    ensures r.Packed? ==> r.file == Layout(files, format)
    ensures r.Failed? ==> Explains(files, r.error)
  {
    hide *;
    var names, bins, nameLength := Collect(files, format);
    var nameOffset := 4 + 4 + |names| * 12;
    var dataOffset := if format == EDL1 then nameOffset + nameLength else (nameOffset + nameLength + 15) / 16 * 16;
    Bases(files, format);
    PackableWith(files, format);
    FailureExplained(files, format);
    HeaderNumbers(files, format, |files| - 1);
    AllOffsetsFit(files, format);
    if |names| >= U32 {
      return Failed(TooLarge);
    }
    var failed, rowBin, nameBin, dataBin := LayOut(files, format, names, bins, nameOffset, dataOffset);
    if failed.Some? {
      return Failed(failed.value);
    }
    var magic := StructPackString(if format == EDL1 then "PDL1" else "PDL2", Some(4));
    MagicPacks(format);
    var header := magic.bytes + LE32(|names|) + rowBin;
    r := Packed(header + nameBin + Zeros(dataOffset - nameOffset - nameLength) + dataBin);
    LayoutIs(files, format);
  }

  /** The reading loop of `pack_models`. */
  method Collect(files: seq<ModelFile>, format: Format) returns (names: seq<string>, bins: seq<Bytes>, nameLength: nat)
    requires forall i :: 0 <= i < |files| ==> FormatOf(files[i].data).Some?
    ensures |names| == |files| && forall i :: 0 <= i < |files| ==> names[i] == files[i].name
    ensures bins == Bins(files, format) && forall i :: 0 <= i < |bins| ==> bins[i] != []
    ensures nameLength == |Flat(Names(files))|
  {
    hide *;
    names, bins, nameLength := [], [], 0;
    NothingYet(Names(files), Bins(files, format), []);
    for i := 0 to |files|
      invariant |names| == i && forall k :: 0 <= k < i ==> names[k] == files[k].name
      invariant bins == Bins(files, format)[..i]
      invariant nameLength == |Flat(Names(files)[..i])|
    {
      FlatSnoc(Names(files), i);
      NameBytes(files, i);
      BinOf(files, format, i);
      var bin := ReadData(files[i].data, format);
      names, bins := names + [files[i].name], bins + [bin];
      nameLength := nameLength + |files[i].name|;
    }
    WholePrefix(Names(files));
    WholePrefix(Bins(files, format));
    BinsNotEmpty(files, format);
  }

  lemma BinsNotEmpty(files: seq<ModelFile>, format: Format)
    requires forall i :: 0 <= i < |files| ==> FormatOf(files[i].data).Some?
    ensures forall i :: 0 <= i < |files| ==> Bins(files, format)[i] != []
  {
  }

  lemma Bases(files: seq<ModelFile>, format: Format)
    ensures NameBase(|files|) == 4 + 4 + |files| * 12
    ensures var end := NameBase(|files|) + |Flat(Names(files))|;
            DataBase(files, format) == if format == EDL1 then end else (end + 15) / 16 * 16
    ensures Padding(files, format) == DataBase(files, format) - NameBase(|files|) - |Flat(Names(files))|
  {
  }

  lemma PackableWith(files: seq<ModelFile>, format: Format)
    requires files != [] && forall i :: 0 <= i < |files| ==> FormatOf(files[i].data) == Some(format)
    ensures Packable(files) <==>
              (forall i :: 0 <= i < |files| ==> Ascii(files[i].name))
              && DataOffset(files, format, |files| - 1) < U32
  {
  }

  lemma CommonExplained(files: seq<ModelFile>, error: Error)
    requires files == [] || FormatOf(files[0].data).None?
             || exists i :: 0 <= i < |files| && FormatOf(files[i].data) != FormatOf(files[0].data)
    requires error == if exists i :: 0 <= i < |files| && FormatOf(files[i].data).None? then WrongFormat
                      else if files == [] then NoModels else MixedFormats
    ensures Explains(files, error) && !Packable(files)
  {
  }

  lemma FailureExplained(files: seq<ModelFile>, format: Format)
    requires files != [] && FormatOf(files[0].data) == Some(format)
    ensures DataOffset(files, format, |files| - 1) >= U32 ==> Explains(files, TooLarge)
    ensures (exists i :: 0 <= i < |files| && !Ascii(files[i].name)) ==> Explains(files, BadName)
  {
  }

  lemma MagicPacks(format: Format)
    ensures var s := if format == EDL1 then "PDL1" else "PDL2";
            |s| == 4 && Ascii(s) && Text(s) + Zeros(0) == Magic(format)
  {
    NoPadding(Magic(format));
  }

  lemma LayoutIs(files: seq<ModelFile>, format: Format)
    ensures Layout(files, format)
         == (Magic(format) + LE32(|files|) + Flat(Rows(files, format))) + Flat(Names(files))
            + Zeros(Padding(files, format)) + Flat(Bins(files, format))
  {
  }

  lemma AllOffsetsFit(files: seq<ModelFile>, format: Format)
    requires files != []
    ensures DataOffset(files, format, |files| - 1) < U32
        ==> forall i :: 0 <= i < |files| ==> DataOffset(files, format, i) < U32
  {
    forall i | 0 <= i < |files|
      ensures DataOffset(files, format, i) <= DataOffset(files, format, |files| - 1)
    {
      HeaderNumbers(files, format, i);
    }
  }

  /** The round trip: whatever is packed can be read back - every name and every model, in order, up
    * to the alignment padding - and different names stay different. */
  method PackThenRead(files: seq<ModelFile>) returns (r: Result)
    requires forall i :: 0 <= i < |files| ==> files[i].name != ""
    ensures r.Packed? <==> Packable(files)
    ensures r.Packed? ==> ReadCount(r.file) == Some(|files|)
    ensures r.Packed? ==> forall i :: 0 <= i < |files| ==>
              && ReadEntry(r.file, |files|, i).Some?
              && ReadEntry(r.file, |files|, i).value.name == Text(files[i].name)
              && UpToPadding(files[i].data, ReadEntry(r.file, |files|, i).value.data, FormatOf(files[0].data).value)
              && (files[0].data[3] == 49 ==> ReadEntry(r.file, |files|, i).value.data == files[i].data)
    ensures r.Packed? ==> forall i, k :: 0 <= i < |files| && 0 <= k < |files[i].name| ==>
              && ReadEntry(r.file, |files|, i).Some? && k < |ReadEntry(r.file, |files|, i).value.name|
              && ReadEntry(r.file, |files|, i).value.name[k] as int == files[i].name[k] as int
  {
    hide *;
    r := PackModels(files);
    if r.Packed? {
      PackedFits(files);
      FormatBytes(files[0].data);
      var format := FormatOf(files[0].data).value;
      ReadsBack(files, format);
      forall i, k | 0 <= i < |files| && 0 <= k < |files[i].name|
        ensures Text(files[i].name)[k] as int == files[i].name[k] as int
      {
        TextBytes(files[i].name, k);
      }
      if files[0].data[3] == 49 {
        assert format == EDL1;
        forall i | 0 <= i < |files|
          ensures ReadEntry(r.file, |files|, i).value.data == files[i].data
        {
          NoPaddingInEDL1(files[i].data, ReadEntry(r.file, |files|, i).value.data);
        }
      }
    }
  }
}
