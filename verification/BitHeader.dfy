/**
 The header of a bitstream file: bitstream_parse_header against an encoder.
 The parser does not look at the size of its buffer. A read outside the buffer
 is an outcome of its own here.
 */
module BitHeader {
  import opened Words

  datatype Header = Header(
    headerLength: nat, bitstreamLength: U32, magicLength: nat,
    designName: seq<byte>, partName: seq<byte>, date: seq<byte>, time: seq<byte>)

  datatype Fault = Invalid | Overread

  datatype Outcome = Parsed(header: Header) | Failed(fault: Fault)

  /** The index that the parser has got to. */
  datatype Mark = Mark(i: nat) | Stop(fault: Fault)

  // ---- the format ------------------------------------------------------------

  function Be16(n: nat): seq<byte>
    requires n < 0x1_0000
  {
    [n / 256, n % 256]
  }

  function Be32(n: U32): seq<byte> {
    [n / 256 / 256 / 256, n / 256 / 256 % 256, n / 256 % 256, n % 256]
  }

  function Short(high: int, low: int): int {
    high * 256 + low
  }

  lemma ShortSplits(high: int, low: byte, n: int)
    ensures Short(high, low) == n <==> high == n / 256 && low == n % 256
  {
  }

  lemma LongIsBe32(a: byte, b: byte, c: byte, d: byte, n: U32)
    ensures Short(Short(Short(a, b), c), d) == n <==> [a, b, c, d] == Be32(n)
  {
    ShortSplits(Short(Short(a, b), c), d, n);
    ShortSplits(Short(a, b), c, n / 256);
    ShortSplits(a, b, n / 256 / 256);
    var be := Be32(n);
    assert [a, b, c, d] == be <==> a == be[0] && b == be[1] && c == be[2] && d == be[3];
  }

  function MagicByte(i: nat): byte {
    if i % 2 == 0 then 0x0f else 0xf0
  }

  function Magic(n: nat): (m: seq<byte>)
    ensures |m| == n && forall i :: 0 <= i < n ==> m[i] == if i % 2 == 0 then 0x0f else 0xf0
  {
    seq(n, i requires 0 <= i < n => MagicByte(i))
  }

  /** A name field: not empty, and ending with a null byte. */
  predicate IsField(f: seq<byte>) {
    0 < |f| < 0x1_0000 && f[|f| - 1] == 0
  }

  function FieldBytes(tag: byte, f: seq<byte>): seq<byte>
    requires IsField(f)
  {
    [tag] + (Be16(|f|) + f)
  }

  /** The content of a header; `magicEnd` is the byte behind the magic, which nothing checks. */
  datatype Content = Content(
    magicLength: nat, magicEnd: byte, designName: seq<byte>, partName: seq<byte>,
    date: seq<byte>, time: seq<byte>, bitstreamLength: U32)
  {
    predicate Valid() {
      && 1 <= magicLength < 0x1_0000
      && IsField(designName) && IsField(partName) && IsField(date) && IsField(time)
    }
  }

  function MagicBytes(magicLength: nat, magicEnd: byte): seq<byte>
    requires 1 <= magicLength < 0x1_0000
  {
    Be16(magicLength) + (Magic(magicLength - 1) + [magicEnd, 0, 1])
  }

  /** The encoding from one of its parts on. */
  function FromTime(c: Content): seq<byte>
    requires c.Valid()
  {
    FieldBytes(0x64, c.time) + ([0x65] + Be32(c.bitstreamLength))
  }

  function FromDate(c: Content): seq<byte>
    requires c.Valid()
  {
    FieldBytes(0x63, c.date) + FromTime(c)
  }

  function FromPart(c: Content): seq<byte>
    requires c.Valid()
  {
    FieldBytes(0x62, c.partName) + FromDate(c)
  }

  function FromDesign(c: Content): seq<byte>
    requires c.Valid()
  {
    FieldBytes(0x61, c.designName) + FromPart(c)
  }

  function Encode(c: Content): seq<byte>
    requires c.Valid()
  {
    MagicBytes(c.magicLength, c.magicEnd) + FromDesign(c)
  }

  // ---- the parser as a function -------------------------------------------------

  /** Read n bytes of magic from index on. */
  function ReadMagic(data: seq<byte>, index: nat, i: nat, n: nat): Mark
    requires i <= n
    decreases n - i
  {
    if i == n then Mark(index)
    else if index >= |data| then Stop(Overread)
    else if data[index] != MagicByte(i) then Stop(Invalid)
    else ReadMagic(data, index + 1, i + 1, n)
  }

  function MagicLength(data: seq<byte>): nat
    requires |data| >= 2
  {
    Short(data[0], data[1])
  }

  /** The magic: its length, its bytes, one byte that is ignored and a short of
      value 1. The loop bound is an unsigned subtraction and wraps. */
  function ReadStart(data: seq<byte>): (r: Mark)
    ensures r.Mark? ==> |data| >= 2
  {
    if |data| < 2 then Stop(Overread)
    else
      match ReadMagic(data, 2, 0, Sub32(MagicLength(data), 1))
      case Stop(f) => Stop(f)
      case Mark(index) =>
        if index + 3 > |data| then Stop(Overread)
        else if Short(data[index + 1], data[index + 2]) != 1 then Stop(Invalid)
        else Mark(index + 3)
  }

  /** The index behind a field. The last byte of an empty field is read outside of it. */
  function ReadField(data: seq<byte>, index: nat, tag: byte): (r: Mark)
    ensures r.Mark? ==> index + 3 < r.i <= |data|
  {
    if index >= |data| then Stop(Overread)
    else if data[index] != tag then Stop(Invalid)
    else if index + 3 > |data| then Stop(Overread)
    else
      var len := Short(data[index + 1], data[index + 2]);
      var end := index + 3 + len;
      if end > |data| || len == 0 then Stop(Overread)
      else if data[end - 1] != 0 then Stop(Invalid)
      else Mark(end)
  }

  /** The index behind the length of the bitstream. */
  function ReadLength(data: seq<byte>, index: nat): (r: Mark)
    ensures r.Mark? ==> r.i == index + 5 <= |data|
  {
    if index >= |data| then Stop(Overread)
    else if data[index] != 0x65 then Stop(Invalid)
    else if index + 5 > |data| then Stop(Overread)
    else Mark(index + 5)
  }

  function Long(data: seq<byte>, index: nat): U32
    requires index + 4 <= |data|
  {
    Short(Short(Short(data[index], data[index + 1]), data[index + 2]), data[index + 3])
  }

  /** The content of a field that takes up the bytes from i to j - 1. */
  function Name(data: seq<byte>, i: nat, j: nat): seq<byte> {
    if i + 3 <= j <= |data| then data[i + 3..j] else []
  }

  /** Where the parts of a header start, from the first name on. */
  datatype Marks = Marks(a: nat, b: nat, c: nat, d: nat, e: nat)

  function HeaderAt(data: seq<byte>, k: Marks): Header
    requires |data| >= 2 && k.e + 5 <= |data|
  {
    Header(k.e + 5, Long(data, k.e + 1), MagicLength(data),
           Name(data, k.a, k.b), Name(data, k.b, k.c), Name(data, k.c, k.d), Name(data, k.d, k.e))
  }

  function Parse(data: seq<byte>): Outcome {
    match ReadStart(data)
    case Stop(f) => Failed(f)
    case Mark(a) =>
    match ReadField(data, a, 0x61)
    case Stop(f) => Failed(f)
    case Mark(b) =>
    match ReadField(data, b, 0x62)
    case Stop(f) => Failed(f)
    case Mark(c) =>
    match ReadField(data, c, 0x63)
    case Stop(f) => Failed(f)
    case Mark(d) =>
    match ReadField(data, d, 0x64)
    case Stop(f) => Failed(f)
    case Mark(e) =>
    match ReadLength(data, e)
    case Stop(f) => Failed(f)
    case Mark(_) => Parsed(HeaderAt(data, Marks(a, b, c, d, e)))
  }

  // ---- the parser inverts the encoder ----------------------------------------------

  /** The bytes stand in the data at index. */
  predicate At(data: seq<byte>, index: nat, bytes: seq<byte>) {
    index + |bytes| <= |data| && data[index..index + |bytes|] == bytes
  }

  lemma AtConcat(data: seq<byte>, index: nat, a: seq<byte>, b: seq<byte>)
    ensures At(data, index, a + b) <==> At(data, index, a) && At(data, index + |a|, b)
  {
    if index + |a| + |b| <= |data| {
      var all := data[index..index + |a + b|];
      assert all[..|a|] == data[index..index + |a|];
      assert all[|a|..] == data[index + |a|..index + |a| + |b|];
      assert (a + b)[..|a|] == a && (a + b)[|a|..] == b;
      assert all == all[..|a|] + all[|a|..];
    }
  }

  lemma AtOne(data: seq<byte>, index: nat, x: byte)
    ensures At(data, index, [x]) <==> index < |data| && data[index] == x
  {
    if index < |data| {
      assert data[index..index + 1] == [data[index]];
    }
  }

  lemma AtShort(data: seq<byte>, index: nat, n: nat)
    requires n < 0x1_0000
    ensures At(data, index, Be16(n)) <==> index + 2 <= |data| && Short(data[index], data[index + 1]) == n
  {
    if index + 2 <= |data| {
      assert data[index..index + 2] == [data[index], data[index + 1]];
      ShortSplits(data[index], data[index + 1], n);
      assert [data[index], data[index + 1]] == Be16(n) <==> data[index] == Be16(n)[0] && data[index + 1] == Be16(n)[1];
    }
  }

  lemma AtLong(data: seq<byte>, index: nat, n: U32)
    ensures At(data, index, Be32(n)) <==>
            index + 4 <= |data| && Long(data, index) == n
  {
    if index + 4 <= |data| {
      assert data[index..index + 4] == [data[index], data[index + 1], data[index + 2], data[index + 3]];
      LongIsBe32(data[index], data[index + 1], data[index + 2], data[index + 3], n);
    }
  }

  /** The magic from byte i on, as the parser meets it at index. */
  ghost predicate MagicAt(data: seq<byte>, index: nat, i: nat, n: nat)
    decreases n - i
  {
    i >= n || (index < |data| && data[index] == MagicByte(i) && MagicAt(data, index + 1, i + 1, n))
  }

  lemma {:induction false} ReadMagicMeans(data: seq<byte>, index: nat, i: nat, n: nat)
    requires i <= n
    ensures ReadMagic(data, index, i, n).Mark? <==> MagicAt(data, index, i, n)
    ensures ReadMagic(data, index, i, n).Mark? ==> ReadMagic(data, index, i, n).i == index + (n - i)
    decreases n - i
  {
    if i < n && index < |data| {
      ReadMagicMeans(data, index + 1, i + 1, n);
    }
  }

  lemma {:induction false} MagicAtMeans(data: seq<byte>, index: nat, i: nat, n: nat)
    requires i <= n && index <= |data|
    ensures MagicAt(data, index, i, n) <==> At(data, index, Magic(n)[i..])
    decreases n - i
  {
    if i < n {
      if index < |data| {
        MagicAtMeans(data, index + 1, i + 1, n);
      }
      AtConcat(data, index, [MagicByte(i)], Magic(n)[i + 1..]);
      assert Magic(n)[i..] == [MagicByte(i)] + Magic(n)[i + 1..];
      AtOne(data, index, MagicByte(i));
    } else {
      assert Magic(n)[i..] == [];
    }
  }

  /** Reading the magic succeeds exactly on its encoding. */
  lemma ReadStartMeans(data: seq<byte>, m: nat, x: byte)
    requires 1 <= m < 0x1_0000
    ensures At(data, 0, MagicBytes(m, x)) <==>
            ReadStart(data) == Mark(m + 4) && MagicLength(data) == m && data[m + 1] == x
  {
    MagicBytesAt(data, m, x);
    AtShort(data, 0, m);
    if |data| >= 2 && MagicLength(data) == m {
      MagicReads(data, m);
      AtThree(data, m + 1, x, 0, 1);
      StartReads(data, m);
    }
  }

  lemma MagicReads(data: seq<byte>, m: nat)
    requires 1 <= m && |data| >= 2
    ensures At(data, 2, Magic(m - 1)) <==> ReadMagic(data, 2, 0, m - 1) == Mark(m + 1)
  {
    ReadMagicMeans(data, 2, 0, m - 1);
    MagicAtMeans(data, 2, 0, m - 1);
    assert Magic(m - 1)[0..] == Magic(m - 1);
  }

  lemma StartReads(data: seq<byte>, m: nat)
    requires 1 <= m < 0x1_0000 && |data| >= 2 && MagicLength(data) == m
    ensures ReadStart(data) == Mark(m + 4) <==>
            && ReadMagic(data, 2, 0, m - 1) == Mark(m + 1)
            && m + 4 <= |data| && data[m + 2] == 0 && data[m + 3] == 1
  {
    assert Sub32(m, 1) == m - 1;
    ReadMagicMeans(data, 2, 0, m - 1);
    if m + 4 <= |data| {
      ShortSplits(data[m + 2], data[m + 3], 1);
    }
  }

  lemma MagicBytesAt(data: seq<byte>, m: nat, x: byte)
    requires 1 <= m < 0x1_0000
    ensures At(data, 0, MagicBytes(m, x)) <==>
            At(data, 0, Be16(m)) && At(data, 2, Magic(m - 1)) && At(data, m + 1, [x, 0, 1])
  {
    AtConcat(data, 0, Be16(m), Magic(m - 1) + [x, 0, 1]);
    AtConcat(data, 2, Magic(m - 1), [x, 0, 1]);
  }

  lemma AtThree(data: seq<byte>, index: nat, x: byte, y: byte, z: byte)
    ensures At(data, index, [x, y, z]) <==>
            index + 3 <= |data| && data[index] == x && data[index + 1] == y && data[index + 2] == z
  {
    if index + 3 <= |data| {
      var s := data[index..index + 3];
      assert s == [data[index], data[index + 1], data[index + 2]];
      assert s == [x, y, z] <==> s[0] == x && s[1] == y && s[2] == z;
    }
  }

  /** So does reading a field. */
  lemma ReadFieldMeans(data: seq<byte>, index: nat, tag: byte, f: seq<byte>)
    requires IsField(f)
    ensures At(data, index, FieldBytes(tag, f)) <==>
            ReadField(data, index, tag) == Mark(index + 3 + |f|) && Name(data, index, index + 3 + |f|) == f
  {
    AtConcat(data, index, [tag], Be16(|f|) + f);
    AtConcat(data, index + 1, Be16(|f|), f);
    AtOne(data, index, tag);
    AtShort(data, index + 1, |f|);
  }

  lemma ReadLengthMeans(data: seq<byte>, index: nat, n: U32)
    ensures At(data, index, [0x65] + Be32(n)) <==> ReadLength(data, index).Mark? && Long(data, index + 1) == n
  {
    AtConcat(data, index, [0x65], Be32(n));
    AtOne(data, index, 0x65);
    AtLong(data, index + 1, n);
  }

  function HeaderOf(c: Content): Header
    requires c.Valid()
  {
    Header(|Encode(c)|, c.bitstreamLength, c.magicLength, c.designName, c.partName, c.date, c.time)
  }

  /** The marks of an encoding. */
  function MarksOf(c: Content): Marks {
    var a := c.magicLength + 4;
    var b := a + 3 + |c.designName|;
    var p := b + 3 + |c.partName|;
    var d := p + 3 + |c.date|;
    Marks(a, b, p, d, d + 3 + |c.time|)
  }

  /** A field with this content, as the parser finds it. */
  ghost predicate HasField(data: seq<byte>, index: nat, tag: byte, f: seq<byte>) {
    ReadField(data, index, tag) == Mark(index + 3 + |f|) && Name(data, index, index + 3 + |f|) == f
  }

  lemma FieldThen(data: seq<byte>, index: nat, tag: byte, f: seq<byte>, rest: seq<byte>)
    requires IsField(f)
    ensures At(data, index, FieldBytes(tag, f) + rest) <==>
            HasField(data, index, tag, f) && At(data, index + 3 + |f|, rest)
    ensures |FieldBytes(tag, f) + rest| == 3 + |f| + |rest|
  {
    AtConcat(data, index, FieldBytes(tag, f), rest);
    ReadFieldMeans(data, index, tag, f);
  }

  ghost predicate PartsFromTime(data: seq<byte>, c: Content, k: Marks) {
    HasField(data, k.d, 0x64, c.time) && ReadLength(data, k.e).Mark? && Long(data, k.e + 1) == c.bitstreamLength
  }

  ghost predicate PartsFromDate(data: seq<byte>, c: Content, k: Marks) {
    HasField(data, k.c, 0x63, c.date) && PartsFromTime(data, c, k)
  }

  ghost predicate PartsFromPart(data: seq<byte>, c: Content, k: Marks) {
    HasField(data, k.b, 0x62, c.partName) && PartsFromDate(data, c, k)
  }

  ghost predicate Parts(data: seq<byte>, c: Content, k: Marks) {
    HasField(data, k.a, 0x61, c.designName) && PartsFromPart(data, c, k)
  }

  lemma FromTimeMeans(data: seq<byte>, c: Content, k: Marks)
    requires c.Valid() && k == MarksOf(c)
    ensures At(data, k.d, FromTime(c)) <==> PartsFromTime(data, c, k)
    ensures |FromTime(c)| == k.e + 5 - k.d
  {
    FieldThen(data, k.d, 0x64, c.time, [0x65] + Be32(c.bitstreamLength));
    ReadLengthMeans(data, k.e, c.bitstreamLength);
  }

  lemma FromDateMeans(data: seq<byte>, c: Content, k: Marks)
    requires c.Valid() && k == MarksOf(c)
    ensures At(data, k.c, FromDate(c)) <==> PartsFromDate(data, c, k)
    ensures |FromDate(c)| == k.e + 5 - k.c
  {
    FromTimeMeans(data, c, k);
    FieldThen(data, k.c, 0x63, c.date, FromTime(c));
  }

  lemma FromPartMeans(data: seq<byte>, c: Content, k: Marks)
    requires c.Valid() && k == MarksOf(c)
    ensures At(data, k.b, FromPart(c)) <==> PartsFromPart(data, c, k)
    ensures |FromPart(c)| == k.e + 5 - k.b
  {
    FromDateMeans(data, c, k);
    FieldThen(data, k.b, 0x62, c.partName, FromDate(c));
  }

  lemma FromDesignMeans(data: seq<byte>, c: Content, k: Marks)
    requires c.Valid() && k == MarksOf(c)
    ensures At(data, k.a, FromDesign(c)) <==> Parts(data, c, k)
    ensures |FromDesign(c)| == k.e + 5 - k.a
  {
    FromPartMeans(data, c, k);
    FieldThen(data, k.a, 0x61, c.designName, FromPart(c));
  }

  /** All the parts of a header with this content. */
  ghost predicate Found(data: seq<byte>, c: Content, k: Marks) {
    && ReadStart(data) == Mark(k.a) && MagicLength(data) == c.magicLength
    && k.a <= |data| && c.magicLength + 4 == k.a && data[c.magicLength + 1] == c.magicEnd
    && Parts(data, c, k)
  }

  lemma EncodeMeans(data: seq<byte>, c: Content, k: Marks)
    requires c.Valid() && k == MarksOf(c)
    ensures At(data, 0, Encode(c)) <==> Found(data, c, k)
    ensures |Encode(c)| == k.e + 5
  {
    FromDesignMeans(data, c, k);
    AtConcat(data, 0, MagicBytes(c.magicLength, c.magicEnd), FromDesign(c));
    ReadStartMeans(data, c.magicLength, c.magicEnd);
  }

  /** What the parser returns for this content. */
  function Described(c: Content, k: Marks): Header {
    Header(k.e + 5, c.bitstreamLength, c.magicLength, c.designName, c.partName, c.date, c.time)
  }

  /** The marks that a successful parse goes by. */
  ghost predicate Located(data: seq<byte>, k: Marks) {
    && ReadStart(data) == Mark(k.a) && |data| >= 2
    && ReadField(data, k.a, 0x61) == Mark(k.b) && ReadField(data, k.b, 0x62) == Mark(k.c)
    && ReadField(data, k.c, 0x63) == Mark(k.d) && ReadField(data, k.d, 0x64) == Mark(k.e)
    && ReadLength(data, k.e).Mark? && k.e + 5 <= |data|
  }

  lemma LocatedIsParsed(data: seq<byte>, k: Marks)
    requires Located(data, k)
    ensures Parse(data) == Parsed(HeaderAt(data, k))
  {
  }

  lemma FoundIsLocated(data: seq<byte>, c: Content, k: Marks)
    requires c.Valid() && k == MarksOf(c) && Found(data, c, k)
    ensures Located(data, k) && HeaderAt(data, k) == Described(c, k)
  {
  }

  lemma ParseLocates(data: seq<byte>) returns (k: Marks)
    requires Parse(data).Parsed?
    ensures Located(data, k) && Parse(data) == Parsed(HeaderAt(data, k))
  {
    var a := ReadStart(data).i;
    var b := ReadField(data, a, 0x61).i;
    var c := ReadField(data, b, 0x62).i;
    var d := ReadField(data, c, 0x63).i;
    k := Marks(a, b, c, d, ReadField(data, d, 0x64).i);
  }

  lemma StartFits(data: seq<byte>)
    requires ReadStart(data).Mark? && |data| < TWO_TO_32
    ensures 1 <= MagicLength(data) < 0x1_0000 && ReadStart(data).i == MagicLength(data) + 4 <= |data|
  {
    var n := Sub32(MagicLength(data), 1);
    ReadMagicMeans(data, 2, 0, n);
    MagicFits(data, 2, 0, n);
  }

  lemma {:induction false} MagicFits(data: seq<byte>, index: nat, i: nat, n: nat)
    requires MagicAt(data, index, i, n) && index <= |data| && i <= n
    ensures index + (n - i) <= |data|
    decreases n - i
  {
    if i < n {
      MagicFits(data, index + 1, i + 1, n);
    }
  }

  lemma FieldIsFound(data: seq<byte>, i: nat, j: nat, tag: byte)
    requires ReadField(data, i, tag) == Mark(j)
    ensures IsField(Name(data, i, j)) && HasField(data, i, tag, Name(data, i, j)) && j == i + 3 + |Name(data, i, j)|
  {
  }

  /** The content that a parsed header stands for. */
  function ContentOf(h: Header, magicEnd: byte): Content {
    Content(h.magicLength, magicEnd, h.designName, h.partName, h.date, h.time, h.bitstreamLength)
  }

  /** The content is the one that the marks cut out. */
  lemma LocatedIsFound(data: seq<byte>, k: Marks, c: Content)
    requires Located(data, k) && |data| < TWO_TO_32
    requires MagicLength(data) + 4 <= |data| && c == ContentOf(HeaderAt(data, k), data[MagicLength(data) + 1])
    ensures c.Valid() && MarksOf(c) == k && Found(data, c, k)
  {
    StartFits(data);
    FieldIsFound(data, k.a, k.b, 0x61);
    FieldIsFound(data, k.b, k.c, 0x62);
    FieldIsFound(data, k.c, k.d, 0x63);
    FieldIsFound(data, k.d, k.e, 0x64);
  }

  /** The parser succeeds with a content exactly where its encoding stands, up
      to the one byte that it does not check. */
  lemma ParsesExactlyEncodings(data: seq<byte>, c: Content)
    requires c.Valid() && |data| < TWO_TO_32
    ensures At(data, 0, Encode(c)) <==>
            && Parse(data) == Parsed(HeaderOf(c))
            && c.magicLength + 1 < |data| && data[c.magicLength + 1] == c.magicEnd
  {
    var k := MarksOf(c);
    EncodeMeans(data, c, k);
    if At(data, 0, Encode(c)) {
      FoundIsLocated(data, c, k);
      LocatedIsParsed(data, k);
    } else if Parse(data) == Parsed(HeaderOf(c)) && c.magicLength + 1 < |data|
           && data[c.magicLength + 1] == c.magicEnd {
      var l := ParseLocates(data);
      StartFits(data);
      LocatedIsFound(data, l, c);
    }
  }

  /** Success means that the data begins with an encoding. A magic length of
      zero, which sends the parser through 2^32 - 1 bytes of magic, is not
      accepted in a buffer of less than that. */
  lemma SuccessMeansEncoding(data: seq<byte>) returns (c: Content)
    requires Parse(data).Parsed? && |data| < TWO_TO_32
    ensures c.Valid() && At(data, 0, Encode(c)) && Parse(data) == Parsed(HeaderOf(c))
  {
    var k := ParseLocates(data);
    StartFits(data);
    c := ContentOf(HeaderAt(data, k), data[MagicLength(data) + 1]);
    LocatedIsFound(data, k, c);
    EncodeMeans(data, c, k);
  }

  // ---- the parser as it is written ----------------------------------------------------

  /** One of the four blocks that read a name. */
  method ParseField(data: seq<byte>, start: nat, tag: byte) returns (r: Mark, name: seq<byte>)
    ensures r == ReadField(data, start, tag)
    ensures r.Mark? ==> name == Name(data, start, r.i)
  {
    var index := start;
    name := [];
    if index >= |data| {
      return Stop(Overread), name;
    }
    if data[index] != tag {
      return Stop(Invalid), name;
    }
    index := index + 1;
    if index + 2 > |data| {
      return Stop(Overread), name;
    }
    var len: nat := Short(data[index], data[index + 1]);
    index := index + 2;
    var i := 0;
    while i < len
      invariant 0 <= i <= len && index == start + 3 + i <= |data|
      invariant name == data[start + 3..index]
    {
      if index >= |data| {
        return Stop(Overread), name;
      }
      name := name + [data[index]];
      index := index + 1;
      i := i + 1;
    }
    if len == 0 {
      return Stop(Overread), name;
    }
    if name[len - 1] != 0 {
      return Stop(Invalid), name;
    }
    r := Mark(index);
  }

  /** The part of bitstream_parse_header up to the first name. */
  method ParseMagic(data: seq<byte>) returns (r: Mark, magicLength: nat)
    ensures r == ReadStart(data)
    ensures r.Mark? ==> magicLength == MagicLength(data)
  {
    magicLength := 0;
    if |data| < 2 {
      return Stop(Overread), magicLength;
    }
    magicLength := Short(data[0], data[1]);
    var index, i := 2, 0;
    while i < Sub32(magicLength, 1)
      invariant 0 <= i <= Sub32(magicLength, 1) && index == 2 + i <= |data|
      invariant ReadMagic(data, 2, 0, Sub32(magicLength, 1)) == ReadMagic(data, index, i, Sub32(magicLength, 1))
    {
      if index >= |data| {
        return Stop(Overread), magicLength;
      }
      var tmp := data[index];
      index := index + 1;
      if i % 2 == 0 && tmp != 0x0f {
        return Stop(Invalid), magicLength;
      }
      if i % 2 == 1 && tmp != 0xf0 {
        return Stop(Invalid), magicLength;
      }
      i := i + 1;
    }
    if index + 3 > |data| {
      return Stop(Overread), magicLength;
    }
    if Short(data[index + 1], data[index + 2]) != 1 {
      return Stop(Invalid), magicLength;
    }
    r := Mark(index + 3);
  }

  /** The part from the letter e on. */
  method ParseLength(data: seq<byte>, start: nat) returns (r: Mark, length: U32)
    ensures r == ReadLength(data, start)
    ensures r.Mark? ==> length == Long(data, start + 1)
  {
    var index := start;
    length := 0;
    if index >= |data| {
      return Stop(Overread), length;
    }
    if data[index] != 0x65 {
      return Stop(Invalid), length;
    }
    index := index + 1;
    if index + 4 > |data| {
      return Stop(Overread), length;
    }
    length := data[index];
    length := Short(length, data[index + 1]);
    length := Short(length, data[index + 2]);
    length := Short(length, data[index + 3]);
    r := Mark(index + 4);
  }

  /** bitstream_parse_header */
  method ParseHeader(data: seq<byte>) returns (r: Outcome)
    ensures r == Parse(data)
  {
    var at, magicLength := ParseMagic(data);
    var design, part, date, time, length;
    if at.Stop? {
      return Failed(at.fault);
    }
    at, design := ParseField(data, at.i, 0x61);
    if at.Stop? {
      return Failed(at.fault);
    }
    at, part := ParseField(data, at.i, 0x62);
    if at.Stop? {
      return Failed(at.fault);
    }
    at, date := ParseField(data, at.i, 0x63);
    if at.Stop? {
      return Failed(at.fault);
    }
    at, time := ParseField(data, at.i, 0x64);
    if at.Stop? {
      return Failed(at.fault);
    }
    at, length := ParseLength(data, at.i);
    if at.Stop? {
      return Failed(at.fault);
    }
    r := Parsed(Header(at.i, length, magicLength, design, part, date, time));
  }
}
