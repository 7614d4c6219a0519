/**
 The hardware descriptor (struct xdma_desc) and the helpers that edit one
 descriptor. The control word packs four fields: the magic half-word in bits
 16-31, four reserved bits in 12-15, the number of extra adjacent descriptors
 in 8-11 and the control flags in 0-7.
 */
module Descriptors {
  import opened Words

  const DESC_BYTES: nat := 32
  const MAX_EXTRA_ADJ: nat := 15

  const STOPPED: bv32 := 0x01
  const COMPLETED: bv32 := 0x02
  const EOP: bv32 := 0x10

  datatype Desc = Desc(
    control: bv32, bytes: U32,
    srcLow: U32, srcHigh: U32,
    dstLow: U32, dstHigh: U32,
    nextLow: U32, nextHigh: U32)
  {
    function Source(): nat { Join(srcLow, srcHigh) }
    function Destination(): nat { Join(dstLow, dstHigh) }
    function Next(): nat { Join(nextLow, nextHigh) }
  }

  const BLANK: Desc := Desc(0, 0, 0, 0, 0, 0, 0, 0)

  // ---- the fields of a control word --------------------------------------

  datatype Fields = Fields(magic: bv32, reserved: bv32, adjacent: bv32, flags: bv32)

  function Decode(w: bv32): Fields {
    Fields(w >> 16, (w >> 12) & 0xf, (w >> 8) & 0xf, w & 0xff)
  }

  function Encode(f: Fields): bv32 {
    (f.magic << 16) | (f.reserved << 12) | (f.adjacent << 8) | f.flags
  }

  lemma DecodeIsExact(w: bv32)
    ensures Encode(Decode(w)) == w
  {
  }

  // ---- the helpers, on the control word ----------------------------------

  function LinkWord(w: bv32): bv32 {
    (w & 0x0000_f0ff) | 0xAD4B_0000
  }

  /** A small count as bits: what the C conversion from int to u32 gives. */
  function Bits(n: nat): (b: bv32)
    requires n <= MAX_EXTRA_ADJ
    ensures b <= 15 && b as nat == n
  {
    if n == 0 then 0 else Bits(n - 1) + 1
  }

  function AdjacentWord(w: bv32, extraAdj: nat): bv32
    requires extraAdj <= MAX_EXTRA_ADJ
  {
    (w & 0x0000_f0ff) | 0xAD4B_0000 | (Bits(extraAdj) << 8)
  }

  function ControlWord(w: bv32, field: bv32): bv32 {
    (w & 0xffff_ff00) | field
  }

  function ClearWord(w: bv32, mask: bv32): bv32 {
    w & !mask
  }

  function SetWord(w: bv32, mask: bv32): bv32 {
    w | mask
  }

  // ---- every sequence of helpers edits the fields independently ----------

  datatype Op =
    | LinkOp
    | AdjacentOp(extraAdj: nat)
    | ControlOp(field: bv32)
    | ClearOp(mask: bv32)
    | SetOp(mask: bv32)

  /** A mask of the control-flag byte: what the BUG_ONs demand. */
  predicate InByte(m: bv32) {
    m & 0xffff_ff00 == 0
  }

  /** The masks and counts that the BUG_ONs and clamps of the helpers allow. */
  predicate Legal(op: Op) {
    match op
    case LinkOp => true
    case AdjacentOp(e) => e <= MAX_EXTRA_ADJ
    case ControlOp(f) => InByte(f)
    case ClearOp(m) => InByte(m)
    case SetOp(m) => InByte(m)
  }

  function Apply(w: bv32, op: Op): bv32
    requires Legal(op)
  {
    match op
    case LinkOp => LinkWord(w)
    case AdjacentOp(e) => AdjacentWord(w, e)
    case ControlOp(f) => ControlWord(w, f)
    case ClearOp(m) => ClearWord(w, m)
    case SetOp(m) => SetWord(w, m)
  }

  /** What the helper means for a record of separate fields. */
  function ApplyFields(f: Fields, op: Op): Fields
    requires Legal(op)
  {
    match op
    case LinkOp => f.(magic := 0xAD4B, adjacent := 0)
    case AdjacentOp(e) => f.(magic := 0xAD4B, adjacent := Bits(e))
    case ControlOp(c) => f.(flags := c)
    case ClearOp(m) => f.(flags := f.flags & !m)
    case SetOp(m) => f.(flags := f.flags | m)
  }

  function ApplyAll(w: bv32, ops: seq<Op>): bv32
    requires forall op :: op in ops ==> Legal(op)
    decreases ops
  {
    if ops == [] then w else ApplyAll(Apply(w, ops[0]), ops[1..])
  }

  function ApplyFieldsAll(f: Fields, ops: seq<Op>): Fields
    requires forall op :: op in ops ==> Legal(op)
    decreases ops
  {
    if ops == [] then f else ApplyFieldsAll(ApplyFields(f, ops[0]), ops[1..])
  }

  lemma LinkMeansFields(w: bv32, op: Op)
    requires Legal(op) && op.LinkOp?
    ensures Decode(Apply(w, op)) == ApplyFields(Decode(w), op)
  {
  }

  lemma ControlMeansFields(w: bv32, op: Op)
    requires Legal(op) && op.ControlOp?
    ensures Decode(Apply(w, op)) == ApplyFields(Decode(w), op)
  {
  }

  lemma ClearMeansFields(w: bv32, op: Op)
    requires Legal(op) && op.ClearOp?
    ensures Decode(Apply(w, op)) == ApplyFields(Decode(w), op)
  {
  }

  lemma SetMeansFields(w: bv32, op: Op)
    requires Legal(op) && op.SetOp?
    ensures Decode(Apply(w, op)) == ApplyFields(Decode(w), op)
  {
  }

  lemma AdjacentBits(w: bv32, e: bv32)
    requires e <= 15
    ensures Decode((w & 0x0000_f0ff) | 0xAD4B_0000 | (e << 8))
         == Decode(w).(magic := 0xAD4B, adjacent := e)
  {
  }

  lemma AdjacentMeansFields(w: bv32, op: Op)
    requires Legal(op) && op.AdjacentOp?
    ensures Decode(Apply(w, op)) == ApplyFields(Decode(w), op)
  {
    AdjacentBits(w, Bits(op.extraAdj));
  }

  lemma ApplyMeansFields(w: bv32, op: Op)
    requires Legal(op)
    ensures Decode(Apply(w, op)) == ApplyFields(Decode(w), op)
  {
    match op {
      case LinkOp => LinkMeansFields(w, op);
      case AdjacentOp(_) => AdjacentMeansFields(w, op);
      case ControlOp(_) => ControlMeansFields(w, op);
      case ClearOp(_) => ClearMeansFields(w, op);
      case SetOp(_) => SetMeansFields(w, op);
    }
  }

  lemma {:induction false} PackedFieldsAreIndependent(w: bv32, ops: seq<Op>)
    requires forall op :: op in ops ==> Legal(op)
    ensures Decode(ApplyAll(w, ops)) == ApplyFieldsAll(Decode(w), ops)
    decreases ops
  {
    if ops != [] {
      ApplyMeansFields(w, ops[0]);
      PackedFieldsAreIndependent(Apply(w, ops[0]), ops[1..]);
    }
  }

  predicate SetsMagic(op: Op) {
    op.LinkOp? || op.AdjacentOp?
  }

  /** The reserved bits survive any sequence; the magic, once set, stays set. */
  lemma {:induction false} ReservedAndMagicSurvive(w: bv32, ops: seq<Op>)
    requires forall op :: op in ops ==> Legal(op)
    ensures Decode(ApplyAll(w, ops)).reserved == Decode(w).reserved
    ensures Decode(w).magic == 0xAD4B || (exists op :: op in ops && SetsMagic(op)) ==>
              Decode(ApplyAll(w, ops)).magic == 0xAD4B
    decreases ops
  {
    if ops != [] {
      ApplyMeansFields(w, ops[0]);
      ReservedAndMagicSurvive(Apply(w, ops[0]), ops[1..]);
    }
  }

  /** The number of extra descriptors the device prefetches with the next one:
      the hardware field is six bits wide, so it includes two reserved bits. */
  function Hint(w: bv32): nat {
    ((w >> 8) & 0x3f) as nat
  }

  lemma HintIsAdjacent(w: bv32, extraAdj: nat)
    requires extraAdj <= MAX_EXTRA_ADJ
    requires Decode(w).reserved == 0 && Decode(w).adjacent == Bits(extraAdj)
    ensures Hint(w) == extraAdj
  {
    var e := Bits(extraAdj);
    assert (w >> 8) & 0x3f == e;
  }

  // ---- the helpers, on a descriptor --------------------------------------

  /** xdma_desc_link: link to the descriptor at `second`, or terminate. */
  function Link(d: Desc, second: Option<nat>): Desc {
    match second
    case Some(bus) => d.(nextLow := Low(bus), nextHigh := High(bus), control := LinkWord(d.control))
    case None => d.(nextLow := 0, nextHigh := 0, control := LinkWord(d.control))
  }

  /** Linking, to a descriptor or to none, edits the control word and sets the
      next pointer; the rest stays. */
  lemma LinkMeans(d: Desc, second: Option<nat>)
    ensures var after, to := Link(d, second), if second.Some? then second.value else 0;
            && after.control == LinkWord(d.control) && after.nextLow == Low(to) && after.nextHigh == High(to)
            && after.bytes == d.bytes && after.srcLow == d.srcLow && after.srcHigh == d.srcHigh
            && after.dstLow == d.dstLow && after.dstHigh == d.dstHigh
  {
  }

  /** How many extra descriptors the hint may announce: the caller's count, at
      most 15, and no further than the 4 KiB page of the next descriptor. The
      page bound is an unsigned subtraction and wraps when the next descriptor
      starts within the last 31 bytes of its page. */
  function ExtraAdjacent(nextLow: U32, nextAdjacent: int): nat
    ensures ExtraAdjacent(nextLow, nextAdjacent) <= MAX_EXTRA_ADJ
  {
    if nextAdjacent <= 0 then 0
    else
      var extra := if nextAdjacent - 1 > MAX_EXTRA_ADJ then MAX_EXTRA_ADJ else nextAdjacent - 1;
      var page := Sub32((0x1000 - nextLow % 0x1000) / 32, 1);
      if extra > page then page else extra
  }

  /** xdma_desc_adjacent */
  function Adjacent(d: Desc, nextAdjacent: int): Desc {
    d.(control := AdjacentWord(d.control, ExtraAdjacent(d.nextLow, nextAdjacent)))
  }

  /** xdma_desc_control */
  function Control(d: Desc, field: bv32): Desc
    requires InByte(field)
  {
    d.(control := ControlWord(d.control, field))
  }

  /** xdma_desc_control_clear followed by xdma_desc_control_set */
  function ClearThenSet(d: Desc, clear: bv32, set_: bv32): Desc
    requires InByte(clear) && InByte(set_)
  {
    d.(control := SetWord(ClearWord(d.control, clear), set_))
  }

  /** xdma_desc_set: the host address is the source towards the device and the
      destination from it. The next pointer stays. The length is kept in 32 bits. */
  function Fill(d: Desc, host: nat, endpoint: nat, len: nat, toDevice: bool): Desc {
    if toDevice then
      d.(bytes := len % 0x1_0000_0000, srcLow := Low(host), srcHigh := High(host),
         dstLow := Low(endpoint), dstHigh := High(endpoint))
    else
      d.(bytes := len % 0x1_0000_0000, srcLow := Low(endpoint), srcHigh := High(endpoint),
         dstLow := Low(host), dstHigh := High(host))
  }

  /** Filling sets source, destination and length by direction, and nothing else. */
  lemma FillMeans(d: Desc, host: nat, endpoint: nat, len: nat, toDevice: bool)
    requires host < TWO_TO_64 && endpoint < TWO_TO_64 && len < 0x1_0000_0000
    ensures var after := Fill(d, host, endpoint, len, toDevice);
            && after.bytes == len
            && Join(after.srcLow, after.srcHigh) == (if toDevice then host else endpoint)
            && Join(after.dstLow, after.dstHigh) == (if toDevice then endpoint else host)
            && after.control == d.control && after.nextLow == d.nextLow && after.nextHigh == d.nextHigh
  {
    JoinHalves(host);
    JoinHalves(endpoint);
  }

  /** xdma_desc_set_source */
  function SetSource(d: Desc, source: nat): Desc {
    d.(srcLow := Low(source), srcHigh := High(source))
  }
}
