/** The protobuf wire format as read and written by the wallet's Writer and Reader: base-128
    varints, length-delimited strings, and skipping of unknown fields (Protocol Buffers Encoding,
    sections "Base 128 Varints", "Length-Delimited Records" and "Groups"). */
module Wire {

  type Byte = n: nat | n < 256

  type Bytes = seq<Byte>

  const TWO31: int := 0x8000_0000
  const TWO32: nat := 0x1_0000_0000
  const TWO64: nat := 0x1_0000_0000_0000_0000

  /** A read either fails (the Reader throws) or yields a value and the next position. */
  datatype Read<+T> = Fail | Got(value: T, next: nat)

  // ---------- Writing ----------

  function Varint(n: nat): Bytes {
    if n < 128 then [n] else [n % 128 + 128] + Varint(n / 128)
  }

  predicate IsInt32(v: int) {
    -TWO31 <= v < TWO31
  }

  /** int32: negative values are sign-extended to ten bytes. */
  function Int32(v: int): Bytes
    requires IsInt32(v)
  {
    if v < 0 then Varint(v + TWO64) else Varint(v)
  }

  /** A string as its UTF-8 bytes. */
  function Str(s: Bytes): Bytes {
    Varint(|s|) + s
  }

  function Tag(num: nat, wireType: nat): Bytes {
    Varint(num * 8 + wireType)
  }

  // ---------- Reading ----------

  /** A varint of which some bytes were already seen; there are at most ten. */
  function ReadVarint(buf: Bytes, pos: nat, seen: nat): (r: Read<nat>)
    ensures r.Got? ==> pos < r.next <= |buf|
    decreases |buf| - pos
  {
    if seen >= 10 || pos >= |buf| then Fail
    else if buf[pos] < 128 then Got(buf[pos], pos + 1)
    else match ReadVarint(buf, pos + 1, seen + 1)
      case Fail => Fail
      case Got(v, next) => Got(buf[pos] - 128 + 128 * v, next)
  }

  /** uint32: at most ten bytes, the upper bits dropped. */
  function ReadUint32(buf: Bytes, pos: nat): (r: Read<nat>)
    ensures r.Got? ==> pos < r.next <= |buf| && r.value < TWO32
  {
    match ReadVarint(buf, pos, 0)
    case Fail => Fail
    case Got(v, next) => Got(v % TWO32, next)
  }

  function ReadInt32(buf: Bytes, pos: nat): (r: Read<int>)
    ensures r.Got? ==> pos < r.next <= |buf| && IsInt32(r.value)
  {
    match ReadUint32(buf, pos)
    case Fail => Fail
    case Got(v, next) => Got(if v < TWO31 then v else v - TWO32, next)
  }

  function ReadStr(buf: Bytes, pos: nat): (r: Read<Bytes>)
    ensures r.Got? ==> pos < r.next <= |buf|
  {
    match ReadUint32(buf, pos)
    case Fail => Fail
    case Got(n, next) => if next + n > |buf| then Fail else Got(buf[next..next + n], next + n)
  }

  /** skip without a length: up to the first byte below 128. */
  function SkipVarint(buf: Bytes, pos: nat): (r: Read<()>)
    ensures r.Got? ==> pos < r.next <= |buf|
    decreases |buf| - pos
  {
    if pos >= |buf| then Fail
    else if buf[pos] < 128 then Got((), pos + 1)
    else SkipVarint(buf, pos + 1)
  }

  function SkipBytes(buf: Bytes, pos: nat, n: nat): (r: Read<()>)
    ensures r.Got? ==> pos <= r.next <= |buf|
  {
    if pos + n > |buf| then Fail else Got((), pos + n)
  }

  /** skipType. */
  function SkipType(buf: Bytes, pos: nat, wireType: nat): (r: Read<()>)
    requires pos <= |buf|
    ensures r.Got? ==> pos <= r.next <= |buf|
    decreases |buf| - pos, 1
  {
    if wireType == 0 then SkipVarint(buf, pos)
    else if wireType == 1 then SkipBytes(buf, pos, 8)
    else if wireType == 2 then
      (match ReadUint32(buf, pos)
       case Fail => Fail
       case Got(n, next) => SkipBytes(buf, next, n))
    else if wireType == 3 then SkipGroup(buf, pos)
    else if wireType == 5 then SkipBytes(buf, pos, 4)
    else Fail
  }

  /** Fields up to the next end-group tag. */
  function SkipGroup(buf: Bytes, pos: nat): (r: Read<()>)
    requires pos <= |buf|
    ensures r.Got? ==> pos <= r.next <= |buf|
    decreases |buf| - pos, 0
  {
    match ReadUint32(buf, pos)
    case Fail => Fail
    case Got(tag, next) =>
      if tag % 8 == 4 then Got((), next)
      else match SkipType(buf, next, tag % 8)
        case Fail => Fail
        case Got(_, after) => SkipGroup(buf, after)
  }

  // ---------- Reading back what was written ----------

  /** The buffer holds x at this position. */
  ghost predicate HasAt(buf: Bytes, pos: nat, x: Bytes) {
    pos + |x| <= |buf| && buf[pos..pos + |x|] == x
  }

  lemma HasAtSplit(buf: Bytes, pos: nat, x: Bytes, y: Bytes)
    requires HasAt(buf, pos, x + y)
    ensures HasAt(buf, pos, x) && HasAt(buf, pos + |x|, y)
  {
    var z := buf[pos..pos + |x + y|];
    assert z == x + y;
    assert buf[pos..pos + |x|] == z[..|x|] == x;
    assert buf[pos + |x|..pos + |x| + |y|] == z[|x|..] == y;
  }

  lemma HasAtParts(buf: Bytes, pos: nat, whole: Bytes, x: Bytes, y: Bytes, mid: nat)
    requires HasAt(buf, pos, whole) && whole == x + y && mid == pos + |x|
    ensures HasAt(buf, pos, x) && HasAt(buf, mid, y)
    ensures pos + |whole| == mid + |y|
  {
    HasAtSplit(buf, pos, x, y);
  }

  function Pow128(k: nat): nat {
    if k == 0 then 1 else 128 * Pow128(k - 1)
  }

  lemma {:induction false} VarintReads(buf: Bytes, pos: nat, n: nat, seen: nat)
    requires HasAt(buf, pos, Varint(n)) && seen < 10 && n < Pow128(10 - seen)
    ensures ReadVarint(buf, pos, seen) == Got(n, pos + |Varint(n)|)
    decreases n
  {
    if n < 128 {
      assert buf[pos] == buf[pos..pos + 1][0];
    } else {
      HasAtSplit(buf, pos, [n % 128 + 128], Varint(n / 128));
      assert buf[pos] == buf[pos..pos + 1][0];
      VarintReads(buf, pos + 1, n / 128, seen + 1);
    }
  }

  lemma {:induction false} VarintSkips(buf: Bytes, pos: nat, n: nat)
    requires HasAt(buf, pos, Varint(n))
    ensures SkipVarint(buf, pos) == Got((), pos + |Varint(n)|)
    decreases n
  {
    if n < 128 {
      assert buf[pos] == buf[pos..pos + 1][0];
    } else {
      HasAtSplit(buf, pos, [n % 128 + 128], Varint(n / 128));
      assert buf[pos] == buf[pos..pos + 1][0];
      VarintSkips(buf, pos + 1, n / 128);
    }
  }

  lemma TenBytesHold64Bits()
    ensures TWO64 <= Pow128(10)
  {
    assert Pow128(1) == 128;
    assert Pow128(3) == 128 * 128 * 128;
    assert Pow128(5) == 128 * 128 * Pow128(3);
    assert Pow128(7) == 128 * 128 * Pow128(5);
    assert Pow128(9) == 128 * 128 * Pow128(7);
  }

  /** uint32 reads back what uint32 wrote. */
  lemma Uint32Reads(buf: Bytes, pos: nat, n: nat)
    requires HasAt(buf, pos, Varint(n)) && n < TWO32
    ensures ReadUint32(buf, pos) == Got(n, pos + |Varint(n)|)
  {
    TenBytesHold64Bits();
    VarintReads(buf, pos, n, 0);
  }

  /** int32 reads back what int32 wrote, including sign-extended negatives. */
  lemma Int32Reads(buf: Bytes, pos: nat, v: int)
    requires IsInt32(v) && HasAt(buf, pos, Int32(v))
    ensures ReadInt32(buf, pos) == Got(v, pos + |Int32(v)|)
  {
    TenBytesHold64Bits();
    var n := if v < 0 then v + TWO64 else v;
    VarintReads(buf, pos, n, 0);
    SignExtension(v);
  }

  lemma SignExtension(v: int)
    requires IsInt32(v)
    ensures v < 0 ==> (v + TWO64) % TWO32 == v + TWO32
    ensures v >= 0 ==> v % TWO32 == v
  {
    assert TWO64 == 0xffff_ffff * TWO32 + TWO32;
  }

  lemma StrReads(buf: Bytes, pos: nat, s: Bytes)
    requires HasAt(buf, pos, Str(s)) && |s| < TWO32
    ensures ReadStr(buf, pos) == Got(s, pos + |Str(s)|)
  {
    HasAtParts(buf, pos, Str(s), Varint(|s|), s, pos + |Varint(|s|)|);
    Uint32Reads(buf, pos, |s|);
  }

  // ---------- Unknown fields ----------

  datatype Field =
    | VarintField(num: nat, value: nat)
    | Fixed64Field(num: nat, bytes: Bytes)
    | LengthField(num: nat, bytes: Bytes)
    | GroupField(num: nat, fields: seq<Field>)
    | Fixed32Field(num: nat, bytes: Bytes)

  ghost predicate WellFormed(f: Field) {
    && 1 <= f.num < 0x2000_0000
    && match f
       case VarintField(_, value) => value < TWO64
       case Fixed64Field(_, bytes) => |bytes| == 8
       case LengthField(_, bytes) => |bytes| < TWO32
       case GroupField(_, fields) => forall i :: 0 <= i < |fields| ==> WellFormed(fields[i])
       case Fixed32Field(_, bytes) => |bytes| == 4
  }

  function WireType(f: Field): (w: nat)
    ensures w <= 5 && w != 4
  {
    match f
    case VarintField(_, _) => 0
    case Fixed64Field(_, _) => 1
    case LengthField(_, _) => 2
    case GroupField(_, _) => 3
    case Fixed32Field(_, _) => 5
  }

  function Body(f: Field): Bytes
    decreases f, 0
  {
    match f
    case VarintField(_, value) => Varint(value)
    case Fixed64Field(_, bytes) => bytes
    case LengthField(_, bytes) => Str(bytes)
    case GroupField(num, fields) => FieldsBytes(f, fields, 0) + Tag(num, 4)
    case Fixed32Field(_, bytes) => bytes
  }

  function FieldBytes(f: Field): Bytes
    decreases f, 1
  {
    Tag(f.num, WireType(f)) + Body(f)
  }

  /** The fields of a group from index i on. */
  function FieldsBytes(parent: Field, fields: seq<Field>, i: nat): Bytes
    requires i <= |fields| && parent.GroupField? && parent.fields == fields
    decreases parent, 0, |fields| - i
  {
    if i == |fields| then [] else FieldBytes(fields[i]) + FieldsBytes(parent, fields, i + 1)
  }

  lemma TagReads(buf: Bytes, pos: nat, num: nat, wireType: nat)
    requires num < 0x2000_0000 && wireType < 8 && HasAt(buf, pos, Tag(num, wireType))
    ensures ReadUint32(buf, pos) == Got(num * 8 + wireType, pos + |Tag(num, wireType)|)
  {
    Uint32Reads(buf, pos, num * 8 + wireType);
  }

  /** skipType jumps over exactly the body of any well-formed field, nested groups included. */
  lemma {:induction false} FieldSkips(buf: Bytes, pos: nat, f: Field)
    requires WellFormed(f) && HasAt(buf, pos, Body(f))
    ensures SkipType(buf, pos, WireType(f)) == Got((), pos + |Body(f)|)
    decreases f, 1
  {
    match f
    case VarintField(_, value) => VarintSkips(buf, pos, value);
    case LengthField(_, bytes) =>
      HasAtParts(buf, pos, Str(bytes), Varint(|bytes|), bytes, pos + |Varint(|bytes|)|);
      Uint32Reads(buf, pos, |bytes|);
    case GroupField(num, fields) =>
      GroupSkips(buf, pos, f, 0);
    case _ =>
  }

  /** A group's content from field i on, with its end tag. */
  function GroupTail(g: Field, i: nat): Bytes
    requires g.GroupField? && i <= |g.fields|
  {
    FieldsBytes(g, g.fields, i) + Tag(g.num, 4)
  }

  /** Where the tag, the body and the rest of the group lie. */
  lemma GroupTailSplit(buf: Bytes, pos: nat, g: Field, i: nat, tag: Bytes, start: nat, after: nat)
    requires g.GroupField? && i < |g.fields|
    requires HasAt(buf, pos, GroupTail(g, i))
    requires tag == Tag(g.fields[i].num, WireType(g.fields[i]))
    requires start == pos + |tag| && after == start + |Body(g.fields[i])|
    ensures HasAt(buf, pos, tag)
    ensures HasAt(buf, start, Body(g.fields[i]))
    ensures HasAt(buf, after, GroupTail(g, i + 1))
    ensures pos + |GroupTail(g, i)| == after + |GroupTail(g, i + 1)|
  {
    var f := g.fields[i];
    var body, rest := Body(f), GroupTail(g, i + 1);
    GroupTailUnfolds(g, i, tag, body, rest);
    HasAtParts(buf, pos, GroupTail(g, i), tag, body + rest, start);
    HasAtParts(buf, start, body + rest, body, rest, after);
  }

  lemma GroupTailUnfolds(g: Field, i: nat, tag: Bytes, body: Bytes, rest: Bytes)
    requires g.GroupField? && i < |g.fields|
    requires tag == Tag(g.fields[i].num, WireType(g.fields[i])) && body == Body(g.fields[i])
    requires rest == GroupTail(g, i + 1)
    ensures GroupTail(g, i) == tag + (body + rest)
  {
    var c, d := FieldsBytes(g, g.fields, i + 1), Tag(g.num, 4);
    assert FieldsBytes(g, g.fields, i) == tag + body + c;
    assert tag + body + c + d == tag + (body + (c + d));
  }

  lemma {:induction false} GroupSkips(buf: Bytes, pos: nat, g: Field, i: nat)
    requires g.GroupField? && WellFormed(g) && i <= |g.fields|
    requires HasAt(buf, pos, GroupTail(g, i))
    ensures SkipGroup(buf, pos) == Got((), pos + |GroupTail(g, i)|)
    decreases g, 0, |g.fields| - i
  {
    if i == |g.fields| {
      GroupEnds(buf, pos, g);
    } else {
      var f := g.fields[i];
      var tag := Tag(f.num, WireType(f));
      var start := pos + |tag|;
      var after := start + |Body(f)|;
      GroupTailSplit(buf, pos, g, i, tag, start, after);
      FieldSkips(buf, start, f);
      GroupSkips(buf, after, g, i + 1);
      GroupStep(buf, pos, f, start, after, after + |GroupTail(g, i + 1)|);
    }
  }

  lemma GroupEnds(buf: Bytes, pos: nat, g: Field)
    requires g.GroupField? && WellFormed(g)
    requires HasAt(buf, pos, GroupTail(g, |g.fields|))
    ensures SkipGroup(buf, pos) == Got((), pos + |GroupTail(g, |g.fields|)|)
  {
    assert GroupTail(g, |g.fields|) == Tag(g.num, 4);
    TagReads(buf, pos, g.num, 4);
    TagParts(g.num, 4);
  }

  /** One field of a group, and the rest of the group after it. */
  lemma GroupStep(buf: Bytes, pos: nat, f: Field, start: nat, after: nat, end: nat)
    requires 1 <= f.num < 0x2000_0000
    requires HasAt(buf, pos, Tag(f.num, WireType(f))) && start == pos + |Tag(f.num, WireType(f))|
    requires start <= |buf| && after <= |buf|
    requires SkipType(buf, start, WireType(f)) == Got((), after)
    requires SkipGroup(buf, after) == Got((), end)
    ensures SkipGroup(buf, pos) == Got((), end)
  {
    TagReads(buf, pos, f.num, WireType(f));
    TagParts(f.num, WireType(f));
    GroupUnfolds(buf, pos, f.num * 8 + WireType(f), WireType(f), start, after);
  }

  lemma GroupUnfolds(buf: Bytes, pos: nat, tag: nat, wireType: nat, start: nat, after: nat)
    requires ReadUint32(buf, pos) == Got(tag, start) && tag % 8 == wireType && wireType != 4
    requires after <= |buf| && SkipType(buf, start, wireType) == Got((), after)
    ensures pos <= |buf| && SkipGroup(buf, pos) == SkipGroup(buf, after)
  {
  }

  lemma TagParts(num: nat, wireType: nat)
    requires wireType < 8
    ensures (num * 8 + wireType) % 8 == wireType && (num * 8 + wireType) / 8 == num
  {
  }

  // ---------- Bytes on the wire ----------

  /** Examples of the encoding: seven bits a byte, lowest first, and ten bytes for a negative int32. */
  lemma WireExamples()
    ensures Varint(1) == [1] && Varint(150) == [0x96, 0x01] && Varint(300) == [0xac, 0x02]
    ensures Int32(-1) == [0xff, 0xff, 0xff, 0xff, 0xff, 0xff, 0xff, 0xff, 0xff, 0x01]
    ensures Tag(1, 0) == [0x08] && Tag(2, 2) == [0x12]
    ensures Str([0x74, 0x65, 0x73, 0x74]) == [0x04, 0x74, 0x65, 0x73, 0x74]
  {
    MinusOne();
  }

  lemma MinusOne()
    ensures Varint(0xffff_ffff_ffff_ffff) == [0xff, 0xff, 0xff, 0xff, 0xff, 0xff, 0xff, 0xff, 0xff, 0x01]
  {
    assert Pow128(1) == 128;
    assert Pow128(3) == 128 * 128 * 128;
    assert Pow128(5) == 128 * 128 * Pow128(3);
    assert Pow128(7) == 128 * 128 * Pow128(5);
    assert Pow128(9) == 128 * 128 * Pow128(7);
    var n: nat := 0xffff_ffff_ffff_ffff;
    OnesVarint(n, 9);
  }

  lemma {:induction false} OnesVarint(n: nat, k: nat)
    requires n == 2 * Pow128(k) - 1
    ensures Varint(n) == seq(k, i => 0xff) + [1]
    decreases k
  {
    if k > 0 {
      OnesVarint(n / 128, k - 1);
      assert seq(k, i => 0xff) == [0xff] + seq(k - 1, i => 0xff);
    }
  }

  /** How many bytes an unknown field takes: eight for wire type 1, four for wire type 5; wire types 4, 6 and
      7 fail, and so does a field that runs past the buffer. */
  lemma SkipExamples(buf: Bytes, pos: nat)
    requires pos <= |buf|
    ensures SkipType(buf, pos, 1) == if pos + 8 <= |buf| then Got((), pos + 8) else Fail
    ensures SkipType(buf, pos, 5) == if pos + 4 <= |buf| then Got((), pos + 4) else Fail
    ensures SkipType(buf, pos, 4).Fail? && SkipType(buf, pos, 6).Fail? && SkipType(buf, pos, 7).Fail?
  {
  }

  /** A string that runs past the buffer fails. */
  lemma LongStringFails(buf: Bytes, pos: nat, n: nat)
    requires HasAt(buf, pos, Varint(n)) && n < TWO32 && pos + |Varint(n)| + n > |buf|
    ensures ReadStr(buf, pos).Fail?
  {
    Uint32Reads(buf, pos, n);
  }

  /** An eleventh byte is never read: ten bytes of 128 or more fail. */
  lemma {:induction false} OverlongFails(buf: Bytes, pos: nat, seen: nat)
    requires seen <= 10
    requires forall i :: pos <= i < pos + 10 - seen ==> i < |buf| ==> buf[i] >= 128
    ensures ReadVarint(buf, pos, seen).Fail?
    decreases 10 - seen
  {
    if seen < 10 && pos < |buf| {
      OverlongFails(buf, pos + 1, seen + 1);
    }
  }
}
