/** The wallet's hand-written protobuf codec for MsgChangeRole. */
module MsgChangeRole {
  import opened Wrappers
  import opened Wire

  /** A string as its UTF-8 bytes. An engine's strings stay far below 2^31 bytes. */
  type Text = s: Bytes | |s| < 0x7fff_fff0

  type Role = v: int | IsInt32(v)

  /** What the caller hands to the encoder: any property may be undefined. */
  datatype FeeInput = FeeInput(denom: Option<Text>, amount: Option<Text>)

  datatype Input = Input(
    address: Option<Text>,
    newRole: Option<Role>,
    newRoleSnake: Option<Role>,
    zkpProof: Option<Text>,
    zkpProofSnake: Option<Text>,
    changeFee: Option<FeeInput>)

  /** What the decoder builds. */
  datatype Fee = Fee(denom: Option<Bytes>, amount: Option<Bytes>)

  datatype Message = Message(address: Bytes, newRole: int, zkpProof: Bytes, changeFee: Option<Fee>)

  const DEFAULT := Message([], 0, [], None)

  // ---------- Encoding ----------

  predicate Present(s: Option<Text>) {
    s.Some? && s.value != []
  }

  function TextField(tag: nat, s: Option<Text>): Bytes {
    if Present(s) then Varint(tag) + Str(s.value) else []
  }

  function RoleOf(m: Input): Option<Role> {
    if m.newRole.Some? then m.newRole else m.newRoleSnake
  }

  function ProofOf(m: Input): Option<Text> {
    if Present(m.zkpProof) then m.zkpProof else m.zkpProofSnake
  }

  function FeeBytes(fee: FeeInput): Bytes {
    TextField(10, fee.denom) + TextField(18, fee.amount)
  }

  function RoleField(role: Option<Role>): Bytes {
    if role.Some? then Varint(16) + Int32(role.value) else []
  }

  function FeeField(fee: Option<FeeInput>): Bytes {
    if fee.Some? then Varint(34) + Str(FeeBytes(fee.value)) else []
  }

  function Encode(m: Input): Bytes {
    TextField(10, m.address) + RoleField(RoleOf(m)) + TextField(26, ProofOf(m)) + FeeField(m.changeFee)
  }

  /** The protobuf.js Writer: bytes written so far, and the outer buffers set aside by fork. */
  class Writer {
    var bytes: Bytes
    var forks: seq<Bytes>

    constructor ()
      ensures bytes == [] && forks == []
    {
      bytes, forks := [], [];
    }

    method Uint32(n: nat)
      requires n < TWO32
      modifies this
      ensures bytes == old(bytes) + Varint(n) && forks == old(forks)
    {
      bytes := bytes + Varint(n);
    }

    method WriteInt32(v: Role)
      modifies this
      ensures bytes == old(bytes) + Int32(v) && forks == old(forks)
    {
      bytes := bytes + Int32(v);
    }

    method String(s: Text)
      modifies this
      ensures bytes == old(bytes) + Str(s) && forks == old(forks)
    {
      bytes := bytes + Str(s);
    }

    method Fork()
      modifies this
      ensures bytes == [] && forks == old(forks) + [old(bytes)]
    {
      forks := forks + [bytes];
      bytes := [];
    }

    method Ldelim()
      requires forks != []
      modifies this
      ensures forks == old(forks)[..|old(forks)| - 1]
      ensures bytes == old(forks)[|old(forks)| - 1] + Str(old(bytes))
    {
      bytes := forks[|forks| - 1] + Str(bytes);
      forks := forks[..|forks| - 1];
    }
  }

  lemma Regroup(a: Bytes, b: Bytes, c: Bytes)
    ensures (a + b) + c == a + (b + c)
  {
  }

  lemma Unchanged(a: Bytes)
    ensures a + [] == a
  {
  }

  method EncodeText(writer: Writer, tag: nat, s: Option<Text>)
    requires tag < TWO32
    modifies writer
    ensures writer.bytes == old(writer.bytes) + TextField(tag, s)
    ensures writer.forks == old(writer.forks)
  {
    if s.Some? && s.value != [] {
      Regroup(writer.bytes, Varint(tag), Str(s.value));
      writer.Uint32(tag);
      writer.String(s.value);
    } else {
      Unchanged(writer.bytes);
    }
  }

  method EncodeRole(writer: Writer, m: Input)
    modifies writer
    ensures writer.bytes == old(writer.bytes) + RoleField(RoleOf(m))
    ensures writer.forks == old(writer.forks)
  {
    if m.newRole.Some? || m.newRoleSnake.Some? {
      var role := if m.newRole.Some? then m.newRole.value else m.newRoleSnake.value;
      Regroup(writer.bytes, Varint(16), Int32(role));
      writer.Uint32(16);
      writer.WriteInt32(role);
    } else {
      Unchanged(writer.bytes);
    }
  }

  method EncodeProof(writer: Writer, m: Input)
    modifies writer
    ensures writer.bytes == old(writer.bytes) + TextField(26, ProofOf(m))
    ensures writer.forks == old(writer.forks)
  {
    if m.zkpProof.Some? && m.zkpProof.value != [] {
      EncodeText(writer, 26, m.zkpProof);
    } else {
      EncodeText(writer, 26, m.zkpProofSnake);
    }
  }

  method EncodeFee(writer: Writer, m: Input)
    modifies writer
    ensures writer.bytes == old(writer.bytes) + FeeField(m.changeFee)
    ensures writer.forks == old(writer.forks)
  {
    if m.changeFee.Some? {
      var fee := m.changeFee.value;
      Regroup(writer.bytes, Varint(34), Str(FeeBytes(fee)));
      writer.Uint32(34);
      writer.Fork();
      EncodeText(writer, 10, fee.denom);
      EncodeText(writer, 18, fee.amount);
      assert writer.bytes == FeeBytes(fee);
      writer.Ldelim();
    } else {
      Unchanged(writer.bytes);
    }
  }

  method EncodeMsgChangeRole(m: Input, writer: Writer)
    modifies writer
    ensures writer.bytes == old(writer.bytes) + Encode(m)
    ensures writer.forks == old(writer.forks)
  {
    RegroupFour(writer.bytes, TextField(10, m.address), RoleField(RoleOf(m)),
                TextField(26, ProofOf(m)), FeeField(m.changeFee));
    EncodeText(writer, 10, m.address);
    EncodeRole(writer, m);
    EncodeProof(writer, m);
    EncodeFee(writer, m);
  }

  lemma RegroupFour(w: Bytes, a: Bytes, b: Bytes, c: Bytes, d: Bytes)
    ensures w + a + b + c + d == w + (a + b + c + d)
  {
  }

  // ---------- Decoding ----------

  /** The loop over the nested fee. */
  function DecodeFee(buf: Bytes, pos: nat, end: nat, fee: Fee): (r: Read<Fee>)
    requires pos <= |buf|
    ensures r.Got? ==> pos <= r.next <= |buf|
    decreases |buf| - pos, 2
  {
    if pos >= end then Got(fee, pos) else DecodeFeeField(buf, pos, end, fee)
  }

  function DecodeFeeField(buf: Bytes, pos: nat, end: nat, fee: Fee): (r: Read<Fee>)
    requires pos <= |buf|
    ensures r.Got? ==> pos < r.next <= |buf|
    decreases |buf| - pos, 1
  {
    match ReadUint32(buf, pos)
    case Fail => Fail
    case Got(tag, start) => DecodeFeeContent(buf, start, end, fee, tag / 8, tag % 8)
  }

  function DecodeFeeContent(buf: Bytes, start: nat, end: nat, fee: Fee, num: nat, wireType: nat)
    : (r: Read<Fee>)
    requires start <= |buf|
    ensures r.Got? ==> start <= r.next <= |buf|
    decreases |buf| - start, 3
  {
    if num == 1 then
      (match ReadStr(buf, start)
       case Fail => Fail
       case Got(s, next) => DecodeFee(buf, next, end, fee.(denom := Some(s))))
    else if num == 2 then
      (match ReadStr(buf, start)
       case Fail => Fail
       case Got(s, next) => DecodeFee(buf, next, end, fee.(amount := Some(s))))
    else
      (match SkipType(buf, start, wireType)
       case Fail => Fail
       case Got(_, next) => DecodeFee(buf, next, end, fee))
  }

  /** The outer loop. */
  function Decode(buf: Bytes, pos: nat, end: nat, m: Message): (r: Read<Message>)
    requires pos <= |buf|
    ensures r.Got? ==> pos <= r.next <= |buf|
    decreases |buf| - pos, 2
  {
    if pos >= end then Got(m, pos) else DecodeField(buf, pos, end, m)
  }

  function DecodeField(buf: Bytes, pos: nat, end: nat, m: Message): (r: Read<Message>)
    requires pos <= |buf|
    ensures r.Got? ==> pos < r.next <= |buf|
    decreases |buf| - pos, 1
  {
    match ReadUint32(buf, pos)
    case Fail => Fail
    case Got(tag, start) => DecodeContent(buf, start, end, m, tag / 8, tag % 8)
  }

  /** What follows a tag. Of a known field only the number is looked at, never the wire type. */
  function DecodeContent(buf: Bytes, start: nat, end: nat, m: Message, num: nat, wireType: nat)
    : (r: Read<Message>)
    requires start <= |buf|
    ensures r.Got? ==> start <= r.next <= |buf|
    decreases |buf| - start, 3
  {
    if num == 1 then
      (match ReadStr(buf, start)
       case Fail => Fail
       case Got(s, next) => Decode(buf, next, end, m.(address := s)))
    else if num == 2 then
      (match ReadInt32(buf, start)
       case Fail => Fail
       case Got(v, next) => Decode(buf, next, end, m.(newRole := v)))
    else if num == 3 then
      (match ReadStr(buf, start)
       case Fail => Fail
       case Got(s, next) => Decode(buf, next, end, m.(zkpProof := s)))
    else if num == 4 then
      (match ReadUint32(buf, start)
       case Fail => Fail
       case Got(n, inner) =>
         match DecodeFee(buf, inner, inner + n, Fee(None, None))
         case Fail => Fail
         case Got(fee, next) => Decode(buf, next, end, m.(changeFee := Some(fee))))
    else
      (match SkipType(buf, start, wireType)
       case Fail => Fail
       case Got(_, next) => Decode(buf, next, end, m))
  }

  /** The message on the stretch of a buffer from pos to end. */
  function DecodeMessage(buf: Bytes, pos: nat, end: nat): (r: Read<Message>)
    requires pos <= |buf|
    ensures r.Got? ==> pos <= r.next <= |buf|
  {
    Decode(buf, pos, end, DEFAULT)
  }

  /** The protobuf.js Reader: a failed read throws, so its position no longer matters. */
  class Reader {
    const buf: Bytes
    var pos: nat

    constructor (bytes: Bytes)
      ensures buf == bytes && pos == 0
    {
      buf, pos := bytes, 0;
    }

    method Uint32() returns (r: Read<nat>)
      modifies this
      ensures r == ReadUint32(buf, old(pos)) && (r.Got? ==> pos == r.next)
    {
      r := ReadUint32(buf, pos);
      if r.Got? { pos := r.next; }
    }

    method NextInt32() returns (r: Read<int>)
      modifies this
      ensures r == ReadInt32(buf, old(pos)) && (r.Got? ==> pos == r.next)
    {
      r := ReadInt32(buf, pos);
      if r.Got? { pos := r.next; }
    }

    method String() returns (r: Read<Bytes>)
      modifies this
      ensures r == ReadStr(buf, old(pos)) && (r.Got? ==> pos == r.next)
    {
      r := ReadStr(buf, pos);
      if r.Got? { pos := r.next; }
    }

    method Skip(wireType: nat) returns (r: Read<()>)
      requires pos <= |buf|
      modifies this
      ensures r == SkipType(buf, old(pos), wireType) && (r.Got? ==> pos == r.next)
    {
      r := SkipType(buf, pos, wireType);
      if r.Got? { pos := r.next; }
    }
  }

  method DecodeFeeLoop(reader: Reader, end: nat) returns (r: Read<Fee>)
    requires reader.pos <= |reader.buf|
    modifies reader
    ensures r == DecodeFee(reader.buf, old(reader.pos), end, Fee(None, None))
    ensures r.Got? ==> reader.pos == r.next
  {
    var fee := Fee(None, None);
    ghost var start := reader.pos;
    while reader.pos < end
      invariant reader.pos <= |reader.buf|
      invariant DecodeFee(reader.buf, start, end, Fee(None, None))
             == DecodeFee(reader.buf, reader.pos, end, fee)
      decreases |reader.buf| - reader.pos
    {
      var tag := reader.Uint32();
      if tag.Fail? { return Fail; }
      assert DecodeFee(reader.buf, start, end, Fee(None, None))
          == DecodeFeeContent(reader.buf, reader.pos, end, fee, tag.value / 8, tag.value % 8);
      if tag.value / 8 == 1 {
        var s := reader.String();
        if s.Fail? { return Fail; }
        fee := fee.(denom := Some(s.value));
      } else if tag.value / 8 == 2 {
        var s := reader.String();
        if s.Fail? { return Fail; }
        fee := fee.(amount := Some(s.value));
      } else {
        var skipped := reader.Skip(tag.value % 8);
        if skipped.Fail? { return Fail; }
      }
    }
    return Got(fee, reader.pos);
  }

  /** length, when given, bounds the message inside a longer buffer. */
  method DecodeMsgChangeRole(reader: Reader, length: Option<nat>) returns (r: Read<Message>)
    requires reader.pos <= |reader.buf|
    modifies reader
    ensures var end := if length.Some? then old(reader.pos) + length.value else |reader.buf|;
      r == DecodeMessage(reader.buf, old(reader.pos), end)
    ensures r.Got? ==> reader.pos == r.next
  {
    var end := if length.Some? then reader.pos + length.value else |reader.buf|;
    var message := DEFAULT;
    ghost var start := reader.pos;
    while reader.pos < end
      invariant reader.pos <= |reader.buf|
      invariant Decode(reader.buf, start, end, DEFAULT) == Decode(reader.buf, reader.pos, end, message)
      decreases |reader.buf| - reader.pos
    {
      var tag := reader.Uint32();
      if tag.Fail? { return Fail; }
      assert Decode(reader.buf, start, end, DEFAULT)
          == DecodeContent(reader.buf, reader.pos, end, message, tag.value / 8, tag.value % 8);
      if tag.value / 8 == 1 {
        var s := reader.String();
        if s.Fail? { return Fail; }
        message := message.(address := s.value);
      } else if tag.value / 8 == 2 {
        var v := reader.NextInt32();
        if v.Fail? { return Fail; }
        message := message.(newRole := v.value);
      } else if tag.value / 8 == 3 {
        var s := reader.String();
        if s.Fail? { return Fail; }
        message := message.(zkpProof := s.value);
      } else if tag.value / 8 == 4 {
        var n := reader.Uint32();
        if n.Fail? { return Fail; }
        var fee := DecodeFeeLoop(reader, reader.pos + n.value);
        if fee.Fail? { return Fail; }
        message := message.(changeFee := Some(fee.value));
      } else {
        var skipped := reader.Skip(tag.value % 8);
        if skipped.Fail? { return Fail; }
      }
    }
    return Got(message, reader.pos);
  }

  // ---------- Messages as lists of fields ----------

  datatype FeeItem = Denom(text: Text) | Amount(text: Text) | FeeUnknown(field: Field)

  datatype Item =
    | Address(text: Text)
    | NewRole(role: Role)
    | Proof(text: Text)
    | ChangeFee(items: seq<FeeItem>)
    | Unknown(field: Field)

  function FeeNum(it: FeeItem): nat {
    match it
    case Denom(_) => 1
    case Amount(_) => 2
    case FeeUnknown(f) => f.num
  }

  function FeeWire(it: FeeItem): (w: nat)
    ensures w < 8
  {
    if it.FeeUnknown? then WireType(it.field) else 2
  }

  function FeeContent(it: FeeItem): Bytes {
    if it.FeeUnknown? then Body(it.field) else Str(it.text)
  }

  function FeeItemBytes(it: FeeItem): Bytes {
    Tag(FeeNum(it), FeeWire(it)) + FeeContent(it)
  }

  function FeeItemsBytes(items: seq<FeeItem>): Bytes {
    if items == [] then [] else FeeItemBytes(items[0]) + FeeItemsBytes(items[1..])
  }

  function NumOf(it: Item): nat {
    match it
    case Address(_) => 1
    case NewRole(_) => 2
    case Proof(_) => 3
    case ChangeFee(_) => 4
    case Unknown(f) => f.num
  }

  function WireOf(it: Item): (w: nat)
    ensures w < 8
  {
    match it
    case NewRole(_) => 0
    case Unknown(f) => WireType(f)
    case _ => 2
  }

  function Content(it: Item): Bytes {
    match it
    case Address(s) => Str(s)
    case NewRole(v) => Int32(v)
    case Proof(s) => Str(s)
    case ChangeFee(items) => Str(FeeItemsBytes(items))
    case Unknown(f) => Body(f)
  }

  function ItemBytes(it: Item): Bytes {
    Tag(NumOf(it), WireOf(it)) + Content(it)
  }

  function ItemsBytes(items: seq<Item>): Bytes {
    if items == [] then [] else ItemBytes(items[0]) + ItemsBytes(items[1..])
  }

  ghost predicate FeeItemOk(it: FeeItem) {
    it.FeeUnknown? ==> WellFormed(it.field) && it.field.num > 2
  }

  ghost predicate ItemOk(it: Item) {
    match it
    case ChangeFee(items) =>
      (forall i :: 0 <= i < |items| ==> FeeItemOk(items[i])) && |FeeItemsBytes(items)| < TWO32
    case Unknown(f) => WellFormed(f) && f.num > 4
    case _ => true
  }

  ghost predicate ItemsOk(items: seq<Item>) {
    forall i :: 0 <= i < |items| ==> ItemOk(items[i])
  }

  /** Last one wins; unknown fields do nothing; a later fee replaces the earlier one whole. */
  function MergeFee(fee: Fee, it: FeeItem): Fee {
    match it
    case Denom(s) => fee.(denom := Some(s))
    case Amount(s) => fee.(amount := Some(s))
    case FeeUnknown(_) => fee
  }

  function MergeFees(fee: Fee, items: seq<FeeItem>): Fee
    decreases |items|
  {
    if items == [] then fee else MergeFees(MergeFee(fee, items[0]), items[1..])
  }

  function Merge(m: Message, it: Item): Message {
    match it
    case Address(s) => m.(address := s)
    case NewRole(v) => m.(newRole := v)
    case Proof(s) => m.(zkpProof := s)
    case ChangeFee(items) => m.(changeFee := Some(MergeFees(Fee(None, None), items)))
    case Unknown(_) => m
  }

  function MergeAll(m: Message, items: seq<Item>): Message
    decreases |items|
  {
    if items == [] then m else MergeAll(Merge(m, items[0]), items[1..])
  }

  // ---------- The decoder reads every such list ----------

  /** A field is its tag and its content. */
  lemma FieldParts(buf: Bytes, pos: nat, num: nat, wireType: nat, field: Bytes, content: Bytes, start: nat)
    requires 1 <= num < 0x2000_0000 && wireType < 8
    requires HasAt(buf, pos, field) && field == Tag(num, wireType) + content
    requires start == pos + |Tag(num, wireType)|
    ensures ReadUint32(buf, pos) == Got(num * 8 + wireType, start)
    ensures HasAt(buf, start, content) && pos + |field| == start + |content|
  {
    HasAtParts(buf, pos, field, Tag(num, wireType), content, start);
    TagReads(buf, pos, num, wireType);
  }

  lemma FeeTagStep(buf: Bytes, pos: nat, end: nat, fee: Fee, num: nat, wireType: nat, start: nat)
    requires ReadUint32(buf, pos) == Got(num * 8 + wireType, start) && wireType < 8 && pos < end
    ensures pos <= |buf| && start <= |buf|
    ensures DecodeFee(buf, pos, end, fee) == DecodeFeeContent(buf, start, end, fee, num, wireType)
  {
    TagParts(num, wireType);
  }

  lemma FeeContentReads(buf: Bytes, start: nat, end: nat, fee: Fee, it: FeeItem, next: nat)
    requires FeeItemOk(it) && HasAt(buf, start, FeeContent(it)) && next == start + |FeeContent(it)|
    ensures start <= |buf| && next <= |buf|
    ensures DecodeFeeContent(buf, start, end, fee, FeeNum(it), FeeWire(it))
         == DecodeFee(buf, next, end, MergeFee(fee, it))
  {
    match it
    case Denom(s) => StrReads(buf, start, s);
    case Amount(s) => StrReads(buf, start, s);
    case FeeUnknown(f) => FieldSkips(buf, start, f);
  }

  lemma FeeItemReads(buf: Bytes, pos: nat, end: nat, fee: Fee, it: FeeItem, next: nat)
    requires FeeItemOk(it) && HasAt(buf, pos, FeeItemBytes(it))
    requires next == pos + |FeeItemBytes(it)| <= end
    ensures pos <= |buf| && next <= |buf|
    ensures DecodeFee(buf, pos, end, fee) == DecodeFee(buf, next, end, MergeFee(fee, it))
  {
    var start := pos + |Tag(FeeNum(it), FeeWire(it))|;
    FieldParts(buf, pos, FeeNum(it), FeeWire(it), FeeItemBytes(it), FeeContent(it), start);
    FeeTagStep(buf, pos, end, fee, FeeNum(it), FeeWire(it), start);
    FeeContentReads(buf, start, end, fee, it, next);
  }

  lemma {:induction false} FeeItemsRead(buf: Bytes, pos: nat, end: nat, fee: Fee, items: seq<FeeItem>)
    requires forall i :: 0 <= i < |items| ==> FeeItemOk(items[i])
    requires HasAt(buf, pos, FeeItemsBytes(items)) && end == pos + |FeeItemsBytes(items)|
    ensures DecodeFee(buf, pos, end, fee) == Got(MergeFees(fee, items), end)
    decreases |items|
  {
    if items != [] {
      var next := pos + |FeeItemBytes(items[0])|;
      FeeItemsSplit(buf, pos, items, next);
      FeeItemReads(buf, pos, end, fee, items[0], next);
      FeeItemsRead(buf, next, end, MergeFee(fee, items[0]), items[1..]);
    }
  }

  lemma FeeItemsSplit(buf: Bytes, pos: nat, items: seq<FeeItem>, next: nat)
    requires items != [] && HasAt(buf, pos, FeeItemsBytes(items))
    requires next == pos + |FeeItemBytes(items[0])|
    ensures HasAt(buf, pos, FeeItemBytes(items[0])) && HasAt(buf, next, FeeItemsBytes(items[1..]))
    ensures pos + |FeeItemsBytes(items)| == next + |FeeItemsBytes(items[1..])|
  {
    HasAtParts(buf, pos, FeeItemsBytes(items), FeeItemBytes(items[0]), FeeItemsBytes(items[1..]), next);
  }

  lemma TagStep(buf: Bytes, pos: nat, end: nat, m: Message, num: nat, wireType: nat, start: nat)
    requires ReadUint32(buf, pos) == Got(num * 8 + wireType, start) && wireType < 8 && pos < end
    ensures pos <= |buf| && start <= |buf|
    ensures Decode(buf, pos, end, m) == DecodeContent(buf, start, end, m, num, wireType)
  {
    TagParts(num, wireType);
  }

  lemma StrParts(buf: Bytes, pos: nat, s: Bytes, next: nat)
    requires HasAt(buf, pos, Str(s)) && |s| < TWO32 && next == pos + |Varint(|s|)|
    ensures ReadUint32(buf, pos) == Got(|s|, next)
    ensures HasAt(buf, next, s) && pos + |Str(s)| == next + |s|
  {
    HasAtParts(buf, pos, Str(s), Varint(|s|), s, next);
    Uint32Reads(buf, pos, |s|);
  }

  lemma FeeReads(buf: Bytes, start: nat, items: seq<FeeItem>, inner: nat, next: nat)
    requires ItemOk(ChangeFee(items)) && HasAt(buf, start, Str(FeeItemsBytes(items)))
    requires inner == start + |Varint(|FeeItemsBytes(items)|)|
    requires next == start + |Str(FeeItemsBytes(items))|
    ensures ReadUint32(buf, start) == Got(|FeeItemsBytes(items)|, inner) && inner <= |buf|
    ensures next == inner + |FeeItemsBytes(items)|
    ensures DecodeFee(buf, inner, next, Fee(None, None))
         == Got(MergeFees(Fee(None, None), items), next)
  {
    StrParts(buf, start, FeeItemsBytes(items), inner);
    FeeItemsRead(buf, inner, next, Fee(None, None), items);
  }

  lemma FeeStep(buf: Bytes, start: nat, end: nat, m: Message, inner: nat, next: nat, fee: Fee)
    requires inner <= next && ReadUint32(buf, start) == Got(next - inner, inner)
    requires DecodeFee(buf, inner, next, Fee(None, None)) == Got(fee, next)
    ensures start <= |buf| && next <= |buf|
    ensures DecodeContent(buf, start, end, m, 4, 2)
         == Decode(buf, next, end, m.(changeFee := Some(fee)))
  {
  }

  lemma ContentReads(buf: Bytes, start: nat, end: nat, m: Message, it: Item, next: nat)
    requires ItemOk(it) && HasAt(buf, start, Content(it)) && next == start + |Content(it)|
    ensures start <= |buf| && next <= |buf|
    ensures DecodeContent(buf, start, end, m, NumOf(it), WireOf(it)) == Decode(buf, next, end, Merge(m, it))
  {
    match it
    case Address(s) => StrReads(buf, start, s);
    case NewRole(v) => Int32Reads(buf, start, v);
    case Proof(s) => StrReads(buf, start, s);
    case ChangeFee(items) =>
      var inner := start + |Varint(|FeeItemsBytes(items)|)|;
      FeeReads(buf, start, items, inner, next);
      FeeStep(buf, start, end, m, inner, next, MergeFees(Fee(None, None), items));
    case Unknown(f) => FieldSkips(buf, start, f);
  }

  /** One pass of the outer loop over a well-formed field. */
  lemma ItemReads(buf: Bytes, pos: nat, end: nat, m: Message, it: Item, next: nat)
    requires ItemOk(it) && HasAt(buf, pos, ItemBytes(it))
    requires next == pos + |ItemBytes(it)| <= end
    ensures pos <= |buf| && next <= |buf|
    ensures Decode(buf, pos, end, m) == Decode(buf, next, end, Merge(m, it))
  {
    var start := pos + |Tag(NumOf(it), WireOf(it))|;
    FieldParts(buf, pos, NumOf(it), WireOf(it), ItemBytes(it), Content(it), start);
    TagStep(buf, pos, end, m, NumOf(it), WireOf(it), start);
    ContentReads(buf, start, end, m, it, next);
  }

  /** Wherever a well-formed list of fields lies in a buffer, decoding its stretch succeeds, stops
      at its end, and is the last-one-wins merge of its known fields. */
  lemma {:induction false} ItemsRead(buf: Bytes, pos: nat, end: nat, m: Message, items: seq<Item>)
    requires ItemsOk(items)
    requires HasAt(buf, pos, ItemsBytes(items)) && end == pos + |ItemsBytes(items)|
    ensures Decode(buf, pos, end, m) == Got(MergeAll(m, items), end)
    decreases |items|
  {
    if items != [] {
      var next := pos + |ItemBytes(items[0])|;
      ItemsSplit(buf, pos, items, next);
      ItemReads(buf, pos, end, m, items[0], next);
      ItemsRead(buf, next, end, Merge(m, items[0]), items[1..]);
    }
  }

  lemma ItemsSplit(buf: Bytes, pos: nat, items: seq<Item>, next: nat)
    requires items != [] && HasAt(buf, pos, ItemsBytes(items))
    requires next == pos + |ItemBytes(items[0])|
    ensures HasAt(buf, pos, ItemBytes(items[0])) && HasAt(buf, next, ItemsBytes(items[1..]))
    ensures pos + |ItemsBytes(items)| == next + |ItemsBytes(items[1..])|
  {
    HasAtParts(buf, pos, ItemsBytes(items), ItemBytes(items[0]), ItemsBytes(items[1..]), next);
  }

  // ---------- Round trip ----------

  function DenomItems(s: Option<Text>): seq<FeeItem> {
    if Present(s) then [Denom(s.value)] else []
  }

  function AmountItems(s: Option<Text>): seq<FeeItem> {
    if Present(s) then [Amount(s.value)] else []
  }

  function FeeTexts(fee: FeeInput): seq<FeeItem> {
    DenomItems(fee.denom) + AmountItems(fee.amount)
  }

  function AddressItems(s: Option<Text>): seq<Item> {
    if Present(s) then [Address(s.value)] else []
  }

  function RoleItems(role: Option<Role>): seq<Item> {
    if role.Some? then [NewRole(role.value)] else []
  }

  function ProofItems(s: Option<Text>): seq<Item> {
    if Present(s) then [Proof(s.value)] else []
  }

  function FeeItems(fee: Option<FeeInput>): seq<Item> {
    if fee.Some? then [ChangeFee(FeeTexts(fee.value))] else []
  }

  /** The fields an input is encoded as. */
  function ItemsOf(m: Input): seq<Item> {
    AddressItems(m.address) + RoleItems(RoleOf(m)) + ProofItems(ProofOf(m)) + FeeItems(m.changeFee)
  }

  lemma {:induction false} ItemsBytesConcat(a: seq<Item>, b: seq<Item>)
    ensures ItemsBytes(a + b) == ItemsBytes(a) + ItemsBytes(b)
    decreases |a|
  {
    if a == [] {
      assert a + b == b;
    } else {
      assert (a + b)[1..] == a[1..] + b;
      ItemsBytesConcat(a[1..], b);
    }
  }

  lemma {:induction false} FeeItemsBytesConcat(a: seq<FeeItem>, b: seq<FeeItem>)
    ensures FeeItemsBytes(a + b) == FeeItemsBytes(a) + FeeItemsBytes(b)
    decreases |a|
  {
    if a == [] {
      assert a + b == b;
    } else {
      assert (a + b)[1..] == a[1..] + b;
      FeeItemsBytesConcat(a[1..], b);
    }
  }

  lemma {:induction false} MergeAllConcat(m: Message, a: seq<Item>, b: seq<Item>)
    ensures MergeAll(m, a + b) == MergeAll(MergeAll(m, a), b)
    decreases |a|
  {
    if a == [] {
      assert a + b == b;
    } else {
      assert (a + b)[1..] == a[1..] + b;
      MergeAllConcat(Merge(m, a[0]), a[1..], b);
    }
  }

  lemma OneItem(it: Item)
    ensures ItemsBytes([it]) == ItemBytes(it)
  {
    assert [it][1..] == [];
  }

  lemma OneFeeItem(it: FeeItem)
    ensures FeeItemsBytes([it]) == FeeItemBytes(it)
  {
    assert [it][1..] == [];
  }

  lemma FeeIsItems(fee: FeeInput)
    ensures FeeBytes(fee) == FeeItemsBytes(FeeTexts(fee))
  {
    FeeItemsBytesConcat(DenomItems(fee.denom), AmountItems(fee.amount));
    if Present(fee.denom) { OneFeeItem(Denom(fee.denom.value)); }
    if Present(fee.amount) { OneFeeItem(Amount(fee.amount.value)); }
  }

  lemma AddressIsItem(s: Option<Text>)
    ensures TextField(10, s) == ItemsBytes(AddressItems(s))
  {
    if Present(s) { OneItem(Address(s.value)); }
  }

  lemma RoleIsItem(role: Option<Role>)
    ensures RoleField(role) == ItemsBytes(RoleItems(role))
  {
    if role.Some? { OneItem(NewRole(role.value)); }
  }

  lemma ProofIsItem(s: Option<Text>)
    ensures TextField(26, s) == ItemsBytes(ProofItems(s))
  {
    if Present(s) { OneItem(Proof(s.value)); }
  }

  lemma FeeIsItem(fee: Option<FeeInput>)
    ensures FeeField(fee) == ItemsBytes(FeeItems(fee))
  {
    if fee.Some? {
      FeeIsItems(fee.value);
      OneItem(ChangeFee(FeeTexts(fee.value)));
    }
  }

  /** The encoder writes exactly the fields of ItemsOf. */
  lemma EncodeIsItems(m: Input)
    ensures Encode(m) == ItemsBytes(ItemsOf(m))
  {
    var a, b, c, d := AddressItems(m.address), RoleItems(RoleOf(m)), ProofItems(ProofOf(m)),
                      FeeItems(m.changeFee);
    ItemsBytesConcat(a + b + c, d);
    ItemsBytesConcat(a + b, c);
    ItemsBytesConcat(a, b);
    AddressIsItem(m.address);
    RoleIsItem(RoleOf(m));
    ProofIsItem(ProofOf(m));
    FeeIsItem(m.changeFee);
  }

  lemma {:induction false} VarintLength(n: nat, k: nat)
    requires k >= 1 && n < Pow128(k)
    ensures |Varint(n)| <= k
    decreases k
  {
    if n >= 128 { VarintLength(n / 128, k - 1); }
  }

  lemma VarintShort(n: nat)
    requires n < TWO32
    ensures |Varint(n)| <= 5
  {
    assert Pow128(1) == 128;
    assert Pow128(3) == 128 * 128 * 128;
    assert Pow128(5) == 128 * 128 * Pow128(3);
    VarintLength(n, 5);
  }

  lemma TextShort(tag: nat, s: Option<Text>)
    requires tag < 128
    ensures |TextField(tag, s)| < 0x7fff_fff6
  {
    if Present(s) { VarintShort(|s.value|); }
  }

  lemma ItemsOfOk(m: Input)
    ensures ItemsOk(ItemsOf(m))
  {
    if m.changeFee.Some? {
      FeeTextsOk(m.changeFee.value);
    }
  }

  lemma FeeTextsOk(fee: FeeInput)
    ensures ItemOk(ChangeFee(FeeTexts(fee)))
  {
    FeeIsItems(fee);
    TextShort(10, fee.denom);
    TextShort(18, fee.amount);
  }

  function TextOr(s: Option<Text>, absent: Bytes): Bytes {
    if Present(s) then s.value else absent
  }

  function RoleOr(role: Option<Role>, absent: int): int {
    if role.Some? then role.value else absent
  }

  function Kept(s: Option<Text>): Option<Bytes> {
    if Present(s) then Some(s.value) else None
  }

  function FeeOr(fee: Option<FeeInput>, absent: Option<Fee>): Option<Fee> {
    if fee.Some? then Some(Fee(Kept(fee.value.denom), Kept(fee.value.amount))) else absent
  }

  /** The decoded message with the properties given in m put over it: strings that are undefined
      or empty leave it alone, and a fee replaces the whole fee. */
  function Overlay(d: Message, m: Input): Message {
    Message(TextOr(m.address, d.address), RoleOr(RoleOf(m), d.newRole),
            TextOr(ProofOf(m), d.zkpProof), FeeOr(m.changeFee, d.changeFee))
  }

  /** The input with undefined properties replaced by the decoder's defaults. */
  function Normalise(m: Input): Message {
    Overlay(DEFAULT, m)
  }

  lemma MergeFeeTexts(start: Fee, fee: FeeInput)
    ensures MergeFees(start, FeeTexts(fee))
      == Fee(if Present(fee.denom) then Kept(fee.denom) else start.denom,
             if Present(fee.amount) then Kept(fee.amount) else start.amount)
  {
    var a, b := DenomItems(fee.denom), AmountItems(fee.amount);
    if a == [] {
      assert a + b == b;
      MergeOneFee(start, b);
    } else {
      assert (a + b)[1..] == b;
      MergeOneFee(MergeFee(start, a[0]), b);
    }
  }

  lemma MergeOneFee(fee: Fee, xs: seq<FeeItem>)
    requires |xs| <= 1
    ensures MergeFees(fee, xs) == if xs == [] then fee else MergeFee(fee, xs[0])
  {
    if xs != [] { assert xs[1..] == []; }
  }

  lemma MergeOptional(d: Message, xs: seq<Item>)
    requires |xs| <= 1
    ensures MergeAll(d, xs) == if xs == [] then d else Merge(d, xs[0])
  {
    if xs != [] { assert xs[1..] == []; }
  }

  lemma MergeItemsOf(d: Message, m: Input)
    ensures MergeAll(d, ItemsOf(m)) == Overlay(d, m)
  {
    var a, b, c, e := AddressItems(m.address), RoleItems(RoleOf(m)), ProofItems(ProofOf(m)),
                      FeeItems(m.changeFee);
    MergeAllConcat(d, a + b + c, e);
    MergeAllConcat(d, a + b, c);
    MergeAllConcat(d, a, b);
    MergeOptional(d, a);
    MergeOptional(MergeAll(d, a), b);
    MergeOptional(MergeAll(d, a + b), c);
    MergeOptional(MergeAll(d, a + b + c), e);
    if m.changeFee.Some? { MergeFeeTexts(Fee(None, None), m.changeFee.value); }
  }

  /** Any well-formed list of fields that merges to a given message decodes to it. */
  lemma DecodesTo(buf: Bytes, pos: nat, bytes: Bytes, items: seq<Item>, d: Message)
    requires ItemsOk(items) && MergeAll(DEFAULT, items) == d
    requires bytes == ItemsBytes(items) && HasAt(buf, pos, bytes)
    ensures DecodeMessage(buf, pos, pos + |bytes|) == Got(d, pos + |bytes|)
  {
    ItemsRead(buf, pos, pos + |bytes|, DEFAULT, items);
  }

  /** Decoding what was encoded, anywhere in a buffer, gives the input back up to omitted empties. */
  lemma RoundTrip(buf: Bytes, pos: nat, m: Input)
    requires HasAt(buf, pos, Encode(m))
    ensures var end := pos + |Encode(m)|; DecodeMessage(buf, pos, end) == Got(Normalise(m), end)
  {
    EncodeIsItems(m);
    ItemsOfOk(m);
    MergeItemsOf(DEFAULT, m);
    DecodesTo(buf, pos, Encode(m), ItemsOf(m), Normalise(m));
  }

  /** Property by property: the first spelling of the role wins where it is defined, that of the proof where it
      is not empty either, and empty strings come back as the decoder's defaults. */
  lemma RoundTripProperties(buf: Bytes, pos: nat, m: Input)
    requires HasAt(buf, pos, Encode(m))
    ensures var r := DecodeMessage(buf, pos, pos + |Encode(m)|);
      && r.Got?
      && r.value.address == (if m.address.Some? then m.address.value else [])
      && r.value.newRole == (if m.newRole.Some? then m.newRole.value
                             else if m.newRoleSnake.Some? then m.newRoleSnake.value else 0)
      && r.value.zkpProof == (if m.zkpProof.Some? && m.zkpProof.value != [] then m.zkpProof.value
                              else if m.zkpProofSnake.Some? then m.zkpProofSnake.value else [])
      && r.value.changeFee
         == if m.changeFee.Some? then Some(Fee(NotEmpty(m.changeFee.value.denom), NotEmpty(m.changeFee.value.amount)))
            else None
  {
    RoundTrip(buf, pos, m);
  }

  function NotEmpty(s: Option<Text>): Option<Bytes> {
    match s
    case None => None
    case Some(t) => if t == [] then None else Some(t)
  }

  /** Empty strings are not written at all. */
  lemma EmptiesOmitted()
    ensures Encode(Input(Some([]), None, None, Some([]), Some([]), None)) == []
    ensures Encode(Input(None, None, None, None, None, Some(FeeInput(Some([]), Some([]))))) == [0x22, 0x00]
  {
    assert Varint(0) == [0];
    assert FeeBytes(FeeInput(Some([]), Some([]))) == [];
  }

  /** The two spellings of role and proof, and absent against empty, are all the encoder forgets. */
  lemma EncodingDeterminesMessage(a: Input, b: Input)
    requires Encode(a) == Encode(b)
    ensures Normalise(a) == Normalise(b)
  {
    WholeDecodes(Encode(a), a);
    WholeDecodes(Encode(a), b);
  }

  lemma WholeDecodes(buf: Bytes, m: Input)
    requires buf == Encode(m)
    ensures DecodeMessage(buf, 0, |buf|) == Got(Normalise(m), |buf|)
  {
    assert buf[0..|buf|] == buf;
    RoundTrip(buf, 0, m);
  }

  /** Two encodings written one after the other decode as the second put over the first. Unlike
      protobuf's own merge rule for submessages, a second fee replaces the first one whole. */
  lemma LastOneWins(buf: Bytes, pos: nat, a: Input, b: Input)
    requires HasAt(buf, pos, Encode(a) + Encode(b))
    ensures var end := pos + |Encode(a) + Encode(b)|;
      DecodeMessage(buf, pos, end) == Got(Overlay(Normalise(a), b), end)
  {
    BothAreItems(a, b);
    DecodesTo(buf, pos, Encode(a) + Encode(b), ItemsOf(a) + ItemsOf(b), Overlay(Normalise(a), b));
  }

  lemma BothAreItems(a: Input, b: Input)
    ensures ItemsOk(ItemsOf(a) + ItemsOf(b))
    ensures Encode(a) + Encode(b) == ItemsBytes(ItemsOf(a) + ItemsOf(b))
    ensures MergeAll(DEFAULT, ItemsOf(a) + ItemsOf(b)) == Overlay(Normalise(a), b)
  {
    EncodeIsItems(a);
    EncodeIsItems(b);
    ItemsOfOk(a);
    ItemsOfOk(b);
    ItemsBytesConcat(ItemsOf(a), ItemsOf(b));
    MergeAllConcat(DEFAULT, ItemsOf(a), ItemsOf(b));
    MergeItemsOf(DEFAULT, a);
    MergeItemsOf(Normalise(a), b);
  }

  /** protobuf's own rule for a repeated submessage: merge into what was read before. */
  function StandardOverlay(d: Message, m: Input): Message {
    var earlier := if d.changeFee.Some? then d.changeFee.value else Fee(None, None);
    Overlay(d, m).(changeFee :=
      if m.changeFee.Some? then Some(MergeFees(earlier, FeeTexts(m.changeFee.value))) else d.changeFee)
  }

  /** Whatever the first fee gives, the second gives too. */
  predicate Covers(a: Input, b: Input) {
    a.changeFee.Some? && b.changeFee.Some? ==>
      && (Present(a.changeFee.value.denom) ==> Present(b.changeFee.value.denom))
      && (Present(a.changeFee.value.amount) ==> Present(b.changeFee.value.amount))
  }

  /** The decoder follows protobuf's merge rule on two encodings in a row if and only if the second fee
      gives every property the first one gave. */
  lemma StandardMergeExactly(buf: Bytes, pos: nat, a: Input, b: Input)
    requires HasAt(buf, pos, Encode(a) + Encode(b))
    ensures var end := pos + |Encode(a) + Encode(b)|;
      DecodeMessage(buf, pos, end) == Got(StandardOverlay(Normalise(a), b), end) <==> Covers(a, b)
  {
    LastOneWins(buf, pos, a, b);
    OverlaysAgreeExactly(a, b);
  }

  lemma OverlaysAgreeExactly(a: Input, b: Input)
    ensures Overlay(Normalise(a), b) == StandardOverlay(Normalise(a), b) <==> Covers(a, b)
  {
    if b.changeFee.Some? {
      var d := Normalise(a);
      MergeFeeTexts(if d.changeFee.Some? then d.changeFee.value else Fee(None, None), b.changeFee.value);
    }
  }

  /** A fee that gives only the amount drops the denomination read before it. */
  lemma RepeatedFeeDropsDenom(a: Input, b: Input, buf: Bytes)
    requires a.changeFee == Some(FeeInput(Some([117]), None)) && b.changeFee == Some(FeeInput(None, Some([49])))
    requires buf == Encode(a) + Encode(b)
    ensures var d := DecodeMessage(buf, 0, |buf|);
      && d.Got? && d.value.changeFee == Some(Fee(None, Some([49])))
      && StandardOverlay(Normalise(a), b).changeFee == Some(Fee(Some([117]), Some([49])))
  {
    assert buf[0..|buf|] == buf;
    LastOneWins(buf, 0, a, b);
    MergeFeeTexts(Fee(Some([117]), None), b.changeFee.value);
  }

  // ---------- Unknown fields ----------

  function KnownFee(items: seq<FeeItem>): seq<FeeItem> {
    if items == [] then []
    else (if items[0].FeeUnknown? then [] else [items[0]]) + KnownFee(items[1..])
  }

  function KnownItem(it: Item): seq<Item> {
    match it
    case Unknown(_) => []
    case ChangeFee(items) => [ChangeFee(KnownFee(items))]
    case _ => [it]
  }

  /** The list without its unknown fields, top-level and inside the fee. */
  function Known(items: seq<Item>): seq<Item> {
    if items == [] then [] else KnownItem(items[0]) + Known(items[1..])
  }

  lemma {:induction false} KnownFeeMerges(fee: Fee, items: seq<FeeItem>)
    ensures MergeFees(fee, items) == MergeFees(fee, KnownFee(items))
    decreases |items|
  {
    if items != [] {
      KnownFeeMerges(MergeFee(fee, items[0]), items[1..]);
      if items[0].FeeUnknown? {
        assert KnownFee(items) == KnownFee(items[1..]);
      } else {
        assert KnownFee(items)[1..] == KnownFee(items[1..]);
      }
    }
  }

  lemma {:induction false} KnownMerges(m: Message, items: seq<Item>)
    ensures MergeAll(m, items) == MergeAll(m, Known(items))
    decreases |items|
  {
    if items != [] {
      KnownMerges(Merge(m, items[0]), items[1..]);
      MergeAllConcat(m, KnownItem(items[0]), Known(items[1..]));
      MergeOptional(m, KnownItem(items[0]));
      match items[0] {
        case ChangeFee(fees) => KnownFeeMerges(Fee(None, None), fees);
        case _ =>
      }
    }
  }

  /** Well-formed unknown fields put anywhere between a message's fields, or inside its fee, change
      nothing that is decoded. */
  lemma UnknownFieldsIgnored(buf: Bytes, pos: nat, m: Input, items: seq<Item>)
    requires ItemsOk(items) && Known(items) == ItemsOf(m)
    requires HasAt(buf, pos, ItemsBytes(items))
    ensures var end := pos + |ItemsBytes(items)|;
      DecodeMessage(buf, pos, end) == Got(Normalise(m), end)
  {
    KnownMerges(DEFAULT, items);
    MergeItemsOf(DEFAULT, m);
    DecodesTo(buf, pos, ItemsBytes(items), items, Normalise(m));
  }

  /** One message with everything in it, byte by byte: fields 1, 2, 3 and 4, and fields 1 and 2 of the fee. */
  lemma EncodingExample()
    ensures Encode(Input(Some([0x61]), Some(2), None, Some([0x70]), None, Some(FeeInput(Some([0x75]), Some([0x31])))))
      == [0x0a, 0x01, 0x61] + [0x10, 0x02] + [0x1a, 0x01, 0x70]
         + [0x22, 0x06, 0x0a, 0x01, 0x75, 0x12, 0x01, 0x31]
  {
    var fee := FeeInput(Some([0x75]), Some([0x31]));
    assert Varint(1) == [1] && Varint(6) == [6];
    assert FeeBytes(fee) == [0x0a, 0x01, 0x75, 0x12, 0x01, 0x31];
  }
}
