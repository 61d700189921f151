/** The parse tables of BuffData and S_TEST and the dispatch they drive: a fast
    slot picked by two bits of the first tag byte, a coded-tag check, and a
    fallback that decodes the whole tag and finds the field through the skip
    map.  The result is compared with plain lookup by field number. */
module Tables {
  import opened Wire

  // The message field an entry stores into.
  datatype Target = BuffId | RemainTime | Victims | Id | Hp | Attack | Buffs

  datatype Representation = UInt64 | UInt32 | Float | PackedUInt64 | SubMessage

  datatype FieldEntry = FieldEntry(target: Target, rep: Representation)

  // A fast slot either goes straight to the fallback or expects one tag byte
  // and knows how to read that field's payload.
  datatype FastEntry = MiniParse | Fast(codedTag: byte, entry: FieldEntry)

  datatype ParseTable = ParseTable(
    maxFieldNumber: nat,
    fastIdxMask: bv8,
    skipmap: uint32,
    lookup: seq<uint16>,
    fast: seq<FastEntry>,
    entries: seq<FieldEntry>)

  const BUFF_TABLE := ParseTable(
    3, 24, 4294967288, [65535, 65535],
    [ MiniParse,
      Fast(8, FieldEntry(BuffId, UInt64)),
      Fast(21, FieldEntry(RemainTime, Float)),
      Fast(26, FieldEntry(Victims, PackedUInt64)) ],
    [ FieldEntry(BuffId, UInt64),
      FieldEntry(RemainTime, Float),
      FieldEntry(Victims, PackedUInt64) ])

  const TEST_TABLE := ParseTable(
    4, 24, 4294967280, [65535, 65535],
    [ Fast(34, FieldEntry(Buffs, SubMessage)),
      Fast(8, FieldEntry(Id, UInt64)),
      Fast(16, FieldEntry(Hp, UInt32)),
      Fast(24, FieldEntry(Attack, UInt32)) ],
    [ FieldEntry(Id, UInt64),
      FieldEntry(Hp, UInt32),
      FieldEntry(Attack, UInt32),
      FieldEntry(Buffs, SubMessage) ])

  //////////////////////////////////////////////////////////////////////////
  // Lookup through the skip map
  //////////////////////////////////////////////////////////////////////////

  // Bit k of n, and the number of ones below it.
  function Bit(n: nat, k: nat): (b: nat)
    ensures b < 2
  {
    if k == 0 then n % 2 else Bit(n / 2, k - 1)
  }

  function OnesBelow(n: nat, k: nat): (c: nat)
    ensures c <= k
  {
    if k == 0 then 0 else n % 2 + OnesBelow(n / 2, k - 1)
  }

  // Clear bits of the skip map are the fields 1 to 32 that exist; the lookup
  // table for larger numbers holds only its end marker.
  predicate WellFormed(table: ParseTable)
  {
    && |table.fast| == 4
    && (forall f <- table.fast :: f.Fast? ==> 8 <= f.codedTag < 128)
    && table.fastIdxMask == 24
    && (forall k: nat :: k < 32 && Bit(table.skipmap, k) == 0 ==> k - OnesBelow(table.skipmap, k) < |table.entries|)
    && |table.lookup| == 2
    && table.lookup[0] + TWO16 * table.lookup[1] == 0xFFFF_FFFF
  }

  function FindFieldEntry(table: ParseTable, num: FieldNumber): Option<FieldEntry>
    requires WellFormed(table)
  {
    if num - 1 < 32 then
      if Bit(table.skipmap, num - 1) == 1 then None
      else Some(table.entries[num - 1 - OnesBelow(table.skipmap, num - 1)])
    else
      assert num < table.lookup[0] + TWO16 * table.lookup[1];
      None
  }

  function Pow2(k: nat): (p: nat)
    ensures p >= 1
  {
    if k == 0 then 1 else 2 * Pow2(k - 1)
  }

  lemma Halves(m: nat)
    ensures (2 * m + 1) % 2 == 1 && (2 * m + 1) / 2 == m && (2 * m) % 2 == 0 && (2 * m) / 2 == m
  {
  }

  lemma {:induction false} AllOnes(j: nat, k: nat)
    requires k < j
    ensures Bit(Pow2(j) - 1, k) == 1
  {
    var m := Pow2(j - 1) - 1;
    assert Pow2(j) - 1 == 2 * m + 1;
    Halves(m);
    if k == 0 {
      assert Bit(2 * m + 1, 0) == 1;
    } else {
      AllOnes(j - 1, k - 1);
      assert Bit(2 * m + 1, k) == Bit(m, k - 1);
    }
  }

  // `ones` set bits above `zeros` clear ones.
  function ShiftedMask(zeros: nat, ones: nat): nat
  {
    if zeros == 0 then Pow2(ones) - 1 else 2 * ShiftedMask(zeros - 1, ones)
  }

  lemma {:induction false} ShiftedMaskBits(zeros: nat, ones: nat, k: nat)
    requires k < zeros + ones
    ensures Bit(ShiftedMask(zeros, ones), k) == if k < zeros then 0 else 1
    ensures k <= zeros ==> OnesBelow(ShiftedMask(zeros, ones), k) == 0
  {
    if zeros == 0 {
      AllOnes(ones, k);
    } else if k > 0 {
      ShiftedMaskBits(zeros - 1, ones, k - 1);
    }
  }

  lemma BuffSkipmap(k: nat)
    requires k < 32
    ensures Bit(BUFF_TABLE.skipmap, k) == if k < 3 then 0 else 1
    ensures k <= 3 ==> OnesBelow(BUFF_TABLE.skipmap, k) == 0
  {
    assert Pow2(8) == 256 && Pow2(16) == 65536 && Pow2(24) == 16777216;
    assert ShiftedMask(0, 29) == 536870911;
    assert ShiftedMask(3, 29) == 4294967288;
    ShiftedMaskBits(3, 29, k);
  }

  lemma TestSkipmap(k: nat)
    requires k < 32
    ensures Bit(TEST_TABLE.skipmap, k) == if k < 4 then 0 else 1
    ensures k <= 4 ==> OnesBelow(TEST_TABLE.skipmap, k) == 0
  {
    assert Pow2(8) == 256 && Pow2(16) == 65536 && Pow2(24) == 16777216;
    assert ShiftedMask(0, 28) == 268435455;
    assert ShiftedMask(4, 28) == 4294967280;
    ShiftedMaskBits(4, 28, k);
  }

  lemma TablesWellFormed()
    ensures WellFormed(BUFF_TABLE) && WellFormed(TEST_TABLE)
  {
    forall k: nat | k < 32
      ensures Bit(BUFF_TABLE.skipmap, k) == 0 ==> k - OnesBelow(BUFF_TABLE.skipmap, k) < |BUFF_TABLE.entries|
      ensures Bit(TEST_TABLE.skipmap, k) == 0 ==> k - OnesBelow(TEST_TABLE.skipmap, k) < |TEST_TABLE.entries|
    {
      BuffSkipmap(k);
      TestSkipmap(k);
    }
  }

  // The skip map finds exactly the declared fields.
  lemma FindsDeclaredFields(num: FieldNumber)
    ensures WellFormed(BUFF_TABLE) && WellFormed(TEST_TABLE)
    ensures FindFieldEntry(BUFF_TABLE, num) ==
            if num <= BUFF_TABLE.maxFieldNumber then Some(BUFF_TABLE.entries[num - 1]) else None
    ensures FindFieldEntry(TEST_TABLE, num) ==
            if num <= TEST_TABLE.maxFieldNumber then Some(TEST_TABLE.entries[num - 1]) else None
  {
    TablesWellFormed();
    if num - 1 < 32 {
      BuffSkipmap(num - 1);
      TestSkipmap(num - 1);
    }
  }

  //////////////////////////////////////////////////////////////////////////
  // Dispatch
  //////////////////////////////////////////////////////////////////////////

  // One turn of the parse loop: the field to store into (None: keep as an
  // unknown field), the record, and the bytes it took.
  datatype Step = Step(target: Option<Target>, rec: Record, length: nat)

  predicate AcceptsWireType(rep: Representation, wireType: nat)
  {
    match rep
    case UInt64 => wireType == 0
    case UInt32 => wireType == 0
    case Float => wireType == 5
    case PackedUInt64 => wireType == 2 || wireType == 0
    case SubMessage => wireType == 2
  }

  function EntryTarget(table: ParseTable, num: FieldNumber, wireType: nat): Option<Target>
    requires WellFormed(table)
  {
    match FindFieldEntry(table, num)
    case None => None
    case Some(entry) => if AcceptsWireType(entry.rep, wireType) then Some(entry.target) else None
  }

  function MiniParseStep(table: ParseTable, s: seq<byte>): (r: Option<Step>)
    requires WellFormed(table)
  {
    match ReadTag(s)
    case None => None
    case Some(Read(tag, n)) =>
      var target := EntryTarget(table, tag / 8, tag % 8);
      match ReadPayload(tag / 8, tag % 8, s[n..])
      case None => None
      case Some(Read(rec, k)) => Some(Step(target, rec, n + k))
  }

  // (tag & mask) >> 3 on the first byte of the tag.
  function FastIndex(mask: bv8, first: byte): nat { ((first as bv8 & mask) >> 3) as nat }

  lemma FastIndexInRange(first: byte)
    ensures FastIndex(24, first) < 4
  {
    var b: bv8 := first as bv8;
    assert ((b & 24) >> 3) < 4;
  }

  function FastStep(table: ParseTable, s: seq<byte>): (r: Option<Step>)
    requires WellFormed(table) && s != []
  {
    FastIndexInRange(s[0]);
    match table.fast[FastIndex(table.fastIdxMask, s[0])]
    case MiniParse => MiniParseStep(table, s)
    case Fast(codedTag, entry) =>
      if s[0] != codedTag then MiniParseStep(table, s)
      else
        match ReadPayload(codedTag / 8, codedTag % 8, s[1..])
        case None => None
        case Some(Read(rec, k)) => Some(Step(Some(entry.target), rec, 1 + k))
  }

  // The reference: decode the whole record, then look at its number and wire type.
  function BuffTarget(r: Record): Option<Target>
  {
    match r
    case VarintRec(num, _) => if num == 1 then Some(BuffId) else if num == 3 then Some(Victims) else None
    case Fixed32Rec(num, _) => if num == 2 then Some(RemainTime) else None
    case LenRec(num, _) => if num == 3 then Some(Victims) else None
    case Fixed64Rec(_, _) => None
  }

  function TestTarget(r: Record): Option<Target>
  {
    match r
    case VarintRec(num, _) =>
      if num == 1 then Some(Id) else if num == 2 then Some(Hp) else if num == 3 then Some(Attack) else None
    case LenRec(num, _) => if num == 4 then Some(Buffs) else None
    case Fixed32Rec(_, _) => None
    case Fixed64Rec(_, _) => None
  }

  function PlainStep(target: Record -> Option<Target>, s: seq<byte>): Option<Step>
  {
    match ReadRecord(s)
    case None => None
    case Some(Read(rec, n)) => Some(Step(target(rec), rec, n))
  }

  lemma EntryTargetIsSchema(r: Record)
    ensures WellFormed(BUFF_TABLE) && WellFormed(TEST_TABLE)
    ensures EntryTarget(BUFF_TABLE, r.num, r.WireType()) == BuffTarget(r)
    ensures EntryTarget(TEST_TABLE, r.num, r.WireType()) == TestTarget(r)
  {
    FindsDeclaredFields(r.num);
  }

  lemma MiniParseIsPlain(table: ParseTable, target: Record -> Option<Target>, s: seq<byte>)
    requires WellFormed(table)
    requires ReadRecord(s).Some? ==>
               var r := ReadRecord(s).value.value; EntryTarget(table, r.num, r.WireType()) == target(r)
    ensures MiniParseStep(table, s) == PlainStep(target, s)
  {
  }

  // A one-byte tag is read as itself.
  lemma OneByteTag(s: seq<byte>)
    requires s != [] && 8 <= s[0] < 128
    ensures ReadTag(s) == Some(Read(s[0], 1))
    ensures ReadRecord(s) == Shift(ReadPayload(s[0] / 8, s[0] % 8, s[1..]), 1)
  {
  }

  lemma BuffDispatch(s: seq<byte>)
    requires s != []
    ensures WellFormed(BUFF_TABLE) && FastStep(BUFF_TABLE, s) == PlainStep(BuffTarget, s)
  {
    TablesWellFormed();
    if ReadRecord(s).Some? { EntryTargetIsSchema(ReadRecord(s).value.value); }
    MiniParseIsPlain(BUFF_TABLE, BuffTarget, s);
    FastIndexInRange(s[0]);
    if 8 <= s[0] < 128 { OneByteTag(s); }
  }

  lemma TestDispatch(s: seq<byte>)
    requires s != []
    ensures WellFormed(TEST_TABLE) && FastStep(TEST_TABLE, s) == PlainStep(TestTarget, s)
  {
    TablesWellFormed();
    if ReadRecord(s).Some? { EntryTargetIsSchema(ReadRecord(s).value.value); }
    MiniParseIsPlain(TEST_TABLE, TestTarget, s);
    FastIndexInRange(s[0]);
    if 8 <= s[0] < 128 { OneByteTag(s); }
  }

  // The table-driven dispatch of both messages agrees with plain lookup on
  // every input: overlong tags, foreign wire types and truncated payloads
  // included.
  lemma FastDispatchIsPlain(s: seq<byte>)
    requires s != []
    ensures WellFormed(BUFF_TABLE) && WellFormed(TEST_TABLE)
    ensures FastStep(BUFF_TABLE, s) == PlainStep(BuffTarget, s)
    ensures FastStep(TEST_TABLE, s) == PlainStep(TestTarget, s)
  {
    BuffDispatch(s);
    TestDispatch(s);
  }

  // Every coded tag sits in the slot that its own bits select, so that the
  // fast path is taken for the canonical tag of every field.
  lemma FastSlotsReachable(i: nat)
    requires i < 4
    ensures BUFF_TABLE.fast[i].Fast? ==> FastIndex(24, BUFF_TABLE.fast[i].codedTag) == i
    ensures TEST_TABLE.fast[i].Fast? ==> FastIndex(24, TEST_TABLE.fast[i].codedTag) == i
  {
    assert (8 as bv8 & 24) >> 3 == 1 && (16 as bv8 & 24) >> 3 == 2 && (24 as bv8 & 24) >> 3 == 3;
    assert (21 as bv8 & 24) >> 3 == 2 && (26 as bv8 & 24) >> 3 == 3 && (34 as bv8 & 24) >> 3 == 0;
  }
}
