/** What the two messages mean on the wire: the values BuffData and S_TEST
    carry, the records they are printed as, the message a list of records
    denotes, and merging. */
module Messages {
  import opened Wire

  // remainTime is the 32 bits of the float: presence is tested on the bits.
  datatype BuffMsg = BuffMsg(buffId: uint64, remainTime: uint32, victims: seq<uint64>, unknown: seq<Record>)

  datatype TestMsg = TestMsg(id: uint64, hp: uint32, attack: uint32, buffs: seq<BuffMsg>, unknown: seq<Record>)

  const EMPTY_BUFF := BuffMsg(0, 0, [], [])
  const EMPTY_TEST := TestMsg(0, 0, 0, [], [])

  //////////////////////////////////////////////////////////////////////////
  // Printing
  //////////////////////////////////////////////////////////////////////////

  function EncodeVarints(vs: seq<uint64>): seq<byte>
  {
    if vs == [] then [] else EncodeVarint(vs[0]) + EncodeVarints(vs[1..])
  }

  function BuffRecords(b: BuffMsg): seq<Record>
  {
    (if b.buffId != 0 then [VarintRec(1, b.buffId)] else [])
    + (if b.remainTime != 0 then [Fixed32Rec(2, b.remainTime)] else [])
    + (if b.victims != [] then [LenRec(3, EncodeVarints(b.victims))] else [])
    + b.unknown
  }

  function BuffSerialize(b: BuffMsg): seq<byte> { EncodeRecords(BuffRecords(b)) }

  function BuffEntries(bs: seq<BuffMsg>): seq<Record>
  {
    if bs == [] then [] else [LenRec(4, BuffSerialize(bs[0]))] + BuffEntries(bs[1..])
  }

  function TestRecords(t: TestMsg): seq<Record>
  {
    (if t.id != 0 then [VarintRec(1, t.id)] else [])
    + (if t.hp != 0 then [VarintRec(2, t.hp)] else [])
    + (if t.attack != 0 then [VarintRec(3, t.attack)] else [])
    + BuffEntries(t.buffs)
    + t.unknown
  }

  function TestSerialize(t: TestMsg): seq<byte> { EncodeRecords(TestRecords(t)) }

  //////////////////////////////////////////////////////////////////////////
  // Reading: one record at a time, in order
  //////////////////////////////////////////////////////////////////////////

  // The contents of a packed record: varints up to the last byte.
  function DecodeVarints(s: seq<byte>): Option<seq<uint64>>
    decreases |s|
  {
    if s == [] then Some([])
    else
      match DecodeVarint(s, 10)
      case None => None
      case Some(Read(v, n)) =>
        match DecodeVarints(s[n..])
        case None => None
        case Some(vs) => Some([v % TWO64] + vs)
  }

  // The schema of BuffData: the records that are fields of it.
  predicate BuffKnows(r: Record)
  {
    match r
    case VarintRec(num, _) => num == 1 || num == 3
    case Fixed32Rec(num, _) => num == 2
    case LenRec(num, _) => num == 3
    case Fixed64Rec(_, _) => false
  }

  function BuffApply(b: BuffMsg, r: Record): Option<BuffMsg>
  {
    if !BuffKnows(r) then Some(b.(unknown := b.unknown + [r]))
    else
      match r
      case VarintRec(num, v) =>
        if num == 1 then Some(b.(buffId := v)) else Some(b.(victims := b.victims + [v]))
      case Fixed32Rec(_, bits) => Some(b.(remainTime := bits))
      case LenRec(_, data) =>
        match DecodeVarints(data)
        case None => None
        case Some(vs) => Some(b.(victims := b.victims + vs))
  }

  function BuffFold(b: BuffMsg, rs: seq<Record>): Option<BuffMsg>
    decreases |rs|
  {
    if rs == [] then Some(b)
    else
      match BuffApply(b, rs[0])
      case None => None
      case Some(b') => BuffFold(b', rs[1..])
  }

  // Reading the bytes s on top of what b already holds.
  function BuffParseFrom(b: BuffMsg, s: seq<byte>): Option<BuffMsg>
  {
    match DecodeRecords(s)
    case None => None
    case Some(rs) => BuffFold(b, rs)
  }

  function BuffParse(s: seq<byte>): Option<BuffMsg> { BuffParseFrom(EMPTY_BUFF, s) }

  predicate TestKnows(r: Record)
  {
    match r
    case VarintRec(num, _) => num <= 3
    case LenRec(num, _) => num == 4
    case Fixed32Rec(_, _) => false
    case Fixed64Rec(_, _) => false
  }

  function TestApply(t: TestMsg, r: Record): Option<TestMsg>
  {
    if !TestKnows(r) then Some(t.(unknown := t.unknown + [r]))
    else
      match r
      case VarintRec(num, v) =>
        if num == 1 then Some(t.(id := v))
        else if num == 2 then Some(t.(hp := v % TWO32))
        else Some(t.(attack := v % TWO32))
      case LenRec(_, data) =>
        match BuffParse(data)
        case None => None
        case Some(b) => Some(t.(buffs := t.buffs + [b]))
  }

  function TestFold(t: TestMsg, rs: seq<Record>): Option<TestMsg>
    decreases |rs|
  {
    if rs == [] then Some(t)
    else
      match TestApply(t, rs[0])
      case None => None
      case Some(t') => TestFold(t', rs[1..])
  }

  function TestParseFrom(t: TestMsg, s: seq<byte>): Option<TestMsg>
  {
    match DecodeRecords(s)
    case None => None
    case Some(rs) => TestFold(t, rs)
  }

  function TestParse(s: seq<byte>): Option<TestMsg> { TestParseFrom(EMPTY_TEST, s) }

  //////////////////////////////////////////////////////////////////////////
  // What is read of bytes that are refused
  //////////////////////////////////////////////////////////////////////////

  // The records of s before the first one that cannot be read or stored, read
  // on top of b.
  function BuffReadable(b: BuffMsg, s: seq<byte>): BuffMsg
    decreases |s|
  {
    if s == [] then b
    else
      match ReadRecord(s)
      case None => b
      case Some(Read(rec, n)) =>
        match BuffApply(b, rec)
        case None => b
        case Some(b') => BuffReadable(b', s[n..])
  }

  // The refused record may have left more victims behind, and nothing else.
  predicate BuffExtends(read: BuffMsg, b: BuffMsg) { read.victims <= b.victims && b == read.(victims := b.victims) }

  function TestReadable(t: TestMsg, s: seq<byte>): TestMsg
    decreases |s|
  {
    if s == [] then t
    else
      match ReadRecord(s)
      case None => t
      case Some(Read(rec, n)) =>
        match TestApply(t, rec)
        case None => t
        case Some(t') => TestReadable(t', s[n..])
  }

  // The bytes from the record at fault on.
  function TestFault(t: TestMsg, s: seq<byte>): seq<byte>
    decreases |s|
  {
    if s == [] then []
    else
      match ReadRecord(s)
      case None => s
      case Some(Read(rec, n)) =>
        match TestApply(t, rec)
        case None => s
        case Some(t') => TestFault(t', s[n..])
  }

  // As much as there is of the payload of the length-delimited record at the
  // front of s.
  function FrontPayload(s: seq<byte>): seq<byte>
  {
    match ReadTag(s)
    case None => []
    case Some(Read(_, n)) =>
      match DecodeVarint(s[n..], 5)
      case None => []
      case Some(Read(size, k)) =>
        var rest := s[n + k..];
        if size <= |rest| then rest[..size] else rest
  }

  // The refused record may have left one more element behind, which then
  // holds what could be read of its payload.
  predicate TestExtends(read: TestMsg, payload: seq<byte>, t: TestMsg)
  {
    && read.buffs <= t.buffs && |t.buffs| <= |read.buffs| + 1 && t == read.(buffs := t.buffs)
    && (|t.buffs| > |read.buffs| ==> BuffExtends(BuffReadable(EMPTY_BUFF, payload), t.buffs[|read.buffs|]))
  }

  lemma FrontPayloadIsData(s: seq<byte>)
    requires ReadRecord(s).Some? && ReadRecord(s).value.value.LenRec?
    ensures FrontPayload(s) == ReadRecord(s).value.value.data
  {
    var Read(tag, n) := ReadTag(s).value;
    var rest := s[n..];
    var Read(size, k) := DecodeVarint(rest, 5).value;
    SliceSlice(s, n, k, size);
  }

  lemma SliceSlice<T>(s: seq<T>, n: nat, k: nat, size: nat)
    requires n + k + size <= |s|
    ensures s[n..][k..] == s[n + k..] && s[n..][k..k + size] == s[n + k..][..size]
  {
  }

  // One turn of the loop on the specification side.
  lemma BuffParseStep(b: BuffMsg, s: seq<byte>)
    requires s != [] && ReadRecord(s).Some?
    ensures var Read(rec, n) := ReadRecord(s).value;
            match BuffApply(b, rec)
            case None => BuffParseFrom(b, s).None?
            case Some(b') => BuffParseFrom(b, s) == BuffParseFrom(b', s[n..])
  {
    var Read(rec, n) := ReadRecord(s).value;
    if DecodeRecords(s[n..]).Some? {
      var rs := DecodeRecords(s).value;
      assert rs[0] == rec && rs[1..] == DecodeRecords(s[n..]).value;
    }
  }

  lemma TestParseStep(t: TestMsg, s: seq<byte>)
    requires s != [] && ReadRecord(s).Some?
    ensures var Read(rec, n) := ReadRecord(s).value;
            match TestApply(t, rec)
            case None => TestParseFrom(t, s).None?
            case Some(t') => TestParseFrom(t, s) == TestParseFrom(t', s[n..])
  {
    var Read(rec, n) := ReadRecord(s).value;
    if DecodeRecords(s[n..]).Some? {
      var rs := DecodeRecords(s).value;
      assert rs[0] == rec && rs[1..] == DecodeRecords(s[n..]).value;
    }
  }

  // Reading stops at a record that cannot be read or stored.
  lemma StopsAtFault(b: BuffMsg, t: TestMsg, s: seq<byte>)
    requires s != []
    ensures ReadRecord(s).None? || BuffApply(b, ReadRecord(s).value.value).None? ==> BuffReadable(b, s) == b
    ensures ReadRecord(s).None? || TestApply(t, ReadRecord(s).value.value).None? ==>
              TestReadable(t, s) == t && TestFault(t, s) == s
  {
  }

  // Whatever prefix of the bytes is accepted, the rest is read on top of it;
  // with nothing behind it, that is reading the whole.
  lemma {:induction false} BuffReadableConcat(b: BuffMsg, s: seq<byte>, u: seq<byte>)
    requires BuffParseFrom(b, s).Some?
    ensures BuffReadable(b, s + u) == BuffReadable(BuffParseFrom(b, s).value, u)
    decreases |s|
  {
    if s == [] {
      assert s + u == u;
    } else {
      var Read(rec, n) := ReadRecord(s).value;
      BuffParseStep(b, s);
      RecordPrefix(s, u);
      DropWithin(s, u, n);
      BuffReadableConcat(BuffApply(b, rec).value, s[n..], u);
    }
  }

  lemma {:induction false} TestReadableConcat(t: TestMsg, s: seq<byte>, u: seq<byte>)
    requires TestParseFrom(t, s).Some?
    ensures TestReadable(t, s + u) == TestReadable(TestParseFrom(t, s).value, u)
    ensures TestFault(t, s + u) == TestFault(TestParseFrom(t, s).value, u)
    decreases |s|
  {
    if s == [] {
      assert s + u == u;
    } else {
      var Read(rec, n) := ReadRecord(s).value;
      TestParseStep(t, s);
      RecordPrefix(s, u);
      DropWithin(s, u, n);
      TestReadableConcat(TestApply(t, rec).value, s[n..], u);
    }
  }

  //////////////////////////////////////////////////////////////////////////
  // What reading means, field by field
  //////////////////////////////////////////////////////////////////////////

  predicate IsVarint(r: Record, num: FieldNumber) { r.VarintRec? && r.num == num }

  // Last one wins: the final varint written to field num, or what was there.
  function LastVarint(rs: seq<Record>, num: FieldNumber, before: uint64): uint64
  {
    if rs == [] then before
    else LastVarint(rs[1..], num, if IsVarint(rs[0], num) then rs[0].varint else before)
  }

  function LastFixed32(rs: seq<Record>, num: FieldNumber, before: uint32): uint32
  {
    if rs == [] then before
    else LastFixed32(rs[1..], num, if rs[0].Fixed32Rec? && rs[0].num == num then rs[0].bits32 else before)
  }

  // What one record contributes to victims, packed or not.
  function VictimsIn(r: Record): seq<uint64>
  {
    if IsVarint(r, 3) then [r.varint]
    else if r.LenRec? && r.num == 3 && DecodeVarints(r.data).Some? then DecodeVarints(r.data).value
    else []
  }

  function AllVictims(rs: seq<Record>): seq<uint64>
  {
    if rs == [] then [] else VictimsIn(rs[0]) + AllVictims(rs[1..])
  }

  function BuffUnknown(rs: seq<Record>): seq<Record>
  {
    if rs == [] then []
    else (if BuffKnows(rs[0]) then [] else [rs[0]]) + BuffUnknown(rs[1..])
  }

  predicate BuffAccepts(r: Record) { r.LenRec? && r.num == 3 ==> DecodeVarints(r.data).Some? }

  function BuffProjection(b: BuffMsg, rs: seq<Record>): BuffMsg
  {
    BuffMsg(LastVarint(rs, 1, b.buffId),
            LastFixed32(rs, 2, b.remainTime),
            b.victims + AllVictims(rs),
            b.unknown + BuffUnknown(rs))
  }

  function BuffsIn(r: Record): seq<BuffMsg>
  {
    if r.LenRec? && r.num == 4 && BuffParse(r.data).Some? then [BuffParse(r.data).value] else []
  }

  function AllBuffs(rs: seq<Record>): seq<BuffMsg>
  {
    if rs == [] then [] else BuffsIn(rs[0]) + AllBuffs(rs[1..])
  }

  function TestUnknown(rs: seq<Record>): seq<Record>
  {
    if rs == [] then []
    else (if TestKnows(rs[0]) then [] else [rs[0]]) + TestUnknown(rs[1..])
  }

  predicate TestAccepts(r: Record) { r.LenRec? && r.num == 4 ==> BuffParse(r.data).Some? }

  function TestProjection(t: TestMsg, rs: seq<Record>): TestMsg
  {
    TestMsg(LastVarint(rs, 1, t.id),
            LastVarint(rs, 2, t.hp) % TWO32,
            LastVarint(rs, 3, t.attack) % TWO32,
            t.buffs + AllBuffs(rs),
            t.unknown + TestUnknown(rs))
  }

  // Reading in order is the same as collecting every field on its own: the
  // last scalar wins, repeated entries line up in order, records the schema
  // does not know are kept in order, and how different fields are interleaved
  // does not matter.
  lemma {:induction false} BuffFoldIsProjection(b: BuffMsg, rs: seq<Record>)
    ensures BuffFold(b, rs) ==
            if forall r <- rs :: BuffAccepts(r) then Some(BuffProjection(b, rs)) else None
    decreases |rs|
  {
    if rs == [] {
      assert BuffProjection(b, rs) == b;
    } else {
      var r, rest := rs[0], rs[1..];
      assert rs == [r] + rest;
      match BuffApply(b, r)
      case None =>
        assert !BuffAccepts(rs[0]);
      case Some(b') =>
        BuffFoldIsProjection(b', rest);
        Assoc(b.victims, VictimsIn(r), AllVictims(rest));
        assert b.victims + [] == b.victims && b.unknown + [] == b.unknown;
        Assoc(b.unknown, if BuffKnows(r) then [] else [r], BuffUnknown(rest));
        assert BuffProjection(b', rest) == BuffProjection(b, rs);
    }
  }

  lemma {:induction false} TestFoldIsProjection(t: TestMsg, rs: seq<Record>)
    ensures TestFold(t, rs) ==
            if forall r <- rs :: TestAccepts(r) then Some(TestProjection(t, rs)) else None
    decreases |rs|
  {
    if rs == [] {
      assert TestProjection(t, rs) == t;
    } else {
      var r, rest := rs[0], rs[1..];
      assert rs == [r] + rest;
      match TestApply(t, r)
      case None =>
        assert !TestAccepts(rs[0]);
      case Some(t') =>
        TestFoldIsProjection(t', rest);
        Assoc(t.buffs, BuffsIn(r), AllBuffs(rest));
        assert t.buffs + [] == t.buffs && t.unknown + [] == t.unknown;
        Assoc(t.unknown, if TestKnows(r) then [] else [r], TestUnknown(rest));
        LastVarintTruncated(rest, 2, if IsVarint(r, 2) then r.varint else t.hp);
        LastVarintTruncated(rest, 3, if IsVarint(r, 3) then r.varint else t.attack);
        assert TestProjection(t', rest) == TestProjection(t, rs);
    }
  }

  lemma {:induction false} LastVarintTruncated(rs: seq<Record>, num: FieldNumber, before: uint64)
    ensures LastVarint(rs, num, before % TWO32) % TWO32 == LastVarint(rs, num, before) % TWO32
  {
    if rs != [] {
      LastVarintTruncated(rs[1..], num, if IsVarint(rs[0], num) then rs[0].varint else before);
      if !IsVarint(rs[0], num) {
      }
    }
  }
}
