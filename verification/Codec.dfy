/** The laws of the codec: printing and reading undo each other, reading is
    canonicalising, and concatenating prints is merging messages. */
module Codec {
  import opened Wire
  import opened Messages

  // MergeFrom: repeated fields and unknown fields are appended, a scalar of
  // the second message overrides unless it is zero.
  function BuffMerge(a: BuffMsg, b: BuffMsg): BuffMsg
  {
    BuffMsg(if b.buffId != 0 then b.buffId else a.buffId,
            if b.remainTime != 0 then b.remainTime else a.remainTime,
            a.victims + b.victims,
            a.unknown + b.unknown)
  }

  function TestMerge(a: TestMsg, b: TestMsg): TestMsg
  {
    TestMsg(if b.id != 0 then b.id else a.id,
            if b.hp != 0 then b.hp else a.hp,
            if b.attack != 0 then b.attack else a.attack,
            a.buffs + b.buffs,
            a.unknown + b.unknown)
  }

  // The unknown fields really are unknown: none matches an entry of the schema.
  predicate BuffOk(b: BuffMsg) { forall r <- b.unknown :: !BuffKnows(r) }

  predicate TestOk(t: TestMsg)
  {
    && (forall r <- t.unknown :: !TestKnows(r))
    && (forall b <- t.buffs :: BuffOk(b))
  }

  //////////////////////////////////////////////////////////////////////////
  // Projections distribute over concatenation
  //////////////////////////////////////////////////////////////////////////

  lemma {:induction false} LastVarintConcat(a: seq<Record>, c: seq<Record>, num: FieldNumber, x: uint64)
    ensures LastVarint(a + c, num, x) == LastVarint(c, num, LastVarint(a, num, x))
  {
    if a == [] {
      assert a + c == c;
    } else {
      ConcatTail(a, c);
      LastVarintConcat(a[1..], c, num, if IsVarint(a[0], num) then a[0].varint else x);
    }
  }

  lemma {:induction false} BuffConcat(a: seq<Record>, c: seq<Record>, x: uint32)
    ensures LastFixed32(a + c, 2, x) == LastFixed32(c, 2, LastFixed32(a, 2, x))
    ensures AllVictims(a + c) == AllVictims(a) + AllVictims(c)
    ensures BuffUnknown(a + c) == BuffUnknown(a) + BuffUnknown(c)
  {
    if a == [] {
      assert a + c == c;
    } else {
      ConcatTail(a, c);
      BuffConcat(a[1..], c, if a[0].Fixed32Rec? && a[0].num == 2 then a[0].bits32 else x);
      Assoc(VictimsIn(a[0]), AllVictims(a[1..]), AllVictims(c));
      Assoc(if BuffKnows(a[0]) then [] else [a[0]], BuffUnknown(a[1..]), BuffUnknown(c));
    }
  }

  lemma {:induction false} TestConcat(a: seq<Record>, c: seq<Record>)
    ensures AllBuffs(a + c) == AllBuffs(a) + AllBuffs(c)
    ensures TestUnknown(a + c) == TestUnknown(a) + TestUnknown(c)
  {
    if a == [] {
      assert a + c == c;
    } else {
      ConcatTail(a, c);
      TestConcat(a[1..], c);
      Assoc(BuffsIn(a[0]), AllBuffs(a[1..]), AllBuffs(c));
      Assoc(if TestKnows(a[0]) then [] else [a[0]], TestUnknown(a[1..]), TestUnknown(c));
    }
  }

  //////////////////////////////////////////////////////////////////////////
  // Unknown fields
  //////////////////////////////////////////////////////////////////////////

  lemma {:induction false} BuffUnknownInert(us: seq<Record>, x: uint64, y: uint32)
    requires forall r <- us :: !BuffKnows(r)
    ensures LastVarint(us, 1, x) == x && LastFixed32(us, 2, y) == y
    ensures AllVictims(us) == [] && BuffUnknown(us) == us
  {
    if us != [] {
      var u := us[0];
      assert !BuffKnows(u);
      assert us == [u] + us[1..];
      BuffUnknownInert(us[1..], x, y);
    }
  }

  lemma {:induction false} TestUnknownInert(us: seq<Record>, num: FieldNumber, x: uint64)
    requires num <= 3
    requires forall r <- us :: !TestKnows(r)
    ensures LastVarint(us, num, x) == x
    ensures AllBuffs(us) == [] && TestUnknown(us) == us
  {
    if us != [] {
      var u := us[0];
      assert !TestKnows(u);
      assert us == [u] + us[1..];
      TestUnknownInert(us[1..], num, x);
    }
  }

  // Filtering keeps only unknown records, and loses something whenever there
  // was a known one.
  lemma {:induction false} BuffUnknownFilters(rs: seq<Record>)
    ensures forall r <- BuffUnknown(rs) :: !BuffKnows(r)
    ensures |BuffUnknown(rs)| <= |rs|
    ensures (exists r <- rs :: BuffKnows(r)) ==> |BuffUnknown(rs)| < |rs|
  {
    if rs != [] {
      assert rs == [rs[0]] + rs[1..];
      BuffUnknownFilters(rs[1..]);
    }
  }

  lemma {:induction false} TestUnknownFilters(rs: seq<Record>)
    ensures forall r <- TestUnknown(rs) :: !TestKnows(r)
    ensures |TestUnknown(rs)| <= |rs|
    ensures (exists r <- rs :: TestKnows(r)) ==> |TestUnknown(rs)| < |rs|
  {
    if rs != [] {
      assert rs == [rs[0]] + rs[1..];
      TestUnknownFilters(rs[1..]);
    }
  }

  //////////////////////////////////////////////////////////////////////////
  // Round trip of BuffData
  //////////////////////////////////////////////////////////////////////////

  lemma VarintsStep(p: seq<byte>, v: uint64, rest: seq<byte>)
    requires p != [] && DecodeVarint(p + rest, 10) == Some(Read(v, |p|))
    requires DecodeVarints(rest).Some?
    ensures DecodeVarints(p + rest) == Some([v] + DecodeVarints(rest).value)
  {
    DropPrefix(p, rest);
    assert v % TWO64 == v;
  }

  lemma {:induction false} VarintsRoundTrip(vs: seq<uint64>)
    ensures DecodeVarints(EncodeVarints(vs)) == Some(vs)
  {
    if vs != [] {
      var v, rest := vs[0], EncodeVarints(vs[1..]);
      assert VarintLen(v) <= 10 by { VarintLen64(v); }
      VarintRoundTrip(v, rest, 10);
      VarintsRoundTrip(vs[1..]);
      VarintsStep(EncodeVarint(v), v, rest);
      assert [v] + vs[1..] == vs;
    }
  }

  function BuffHead(b: BuffMsg): seq<Record>
  {
    (if b.buffId != 0 then [VarintRec(1, b.buffId)] else [])
    + (if b.remainTime != 0 then [Fixed32Rec(2, b.remainTime)] else [])
    + (if b.victims != [] then [LenRec(3, EncodeVarints(b.victims))] else [])
  }

  lemma BuffHeadScalars(b: BuffMsg, x: uint64, y: uint32)
    ensures LastVarint(BuffHead(b), 1, x) == if b.buffId != 0 then b.buffId else x
    ensures LastFixed32(BuffHead(b), 2, y) == if b.remainTime != 0 then b.remainTime else y
  {
    var h1 := if b.buffId != 0 then [VarintRec(1, b.buffId)] else [];
    var h2 := if b.remainTime != 0 then [Fixed32Rec(2, b.remainTime)] else [];
    var h3 := if b.victims != [] then [LenRec(3, EncodeVarints(b.victims))] else [];
    LastVarintConcat(h1, h2, 1, x);
    LastVarintConcat(h1 + h2, h3, 1, x);
    BuffConcat(h1, h2, y);
    BuffConcat(h1 + h2, h3, y);
  }

  lemma BuffHeadAccepted(b: BuffMsg)
    ensures forall r <- BuffHead(b) :: BuffAccepts(r)
  {
    VarintsRoundTrip(b.victims);
  }

  lemma BuffHeadLists(b: BuffMsg)
    ensures AllVictims(BuffHead(b)) == b.victims && BuffUnknown(BuffHead(b)) == []
  {
    var h1 := if b.buffId != 0 then [VarintRec(1, b.buffId)] else [];
    var h2 := if b.remainTime != 0 then [Fixed32Rec(2, b.remainTime)] else [];
    var h3 := if b.victims != [] then [LenRec(3, EncodeVarints(b.victims))] else [];
    BuffConcat(h1, h2, 0);
    BuffConcat(h1 + h2, h3, 0);
    assert AllVictims(h3) == b.victims by { VarintsRoundTrip(b.victims); }
    assert AllVictims(h1) == [] && AllVictims(h2) == [];
    assert BuffUnknown(h1) == [] && BuffUnknown(h2) == [] && BuffUnknown(h3) == [];
  }

  // What reading the print of b on top of m does, whatever b's unknown fields.
  lemma BuffRecordsProjection(m: BuffMsg, b: BuffMsg)
    ensures (forall r <- BuffRecords(b) :: BuffAccepts(r)) <==> (forall r <- b.unknown :: BuffAccepts(r))
    ensures BuffUnknown(BuffRecords(b)) == BuffUnknown(b.unknown)
    ensures BuffOk(b) ==> BuffProjection(m, BuffRecords(b)) == BuffMerge(m, b)
  {
    BuffHeadScalars(b, m.buffId, m.remainTime);
    BuffHeadLists(b);
    BuffHeadAccepted(b);
    var h := BuffHead(b);
    assert BuffRecords(b) == h + b.unknown;
    BuffConcat(h, b.unknown, m.remainTime);
    LastVarintConcat(h, b.unknown, 1, m.buffId);
    if BuffOk(b) {
      BuffUnknownInert(b.unknown, LastVarint(h, 1, m.buffId), LastFixed32(h, 2, m.remainTime));
      assert b.victims + [] == b.victims;
    }
  }

  lemma BuffFoldRecords(m: BuffMsg, b: BuffMsg)
    requires BuffOk(b)
    ensures BuffFold(m, BuffRecords(b)) == Some(BuffMerge(m, b))
  {
    BuffRecordsProjection(m, b);
    BuffFoldIsProjection(m, BuffRecords(b));
    assert forall r <- b.unknown :: BuffAccepts(r);
  }

  // Printing a BuffData and reading it back gives it back exactly when no
  // unknown field of it poses as a field of the schema.
  lemma BuffRoundTrip(b: BuffMsg)
    requires |BuffSerialize(b)| <= INT_MAX
    ensures BuffParse(BuffSerialize(b)) == Some(b) <==> BuffOk(b)
  {
    SizedByTotal(BuffRecords(b));
    RecordsRoundTrip(BuffRecords(b));
    if BuffOk(b) {
      BuffFoldRecords(EMPTY_BUFF, b);
      BuffMergeIdentity(b);
    } else {
      BuffRecordsProjection(EMPTY_BUFF, b);
      BuffFoldIsProjection(EMPTY_BUFF, BuffRecords(b));
      BuffUnknownFilters(b.unknown);
    }
  }

  //////////////////////////////////////////////////////////////////////////
  // Round trip of S_TEST
  //////////////////////////////////////////////////////////////////////////

  lemma {:induction false} BuffEntriesInert(bs: seq<BuffMsg>, num: FieldNumber, x: uint64)
    ensures LastVarint(BuffEntries(bs), num, x) == x
    ensures TestUnknown(BuffEntries(bs)) == []
  {
    if bs != [] {
      var e := BuffEntries(bs);
      assert e[1..] == BuffEntries(bs[1..]);
      BuffEntriesInert(bs[1..], num, x);
    }
  }

  lemma {:induction false} BuffEntriesStep(bs: seq<BuffMsg>)
    requires bs != [] && |EncodeRecords(BuffEntries(bs))| <= INT_MAX
    ensures var r := LenRec(4, BuffSerialize(bs[0]));
            && BuffEntries(bs) == [r] + BuffEntries(bs[1..])
            && |EncodeRecords(BuffEntries(bs[1..]))| <= INT_MAX
            && |BuffSerialize(bs[0])| <= INT_MAX
            && AllBuffs(BuffEntries(bs)) == BuffsIn(r) + AllBuffs(BuffEntries(bs[1..]))
  {
    var e, r := BuffEntries(bs), LenRec(4, BuffSerialize(bs[0]));
    assert e[0] == r && e[1..] == BuffEntries(bs[1..]);
    assert |EncodeRecords(e)| == |r.Encode()| + |EncodeRecords(e[1..])|;
  }

  lemma EntryRead(b: BuffMsg)
    requires |BuffSerialize(b)| <= INT_MAX
    ensures BuffOk(b) ==> TestAccepts(LenRec(4, BuffSerialize(b)))
    ensures BuffsIn(LenRec(4, BuffSerialize(b))) == [b] <==> BuffOk(b)
  {
    BuffRoundTrip(b);
  }

  // Every nested message is read back on its own.
  lemma {:induction false} BuffEntriesRead(bs: seq<BuffMsg>)
    requires |EncodeRecords(BuffEntries(bs))| <= INT_MAX
    requires forall b <- bs :: BuffOk(b)
    ensures forall r <- BuffEntries(bs) :: TestAccepts(r)
    ensures AllBuffs(BuffEntries(bs)) == bs
  {
    if bs != [] {
      BuffEntriesStep(bs);
      EntryRead(bs[0]);
      BuffEntriesRead(bs[1..]);
      assert bs == [bs[0]] + bs[1..];
    }
  }

  lemma {:induction false} BuffEntriesReadOnlyIf(bs: seq<BuffMsg>)
    requires |EncodeRecords(BuffEntries(bs))| <= INT_MAX
    requires forall r <- BuffEntries(bs) :: TestAccepts(r)
    requires AllBuffs(BuffEntries(bs)) == bs
    ensures forall b <- bs :: BuffOk(b)
  {
    if bs != [] {
      BuffEntriesStep(bs);
      var r, rest := LenRec(4, BuffSerialize(bs[0])), BuffEntries(bs[1..]);
      assert TestAccepts(r) by { assert r in BuffEntries(bs); }
      assert AllBuffs(rest) == bs[1..] by { DropPrefix(BuffsIn(r), AllBuffs(rest)); }
      assert BuffsIn(r)[0] == bs[0];
      EntryRead(bs[0]);
      BuffEntriesReadOnlyIf(bs[1..]);
      assert bs == [bs[0]] + bs[1..];
    }
  }

  function TestHead(t: TestMsg): seq<Record>
  {
    (if t.id != 0 then [VarintRec(1, t.id)] else [])
    + (if t.hp != 0 then [VarintRec(2, t.hp)] else [])
    + (if t.attack != 0 then [VarintRec(3, t.attack)] else [])
  }

  lemma TestHeadScalars(t: TestMsg, num: FieldNumber, x: uint64)
    ensures LastVarint(TestHead(t), num, x) ==
            if num == 1 && t.id != 0 then t.id
            else if num == 2 && t.hp != 0 then t.hp
            else if num == 3 && t.attack != 0 then t.attack
            else x
  {
    var h1 := if t.id != 0 then [VarintRec(1, t.id)] else [];
    var h2 := if t.hp != 0 then [VarintRec(2, t.hp)] else [];
    var h3 := if t.attack != 0 then [VarintRec(3, t.attack)] else [];
    LastVarintConcat(h1, h2, num, x);
    LastVarintConcat(h1 + h2, h3, num, x);
  }

  lemma {:induction false} ScalarLists(rs: seq<Record>)
    requires forall r <- rs :: r.VarintRec? && r.num <= 3
    ensures forall r <- rs :: TestAccepts(r)
    ensures AllBuffs(rs) == [] && TestUnknown(rs) == []
  {
    if rs != [] {
      assert rs[0] in rs && rs[0].VarintRec?;
      ScalarLists(rs[1..]);
    }
  }

  lemma TestRecordsLastVarint(t: TestMsg, num: FieldNumber, x: uint64)
    requires num <= 3
    ensures LastVarint(TestRecords(t), num, x) == LastVarint(t.unknown, num, LastVarint(TestHead(t), num, x))
  {
    var h, e := TestHead(t), BuffEntries(t.buffs);
    assert TestRecords(t) == h + e + t.unknown;
    LastVarintConcat(h + e, t.unknown, num, x);
    LastVarintConcat(h, e, num, x);
    BuffEntriesInert(t.buffs, num, LastVarint(h, num, x));
  }

  lemma TestRecordsLists(t: TestMsg)
    ensures AllBuffs(TestRecords(t)) == AllBuffs(BuffEntries(t.buffs)) + AllBuffs(t.unknown)
    ensures TestUnknown(TestRecords(t)) == TestUnknown(t.unknown)
    ensures (forall r <- TestRecords(t) :: TestAccepts(r)) <==>
            (forall r <- BuffEntries(t.buffs) :: TestAccepts(r)) && (forall r <- t.unknown :: TestAccepts(r))
  {
    var h, e := TestHead(t), BuffEntries(t.buffs);
    assert TestRecords(t) == h + e + t.unknown;
    TestConcat(h + e, t.unknown);
    TestConcat(h, e);
    ScalarLists(h);
    BuffEntriesInert(t.buffs, 1, 0);
    assert [] + AllBuffs(e) == AllBuffs(e) && [] + TestUnknown(t.unknown) == TestUnknown(t.unknown);
  }

  lemma EntriesFit(t: TestMsg)
    requires |TestSerialize(t)| <= INT_MAX
    ensures |EncodeRecords(BuffEntries(t.buffs))| <= INT_MAX
    ensures AllSized(TestRecords(t))
  {
    SizedByTotal(TestRecords(t));
    var h, e := TestHead(t), BuffEntries(t.buffs);
    assert TestRecords(t) == h + e + t.unknown;
    EncodeRecordsConcat(h + e, t.unknown);
    EncodeRecordsConcat(h, e);
  }

  lemma TestRecordsScalars(m: TestMsg, t: TestMsg)
    requires TestOk(t)
    ensures LastVarint(TestRecords(t), 1, m.id) == TestMerge(m, t).id
    ensures LastVarint(TestRecords(t), 2, m.hp) == TestMerge(m, t).hp
    ensures LastVarint(TestRecords(t), 3, m.attack) == TestMerge(m, t).attack
  {
    TestHeadScalars(t, 1, m.id);
    TestHeadScalars(t, 2, m.hp);
    TestHeadScalars(t, 3, m.attack);
    TestRecordsLastVarint(t, 1, m.id);
    TestRecordsLastVarint(t, 2, m.hp);
    TestRecordsLastVarint(t, 3, m.attack);
    TestUnknownInert(t.unknown, 1, LastVarint(TestHead(t), 1, m.id));
    TestUnknownInert(t.unknown, 2, LastVarint(TestHead(t), 2, m.hp));
    TestUnknownInert(t.unknown, 3, LastVarint(TestHead(t), 3, m.attack));
  }

  lemma FoldFromParts(m: TestMsg, g: TestMsg, rs: seq<Record>)
    requires forall r <- rs :: TestAccepts(r)
    requires m.buffs + AllBuffs(rs) == g.buffs && m.unknown + TestUnknown(rs) == g.unknown
    requires LastVarint(rs, 1, m.id) == g.id
    requires LastVarint(rs, 2, m.hp) == g.hp
    requires LastVarint(rs, 3, m.attack) == g.attack
    ensures TestFold(m, rs) == Some(g)
  {
    Truncates(g.hp);
    Truncates(g.attack);
    assert TestProjection(m, rs) == g;
    TestFoldIsProjection(m, rs);
  }

  lemma Truncates(v: uint32)
    ensures v % TWO32 == v
  {
  }

  lemma TestFoldRecords(m: TestMsg, t: TestMsg)
    requires TestOk(t)
    requires |TestSerialize(t)| <= INT_MAX
    ensures TestFold(m, TestRecords(t)) == Some(TestMerge(m, t))
  {
    EntriesFit(t);
    BuffEntriesRead(t.buffs);
    TestUnknownInert(t.unknown, 1, 0);
    assert t.buffs + [] == t.buffs;
    TestRecordsLists(t);
    assert forall r <- t.unknown :: TestAccepts(r);
    TestRecordsScalars(m, t);
    FoldFromParts(m, TestMerge(m, t), TestRecords(t));
  }

  lemma TestRoundTripIf(t: TestMsg)
    requires |TestSerialize(t)| <= INT_MAX
    requires TestOk(t)
    ensures TestParse(TestSerialize(t)) == Some(t)
  {
    EntriesFit(t);
    RecordsRoundTrip(TestRecords(t));
    TestFoldRecords(EMPTY_TEST, t);
    TestMergeIdentity(t);
  }

  // Reading back the lists of a message leaves them alone only if nothing in
  // them was misfiled.
  lemma ListsUnchangedOnlyIf(t: TestMsg, rs: seq<Record>)
    requires rs == TestRecords(t)
    requires |EncodeRecords(BuffEntries(t.buffs))| <= INT_MAX
    requires forall r <- rs :: TestAccepts(r)
    requires AllBuffs(rs) == t.buffs && TestUnknown(rs) == t.unknown
    ensures TestOk(t)
  {
    TestRecordsLists(t);
    TestUnknownFilters(t.unknown);
    TestUnknownInert(t.unknown, 1, 0);
    var e := BuffEntries(t.buffs);
    assert AllBuffs(e) + [] == AllBuffs(e);
    BuffEntriesReadOnlyIf(t.buffs);
  }

  lemma TestRoundTripOnlyIf(t: TestMsg)
    requires |TestSerialize(t)| <= INT_MAX
    requires TestParse(TestSerialize(t)) == Some(t)
    ensures TestOk(t)
  {
    var rs := TestRecords(t);
    EntriesFit(t);
    RecordsRoundTrip(rs);
    TestFoldIsProjection(EMPTY_TEST, rs);
    assert [] + AllBuffs(rs) == AllBuffs(rs) && [] + TestUnknown(rs) == TestUnknown(rs);
    ListsUnchangedOnlyIf(t, rs);
  }

  // The round trip of a whole packet: it is an identity exactly on the
  // messages whose unknown fields, at either level, match no schema entry.
  lemma TestRoundTrip(t: TestMsg)
    requires |TestSerialize(t)| <= INT_MAX
    ensures TestParse(TestSerialize(t)) == Some(t) <==> TestOk(t)
  {
    if TestOk(t) { TestRoundTripIf(t); }
    if TestParse(TestSerialize(t)) == Some(t) { TestRoundTripOnlyIf(t); }
  }

  //////////////////////////////////////////////////////////////////////////
  // Canonicalisation
  //////////////////////////////////////////////////////////////////////////

  lemma BuffParseOk(s: seq<byte>)
    requires BuffParse(s).Some?
    ensures BuffOk(BuffParse(s).value)
  {
    var rs := DecodeRecords(s).value;
    BuffFoldIsProjection(EMPTY_BUFF, rs);
    BuffUnknownFilters(rs);
  }

  lemma {:induction false} AllBuffsOk(rs: seq<Record>)
    ensures forall b <- AllBuffs(rs) :: BuffOk(b)
  {
    if rs != [] {
      if rs[0].LenRec? && BuffParse(rs[0].data).Some? { BuffParseOk(rs[0].data); }
      AllBuffsOk(rs[1..]);
    }
  }

  // A message that was read has only genuine unknown fields.
  lemma TestParseOk(s: seq<byte>)
    requires TestParse(s).Some?
    ensures TestOk(TestParse(s).value)
  {
    var rs := DecodeRecords(s).value;
    TestFoldIsProjection(EMPTY_TEST, rs);
    TestUnknownFilters(rs);
    AllBuffsOk(rs);
  }

  // Whatever accepted bytes came in - overlong varints, repeated scalars,
  // explicit zeros, fields in any order, unpacked victims, unknown fields in
  // between - printing what was read and reading it again changes nothing,
  // and the printed form is a fixed point.
  lemma Canonicalisation(s: seq<byte>)
    requires TestParse(s).Some?
    requires |TestSerialize(TestParse(s).value)| <= INT_MAX
    ensures var canon := TestSerialize(TestParse(s).value);
            && TestParse(canon) == TestParse(s)
            && TestSerialize(TestParse(canon).value) == canon
  {
    TestParseOk(s);
    TestRoundTrip(TestParse(s).value);
  }

  //////////////////////////////////////////////////////////////////////////
  // Merging
  //////////////////////////////////////////////////////////////////////////

  lemma BuffMergeIdentity(b: BuffMsg)
    ensures BuffMerge(EMPTY_BUFF, b) == b && BuffMerge(b, EMPTY_BUFF) == b
  {
    assert b.victims + [] == b.victims && [] + b.victims == b.victims;
    assert b.unknown + [] == b.unknown && [] + b.unknown == b.unknown;
  }

  lemma TestMergeIdentity(t: TestMsg)
    ensures TestMerge(EMPTY_TEST, t) == t && TestMerge(t, EMPTY_TEST) == t
  {
    assert t.buffs + [] == t.buffs && [] + t.buffs == t.buffs;
    assert t.unknown + [] == t.unknown && [] + t.unknown == t.unknown;
  }

  lemma BuffMergeAssociative(a: BuffMsg, b: BuffMsg, c: BuffMsg)
    ensures BuffMerge(BuffMerge(a, b), c) == BuffMerge(a, BuffMerge(b, c))
  {
    Assoc(a.victims, b.victims, c.victims);
    Assoc(a.unknown, b.unknown, c.unknown);
  }

  lemma TestMergeAssociative(a: TestMsg, b: TestMsg, c: TestMsg)
    ensures TestMerge(TestMerge(a, b), c) == TestMerge(a, TestMerge(b, c))
  {
    Assoc(a.buffs, b.buffs, c.buffs);
    Assoc(a.unknown, b.unknown, c.unknown);
  }

  lemma {:induction false} TestFoldConcat(t: TestMsg, a: seq<Record>, c: seq<Record>)
    ensures TestFold(t, a + c) ==
            match TestFold(t, a)
            case None => None
            case Some(t') => TestFold(t', c)
    decreases |a|
  {
    if a == [] {
      assert a + c == c;
    } else {
      ConcatTail(a, c);
      if TestApply(t, a[0]).Some? { TestFoldConcat(TestApply(t, a[0]).value, a[1..], c); }
    }
  }

  // Reading two accepted strings in a row is reading the second on top of
  // what the first left.
  lemma ParseConcat(s: seq<byte>, u: seq<byte>)
    requires TestParse(s).Some?
    ensures TestParse(s + u) == TestParseFrom(TestParse(s).value, u)
  {
    DecodeRecordsConcat(s, u);
    if DecodeRecords(u).Some? {
      TestFoldConcat(EMPTY_TEST, DecodeRecords(s).value, DecodeRecords(u).value);
    }
  }

  // Two prints in a row are the records of both messages in a row.
  lemma PrintsInARow(a: seq<Record>, b: seq<Record>)
    requires AllSized(a) && AllSized(b)
    ensures DecodeRecords(EncodeRecords(a) + EncodeRecords(b)) == Some(a + b)
  {
    RecordsRoundTrip(a);
    RecordsRoundTrip(b);
    DecodeRecordsConcat(EncodeRecords(a), EncodeRecords(b));
  }

  lemma ConcatenationIsMergeIf(a: TestMsg, b: TestMsg)
    requires TestOk(a) && TestOk(b)
    requires |TestSerialize(a)| <= INT_MAX && |TestSerialize(b)| <= INT_MAX
    ensures TestParse(TestSerialize(a) + TestSerialize(b)) == Some(TestMerge(a, b))
  {
    TestRoundTrip(a);
    ParseConcat(TestSerialize(a), TestSerialize(b));
    EntriesFit(b);
    RecordsRoundTrip(TestRecords(b));
    TestFoldRecords(a, b);
  }

  // Every accepted nested record gives one message.
  lemma {:induction false} EntriesCount(bs: seq<BuffMsg>)
    requires forall r <- BuffEntries(bs) :: TestAccepts(r)
    ensures |AllBuffs(BuffEntries(bs))| == |bs|
  {
    if bs != [] {
      var e := BuffEntries(bs);
      assert e[0] in e && e[1..] == BuffEntries(bs[1..]);
      EntriesCount(bs[1..]);
    }
  }

  // If the lists of both messages come back in a row, nothing in either was
  // misfiled.
  lemma ListsInARow(a: TestMsg, b: TestMsg)
    requires |TestSerialize(a)| <= INT_MAX && |TestSerialize(b)| <= INT_MAX
    requires forall r <- TestRecords(a) + TestRecords(b) :: TestAccepts(r)
    requires AllBuffs(TestRecords(a)) + AllBuffs(TestRecords(b)) == a.buffs + b.buffs
    requires TestUnknown(TestRecords(a)) + TestUnknown(TestRecords(b)) == a.unknown + b.unknown
    ensures TestOk(a) && TestOk(b)
  {
    var ra, rb := TestRecords(a), TestRecords(b);
    UnknownCount(a, b);
    assert (forall r <- ra :: TestAccepts(r)) && forall r <- rb :: TestAccepts(r) by {
      assert forall r <- ra :: r in ra + rb;
      assert forall r <- rb :: r in ra + rb;
    }
    BuffsCount(a);
    BuffsCount(b);
    CutEqual(AllBuffs(ra), AllBuffs(rb), a.buffs, b.buffs);
    CutEqual(TestUnknown(ra), TestUnknown(rb), a.unknown, b.unknown);
    EntriesFit(a);
    EntriesFit(b);
    ListsUnchangedOnlyIf(a, ra);
    ListsUnchangedOnlyIf(b, rb);
  }

  lemma CutEqual<T>(a: seq<T>, b: seq<T>, c: seq<T>, d: seq<T>)
    requires a + b == c + d && |a| == |c|
    ensures a == c && b == d
  {
    DropPrefix(a, b);
    DropPrefix(c, d);
    assert (a + b)[..|a|] == a && (c + d)[..|c|] == c;
  }

  // Known records among the unknown fields would make the list shorter.
  lemma UnknownCount(a: TestMsg, b: TestMsg)
    requires TestUnknown(TestRecords(a)) + TestUnknown(TestRecords(b)) == a.unknown + b.unknown
    ensures |TestUnknown(TestRecords(a))| == |a.unknown| && |TestUnknown(TestRecords(b))| == |b.unknown|
    ensures forall r <- a.unknown + b.unknown :: !TestKnows(r)
  {
    TestRecordsLists(a);
    TestRecordsLists(b);
    TestUnknownFilters(a.unknown);
    TestUnknownFilters(b.unknown);
    assert |TestUnknown(TestRecords(a))| + |TestUnknown(TestRecords(b))| == |a.unknown| + |b.unknown|;
  }

  lemma BuffsCount(t: TestMsg)
    requires forall r <- t.unknown :: !TestKnows(r)
    requires forall r <- TestRecords(t) :: TestAccepts(r)
    ensures |AllBuffs(TestRecords(t))| == |t.buffs|
  {
    TestRecordsLists(t);
    TestUnknownInert(t.unknown, 1, 0);
    EntriesCount(t.buffs);
  }

  // The lists of the message that two lists of records in a row denote.
  lemma FoldedLists(ra: seq<Record>, rb: seq<Record>)
    requires TestFold(EMPTY_TEST, ra + rb).Some?
    ensures forall r <- ra + rb :: TestAccepts(r)
    ensures TestFold(EMPTY_TEST, ra + rb).value.buffs == AllBuffs(ra) + AllBuffs(rb)
    ensures TestFold(EMPTY_TEST, ra + rb).value.unknown == TestUnknown(ra) + TestUnknown(rb)
  {
    TestFoldIsProjection(EMPTY_TEST, ra + rb);
    TestConcat(ra, rb);
    var bs, us := AllBuffs(ra) + AllBuffs(rb), TestUnknown(ra) + TestUnknown(rb);
    assert [] + bs == bs && [] + us == us;
  }

  // Concatenating two prints is merging the two messages, exactly when both
  // have only genuine unknown fields.
  lemma ConcatenationIsMerge(a: TestMsg, b: TestMsg)
    requires |TestSerialize(a)| <= INT_MAX && |TestSerialize(b)| <= INT_MAX
    ensures TestParse(TestSerialize(a) + TestSerialize(b)) == Some(TestMerge(a, b)) <==> TestOk(a) && TestOk(b)
  {
    if TestOk(a) && TestOk(b) { ConcatenationIsMergeIf(a, b); }
    if TestParse(TestSerialize(a) + TestSerialize(b)) == Some(TestMerge(a, b)) {
      var ra, rb := TestRecords(a), TestRecords(b);
      EntriesFit(a);
      EntriesFit(b);
      PrintsInARow(ra, rb);
      FoldedLists(ra, rb);
      ListsInARow(a, b);
    }
  }

  lemma {:induction false} BuffFoldConcat(b: BuffMsg, a: seq<Record>, c: seq<Record>)
    ensures BuffFold(b, a + c) ==
            match BuffFold(b, a)
            case None => None
            case Some(b') => BuffFold(b', c)
    decreases |a|
  {
    if a == [] {
      assert a + c == c;
    } else {
      ConcatTail(a, c);
      if BuffApply(b, a[0]).Some? { BuffFoldConcat(BuffApply(b, a[0]).value, a[1..], c); }
    }
  }

  lemma BuffParseConcat(s: seq<byte>, u: seq<byte>)
    requires BuffParse(s).Some?
    ensures BuffParse(s + u) == BuffParseFrom(BuffParse(s).value, u)
  {
    DecodeRecordsConcat(s, u);
    if DecodeRecords(u).Some? {
      BuffFoldConcat(EMPTY_BUFF, DecodeRecords(s).value, DecodeRecords(u).value);
    }
  }

  lemma BuffConcatenationIsMergeIf(a: BuffMsg, b: BuffMsg)
    requires BuffOk(a) && BuffOk(b)
    requires |BuffSerialize(a)| <= INT_MAX && |BuffSerialize(b)| <= INT_MAX
    ensures BuffParse(BuffSerialize(a) + BuffSerialize(b)) == Some(BuffMerge(a, b))
  {
    BuffRoundTrip(a);
    BuffParseConcat(BuffSerialize(a), BuffSerialize(b));
    SizedByTotal(BuffRecords(b));
    RecordsRoundTrip(BuffRecords(b));
    BuffFoldRecords(a, b);
  }

  lemma BuffUnknownCount(a: BuffMsg, b: BuffMsg)
    requires BuffUnknown(BuffRecords(a)) + BuffUnknown(BuffRecords(b)) == a.unknown + b.unknown
    ensures BuffOk(a) && BuffOk(b)
  {
    BuffRecordsProjection(EMPTY_BUFF, a);
    BuffRecordsProjection(EMPTY_BUFF, b);
    BuffUnknownFilters(a.unknown);
    BuffUnknownFilters(b.unknown);
    assert |BuffUnknown(BuffRecords(a))| + |BuffUnknown(BuffRecords(b))| == |a.unknown| + |b.unknown|;
  }

  // The same for BuffData.
  lemma BuffConcatenationIsMerge(a: BuffMsg, b: BuffMsg)
    requires |BuffSerialize(a)| <= INT_MAX && |BuffSerialize(b)| <= INT_MAX
    ensures BuffParse(BuffSerialize(a) + BuffSerialize(b)) == Some(BuffMerge(a, b)) <==> BuffOk(a) && BuffOk(b)
  {
    if BuffOk(a) && BuffOk(b) { BuffConcatenationIsMergeIf(a, b); }
    if BuffParse(BuffSerialize(a) + BuffSerialize(b)) == Some(BuffMerge(a, b)) {
      var ra, rb := BuffRecords(a), BuffRecords(b);
      SizedByTotal(ra);
      SizedByTotal(rb);
      PrintsInARow(ra, rb);
      BuffFoldIsProjection(EMPTY_BUFF, ra + rb);
      BuffConcat(ra, rb, 0);
      var us := BuffUnknown(ra) + BuffUnknown(rb);
      assert [] + us == us;
      BuffUnknownCount(a, b);
    }
  }

  predicate Mentions(rs: seq<Record>, num: FieldNumber) { exists r <- rs :: IsVarint(r, num) }

  // The records end up writing an explicit zero to field num.
  predicate ZeroesUint64(rs: seq<Record>, num: FieldNumber) { Mentions(rs, num) && LastVarint(rs, num, 0) == 0 }

  predicate ZeroesUint32(rs: seq<Record>, num: FieldNumber)
  {
    Mentions(rs, num) && LastVarint(rs, num, 0) % TWO32 == 0
  }

  lemma {:induction false} LastVarintDefault(rs: seq<Record>, num: FieldNumber, x: uint64)
    ensures LastVarint(rs, num, x) == if Mentions(rs, num) then LastVarint(rs, num, 0) else x
  {
    if rs != [] {
      var r, rest := rs[0], rs[1..];
      assert rs == [r] + rest;
      LastVarintDefault(rest, num, x);
      if IsVarint(r, num) {
        assert Mentions(rs, num);
        LastVarintDefault(rest, num, r.varint);
      }
    }
  }

  // The second string leaves alone, or overwrites with something else than
  // zero, every scalar that the first one set.
  predicate KeepsScalars(a: TestMsg, rs: seq<Record>)
  {
    && (a.id != 0 ==> !ZeroesUint64(rs, 1))
    && (a.hp != 0 ==> !ZeroesUint32(rs, 2))
    && (a.attack != 0 ==> !ZeroesUint32(rs, 3))
  }

  lemma ScalarIsMergeIff(rs: seq<Record>, num: FieldNumber, x: uint32)
    ensures LastVarint(rs, num, x) % TWO32
              == (if LastVarint(rs, num, 0) % TWO32 != 0 then LastVarint(rs, num, 0) % TWO32 else x)
       <==> (x != 0 ==> !ZeroesUint32(rs, num))
  {
    LastVarintDefault(rs, num, x);
    LastVarintDefault(rs, num, 0);
    assert x % TWO32 == x;
  }

  lemma ProjectionIsMergeIff(a: TestMsg, rs: seq<Record>)
    ensures TestProjection(a, rs) == TestMerge(a, TestProjection(EMPTY_TEST, rs)) <==> KeepsScalars(a, rs)
  {
    var p, b := TestProjection(a, rs), TestProjection(EMPTY_TEST, rs);
    var m := TestMerge(a, b);
    LastVarintDefault(rs, 1, a.id);
    LastVarintDefault(rs, 1, 0);
    assert p.id == m.id <==> (a.id != 0 ==> !ZeroesUint64(rs, 1));
    ScalarIsMergeIff(rs, 2, a.hp);
    assert p.hp == m.hp <==> (a.hp != 0 ==> !ZeroesUint32(rs, 2));
    ScalarIsMergeIff(rs, 3, a.attack);
    assert p.attack == m.attack <==> (a.attack != 0 ==> !ZeroesUint32(rs, 3));
    assert b.buffs == AllBuffs(rs) && b.unknown == TestUnknown(rs);
  }

  // On arbitrary accepted bytes the law can fail: a merge skips a zero scalar
  // while an explicit zero on the wire overwrites.  It holds exactly when no
  // scalar that the first string left nonzero is zeroed by the second.
  lemma ConcatenationIsMergeIff(s: seq<byte>, u: seq<byte>)
    requires TestParse(s).Some? && TestParse(u).Some?
    ensures TestParse(s + u) == Some(TestMerge(TestParse(s).value, TestParse(u).value))
       <==> KeepsScalars(TestParse(s).value, DecodeRecords(u).value)
  {
    var a, rs := TestParse(s).value, DecodeRecords(u).value;
    ParseConcat(s, u);
    TestFoldIsProjection(a, rs);
    TestFoldIsProjection(EMPTY_TEST, rs);
    ProjectionIsMergeIff(a, rs);
  }

  // The same for BuffData, whose remainTime is a fixed 32-bit record.
  predicate IsFixed32(r: Record, num: FieldNumber) { r.Fixed32Rec? && r.num == num }

  predicate MentionsFixed32(rs: seq<Record>, num: FieldNumber) { exists r <- rs :: IsFixed32(r, num) }

  predicate ZeroesFixed32(rs: seq<Record>, num: FieldNumber)
  {
    MentionsFixed32(rs, num) && LastFixed32(rs, num, 0) == 0
  }

  predicate BuffKeepsScalars(a: BuffMsg, rs: seq<Record>)
  {
    && (a.buffId != 0 ==> !ZeroesUint64(rs, 1))
    && (a.remainTime != 0 ==> !ZeroesFixed32(rs, 2))
  }

  lemma {:induction false} LastFixed32Default(rs: seq<Record>, num: FieldNumber, x: uint32)
    ensures LastFixed32(rs, num, x) == if MentionsFixed32(rs, num) then LastFixed32(rs, num, 0) else x
  {
    if rs != [] {
      var r, rest := rs[0], rs[1..];
      assert rs == [r] + rest;
      LastFixed32Default(rest, num, x);
      if IsFixed32(r, num) {
        assert MentionsFixed32(rs, num);
        LastFixed32Default(rest, num, r.bits32);
      }
    }
  }

  lemma BuffProjectionIsMergeIff(a: BuffMsg, rs: seq<Record>)
    ensures BuffProjection(a, rs) == BuffMerge(a, BuffProjection(EMPTY_BUFF, rs)) <==> BuffKeepsScalars(a, rs)
  {
    var p, b := BuffProjection(a, rs), BuffProjection(EMPTY_BUFF, rs);
    var m := BuffMerge(a, b);
    LastVarintDefault(rs, 1, a.buffId);
    LastVarintDefault(rs, 1, 0);
    assert p.buffId == m.buffId <==> (a.buffId != 0 ==> !ZeroesUint64(rs, 1));
    LastFixed32Default(rs, 2, a.remainTime);
    LastFixed32Default(rs, 2, 0);
    assert p.remainTime == m.remainTime <==> (a.remainTime != 0 ==> !ZeroesFixed32(rs, 2));
    assert b.victims == AllVictims(rs) && b.unknown == BuffUnknown(rs);
  }

  lemma BuffConcatenationIsMergeIff(s: seq<byte>, u: seq<byte>)
    requires BuffParse(s).Some? && BuffParse(u).Some?
    ensures BuffParse(s + u) == Some(BuffMerge(BuffParse(s).value, BuffParse(u).value))
       <==> BuffKeepsScalars(BuffParse(s).value, DecodeRecords(u).value)
  {
    var a, rs := BuffParse(s).value, DecodeRecords(u).value;
    BuffParseConcat(s, u);
    BuffFoldIsProjection(a, rs);
    BuffFoldIsProjection(EMPTY_BUFF, rs);
    BuffProjectionIsMergeIff(a, rs);
  }

  // A remainTime followed by an explicit zero one is cleared, not kept.
  lemma BuffExplicitZeroIsNotMerge(bits: uint32)
    requires bits != 0
    ensures var s, u := EncodeRecords([Fixed32Rec(2, bits)]), EncodeRecords([Fixed32Rec(2, 0)]);
            && BuffParse(s) == Some(EMPTY_BUFF.(remainTime := bits))
            && BuffParse(u) == Some(EMPTY_BUFF)
            && BuffParse(s + u) == Some(EMPTY_BUFF)
            && BuffMerge(EMPTY_BUFF.(remainTime := bits), EMPTY_BUFF).remainTime == bits
  {
    var s, u := [Fixed32Rec(2, bits)], [Fixed32Rec(2, 0)];
    RecordsRoundTrip(s);
    RecordsRoundTrip(u);
    BuffFoldRecord(EMPTY_BUFF, s[0]);
    BuffFoldRecord(EMPTY_BUFF, u[0]);
    BuffFoldRecord(EMPTY_BUFF.(remainTime := bits), u[0]);
    BuffParseConcat(EncodeRecords(s), EncodeRecords(u));
  }

  lemma BuffFoldRecord(b: BuffMsg, r: Record)
    ensures BuffFold(b, [r]) == BuffApply(b, r)
  {
    var rs := [r];
    assert rs[0] == r && rs[1..] == [];
  }

  // The failing case is real: id = 5 followed by an explicit id = 0.
  lemma ExplicitZeroIsNotMerge()
    ensures TestParse([8, 5]) == Some(EMPTY_TEST.(id := 5))
    ensures TestParse([8, 0]) == Some(EMPTY_TEST)
    ensures TestParse([8, 5] + [8, 0]) == Some(EMPTY_TEST)
    ensures TestMerge(EMPTY_TEST.(id := 5), EMPTY_TEST).id == 5
  {
    IdRecord(5);
    IdRecord(0);
    ParseConcat([8, 5], [8, 0]);
    TestFoldRecord(EMPTY_TEST, VarintRec(1, 5));
    TestFoldRecord(EMPTY_TEST, VarintRec(1, 0));
    TestFoldRecord(EMPTY_TEST.(id := 5), VarintRec(1, 0));
  }

  lemma IdRecord(v: byte)
    requires v < 128
    ensures DecodeRecords([8, v]) == Some([VarintRec(1, v)])
  {
    var rs := [VarintRec(1, v)];
    RecordsRoundTrip(rs);
    assert EncodeVarint(8) == [8] && EncodeVarint(v) == [v];
    assert [8] + [v] == [8, v];
    assert rs[0].Encode() == [8, v];
    assert EncodeRecords(rs[1..]) == [];
    assert EncodeRecords(rs) == [8, v];
  }

  lemma TestFoldRecord(t: TestMsg, r: Record)
    ensures TestFold(t, [r]) == TestApply(t, r)
  {
    var rs := [r];
    assert rs[0] == r && rs[1..] == [];
  }

  //////////////////////////////////////////////////////////////////////////
  // Packed and unpacked victims
  //////////////////////////////////////////////////////////////////////////

  // A piece of a BuffData on the wire: one unpacked victim, a packed run of
  // victims (possibly empty), or a record that is not about victims.
  datatype Piece = One(victim: uint64) | Packed(run: seq<uint64>) | Other(rec: Record)

  predicate AboutVictims(r: Record) { r.num == 3 && (r.VarintRec? || r.LenRec?) }

  predicate ProperPieces(ps: seq<Piece>) { forall p <- ps :: p.Other? ==> !AboutVictims(p.rec) }

  function PieceRecord(p: Piece): Record
  {
    match p
    case One(v) => VarintRec(3, v)
    case Packed(vs) => LenRec(3, EncodeVarints(vs))
    case Other(r) => r
  }

  function PieceRecords(ps: seq<Piece>): seq<Record>
  {
    if ps == [] then [] else [PieceRecord(ps[0])] + PieceRecords(ps[1..])
  }

  function PieceVictims(ps: seq<Piece>): seq<uint64>
  {
    if ps == [] then []
    else
      (match ps[0]
       case One(v) => [v]
       case Packed(vs) => vs
       case Other(_) => [])
      + PieceVictims(ps[1..])
  }

  function Others(ps: seq<Piece>): seq<Record>
  {
    if ps == [] then [] else (if ps[0].Other? then [ps[0].rec] else []) + Others(ps[1..])
  }

  lemma {:induction false} PiecesProject(ps: seq<Piece>, x: uint64, y: uint32)
    requires ProperPieces(ps)
    ensures AllVictims(PieceRecords(ps)) == PieceVictims(ps)
    ensures LastVarint(PieceRecords(ps), 1, x) == LastVarint(Others(ps), 1, x)
    ensures LastFixed32(PieceRecords(ps), 2, y) == LastFixed32(Others(ps), 2, y)
    ensures BuffUnknown(PieceRecords(ps)) == BuffUnknown(Others(ps))
    ensures AllVictims(Others(ps)) == []
    ensures forall r <- PieceRecords(ps) :: BuffAccepts(r)
    ensures forall r <- Others(ps) :: BuffAccepts(r)
  {
    if ps != [] {
      var p, rest := ps[0], ps[1..];
      var r := PieceRecord(p);
      assert ps == [p] + rest;
      assert PieceRecords(ps)[0] == r && PieceRecords(ps)[1..] == PieceRecords(rest);
      if p.Packed? { VarintsRoundTrip(p.run); }
      if p.Other? {
        assert Others(ps)[0] == r && Others(ps)[1..] == Others(rest);
      } else {
        assert Others(ps) == Others(rest);
      }
      PiecesProject(rest, if IsVarint(r, 1) then r.varint else x,
                          if r.Fixed32Rec? && r.num == 2 then r.bits32 else y);
    }
  }

  // However a victims list is cut into packed runs and single entries, and
  // however those are interleaved with the other records, the message read is
  // the one the other records denote, with exactly that list of victims.
  lemma PackedAndUnpackedAgree(ps: seq<Piece>)
    requires ProperPieces(ps)
    requires AllSized(PieceRecords(ps)) && AllSized(Others(ps))
    ensures BuffParse(EncodeRecords(Others(ps))).Some?
    ensures BuffParse(EncodeRecords(PieceRecords(ps))) ==
            Some(BuffParse(EncodeRecords(Others(ps))).value.(victims := PieceVictims(ps)))
  {
    RecordsRoundTrip(PieceRecords(ps));
    RecordsRoundTrip(Others(ps));
    BuffFoldIsProjection(EMPTY_BUFF, PieceRecords(ps));
    BuffFoldIsProjection(EMPTY_BUFF, Others(ps));
    PiecesProject(ps, 0, 0);
    assert [] + PieceVictims(ps) == PieceVictims(ps);
  }
}
