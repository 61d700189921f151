/** How large a message can print: under merging, in the worst case, and after
    being read from arbitrary bytes. */
module Sizes {
  import opened Wire
  import opened Messages
  import Codec
  import opened Layout

  //////////////////////////////////////////////////////////////////////////
  // Merging never costs bytes
  //////////////////////////////////////////////////////////////////////////

  lemma {:induction false} DataSizeConcat(a: seq<uint64>, b: seq<uint64>)
    ensures DataSize(a + b) == DataSize(a) + DataSize(b)
  {
    if a == [] {
      assert a + b == b;
    } else {
      var ab := a + b;
      assert ab[0] == a[0] && ab[1..] == a[1..] + b;
      DataSizeConcat(a[1..], b);
    }
  }

  lemma {:induction false} EntriesSizeConcat(a: seq<BuffMsg>, b: seq<BuffMsg>)
    ensures EntriesSize(a + b) == EntriesSize(a) + EntriesSize(b)
  {
    if a == [] {
      assert a + b == b;
    } else {
      var ab := a + b;
      assert ab[0] == a[0] && ab[1..] == a[1..] + b;
      EntriesSizeConcat(a[1..], b);
    }
  }

  // One packed record is strictly smaller than two.
  lemma PackedSizeConcat(a: seq<uint64>, b: seq<uint64>)
    ensures PackedSize(a + b) <= PackedSize(a) + PackedSize(b)
    ensures PackedSize(a + b) == PackedSize(a) + PackedSize(b) <==> a == [] || b == []
  {
    DataSizeConcat(a, b);
    DataSizeIsLength(a);
    DataSizeIsLength(b);
    if a != [] && b != [] { VarintLenSubadditive(DataSize(a), DataSize(b)); }
  }

  predicate Overlap(a: BuffMsg, b: BuffMsg)
  {
    || (a.buffId != 0 && b.buffId != 0)
    || (a.remainTime != 0 && b.remainTime != 0)
    || (a.victims != [] && b.victims != [])
  }

  // A merged BuffData prints no longer than its two parts, and exactly as
  // long when they set no field in common.
  lemma BuffMergeSize(a: BuffMsg, b: BuffMsg)
    ensures BuffSize(Codec.BuffMerge(a, b)) <= BuffSize(a) + BuffSize(b)
    ensures BuffSize(Codec.BuffMerge(a, b)) == BuffSize(a) + BuffSize(b) <==> !Overlap(a, b)
  {
    PackedSizeConcat(a.victims, b.victims);
    EncodeRecordsConcat(a.unknown, b.unknown);
  }

  lemma TestMergeSize(a: TestMsg, b: TestMsg)
    ensures TestSize(Codec.TestMerge(a, b)) <= TestSize(a) + TestSize(b)
    ensures EntriesSize(Codec.TestMerge(a, b).buffs) == EntriesSize(a.buffs) + EntriesSize(b.buffs)
    ensures TestSize(Codec.TestMerge(a, b)) == TestSize(a) + TestSize(b) <==>
            !(a.id != 0 && b.id != 0) && !(a.hp != 0 && b.hp != 0) && !(a.attack != 0 && b.attack != 0)
  {
    EntriesSizeConcat(a.buffs, b.buffs);
    EncodeRecordsConcat(a.unknown, b.unknown);
  }

  //////////////////////////////////////////////////////////////////////////
  // Worst case
  //////////////////////////////////////////////////////////////////////////

  function WorstPacked(n: nat): nat { if n == 0 then 0 else 1 + VarintLen(10 * n) + 10 * n }

  lemma {:induction false} DataSizeBound(vs: seq<uint64>)
    ensures DataSize(vs) <= 10 * |vs|
  {
    if vs != [] {
      VarintLen64(vs[0]);
      DataSizeBound(vs[1..]);
    }
  }

  // Without unknown fields a BuffData with n victims prints in at most
  // 16 bytes plus the packed worst case.
  lemma BuffWorstCase(b: BuffMsg)
    requires b.unknown == []
    ensures BuffSize(b) <= 16 + WorstPacked(|b.victims|)
  {
    DataSizeBound(b.victims);
    DataSizeIsLength(b.victims);
    VarintLenMonotone(DataSize(b.victims), 10 * |b.victims|);
    VarintLen64(b.buffId);
  }

  const MAX_UINT64: uint64 := 0xFFFF_FFFF_FFFF_FFFF

  function MaxVictims(n: nat): (vs: seq<uint64>)
    ensures |vs| == n
  {
    if n == 0 then [] else [MAX_UINT64] + MaxVictims(n - 1)
  }

  lemma MaxUint64Len()
    ensures VarintLen(MAX_UINT64) == 10
  {
    VarintLen64(MAX_UINT64);
    if VarintLen(MAX_UINT64) <= 9 { ShortVarintSmall(MAX_UINT64, 9); }
  }

  lemma {:induction false} ShortVarintSmall(n: nat, k: nat)
    requires VarintLen(n) <= k
    ensures n < Pow128(k)
    ensures k == 9 ==> n < 0x8000_0000_0000_0000
  {
    if n >= 128 {
      ShortVarintSmall(n / 128, k - 1);
    } else {
      Pow128Positive(k - 1);
    }
    assert Pow128(4) == 0x1000_0000;
    assert Pow128(7) == 0x2_0000_0000_0000;
    assert Pow128(9) == 0x8000_0000_0000_0000;
  }

  lemma {:induction false} Pow128Positive(k: nat)
    ensures Pow128(k) >= 1
  {
    if k > 0 { Pow128Positive(k - 1); }
  }

  lemma {:induction false} MaxVictimsSize(n: nat)
    ensures DataSize(MaxVictims(n)) == 10 * n
  {
    if n > 0 {
      MaxUint64Len();
      MaxVictimsSize(n - 1);
      assert MaxVictims(n)[1..] == MaxVictims(n - 1);
    }
  }

  // The bound is attained for every number of victims.
  lemma BuffWorstCaseAttained(n: nat, remainTime: uint32)
    requires remainTime != 0
    ensures BuffSize(BuffMsg(MAX_UINT64, remainTime, MaxVictims(n), [])) == 16 + WorstPacked(n)
  {
    MaxUint64Len();
    MaxVictimsSize(n);
  }

  predicate NoUnknown(t: TestMsg)
  {
    t.unknown == [] && forall b <- t.buffs :: b.unknown == []
  }

  function VictimCount(bs: seq<BuffMsg>): nat
  {
    if bs == [] then 0 else |bs[0].victims| + VictimCount(bs[1..])
  }

  lemma TestWorstCase(t: TestMsg)
    requires t.unknown == []
    ensures TestSize(t) <= 23 + EntriesSize(t.buffs)
  {
    VarintLen64(t.id);
    VarintLen32(t.hp);
    VarintLen32(t.attack);
  }

  lemma {:induction false} EntriesWorstCase(bs: seq<BuffMsg>)
    requires forall b <- bs :: b.unknown == []
    requires 24 * |bs| + 10 * VictimCount(bs) < 0x20_0000
    ensures EntriesSize(bs) <= 24 * |bs| + 10 * VictimCount(bs)
  {
    if bs != [] {
      var n := |bs[0].victims|;
      assert bs == [bs[0]] + bs[1..];
      EntriesWorstCase(bs[1..]);
      BuffWorstCase(bs[0]);
      VarintLen21(10 * n);
      VarintLen21(BuffSize(bs[0]));
    }
  }

  // A caller can know from counts alone that a packet fits a frame.
  lemma FitsByCounts(t: TestMsg)
    requires NoUnknown(t)
    requires 23 + 24 * |t.buffs| + 10 * VictimCount(t.buffs) <= 65531
    ensures 4 + TestSize(t) <= 65535
  {
    TestWorstCase(t);
    EntriesWorstCase(t.buffs);
  }

  //////////////////////////////////////////////////////////////////////////
  // Size after reading
  //////////////////////////////////////////////////////////////////////////

  // An upper bound on BuffSize that grows evenly with what is read.
  function BuffPotential(b: BuffMsg): nat
  {
    ScalarSize(b.buffId) + (if b.remainTime == 0 then 0 else 5) + |EncodeRecords(b.unknown)|
    + (if b.victims == [] then 0 else 1 + 2 * DataSize(b.victims))
  }

  lemma PotentialBounds(b: BuffMsg)
    ensures BuffSize(b) <= BuffPotential(b)
  {
    DataSizeIsLength(b.victims);
    if b.victims != [] { VarintLenAtMostValue(DataSize(b.victims)); }
  }

  lemma {:induction false} DecodedDataSize(s: seq<byte>)
    requires DecodeVarints(s).Some?
    ensures DataSize(DecodeVarints(s).value) <= |s|
    decreases |s|
  {
    if s != [] {
      var Read(v, n) := DecodeVarint(s, 10).value;
      CanonicalVarintShortest(s, 10);
      VarintLenMonotone(v % TWO64, v);
      DecodedDataSize(s[n..]);
      var vs := DecodeVarints(s).value;
      assert vs[0] == v % TWO64 && vs[1..] == DecodeVarints(s[n..]).value;
    }
  }

  lemma UnknownGrows(us: seq<Record>, r: Record)
    ensures |EncodeRecords(us + [r])| == |EncodeRecords(us)| + |r.Encode()|
  {
    EncodeRecordsConcat(us, [r]);
    EncodeOne(r);
  }

  lemma PotentialStep(b: BuffMsg, r: Record)
    requires BuffApply(b, r).Some?
    ensures BuffPotential(BuffApply(b, r).value) <= BuffPotential(b) + 2 * |r.Encode()|
  {
    TagBytes(8);
    if !BuffKnows(r) {
      UnknownGrows(b.unknown, r);
    } else if r.VarintRec? && r.num == 3 {
      DataSizeConcat(b.victims, [r.varint]);
      assert DataSize([r.varint]) == VarintLen(r.varint) by { assert [r.varint][1..] == []; }
    } else if r.LenRec? {
      var vs := DecodeVarints(r.data).value;
      DataSizeConcat(b.victims, vs);
      DecodedDataSize(r.data);
    }
  }

  lemma {:induction false} PotentialFold(b: BuffMsg, rs: seq<Record>)
    requires BuffFold(b, rs).Some?
    ensures BuffPotential(BuffFold(b, rs).value) <= BuffPotential(b) + 2 * |EncodeRecords(rs)|
    decreases |rs|
  {
    if rs != [] {
      PotentialStep(b, rs[0]);
      PotentialFold(BuffApply(b, rs[0]).value, rs[1..]);
    }
  }

  lemma {:induction false} DecodeShrinks(s: seq<byte>)
    requires DecodeRecords(s).Some?
    ensures |EncodeRecords(DecodeRecords(s).value)| <= |s|
    decreases |s|
  {
    if s != [] {
      var Read(rec, n) := ReadRecord(s).value;
      ReadRecordShrinks(s);
      DecodeShrinks(s[n..]);
      var rs := DecodeRecords(s).value;
      assert rs[0] == rec && rs[1..] == DecodeRecords(s[n..]).value;
    }
  }

  lemma BuffParseSize(s: seq<byte>)
    requires BuffParse(s).Some?
    ensures BuffSize(BuffParse(s).value) <= 2 * |s|
  {
    var rs := DecodeRecords(s).value;
    DecodeShrinks(s);
    PotentialFold(EMPTY_BUFF, rs);
    PotentialBounds(BuffParse(s).value);
  }

  lemma TestSizeStep(t: TestMsg, r: Record)
    requires TestApply(t, r).Some?
    ensures TestSize(TestApply(t, r).value) <= TestSize(t) + 2 * |r.Encode()|
  {
    if !TestKnows(r) {
      UnknownGrows(t.unknown, r);
    } else if r.LenRec? {
      var b := BuffParse(r.data).value;
      BuffParseSize(r.data);
      EntriesSizeConcat(t.buffs, [b]);
      assert EntriesSize([b]) == 1 + VarintLen(BuffSize(b)) + BuffSize(b) by { assert [b][1..] == []; }
      VarintLenMonotone(BuffSize(b), 2 * |r.data|);
      VarintLenDouble(|r.data|);
    } else {
      VarintLenMonotone(r.varint % TWO32, r.varint);
    }
  }

  lemma {:induction false} TestSizeFold(t: TestMsg, rs: seq<Record>)
    requires TestFold(t, rs).Some?
    ensures TestSize(TestFold(t, rs).value) <= TestSize(t) + 2 * |EncodeRecords(rs)|
    decreases |rs|
  {
    if rs != [] {
      TestSizeStep(t, rs[0]);
      TestSizeFold(TestApply(t, rs[0]).value, rs[1..]);
    }
  }

  // Reading and printing at most doubles the size: unpacked victims gain a
  // length byte, everything else only shrinks.
  lemma TestParseSize(s: seq<byte>)
    requires TestParse(s).Some?
    ensures |TestSerialize(TestParse(s).value)| <= 2 * |s|
  {
    var rs := DecodeRecords(s).value;
    DecodeShrinks(s);
    TestSizeFold(EMPTY_TEST, rs);
    TestSizeIsLength(TestParse(s).value);
  }

  // Hence canonicalisation needs no premise about the message, only that the
  // input was shorter than a gibibyte.
  lemma CanonicalisationOfInput(s: seq<byte>)
    requires TestParse(s).Some? && |s| < 0x4000_0000
    ensures var canon := TestSerialize(TestParse(s).value);
            && |canon| <= 2 * |s|
            && TestParse(canon) == TestParse(s)
            && TestSerialize(TestParse(canon).value) == canon
  {
    TestParseSize(s);
    Codec.Canonicalisation(s);
  }
}
