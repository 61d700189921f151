/** The format written out: the bytes each message is printed as, what each
    record does to a message, and what a reader makes of lists and messages
    printed under a stale size. */
module Format {
  import opened Wire
  import opened Messages
  import opened Layout

  //////////////////////////////////////////////////////////////////////////
  // Printing
  //////////////////////////////////////////////////////////////////////////

  lemma RecordsInARow(r: Record, rs: seq<Record>)
    ensures EncodeRecords([r] + rs) == r.Encode() + EncodeRecords(rs) && EncodeRecords([]) == []
  {
    EncodeRecordsConcat([r], rs);
    EncodeOne(r);
  }

  lemma VarintsInARow(v: uint64, vs: seq<uint64>)
    ensures EncodeVarints([v] + vs) == EncodeVarint(v) + EncodeVarints(vs) && EncodeVarints([]) == []
  {
    var all := [v] + vs;
    assert all[0] == v && all[1..] == vs;
  }

  // BuffData: buffId, remainTime and victims in this order, each unless it is
  // zero or empty, then the unknown fields.
  lemma BuffPrint(b: BuffMsg)
    ensures BuffSerialize(b) ==
            (if b.buffId == 0 then [] else [0x08] + EncodeVarint(b.buffId))
            + (if b.remainTime == 0 then [] else [0x15] + ToLE(b.remainTime, 4))
            + (if b.victims == [] then []
               else [0x1A] + EncodeVarint(|EncodeVarints(b.victims)|) + EncodeVarints(b.victims))
            + EncodeRecords(b.unknown)
  {
    BuffLayout(b);
    DataSizeIsLength(b.victims);
  }

  // S_TEST: id, hp and attack unless zero, the nested messages in order, each
  // under its own length, then the unknown fields.
  lemma TestPrint(t: TestMsg)
    ensures TestSerialize(t) ==
            (if t.id == 0 then [] else [0x08] + EncodeVarint(t.id))
            + (if t.hp == 0 then [] else [0x10] + EncodeVarint(t.hp))
            + (if t.attack == 0 then [] else [0x18] + EncodeVarint(t.attack))
            + EncodeRecords(BuffEntries(t.buffs))
            + EncodeRecords(t.unknown)
  {
    TestRecordsLayout(t);
  }

  lemma NestedPrint(b: BuffMsg, bs: seq<BuffMsg>)
    ensures EncodeRecords(BuffEntries([b] + bs)) ==
            [0x22] + EncodeVarint(|BuffSerialize(b)|) + BuffSerialize(b) + EncodeRecords(BuffEntries(bs))
    ensures EncodeRecords(BuffEntries([])) == []
  {
    var all := [b] + bs;
    assert all[0] == b && all[1..] == bs;
    EntriesStep(all);
    TagBytes(0x22);
    Assoc([0x22], EncodeVarint(|BuffSerialize(b)|), BuffSerialize(b));
  }

  //////////////////////////////////////////////////////////////////////////
  // Reading
  //////////////////////////////////////////////////////////////////////////

  // The records that are fields, by number and wire type.
  lemma Schema(r: Record)
    ensures BuffKnows(r) <==> (r.num, r.WireType()) in {(1, 0), (2, 5), (3, 0), (3, 2)}
    ensures TestKnows(r) <==> (r.num, r.WireType()) in {(1, 0), (2, 0), (3, 0), (4, 2)}
  {
  }

  // What each of them does; hp and attack are cut to 32 bits.
  lemma BuffFields(b: BuffMsg, v: uint64, bits: uint32, data: seq<byte>)
    ensures BuffApply(b, VarintRec(1, v)) == Some(b.(buffId := v))
    ensures BuffApply(b, Fixed32Rec(2, bits)) == Some(b.(remainTime := bits))
    ensures BuffApply(b, VarintRec(3, v)) == Some(b.(victims := b.victims + [v]))
    ensures DecodeVarints(data).Some? ==>
              BuffApply(b, LenRec(3, data)) == Some(b.(victims := b.victims + DecodeVarints(data).value))
    ensures DecodeVarints(data).None? ==> BuffApply(b, LenRec(3, data)) == None
  {
  }

  lemma TestFields(t: TestMsg, v: uint64, data: seq<byte>)
    ensures TestApply(t, VarintRec(1, v)) == Some(t.(id := v))
    ensures TestApply(t, VarintRec(2, v)) == Some(t.(hp := v % 0x1_0000_0000))
    ensures TestApply(t, VarintRec(3, v)) == Some(t.(attack := v % 0x1_0000_0000))
    ensures BuffParse(data).Some? ==>
              TestApply(t, LenRec(4, data)) == Some(t.(buffs := t.buffs + [BuffParse(data).value]))
    ensures BuffParse(data).None? ==> TestApply(t, LenRec(4, data)) == None
  {
  }

  // A packed list is read varint by varint, each of at most ten bytes and cut
  // to 64 bits, up to the last byte.
  lemma PackedReads(p: seq<byte>, rest: seq<byte>)
    requires OneVarint(p)
    ensures DecodeVarints(p + rest) ==
            if |p| > 10 || DecodeVarints(rest).None? then None
            else Some([Digits(p) % 0x1_0000_0000_0000_0000] + DecodeVarints(rest).value)
    ensures DecodeVarints([]) == Some([])
  {
    assert (p + rest)[..|p|] == p;
    DecodeVarintMeaning(p + rest, 10, |p|);
    DropPrefix(p, rest);
  }

  lemma PackedBreaksOff(s: seq<byte>)
    requires s != [] && forall i :: 0 <= i < |s| ==> s[i] >= 128
    ensures DecodeVarints(s) == None
  {
    NoVarint(s, 10);
  }

  //////////////////////////////////////////////////////////////////////////
  // Stale sizes
  //////////////////////////////////////////////////////////////////////////

  // A cached size is the size cut to a signed 32-bit int.
  lemma CachedSizes(n: nat)
    ensures -0x8000_0000 <= ToCachedSize(n) < 0x8000_0000
    ensures (n - ToCachedSize(n)) % 0x1_0000_0000 == 0
  {
  }

  // Whatever the victims cache, the second pass differs from the true print in
  // the packed list only.
  lemma StalePrint(b: BuffMsg, cache: int)
    ensures var head, tail := BuffSerialize(b.(victims := [], unknown := [])), EncodeRecords(b.unknown);
            && BuffCachedBytes(b, cache) == head + PackedBytes(b.victims, cache) + tail
            && BuffSerialize(b) == head + PackedBytes(b.victims, DataSize(b.victims)) + tail
  {
    var head := ScalarBytes(8, b.buffId) + FloatBytes(b.remainTime);
    BuffLayout(b);
    BuffLayout(b.(victims := [], unknown := []));
    assert head + [] + [] == head && EncodeRecords([]) == [] && DataSize([]) == 0;
  }

  // A list under a positive cache is read as just so many bytes, cut off or
  // swallowing what follows; under any other cache it is not there.
  lemma StaleListReads(vs: seq<uint64>, cache: int, rest: seq<byte>)
    requires cache <= |EncodeVarints(vs) + rest| && cache <= INT_MAX
    ensures cache <= 0 ==> PackedBytes(vs, cache) == []
    ensures cache > 0 ==>
              ReadRecord(PackedBytes(vs, cache) + rest) ==
              Some(Read(LenRec(3, (EncodeVarints(vs) + rest)[..cache]), 1 + VarintLen(cache) + cache))
  {
    if cache > 0 { PrefixReads(3, 26, cache, EncodeVarints(vs), rest); }
  }

  // And a nested message under its cached size likewise.
  lemma StaleEntryReads(e: SizedBuff, rest: seq<byte>)
    requires e.cachedSize % 0x1_0000_0000 <= |BuffCachedBytes(e.msg, e.victimsCache) + rest|
    requires e.cachedSize % 0x1_0000_0000 <= INT_MAX
    ensures var size, body := e.cachedSize % 0x1_0000_0000, BuffCachedBytes(e.msg, e.victimsCache);
            ReadRecord(EntryBytes(e) + rest) == Some(Read(LenRec(4, (body + rest)[..size]), 1 + VarintLen(size) + size))
  {
    PrefixReads(4, 34, e.cachedSize % 0x1_0000_0000, BuffCachedBytes(e.msg, e.victimsCache), rest);
  }

  // A size beyond what follows, or negative, is refused.
  lemma StaleEntryRefused(e: SizedBuff, rest: seq<byte>)
    requires var size := e.cachedSize % 0x1_0000_0000;
             size > |BuffCachedBytes(e.msg, e.victimsCache) + rest| || size > 0x7FFF_FFFF
    ensures ReadRecord(EntryBytes(e) + rest) == None
  {
    var size, body := e.cachedSize % 0x1_0000_0000, BuffCachedBytes(e.msg, e.victimsCache);
    VarintLen32(size);
    PrefixRefused(4, 34, size, EncodeVarint(size), body + rest);
    Regroup([34], EncodeVarint(size), body, rest);
  }

  lemma StaleListRefused(vs: seq<uint64>, cache: int, rest: seq<byte>)
    requires 0 < cache <= 0x7FFF_FFFF && cache > |EncodeVarints(vs) + rest|
    ensures ReadRecord(PackedBytes(vs, cache) + rest) == None
  {
    VarintLen32(cache);
    PrefixRefused(3, 26, cache, EncodeVarint(cache), EncodeVarints(vs) + rest);
    Regroup([26], EncodeVarint(cache), EncodeVarints(vs), rest);
  }

  lemma PrefixRefused(num: FieldNumber, tag: byte, size: nat, prefix: seq<byte>, body: seq<byte>)
    requires tag == 8 * num + 2 < 128 && prefix == EncodeVarint(size) && |prefix| <= 5
    requires size > |body| || size > INT_MAX
    ensures ReadRecord([tag] + (prefix + body)) == None
  {
    TagBytes(tag);
    TagRoundTrip(tag, prefix + body);
    DropPrefix([tag], prefix + body);
    VarintRoundTrip(size, body, 5);
  }

  // The entries stand one after the other between the fields before and the
  // unknown fields, whatever their sizes.
  lemma StaleTestPrint(t: TestMsg, e: SizedBuff, es: seq<SizedBuff>)
    ensures TestCachedBytes(t.id, t.hp, t.attack, es, t.unknown) ==
            TestSerialize(t.(buffs := [], unknown := [])) + EntriesBytes(es) + EncodeRecords(t.unknown)
    ensures EntriesBytes([e] + es) == EntryBytes(e) + EntriesBytes(es) && EntriesBytes([]) == []
  {
    var all, head := [e] + es, TestHeadBytes(t.id, t.hp, t.attack);
    assert all[0] == e && all[1..] == es;
    TestRecordsLayout(t.(buffs := [], unknown := []));
    assert EncodeRecords([]) == [] && head + [] + [] == head;
  }

  lemma PrefixReads(num: FieldNumber, tag: byte, size: nat, body: seq<byte>, rest: seq<byte>)
    requires tag == 8 * num + 2 < 128 && size <= |body + rest| && size <= INT_MAX
    ensures ReadRecord([tag] + EncodeVarint(size) + body + rest) ==
            Some(Read(LenRec(num, (body + rest)[..size]), 1 + VarintLen(size) + size))
  {
    var data, more := (body + rest)[..size], (body + rest)[size..];
    Cut(body + rest, size);
    SamePrefix([tag], EncodeVarint(size), body, rest, data, more);
    LenRecReads(num, tag, EncodeVarint(size), data, more);
  }

  lemma LenRecReads(num: FieldNumber, tag: byte, prefix: seq<byte>, data: seq<byte>, more: seq<byte>)
    requires tag == 8 * num + 2 < 128 && |data| <= INT_MAX && prefix == EncodeVarint(|data|)
    ensures ReadRecord([tag] + prefix + data + more) == Some(Read(LenRec(num, data), 1 + |prefix| + |data|))
  {
    TagBytes(tag);
    Assoc([tag], prefix, data);
    PrintedReads(LenRec(num, data), [tag] + prefix + data, more);
  }

  lemma PrintedReads(r: Record, e: seq<byte>, more: seq<byte>)
    requires r.Sized() && e == r.Encode()
    ensures ReadRecord(e + more) == Some(Read(r, |e|))
  {
    RecordRoundTrip(r, more);
  }

  lemma Cut<T>(s: seq<T>, n: nat)
    requires n <= |s|
    ensures s[..n] + s[n..] == s
  {
  }

  lemma SamePrefix<T>(a: seq<T>, b: seq<T>, x: seq<T>, y: seq<T>, z: seq<T>, w: seq<T>)
    requires x + y == z + w
    ensures a + b + x + y == a + b + z + w
  {
    Regroup(a, b, x, y);
    Regroup(a, b, z, w);
  }
}
