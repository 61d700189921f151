/** The bytes the second serialisation pass lays down, as a function of the
    fields and of the sizes the first pass cached - and when that is the true
    serialisation. */
module Layout {
  import opened Wire
  import opened Messages
  import Codec

  // CachedSize holds an int: a size is truncated to 32 bits, two's complement.
  function ToCachedSize(n: nat): int
  {
    if n % TWO32 < TWO31 then n % TWO32 else n % TWO32 - TWO32
  }

  function DataSize(vs: seq<uint64>): nat
  {
    if vs == [] then 0 else VarintLen(vs[0]) + DataSize(vs[1..])
  }

  function PackedSize(vs: seq<uint64>): nat
  {
    var data := DataSize(vs);
    if data == 0 then 0 else 1 + VarintLen(data) + data
  }

  function ScalarSize(v: uint64): nat { if v == 0 then 0 else 1 + VarintLen(v) }

  // The size BuffData::ByteSizeLong adds up.
  function BuffSize(b: BuffMsg): nat
  {
    PackedSize(b.victims) + ScalarSize(b.buffId) + (if b.remainTime == 0 then 0 else 5) + |EncodeRecords(b.unknown)|
  }

  function EntriesSize(bs: seq<BuffMsg>): nat
  {
    if bs == [] then 0 else 1 + VarintLen(BuffSize(bs[0])) + BuffSize(bs[0]) + EntriesSize(bs[1..])
  }

  // The size S_TEST::ByteSizeLong adds up.
  function TestSize(t: TestMsg): nat
  {
    EntriesSize(t.buffs) + ScalarSize(t.id) + ScalarSize(t.hp) + ScalarSize(t.attack) + |EncodeRecords(t.unknown)|
  }

  //////////////////////////////////////////////////////////////////////////
  // Layout
  //////////////////////////////////////////////////////////////////////////

  function ScalarBytes(tag: byte, v: uint64): seq<byte> { if v == 0 then [] else [tag] + EncodeVarint(v) }

  function FloatBytes(bits: uint32): seq<byte> { if bits == 0 then [] else [21] + ToLE(bits, 4) }

  // A packed list is written only if its cached size says so, and under it.
  function PackedBytes(vs: seq<uint64>, cachedSize: int): seq<byte>
  {
    if cachedSize > 0 then [26] + EncodeVarint(cachedSize) + EncodeVarints(vs) else []
  }

  function BuffCachedBytes(b: BuffMsg, victimsCache: int): seq<byte>
  {
    ScalarBytes(8, b.buffId) + FloatBytes(b.remainTime) + PackedBytes(b.victims, victimsCache)
    + EncodeRecords(b.unknown)
  }

  // A nested BuffData together with its two cached sizes.
  datatype SizedBuff = SizedBuff(msg: BuffMsg, victimsCache: int, cachedSize: int)

  // The length prefix is the cached size cast to uint32.
  function EntryBytes(e: SizedBuff): seq<byte>
  {
    [34] + EncodeVarint(e.cachedSize % TWO32) + BuffCachedBytes(e.msg, e.victimsCache)
  }

  function EntriesBytes(es: seq<SizedBuff>): seq<byte>
  {
    if es == [] then [] else EntryBytes(es[0]) + EntriesBytes(es[1..])
  }

  function TestHeadBytes(id: uint64, hp: uint32, attack: uint32): seq<byte>
  {
    ScalarBytes(8, id) + ScalarBytes(16, hp) + ScalarBytes(24, attack)
  }

  function TestCachedBytes(id: uint64, hp: uint32, attack: uint32, es: seq<SizedBuff>, unknown: seq<Record>): seq<byte>
  {
    TestHeadBytes(id, hp, attack) + EntriesBytes(es) + EncodeRecords(unknown)
  }

  // What the first pass leaves behind.
  function Sized(b: BuffMsg): SizedBuff
  {
    SizedBuff(b, ToCachedSize(DataSize(b.victims)), ToCachedSize(BuffSize(b)))
  }

  predicate Fresh(es: seq<SizedBuff>, bs: seq<BuffMsg>)
  {
    |es| == |bs| && forall i :: 0 <= i < |es| ==> es[i] == Sized(bs[i])
  }

  //////////////////////////////////////////////////////////////////////////
  // Sizes are lengths
  //////////////////////////////////////////////////////////////////////////

  lemma {:induction false} DataSizeIsLength(vs: seq<uint64>)
    ensures DataSize(vs) == |EncodeVarints(vs)|
    ensures DataSize(vs) == 0 <==> vs == []
  {
    if vs != [] { DataSizeIsLength(vs[1..]); }
  }

  lemma EncodeOne(r: Record)
    ensures EncodeRecords([r]) == r.Encode()
  {
    var rs := [r];
    assert rs[0] == r && rs[1..] == [];
    assert r.Encode() + [] == r.Encode();
  }

  lemma TagBytes(tag: nat)
    requires tag < 128
    ensures EncodeVarint(tag) == [tag]
  {
  }

  lemma ScalarPiece(num: FieldNumber, v: uint64)
    requires num < 16
    ensures EncodeRecords(if v != 0 then [VarintRec(num, v)] else []) == ScalarBytes(8 * num, v)
    ensures |ScalarBytes(8 * num, v)| == ScalarSize(v)
  {
    EncodeOne(VarintRec(num, v));
    TagBytes(8 * num);
  }

  lemma FloatPiece(bits: uint32)
    ensures EncodeRecords(if bits != 0 then [Fixed32Rec(2, bits)] else []) == FloatBytes(bits)
  {
    EncodeOne(Fixed32Rec(2, bits));
    TagBytes(21);
  }

  lemma PackedPiece(vs: seq<uint64>)
    ensures EncodeRecords(if vs != [] then [LenRec(3, EncodeVarints(vs))] else []) == PackedBytes(vs, DataSize(vs))
    ensures |PackedBytes(vs, DataSize(vs))| == PackedSize(vs)
  {
    EncodeOne(LenRec(3, EncodeVarints(vs)));
    TagBytes(26);
    DataSizeIsLength(vs);
    Assoc([26], EncodeVarint(DataSize(vs)), EncodeVarints(vs));
  }

  // With a truthful victims cache, the second pass prints the records.
  lemma BuffLayout(b: BuffMsg)
    ensures BuffCachedBytes(b, DataSize(b.victims)) == BuffSerialize(b)
    ensures |BuffSerialize(b)| == BuffSize(b)
  {
    var h1 := if b.buffId != 0 then [VarintRec(1, b.buffId)] else [];
    var h2 := if b.remainTime != 0 then [Fixed32Rec(2, b.remainTime)] else [];
    var h3 := if b.victims != [] then [LenRec(3, EncodeVarints(b.victims))] else [];
    EncodeRecordsConcat(h1, h2);
    EncodeRecordsConcat(h1 + h2, h3);
    EncodeRecordsConcat(h1 + h2 + h3, b.unknown);
    ScalarPiece(1, b.buffId);
    FloatPiece(b.remainTime);
    PackedPiece(b.victims);
  }

  lemma EntryLayout(b: BuffMsg)
    requires BuffSize(b) <= INT_MAX
    ensures EntryBytes(Sized(b)) == LenRec(4, BuffSerialize(b)).Encode()
    ensures |EntryBytes(Sized(b))| == 1 + VarintLen(BuffSize(b)) + BuffSize(b)
  {
    BuffLayout(b);
    SizedFields(b);
    TagBytes(34);
    Assoc([34], EncodeVarint(BuffSize(b)), BuffSerialize(b));
  }

  lemma EntriesStep(bs: seq<BuffMsg>)
    requires bs != []
    ensures EncodeRecords(BuffEntries(bs)) ==
            LenRec(4, BuffSerialize(bs[0])).Encode() + EncodeRecords(BuffEntries(bs[1..]))
  {
    var r := LenRec(4, BuffSerialize(bs[0]));
    assert BuffEntries(bs)[0] == r && BuffEntries(bs)[1..] == BuffEntries(bs[1..]);
  }

  lemma {:induction false} EntriesLayout(es: seq<SizedBuff>, bs: seq<BuffMsg>)
    requires Fresh(es, bs)
    requires EntriesSize(bs) <= INT_MAX
    ensures EntriesBytes(es) == EncodeRecords(BuffEntries(bs))
    decreases |es|
  {
    if es != [] {
      assert es[0] == Sized(bs[0]);
      EntriesStep(bs);
      EntryLayout(bs[0]);
      EntriesLayout(es[1..], bs[1..]);
    }
  }

  lemma {:induction false} EntriesSizeIsLength(bs: seq<BuffMsg>)
    ensures |EncodeRecords(BuffEntries(bs))| == EntriesSize(bs)
  {
    if bs != [] {
      EntriesStep(bs);
      BuffLayout(bs[0]);
      TagBytes(34);
      EntriesSizeIsLength(bs[1..]);
    }
  }

  lemma TestRecordsLayout(t: TestMsg)
    ensures TestSerialize(t) ==
            TestHeadBytes(t.id, t.hp, t.attack) + EncodeRecords(BuffEntries(t.buffs)) + EncodeRecords(t.unknown)
    ensures |TestHeadBytes(t.id, t.hp, t.attack)| == ScalarSize(t.id) + ScalarSize(t.hp) + ScalarSize(t.attack)
  {
    var h1 := if t.id != 0 then [VarintRec(1, t.id)] else [];
    var h2 := if t.hp != 0 then [VarintRec(2, t.hp)] else [];
    var h3 := if t.attack != 0 then [VarintRec(3, t.attack)] else [];
    EncodeRecordsConcat(h1, h2);
    EncodeRecordsConcat(h1 + h2, h3);
    EncodeRecordsConcat(h1 + h2 + h3, BuffEntries(t.buffs));
    EncodeRecordsConcat(h1 + h2 + h3 + BuffEntries(t.buffs), t.unknown);
    ScalarPiece(1, t.id);
    ScalarPiece(2, t.hp);
    ScalarPiece(3, t.attack);
  }

  // What ByteSizeLong adds up is the length of what is printed.
  lemma TestSizeIsLength(t: TestMsg)
    ensures |TestSerialize(t)| == TestSize(t)
  {
    TestRecordsLayout(t);
    EntriesSizeIsLength(t.buffs);
  }

  // The two passes together: with the caches the first pass leaves, the
  // second prints the message, every length prefix right.
  lemma TestLayout(t: TestMsg, es: seq<SizedBuff>)
    requires Fresh(es, t.buffs)
    requires TestSize(t) <= INT_MAX
    ensures TestCachedBytes(t.id, t.hp, t.attack, es, t.unknown) == TestSerialize(t)
  {
    TestRecordsLayout(t);
    EntriesLayout(es, t.buffs);
  }

  // The canonical form of any accepted bytes, in closed form: the last value
  // of each scalar unless zero, every nested message in order, and at the end
  // the records the schema does not know, in the order they came.
  lemma CanonicalForm(s: seq<byte>)
    requires TestParse(s).Some?
    ensures var rs := DecodeRecords(s).value;
            TestSerialize(TestParse(s).value) ==
            TestHeadBytes(LastVarint(rs, 1, 0), LastVarint(rs, 2, 0) % TWO32, LastVarint(rs, 3, 0) % TWO32)
            + EncodeRecords(BuffEntries(AllBuffs(rs)))
            + EncodeRecords(TestUnknown(rs))
  {
    var rs := DecodeRecords(s).value;
    TestFoldIsProjection(EMPTY_TEST, rs);
    TestRecordsLayout(TestParse(s).value);
    assert [] + AllBuffs(rs) == AllBuffs(rs) && [] + TestUnknown(rs) == TestUnknown(rs);
  }

  //////////////////////////////////////////////////////////////////////////
  // Stale caches
  //////////////////////////////////////////////////////////////////////////

  lemma EncodeVarintInjective(m: nat, n: nat)
    requires EncodeVarint(m) == EncodeVarint(n)
    ensures m == n
  {
    VarintRoundTrip(m, [], VarintLen(m));
    VarintRoundTrip(n, [], VarintLen(n));
  }

  lemma CancelMiddle(a: seq<byte>, x: seq<byte>, y: seq<byte>, b: seq<byte>)
    ensures a + x + b == a + y + b <==> x == y
  {
    var p, q := a + x + b, a + y + b;
    if p == q {
      assert |x| == |y|;
      assert p[|a|..|a| + |x|] == x && q[|a|..|a| + |y|] == y;
    }
  }

  // The true packed size; any non-positive value will do for an empty list.
  predicate TrueVictimsCache(b: BuffMsg, cache: int)
  {
    if b.victims == [] then cache <= 0 else cache == DataSize(b.victims)
  }

  // BuffData prints itself correctly exactly when its victims cache is true.
  lemma StaleVictimsCache(b: BuffMsg, cache: int)
    ensures BuffCachedBytes(b, cache) == BuffSerialize(b) <==> TrueVictimsCache(b, cache)
  {
    var data := DataSize(b.victims);
    BuffLayout(b);
    DataSizeIsLength(b.victims);
    CancelMiddle(ScalarBytes(8, b.buffId) + FloatBytes(b.remainTime),
                 PackedBytes(b.victims, cache), PackedBytes(b.victims, data), EncodeRecords(b.unknown));
    if cache > 0 && data > 0 {
      CancelMiddle([26], EncodeVarint(cache), EncodeVarint(data), EncodeVarints(b.victims));
      if EncodeVarint(cache) == EncodeVarint(data) { EncodeVarintInjective(cache, data); }
    }
  }

  // A victim added between the two passes always spoils the print: nothing
  // but a new first pass repairs the cache.
  lemma AddBetweenPasses(b: BuffMsg, v: uint64)
    ensures var b' := b.(victims := b.victims + [v]);
            BuffCachedBytes(b', DataSize(b.victims)) != BuffSerialize(b')
  {
    var one := [v];
    StaleVictimsCache(b.(victims := b.victims + one), DataSize(b.victims));
    DataSizeGrows(b.victims, v);
  }

  // Swapping two sized BuffData exchanges the victims but not the caches: the
  // prints come out right exactly when the packed sizes happen to agree.
  lemma SwapBetweenPasses(a: BuffMsg, b: BuffMsg)
    ensures BuffCachedBytes(b, DataSize(a.victims)) == BuffSerialize(b)
            && BuffCachedBytes(a, DataSize(b.victims)) == BuffSerialize(a)
       <==> DataSize(a.victims) == DataSize(b.victims)
  {
    StaleVictimsCache(b, DataSize(a.victims));
    StaleVictimsCache(a, DataSize(b.victims));
    DataSizeIsLength(a.victims);
    DataSizeIsLength(b.victims);
  }

  lemma {:induction false} DataSizeGrows(vs: seq<uint64>, v: uint64)
    ensures DataSize(vs + [v]) > DataSize(vs)
  {
    var ws := vs + [v];
    if vs != [] {
      assert ws[0] == vs[0] && ws[1..] == vs[1..] + [v];
      DataSizeGrows(vs[1..], v);
    }
  }

  // Both sizes a nested message caches are true.
  predicate TrueCaches(e: SizedBuff) { e.cachedSize == BuffSize(e.msg) && TrueVictimsCache(e.msg, e.victimsCache) }

  // A cached size is a 32-bit int, and so is the true one.
  predicate Cacheable(e: SizedBuff) { BuffSize(e.msg) <= INT_MAX && -TWO31 <= e.cachedSize < TWO31 }

  function EntryRecord(e: SizedBuff): seq<byte> { LenRec(4, BuffSerialize(e.msg)).Encode() }

  // A varint at the front of a string determines itself and what follows.
  lemma FrontVarint(m: nat, x: seq<byte>, n: nat, y: seq<byte>)
    ensures EncodeVarint(m) + x == EncodeVarint(n) + y <==> m == n && x == y
  {
    var p, q, max := EncodeVarint(m) + x, EncodeVarint(n) + y, VarintLen(m) + VarintLen(n);
    VarintRoundTrip(m, x, max);
    VarintRoundTrip(n, y, max);
    DropPrefix(EncodeVarint(m), x);
    DropPrefix(EncodeVarint(n), y);
  }

  lemma EntryRecordBytes(e: SizedBuff)
    ensures EntryRecord(e) == [34] + EncodeVarint(BuffSize(e.msg)) + BuffSerialize(e.msg)
  {
    BuffLayout(e.msg);
    TagBytes(34);
    Assoc([34], EncodeVarint(BuffSize(e.msg)), BuffSerialize(e.msg));
  }

  // An entry followed by anything: the length prefix must be right, and then
  // the bodies must agree.
  lemma FrontEntry(e: SizedBuff, x: seq<byte>, y: seq<byte>)
    requires Cacheable(e)
    ensures EntryBytes(e) + x == EntryRecord(e) + y
       <==> e.cachedSize == BuffSize(e.msg)
            && BuffCachedBytes(e.msg, e.victimsCache) + x == BuffSerialize(e.msg) + y
  {
    EntryRecordBytes(e);
    CachedSizeExact(e.cachedSize, BuffSize(e.msg));
    FrontPrefixed(e.cachedSize % TWO32, BuffCachedBytes(e.msg, e.victimsCache), x,
                  BuffSize(e.msg), BuffSerialize(e.msg), y);
  }

  lemma CachedSizeExact(cachedSize: int, size: nat)
    requires size <= INT_MAX && -TWO31 <= cachedSize < TWO31
    ensures cachedSize % TWO32 == size <==> cachedSize == size
  {
  }

  lemma FrontPrefixed(m: nat, body: seq<byte>, x: seq<byte>, n: nat, right: seq<byte>, y: seq<byte>)
    ensures [34] + EncodeVarint(m) + body + x == [34] + EncodeVarint(n) + right + y <==> m == n && body + x == right + y
  {
    Regroup([34], EncodeVarint(m), body, x);
    Regroup([34], EncodeVarint(n), right, y);
    Cancel([34], EncodeVarint(m) + (body + x), EncodeVarint(n) + (right + y));
    FrontVarint(m, body + x, n, right + y);
  }

  lemma Regroup<T>(a: seq<T>, b: seq<T>, c: seq<T>, d: seq<T>)
    ensures (a + b + c) + d == a + (b + (c + d))
  {
  }

  lemma Cancel<T>(a: seq<T>, x: seq<T>, y: seq<T>)
    ensures a + x == a + y <==> x == y
  {
    DropPrefix(a, x);
    DropPrefix(a, y);
  }

  // S_TEST prints a nested message as a proper record exactly when both of
  // that message's caches are true.
  lemma StaleEntry(e: SizedBuff)
    requires Cacheable(e)
    ensures EntryBytes(e) == EntryRecord(e) <==> TrueCaches(e)
  {
    FrontEntry(e, [], []);
    StaleVictimsCache(e.msg, e.victimsCache);
    assert EntryBytes(e) + [] == EntryBytes(e) && EntryRecord(e) + [] == EntryRecord(e);
    var body, right := BuffCachedBytes(e.msg, e.victimsCache), BuffSerialize(e.msg);
    assert body + [] == body && right + [] == right;
  }

  // No unknown field of a BuffData starts with the tag byte of a packed list.
  lemma UnknownStart(us: seq<Record>)
    requires us != [] && !BuffKnows(us[0])
    ensures EncodeRecords(us) != [] && EncodeRecords(us)[0] != 26
  {
    var tag := us[0].Tag();
    assert EncodeVarint(tag)[0] == if tag < 128 then tag else tag % 128 + 128;
    PackedTag(us[0]);
  }

  lemma PackedTag(r: Record)
    ensures r.Tag() == 26 <==> r.LenRec? && r.num == 3
  {
  }

  // What follows a nested message inside S_TEST: another entry, or in both
  // prints the same rest.
  predicate Follow(x: seq<byte>, y: seq<byte>) { x == y || (x != [] && y != [] && x[0] == 34 && y[0] == 34) }

  // A packed list printed where there should be none, or missing, shows.
  lemma FrontMissing(us: seq<Record>, packed: seq<byte>, x: seq<byte>, y: seq<byte>)
    requires forall r <- us :: !BuffKnows(r)
    requires packed != [] && packed[0] == 26 && Follow(x, y)
    ensures packed + (EncodeRecords(us) + x) != EncodeRecords(us) + y
  {
    var u := EncodeRecords(us);
    var p, q := packed + (u + x), u + y;
    if us != [] {
      UnknownStart(us);
      assert p[0] == 26 && q[0] == u[0];
    } else if x == y {
      assert |p| > |q|;
    } else {
      assert p[0] == 26 && q[0] == y[0];
    }
  }

  lemma FrontPacked(b: BuffMsg, cache: int, x: seq<byte>, y: seq<byte>)
    requires Codec.BuffOk(b) && Follow(x, y)
    ensures PackedBytes(b.victims, cache) + (EncodeRecords(b.unknown) + x)
              == PackedBytes(b.victims, DataSize(b.victims)) + (EncodeRecords(b.unknown) + y)
       <==> TrueVictimsCache(b, cache) && x == y
  {
    var u, data, vs := EncodeRecords(b.unknown), DataSize(b.victims), EncodeVarints(b.victims);
    DataSizeIsLength(b.victims);
    Cancel(u, x, y);
    assert [] + (u + x) == u + x && [] + (u + y) == u + y;
    if cache > 0 && data > 0 {
      Regroup([26], EncodeVarint(cache), vs, u + x);
      Regroup([26], EncodeVarint(data), vs, u + y);
      Cancel([26], EncodeVarint(cache) + (vs + (u + x)), EncodeVarint(data) + (vs + (u + y)));
      FrontVarint(cache, vs + (u + x), data, vs + (u + y));
      Cancel(vs, u + x, u + y);
    } else if cache > 0 {
      FrontMissing(b.unknown, PackedBytes(b.victims, cache), x, y);
    } else if data > 0 {
      FrontMissing(b.unknown, PackedBytes(b.victims, data), y, x);
    }
  }

  lemma FrontBody(b: BuffMsg, cache: int, x: seq<byte>, y: seq<byte>)
    requires Codec.BuffOk(b) && Follow(x, y)
    ensures BuffCachedBytes(b, cache) + x == BuffSerialize(b) + y <==> TrueVictimsCache(b, cache) && x == y
  {
    var head, u := ScalarBytes(8, b.buffId) + FloatBytes(b.remainTime), EncodeRecords(b.unknown);
    var p, q := PackedBytes(b.victims, cache), PackedBytes(b.victims, DataSize(b.victims));
    BuffLayout(b);
    Regroup(head, p, u, x);
    Regroup(head, q, u, y);
    Cancel(head, p + (u + x), q + (u + y));
    FrontPacked(b, cache, x, y);
  }

  // The first entry must be right, and then the others.
  lemma {:induction false} FirstStale(es: seq<SizedBuff>, bs: seq<BuffMsg>, rest: seq<byte>)
    requires |es| == |bs| > 0 && es[0].msg == bs[0] && Codec.BuffOk(bs[0]) && Cacheable(es[0])
    ensures EntriesBytes(es) + rest == EncodeRecords(BuffEntries(bs)) + rest
       <==> TrueCaches(es[0]) && EntriesBytes(es[1..]) + rest == EncodeRecords(BuffEntries(bs[1..])) + rest
  {
    var x, y := EntriesBytes(es[1..]) + rest, EncodeRecords(BuffEntries(bs[1..])) + rest;
    EntriesStep(bs);
    Assoc(EntryBytes(es[0]), EntriesBytes(es[1..]), rest);
    Assoc(EntryRecord(es[0]), EncodeRecords(BuffEntries(bs[1..])), rest);
    FrontEntry(es[0], x, y);
    EntriesFollow(es[1..], bs[1..], rest);
    FrontBody(bs[0], es[0].victimsCache, x, y);
  }

  // Entries printed from any caches, with the same rest behind them.
  lemma {:induction false} StaleEntries(es: seq<SizedBuff>, bs: seq<BuffMsg>, rest: seq<byte>)
    requires |es| == |bs| && forall i :: 0 <= i < |es| ==> es[i].msg == bs[i] && Codec.BuffOk(bs[i]) && Cacheable(es[i])
    ensures EntriesBytes(es) + rest == EncodeRecords(BuffEntries(bs)) + rest <==> forall e <- es :: TrueCaches(e)
    decreases |es|
  {
    if es != [] {
      FirstStale(es, bs, rest);
      StaleEntries(es[1..], bs[1..], rest);
      assert es == [es[0]] + es[1..];
    }
  }

  lemma EntriesFollow(es: seq<SizedBuff>, bs: seq<BuffMsg>, rest: seq<byte>)
    requires |es| == |bs|
    ensures Follow(EntriesBytes(es) + rest, EncodeRecords(BuffEntries(bs)) + rest)
  {
    if es != [] {
      EntriesStep(bs);
      TagBytes(34);
    }
  }

  // Whatever all the caches hold, S_TEST prints itself correctly exactly when
  // every cache of every nested message is true: errors never cancel out.
  lemma StaleCaches(t: TestMsg, es: seq<SizedBuff>)
    requires Codec.TestOk(t) && |es| == |t.buffs|
    requires forall i :: 0 <= i < |es| ==> es[i].msg == t.buffs[i] && Cacheable(es[i])
    ensures TestCachedBytes(t.id, t.hp, t.attack, es, t.unknown) == TestSerialize(t)
       <==> forall e <- es :: TrueCaches(e)
  {
    var head, rest := TestHeadBytes(t.id, t.hp, t.attack), EncodeRecords(t.unknown);
    var x, y := EntriesBytes(es), EncodeRecords(BuffEntries(t.buffs));
    TestRecordsLayout(t);
    Assoc(head, x, rest);
    Assoc(head, y, rest);
    Cancel(head, x + rest, y + rest);
    StaleEntries(es, t.buffs, rest);
  }

  function AddVictim(b: BuffMsg, v: uint64): BuffMsg { b.(victims := b.victims + [v]) }

  function AddVictimAt(t: TestMsg, i: nat, v: uint64): TestMsg
    requires i < |t.buffs|
  {
    t.(buffs := t.buffs[i := AddVictim(t.buffs[i], v)])
  }

  predicate TrueEntry(e: SizedBuff, b: BuffMsg) { e.msg == b && Cacheable(e) && TrueCaches(e) }

  predicate WrongSize(e: SizedBuff, b: BuffMsg) { e.msg == b && Cacheable(e) && e.cachedSize != BuffSize(b) }

  // The first wrong cached size shows, whatever comes behind it.
  lemma {:induction false} WrongSizeShows(es: seq<SizedBuff>, bs: seq<BuffMsg>, i: nat, x: seq<byte>, y: seq<byte>)
    requires i < |es| == |bs| && WrongSize(es[i], bs[i])
    requires forall j :: 0 <= j < i ==> TrueEntry(es[j], bs[j])
    ensures EntriesBytes(es) + x != EncodeRecords(BuffEntries(bs)) + y
  {
    if i > 0 {
      assert TrueEntry(es[0], bs[0]);
      var es', bs' := es[1..], bs[1..];
      assert es'[i - 1] == es[i] && bs'[i - 1] == bs[i];
      forall j | 0 <= j < i - 1
        ensures TrueEntry(es'[j], bs'[j])
      {
        assert TrueEntry(es[j + 1], bs[j + 1]);
      }
      WrongSizeShows(es', bs', i - 1, x, y);
    }
    FirstEntry(es, bs, x, y);
  }

  lemma {:induction false} FirstEntry(es: seq<SizedBuff>, bs: seq<BuffMsg>, x: seq<byte>, y: seq<byte>)
    requires |es| == |bs| > 0 && es[0].msg == bs[0] && Cacheable(es[0])
    ensures EntriesBytes(es) + x == EncodeRecords(BuffEntries(bs)) + y ==> es[0].cachedSize == BuffSize(bs[0])
    ensures TrueCaches(es[0]) ==>
              (EntriesBytes(es) + x == EncodeRecords(BuffEntries(bs)) + y
          <==> EntriesBytes(es[1..]) + x == EncodeRecords(BuffEntries(bs[1..])) + y)
  {
    var x', y' := EntriesBytes(es[1..]) + x, EncodeRecords(BuffEntries(bs[1..])) + y;
    EntriesStep(bs);
    Assoc(EntryBytes(es[0]), EntriesBytes(es[1..]), x);
    Assoc(EntryRecord(es[0]), EncodeRecords(BuffEntries(bs[1..])), y);
    FrontEntry(es[0], x', y');
    StaleEntry(es[0]);
    Cancel(EntryBytes(es[0]), x', y');
  }

  // A victim added to a nested message between the passes always spoils the
  // whole packet, although every other cache is true.
  lemma AddToNested(t: TestMsg, i: nat, v: uint64, es: seq<SizedBuff>)
    requires i < |t.buffs| && Fresh(es, t.buffs)
    requires TestSize(AddVictimAt(t, i, v)) <= INT_MAX
    ensures TestCachedBytes(t.id, t.hp, t.attack, es[i := es[i].(msg := AddVictim(t.buffs[i], v))], t.unknown)
            != TestSerialize(AddVictimAt(t, i, v))
  {
    var t', e' := AddVictimAt(t, i, v), Sized(t.buffs[i]).(msg := AddVictim(t.buffs[i], v));
    var es', rest := es[i := e'], EncodeRecords(t.unknown);
    forall j | 0 <= j <= i
      ensures if j < i then TrueEntry(es'[j], t'.buffs[j]) else WrongSize(es'[j], t'.buffs[j])
    {
      NestedFits(t'.buffs, j);
      if j == i { AddSpoilsSize(t.buffs[i], v); } else { SizedCacheable(t.buffs[j]); }
    }
    WrongSizeShows(es', t'.buffs, i, rest, rest);
    TestRecordsLayout(t');
    var head := TestHeadBytes(t.id, t.hp, t.attack);
    Assoc(head, EntriesBytes(es'), rest);
    Assoc(head, EncodeRecords(BuffEntries(t'.buffs)), rest);
    Cancel(head, EntriesBytes(es') + rest, EncodeRecords(BuffEntries(t'.buffs)) + rest);
  }

  lemma SizedCacheable(b: BuffMsg)
    requires BuffSize(b) <= INT_MAX
    ensures Cacheable(Sized(b)) && TrueCaches(Sized(b))
  {
    SizedFields(b);
    DataSizeIsLength(b.victims);
  }

  lemma PackedSizeGrows(vs: seq<uint64>, v: uint64)
    ensures PackedSize(vs) < PackedSize(vs + [v])
  {
    DataSizeGrows(vs, v);
    VarintLenMonotone(DataSize(vs), DataSize(vs + [v]));
  }

  lemma AddSpoilsSize(b: BuffMsg, v: uint64)
    requires BuffSize(AddVictim(b, v)) <= INT_MAX
    ensures Cacheable(Sized(b).(msg := AddVictim(b, v))) && Sized(b).cachedSize != BuffSize(AddVictim(b, v))
  {
    PackedSizeGrows(b.victims, v);
    assert BuffSize(b) < BuffSize(AddVictim(b, v));
    SizedFields(b);
  }

  lemma {:induction false} NestedFits(bs: seq<BuffMsg>, i: nat)
    requires i < |bs| && EntriesSize(bs) <= INT_MAX
    ensures BuffSize(bs[i]) <= INT_MAX
  {
    if i > 0 { NestedFits(bs[1..], i - 1); }
  }

  lemma SizedFields(b: BuffMsg)
    requires BuffSize(b) <= INT_MAX
    ensures Sized(b) == SizedBuff(b, DataSize(b.victims), BuffSize(b)) && BuffSize(b) % TWO32 == BuffSize(b)
  {
    assert DataSize(b.victims) <= BuffSize(b);
  }
}
