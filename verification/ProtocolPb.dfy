/** S_TEST as the heap object of Protocol.pb.cc: it owns a list of BuffData
    objects, sizes them in one pass and prints them in the next. */
module ProtocolPb {
  import opened Wire
  import opened Messages
  import Codec
  import opened Layout
  import opened Stream
  import opened Tables
  import StructPb

  function Values(bs: seq<StructPb.BuffData>): (vs: seq<BuffMsg>)
    reads bs
    ensures |vs| == |bs| && forall i :: 0 <= i < |bs| ==> vs[i] == bs[i].Value()
  {
    seq(|bs|, i requires 0 <= i < |bs| reads bs => bs[i].Value())
  }

  function Snapshots(bs: seq<StructPb.BuffData>): (es: seq<SizedBuff>)
    reads bs
    ensures |es| == |bs| && forall i :: 0 <= i < |bs| ==> es[i] == bs[i].Snapshot()
  {
    seq(|bs|, i requires 0 <= i < |bs| reads bs => bs[i].Snapshot())
  }

  lemma EntriesSizeFrom(vs: seq<BuffMsg>, i: nat)
    requires i < |vs|
    ensures EntriesSize(vs[i..]) == 1 + VarintLen(BuffSize(vs[i])) + BuffSize(vs[i]) + EntriesSize(vs[i + 1..])
  {
    var rest := vs[i..];
    assert rest[0] == vs[i] && rest[1..] == vs[i + 1..];
  }

  lemma EntriesBytesFrom(es: seq<SizedBuff>, i: nat)
    requires i < |es|
    ensures EntriesBytes(es[i..]) == EntryBytes(es[i]) + EntriesBytes(es[i + 1..])
  {
    var rest := es[i..];
    assert rest[0] == es[i] && rest[1..] == es[i + 1..];
  }

  // InternalWriteMessage: tag, cached size, then the message from its own caches.
  method WriteMessage(buf: array<byte>, target: nat, b: StructPb.BuffData,
                      ghost was: seq<byte>, ghost start: nat, ghost done: seq<byte>)
    returns (end: nat)
    requires Wrote(buf, was, start, done, target)
    requires target + |EntryBytes(b.Snapshot())| <= buf.Length
    modifies buf
    ensures Wrote(buf, was, start, done + EntryBytes(b.Snapshot()), end)
  {
    var prefix := [34] + EncodeVarint(b.cachedSize % TWO32);
    end := WriteRaw(buf, target, prefix, was, start, done);
    end := b.InternalSerialize(buf, end);
    SpliceSplice(was, start, done + prefix, b.CachedBytes());
    Assoc(done, prefix, b.CachedBytes());
  }

  class STest {
    var buffs: seq<StructPb.BuffData>
    var id: uint64
    var hp: uint32
    var attack: uint32
    var cachedSize: int
    var unknown: seq<Record>

    function Value(): TestMsg
      reads this, buffs
    {
      TestMsg(id, hp, attack, Values(buffs), unknown)
    }

    // What _InternalSerialize would write now, trusting the caches.
    function CachedBytes(): seq<byte>
      reads this, buffs
    {
      TestCachedBytes(id, hp, attack, Snapshots(buffs), unknown)
    }

    // The list owns its elements: no element is in it twice.
    ghost predicate Valid()
      reads this
    {
      forall i, j :: 0 <= i < j < |buffs| ==> buffs[i] != buffs[j]
    }

    constructor ()
      ensures Valid() && Value() == EMPTY_TEST && cachedSize == 0
    {
      buffs := [];
      id, hp, attack, cachedSize, unknown := 0, 0, 0, 0, [];
    }

    // The copy constructor copies the nested messages and zeroes the cache.
    constructor Copy(from: STest)
      ensures Valid() && fresh(buffs) && Value() == from.Value() && cachedSize == 0
      ensures from.Value() == old(from.Value())
    {
      unknown := from.unknown;
      buffs := [];
      id, hp, attack, cachedSize := from.id, from.hp, from.attack, 0;
      new;
      AppendCopies(from.buffs);
      assert [] + Values(from.buffs) == Values(from.buffs);
    }

    method SetId(value: uint64)
      modifies `id
      ensures Value() == old(Value()).(id := value)
    {
      id := value;
    }

    method ClearId()
      modifies `id
      ensures Value() == old(Value()).(id := 0)
    {
      id := 0;
    }

    method SetHp(value: uint32)
      modifies `hp
      ensures Value() == old(Value()).(hp := value)
    {
      hp := value;
    }

    method ClearHp()
      modifies `hp
      ensures Value() == old(Value()).(hp := 0)
    {
      hp := 0;
    }

    method SetAttack(value: uint32)
      modifies `attack
      ensures Value() == old(Value()).(attack := value)
    {
      attack := value;
    }

    method ClearAttack()
      modifies `attack
      ensures Value() == old(Value()).(attack := 0)
    {
      attack := 0;
    }

    // Appends an empty BuffData and hands it to the caller to fill.
    method AddBuffs() returns (added: StructPb.BuffData)
      requires Valid()
      modifies `buffs
      ensures Valid() && fresh(added) && buffs == old(buffs) + [added]
      ensures added.Value() == EMPTY_BUFF
      ensures Value() == old(Value()).(buffs := old(Value()).buffs + [EMPTY_BUFF])
    {
      added := new StructPb.BuffData();
      buffs := buffs + [added];
    }

    // The caller may change the returned element through its own mutators.
    method MutableBuffs(index: nat) returns (element: StructPb.BuffData)
      requires index < |buffs|
      ensures element == buffs[index] && element.Value() == Value().buffs[index]
    {
      element := buffs[index];
    }

    method ClearBuffs()
      modifies `buffs
      ensures Valid() && Value() == old(Value()).(buffs := [])
    {
      buffs := [];
    }

    method Clear()
      modifies `buffs, `id, `hp, `attack, `unknown
      ensures Valid() && Value() == EMPTY_TEST
    {
      buffs := [];
      id, hp, attack := 0, 0, 0;
      unknown := [];
    }

    // First pass: sizes every nested message, and leaves every cache true
    // whatever it held before.
    method ByteSizeLong() returns (size: nat)
      requires Valid()
      modifies `cachedSize, buffs`victimsCachedByteSize, buffs`cachedSize
      ensures Value() == old(Value())
      ensures size == |TestSerialize(Value())|
      ensures cachedSize == ToCachedSize(size) && Fresh(Snapshots(buffs), Values(buffs))
    {
      ghost var v := Value();
      TestSizeIsLength(v);
      var totalSize := SizeBuffs();
      var singular := SizeSingular();
      size := totalSize + singular;
      cachedSize := ToCachedSize(size);
      assert Values(buffs) == v.buffs;
    }

    // The part behind the loop: the fields that are not zero, and the unknown ones.
    method SizeSingular() returns (size: nat)
      ensures size == ScalarSize(id) + ScalarSize(hp) + ScalarSize(attack) + |EncodeRecords(unknown)|
    {
      size := 0;
      if id != 0 {
        size := size + 1 + VarintLen(id);
      }
      if hp != 0 {
        size := size + 1 + VarintLen(hp);
      }
      if attack != 0 {
        size := size + 1 + VarintLen(attack);
      }
      if unknown != [] {
        size := size + |EncodeRecords(unknown)|;
      }
    }

    // The part of the first pass that loops over the nested messages: one tag
    // byte each, and the length-prefixed size each returns.
    method SizeBuffs() returns (totalSize: nat)
      requires Valid()
      modifies buffs`victimsCachedByteSize, buffs`cachedSize
      ensures Values(buffs) == old(Values(buffs))
      ensures totalSize == EntriesSize(Values(buffs))
      ensures Fresh(Snapshots(buffs), Values(buffs))
    {
      var bs := buffs;
      ghost var vs := Values(bs);
      totalSize := |bs|;
      var i := 0;
      assert vs[0..] == vs;
      while i < |bs|
        invariant i <= |bs|
        invariant forall j :: 0 <= j < i ==> bs[j].Snapshot() == Sized(vs[j])
        invariant totalSize + EntriesSize(vs[i..]) == |bs| - i + EntriesSize(vs)
      {
        EntriesSizeFrom(vs, i);
        var messageSize := bs[i].ByteSizeLong();
        assert bs[i].Snapshot() == Sized(vs[i]);
        totalSize := totalSize + VarintLen(messageSize) + messageSize;
        i := i + 1;
      }
      assert Values(bs) == vs;
    }

    // Second pass: prints from the caches, true or not.
    method InternalSerialize(buf: array<byte>, target: nat) returns (end: nat)
      requires target + |CachedBytes()| <= buf.Length
      modifies buf
      ensures end == target + |old(CachedBytes())|
      ensures buf[..] == Splice(old(buf[..]), target, old(CachedBytes()))
    {
      ghost var was, es := buf[..], Snapshots(buffs);
      ghost var head, entries := TestHeadBytes(id, hp, attack), EntriesBytes(es);
      ghost var tail := EncodeRecords(unknown);
      assert CachedBytes() == head + entries + tail;
      end := WriteHead(buf, target);
      end := WriteBuffs(buf, end, es, was, target, head);
      end := WriteRaw(buf, end, EncodeRecords(unknown), was, target, head + entries);
    }

    // The loop of the second pass over the nested messages.
    method WriteBuffs(buf: array<byte>, target: nat, ghost es: seq<SizedBuff>,
                      ghost was: seq<byte>, ghost start: nat, ghost done: seq<byte>)
      returns (end: nat)
      requires es == Snapshots(buffs)
      requires Wrote(buf, was, start, done, target)
      requires target + |EntriesBytes(es)| <= buf.Length
      modifies buf
      ensures Wrote(buf, was, start, done + EntriesBytes(es), end)
    {
      var bs := buffs;
      ghost var written, all := done, done + EntriesBytes(es);
      end := target;
      var i := 0;
      assert es[0..] == es;
      while i < |bs|
        invariant i <= |bs|
        invariant Wrote(buf, was, start, written, end)
        invariant written + EntriesBytes(es[i..]) == all
      {
        ghost var next := EntryBytes(es[i]);
        EntriesBytesFrom(es, i);
        Assoc(written, next, EntriesBytes(es[i + 1..]));
        assert bs[i].Snapshot() == es[i];
        end := WriteMessage(buf, end, bs[i], was, start, written);
        written := written + next;
        i := i + 1;
      }
    }

    method WriteHead(buf: array<byte>, target: nat) returns (end: nat)
      requires target + |TestHeadBytes(id, hp, attack)| <= buf.Length
      modifies buf
      ensures Wrote(buf, old(buf[..]), target, TestHeadBytes(id, hp, attack), end)
    {
      ghost var was := buf[..];
      ghost var d1 := ScalarBytes(8, id);
      ghost var d2 := d1 + ScalarBytes(16, hp);
      SpliceNothing(was, target);
      assert [] + d1 == d1;
      end := WriteNonZero(buf, target, 8, id, was, target, []);
      end := WriteNonZero(buf, end, 16, hp, was, target, d1);
      end := WriteNonZero(buf, end, 24, attack, was, target, d2);
    }

    // Sizing and then printing writes the serialisation of the message, from
    // any state of the caches.  Refused when the message is over 2 GiB or
    // larger than the room given.
    method SerializeToArray(buf: array<byte>, offset: nat, size: nat) returns (ok: bool)
      requires Valid()
      requires offset + size <= buf.Length
      modifies buf, `cachedSize, buffs`victimsCachedByteSize, buffs`cachedSize
      ensures Value() == old(Value())
      ensures ok == (|TestSerialize(Value())| <= size && |TestSerialize(Value())| <= INT_MAX)
      ensures buf[..] == if ok then Splice(old(buf[..]), offset, TestSerialize(Value())) else old(buf[..])
    {
      var byteSize := ByteSizeLong();
      if byteSize > INT_MAX { return false; }
      if size < byteSize { return false; }
      TestSizeIsLength(Value());
      TestLayout(Value(), Snapshots(buffs));
      var end := InternalSerialize(buf, offset);
      ok := true;
    }

    // Appends a new copy of every element, in order.
    method AppendCopies(from: seq<StructPb.BuffData>)
      requires Valid()
      modifies `buffs
      ensures Valid()
      ensures |buffs| == |old(buffs)| + |from| && old(buffs) <= buffs
      ensures forall i :: |old(buffs)| <= i < |buffs| ==> fresh(buffs[i])
      ensures Values(buffs) == old(Values(buffs)) + old(Values(from))
    {
      ghost var first, olds, news := buffs, Values(buffs), Values(from);
      var i := 0;
      while i < |from|
        invariant i <= |from| && |buffs| == |first| + i && first <= buffs
        invariant Valid()
        invariant forall j :: |first| <= j < |buffs| ==> fresh(buffs[j])
        invariant forall j :: |first| <= j < |buffs| ==> buffs[j].Value() == news[j - |first|]
      {
        var copy := new StructPb.BuffData.Copy(from[i]);
        buffs := buffs + [copy];
        i := i + 1;
      }
      assert Values(buffs) == olds + news;
    }

    // The part of MergeImpl behind the nested messages.
    method MergeSingular(from: STest)
      requires from != this
      modifies `id, `hp, `attack, `unknown
      ensures id == (if from.id != 0 then from.id else old(id))
      ensures hp == (if from.hp != 0 then from.hp else old(hp))
      ensures attack == (if from.attack != 0 then from.attack else old(attack))
      ensures unknown == old(unknown) + from.unknown
    {
      if from.id != 0 {
        id := from.id;
      }
      if from.hp != 0 {
        hp := from.hp;
      }
      if from.attack != 0 {
        attack := from.attack;
      }
      unknown := unknown + from.unknown;
    }

    method MergeImpl(from: STest)
      requires from != this && Valid()
      modifies `buffs, `id, `hp, `attack, `unknown
      ensures Valid() && Value() == Codec.TestMerge(old(Value()), old(from.Value()))
      ensures old(buffs) <= buffs && forall i :: |old(buffs)| <= i < |buffs| ==> fresh(buffs[i])
      ensures from.Value() == old(from.Value())
    {
      AppendCopies(from.buffs);
      MergeSingular(from);
    }

    method CopyFrom(from: STest)
      requires Valid()
      modifies `buffs, `id, `hp, `attack, `unknown
      ensures Valid() && Value() == old(from.Value())
      ensures from != this ==> fresh(buffs)
      ensures from.Value() == old(from.Value())
    {
      if from == this { return; }
      Clear();
      MergeImpl(from);
      Codec.TestMergeIdentity(from.Value());
    }

    // Exchanges everything but the caches; nested messages move with theirs.
    method InternalSwap(other: STest)
      requires other != this && Valid() && other.Valid()
      modifies `buffs, `id, `hp, `attack, `unknown
      modifies other`buffs, other`id, other`hp, other`attack, other`unknown
      ensures Valid() && other.Valid()
      ensures Value() == old(other.Value()) && other.Value() == old(Value())
    {
      unknown, other.unknown := other.unknown, unknown;
      buffs, other.buffs := other.buffs, buffs;
      id, other.id := other.id, id;
      hp, other.hp := other.hp, hp;
      attack, other.attack := other.attack, attack;
    }

    method Swap(other: STest)
      requires Valid() && other.Valid()
      modifies `buffs, `id, `hp, `attack, `unknown
      modifies other`buffs, other`id, other`hp, other`attack, other`unknown
      ensures Valid() && other.Valid()
      ensures Value() == old(other.Value()) && other.Value() == old(Value())
    {
      if other == this { return; }
      InternalSwap(other);
    }

    method MoveAssign(from: STest)
      requires Valid() && from.Valid()
      modifies `buffs, `id, `hp, `attack, `unknown
      modifies from`buffs, from`id, from`hp, from`attack, from`unknown
      ensures Valid() && from.Valid()
      ensures Value() == old(from.Value()) && from.Value() == old(Value())
    {
      if from == this { return; }
      InternalSwap(from);
    }

    // Stores one record into the field the table named; a nested message is
    // parsed into a new element at the end of the list.
    method Store(target: Option<Target>, rec: Record) returns (ok: bool)
      requires Valid() && target == TestTarget(rec)
      modifies `buffs, `id, `hp, `attack, `unknown
      ensures Valid()
      ensures ok == TestApply(old(Value()), rec).Some?
      ensures ok ==> Value() == TestApply(old(Value()), rec).value
      ensures !ok ==> rec.LenRec? && TestExtends(old(Value()), rec.data, Value())
      ensures old(buffs) <= buffs && forall i :: |old(buffs)| <= i < |buffs| ==> fresh(buffs[i])
    {
      ok := true;
      match target
      case None =>
        unknown := unknown + [rec];
      case Some(Id) =>
        id := rec.varint;
      case Some(Hp) =>
        hp := rec.varint % TWO32;
      case Some(Attack) =>
        attack := rec.varint % TWO32;
      case Some(Buffs) =>
        var element := AddBuffs();
        ok := element.MergeFromBytes(rec.data);
    }

    // One turn of the table-driven parse loop.
    method ParseRecord(s: seq<byte>, ghost goal: Option<TestMsg>, ghost read: TestMsg, ghost fault: seq<byte>)
      returns (ok: bool, length: nat)
      requires s != [] && Valid()
      requires TestParseFrom(Value(), s) == goal && TestReadable(Value(), s) == read && TestFault(Value(), s) == fault
      modifies `buffs, `id, `hp, `attack, `unknown
      ensures Valid()
      ensures !ok ==> goal.None? && TestExtends(read, FrontPayload(fault), Value())
      ensures ok ==> 1 <= length <= |s|
      ensures ok ==> TestParseFrom(Value(), s[length..]) == goal
      ensures ok ==> TestReadable(Value(), s[length..]) == read && TestFault(Value(), s[length..]) == fault
      ensures old(buffs) <= buffs && forall i :: |old(buffs)| <= i < |buffs| ==> fresh(buffs[i])
    {
      length := 0;
      FastDispatchIsPlain(s);
      var step := FastStep(TEST_TABLE, s);
      if step.None? { return false, 0; }
      TestParseStep(Value(), s);
      if step.value.rec.LenRec? { FrontPayloadIsData(s); }
      ok := Store(step.value.target, step.value.rec);
      length := step.value.length;
    }

    // The parse loop, on top of what the object already holds.
    method MergeFromBytes(s: seq<byte>) returns (ok: bool)
      requires Valid()
      modifies `buffs, `id, `hp, `attack, `unknown
      ensures Valid()
      ensures ok == TestParseFrom(old(Value()), s).Some?
      ensures ok ==> Value() == TestParseFrom(old(Value()), s).value
      ensures !ok ==>
                TestExtends(TestReadable(old(Value()), s), FrontPayload(TestFault(old(Value()), s)), Value())
      ensures old(buffs) <= buffs && forall i :: |old(buffs)| <= i < |buffs| ==> fresh(buffs[i])
    {
      var rest := s;
      ghost var goal, read, fault := TestParseFrom(Value(), s), TestReadable(Value(), s), TestFault(Value(), s);
      while rest != []
        invariant Valid() && goal == TestParseFrom(Value(), rest)
        invariant read == TestReadable(Value(), rest) && fault == TestFault(Value(), rest)
        invariant old(buffs) <= buffs && forall i :: |old(buffs)| <= i < |buffs| ==> fresh(buffs[i])
        decreases |rest|
      {
        var stored, length := ParseRecord(rest, goal, read, fault);
        if !stored { return false; }
        rest := rest[length..];
      }
      ok := true;
    }

    method ParseFromArray(s: seq<byte>) returns (ok: bool)
      modifies `buffs, `id, `hp, `attack, `unknown
      ensures Valid()
      ensures ok == TestParse(s).Some?
      ensures ok ==> Value() == TestParse(s).value
      ensures !ok ==> TestExtends(TestReadable(EMPTY_TEST, s), FrontPayload(TestFault(EMPTY_TEST, s)), Value())
      ensures fresh(buffs)
    {
      Clear();
      ok := MergeFromBytes(s);
    }
  }
}
