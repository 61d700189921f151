/** BuffData as the heap object of Struct.pb.cc: fields, unknown fields, and
    the two size caches that no mutator maintains. */
module StructPb {
  import opened Wire
  import opened Messages
  import Codec
  import opened Layout
  import opened Stream
  import opened Tables

  class BuffData {
    var victims: seq<uint64>
    var victimsCachedByteSize: int
    var buffId: uint64
    var remainTime: uint32
    var cachedSize: int
    var unknown: seq<Record>

    function Value(): BuffMsg
      reads this
    {
      BuffMsg(buffId, remainTime, victims, unknown)
    }

    function Snapshot(): SizedBuff
      reads this
    {
      SizedBuff(Value(), victimsCachedByteSize, cachedSize)
    }

    // What _InternalSerialize would write now, trusting the caches.
    function CachedBytes(): seq<byte>
      reads this
    {
      BuffCachedBytes(Value(), victimsCachedByteSize)
    }

    constructor ()
      ensures Snapshot() == SizedBuff(EMPTY_BUFF, 0, 0)
    {
      victims, victimsCachedByteSize := [], 0;
      buffId, remainTime, cachedSize, unknown := 0, 0, 0, [];
    }

    // The copy constructor takes over the fields but not the caches.
    constructor Copy(from: BuffData)
      ensures Snapshot() == SizedBuff(from.Value(), 0, 0)
    {
      unknown := from.unknown;
      victims, victimsCachedByteSize, cachedSize := from.victims, 0, 0;
      buffId, remainTime := from.buffId, from.remainTime;
    }

    method SetBuffId(value: uint64)
      modifies `buffId
      ensures Value() == old(Value()).(buffId := value)
    {
      buffId := value;
    }

    method ClearBuffId()
      modifies `buffId
      ensures Value() == old(Value()).(buffId := 0)
    {
      buffId := 0;
    }

    method SetRemainTime(bits: uint32)
      modifies `remainTime
      ensures Value() == old(Value()).(remainTime := bits)
    {
      remainTime := bits;
    }

    method ClearRemainTime()
      modifies `remainTime
      ensures Value() == old(Value()).(remainTime := 0)
    {
      remainTime := 0;
    }

    method SetVictims(index: nat, value: uint64)
      requires index < |victims|
      modifies `victims
      ensures Value() == old(Value()).(victims := old(victims)[index := value])
    {
      victims := victims[index := value];
    }

    method AddVictims(value: uint64)
      modifies `victims
      ensures Value() == old(Value()).(victims := old(victims) + [value])
    {
      victims := victims + [value];
    }

    method ClearVictims()
      modifies `victims
      ensures Value() == old(Value()).(victims := [])
    {
      victims := [];
    }

    method Clear()
      modifies `victims, `buffId, `remainTime, `unknown
      ensures Value() == EMPTY_BUFF
    {
      victims := [];
      buffId, remainTime := 0, 0;
      unknown := [];
    }

    // First pass: whatever the caches held, they are true afterwards.
    method ByteSizeLong() returns (size: nat)
      modifies `victimsCachedByteSize, `cachedSize
      ensures size == |BuffSerialize(Value())| == BuffSize(Value())
      ensures Snapshot() == Sized(Value())
    {
      var totalSize := 0;
      victimsCachedByteSize := ToCachedSize(DataSize(victims));
      totalSize := totalSize + PackedSize(victims);
      if buffId != 0 {
        totalSize := totalSize + 1 + VarintLen(buffId);
      }
      if remainTime != 0 {
        totalSize := totalSize + 5;
      }
      if unknown != [] {
        totalSize := totalSize + |EncodeRecords(unknown)|;
      }
      cachedSize := ToCachedSize(totalSize);
      size := totalSize;
      BuffLayout(Value());
    }

    // Second pass: prints from the caches, true or not.
    method InternalSerialize(buf: array<byte>, target: nat) returns (end: nat)
      requires target + |CachedBytes()| <= buf.Length
      modifies buf
      ensures end == target + |CachedBytes()|
      ensures buf[..] == Splice(old(buf[..]), target, CachedBytes())
    {
      ghost var was := buf[..];
      ghost var d1 := ScalarBytes(8, buffId);
      ghost var d2 := d1 + FloatBytes(remainTime);
      ghost var d3 := d2 + PackedBytes(victims, victimsCachedByteSize);
      SpliceNothing(was, target);
      assert [] + d1 == d1;
      end := WriteNonZero(buf, target, 8, buffId, was, target, []);
      end := WriteFloat(buf, end, remainTime, was, target, d1);
      end := WriteUInt64Packed(buf, end, victims, victimsCachedByteSize, was, target, d2);
      end := WriteRaw(buf, end, EncodeRecords(unknown), was, target, d3);
    }

    method MergeImpl(from: BuffData)
      requires from != this
      modifies `victims, `buffId, `remainTime, `unknown
      ensures Value() == Codec.BuffMerge(old(Value()), from.Value())
    {
      victims := victims + from.victims;
      if from.buffId != 0 {
        buffId := from.buffId;
      }
      if from.remainTime != 0 {
        remainTime := from.remainTime;
      }
      unknown := unknown + from.unknown;
    }

    method CopyFrom(from: BuffData)
      modifies `victims, `buffId, `remainTime, `unknown
      ensures Value() == old(from.Value())
      ensures from.Value() == old(from.Value())
    {
      if from == this { return; }
      Clear();
      MergeImpl(from);
      Codec.BuffMergeIdentity(from.Value());
    }

    // Exchanges everything but the caches.
    method InternalSwap(other: BuffData)
      requires other != this
      modifies `victims, `buffId, `remainTime, `unknown
      modifies other`victims, other`buffId, other`remainTime, other`unknown
      ensures Value() == old(other.Value()) && other.Value() == old(Value())
    {
      unknown, other.unknown := other.unknown, unknown;
      victims, other.victims := other.victims, victims;
      buffId, other.buffId := other.buffId, buffId;
      remainTime, other.remainTime := other.remainTime, remainTime;
    }

    method Swap(other: BuffData)
      modifies `victims, `buffId, `remainTime, `unknown
      modifies other`victims, other`buffId, other`remainTime, other`unknown
      ensures Value() == old(other.Value()) && other.Value() == old(Value())
    {
      if other == this { return; }
      InternalSwap(other);
    }

    // Move assignment between objects that share an arena (or have none).
    method MoveAssign(from: BuffData)
      modifies `victims, `buffId, `remainTime, `unknown
      modifies from`victims, from`buffId, from`remainTime, from`unknown
      ensures Value() == old(from.Value()) && from.Value() == old(Value())
    {
      if from == this { return; }
      InternalSwap(from);
    }

    // Stores one record into the field the table named.
    method Store(target: Option<Target>, rec: Record) returns (ok: bool)
      requires target == BuffTarget(rec)
      modifies `victims, `buffId, `remainTime, `unknown
      ensures ok == BuffApply(old(Value()), rec).Some?
      ensures ok ==> Value() == BuffApply(old(Value()), rec).value
      ensures !ok ==> BuffExtends(old(Value()), Value())
    {
      ok := true;
      match target
      case None =>
        unknown := unknown + [rec];
      case Some(BuffId) =>
        buffId := rec.varint;
      case Some(RemainTime) =>
        remainTime := rec.bits32;
      case Some(Victims) =>
        if rec.VarintRec? {
          victims := victims + [rec.varint];
        } else {
          var run := DecodeVarints(rec.data);
          if run.None? { return false; }
          victims := victims + run.value;
        }
    }

    // One turn of the table-driven parse loop.
    method ParseRecord(s: seq<byte>, ghost goal: Option<BuffMsg>, ghost read: BuffMsg) returns (ok: bool, length: nat)
      requires s != []
      requires BuffParseFrom(Value(), s) == goal && BuffReadable(Value(), s) == read
      modifies `victims, `buffId, `remainTime, `unknown
      ensures !ok ==> goal.None? && BuffExtends(read, Value())
      ensures ok ==> 1 <= length <= |s|
      ensures ok ==> BuffParseFrom(Value(), s[length..]) == goal && BuffReadable(Value(), s[length..]) == read
    {
      length := 0;
      FastDispatchIsPlain(s);
      var step := FastStep(BUFF_TABLE, s);
      if step.None? { return false, 0; }
      BuffParseStep(Value(), s);
      ok := Store(step.value.target, step.value.rec);
      length := step.value.length;
    }

    // The parse loop, on top of what the object already holds.
    method MergeFromBytes(s: seq<byte>) returns (ok: bool)
      modifies `victims, `buffId, `remainTime, `unknown
      ensures ok == BuffParseFrom(old(Value()), s).Some?
      ensures ok ==> Value() == BuffParseFrom(old(Value()), s).value
      ensures !ok ==> BuffExtends(BuffReadable(old(Value()), s), Value())
    {
      var rest := s;
      ghost var goal, read := BuffParseFrom(Value(), s), BuffReadable(Value(), s);
      while rest != []
        invariant goal == BuffParseFrom(Value(), rest) && read == BuffReadable(Value(), rest)
        decreases |rest|
      {
        var stored, length := ParseRecord(rest, goal, read);
        if !stored { return false; }
        rest := rest[length..];
      }
      ok := true;
    }

    method ParseFromBytes(s: seq<byte>) returns (ok: bool)
      modifies `victims, `buffId, `remainTime, `unknown
      ensures ok == BuffParse(s).Some?
      ensures ok ==> Value() == BuffParse(s).value
      ensures !ok ==> BuffExtends(BuffReadable(EMPTY_BUFF, s), Value())
    {
      Clear();
      ok := MergeFromBytes(s);
    }
  }
}
