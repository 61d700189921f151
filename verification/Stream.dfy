/** Writing through a target position into a byte array. */
module Stream {
  import opened Wire
  import Messages
  import opened Layout

  // s with the bytes from pos on overwritten by data.
  function Splice(s: seq<byte>, pos: nat, data: seq<byte>): (r: seq<byte>)
    requires pos + |data| <= |s|
    ensures |r| == |s|
  {
    s[..pos] + data + s[pos + |data|..]
  }

  lemma SpliceAt(s: seq<byte>, pos: nat, data: seq<byte>, i: nat)
    requires pos + |data| <= |s| && i < |s|
    ensures Splice(s, pos, data)[i] == if pos <= i < pos + |data| then data[i - pos] else s[i]
  {
  }

  lemma SpliceNothing(s: seq<byte>, pos: nat)
    requires pos <= |s|
    ensures Splice(s, pos, []) == s
  {
  }

  // Writing twice in a row is writing the concatenation.
  lemma SpliceSplice(s: seq<byte>, pos: nat, a: seq<byte>, b: seq<byte>)
    requires pos + |a| + |b| <= |s|
    ensures Splice(Splice(s, pos, a), pos + |a|, b) == Splice(s, pos, a + b)
  {
    var t := Splice(s, pos, a);
    assert t[..pos + |a|] == s[..pos] + a;
    assert t[pos + |a| + |b|..] == s[pos + |a| + |b|..];
    Assoc(s[..pos], a, b);
  }

  // The buffer is what it was at the start, with `done` written from `start`
  // on and the target standing right behind it.
  ghost predicate Wrote(buf: array<byte>, was: seq<byte>, start: nat, done: seq<byte>, target: nat)
    reads buf
  {
    && target == start + |done| <= |was|
    && buf[..] == Splice(was, start, done)
  }

  method WriteRaw(buf: array<byte>, target: nat, data: seq<byte>,
                  ghost was: seq<byte>, ghost start: nat, ghost done: seq<byte>)
    returns (end: nat)
    requires Wrote(buf, was, start, done, target)
    requires target + |data| <= buf.Length
    modifies buf
    ensures Wrote(buf, was, start, done + data, end)
  {
    forall i | 0 <= i < |data| {
      buf[target + i] := data[i];
    }
    end := target + |data|;
    assert buf[..] == Splice(old(buf[..]), target, data);
    SpliceSplice(was, start, done, data);
  }

  // A singular varint field, skipped when it is zero.
  method WriteNonZero(buf: array<byte>, target: nat, tag: byte, value: uint64,
                      ghost was: seq<byte>, ghost start: nat, ghost done: seq<byte>)
    returns (end: nat)
    requires Wrote(buf, was, start, done, target)
    requires target + |ScalarBytes(tag, value)| <= buf.Length
    modifies buf
    ensures Wrote(buf, was, start, done + ScalarBytes(tag, value), end)
  {
    end := target;
    if value != 0 {
      end := WriteRaw(buf, end, [tag] + EncodeVarint(value), was, start, done);
    } else {
      assert done + [] == done;
    }
  }

  // The float field, skipped when all its bits are zero.
  method WriteFloat(buf: array<byte>, target: nat, bits: uint32,
                    ghost was: seq<byte>, ghost start: nat, ghost done: seq<byte>)
    returns (end: nat)
    requires Wrote(buf, was, start, done, target)
    requires target + |FloatBytes(bits)| <= buf.Length
    modifies buf
    ensures Wrote(buf, was, start, done + FloatBytes(bits), end)
  {
    end := target;
    if bits != 0 {
      end := WriteRaw(buf, end, [21] + ToLE(bits, 4), was, start, done);
    } else {
      assert done + [] == done;
    }
  }

  // The packed field, written if and as its cached size says.
  method WriteUInt64Packed(buf: array<byte>, target: nat, values: seq<uint64>, byteSize: int,
                           ghost was: seq<byte>, ghost start: nat, ghost done: seq<byte>)
    returns (end: nat)
    requires Wrote(buf, was, start, done, target)
    requires target + |PackedBytes(values, byteSize)| <= buf.Length
    modifies buf
    ensures Wrote(buf, was, start, done + PackedBytes(values, byteSize), end)
  {
    end := target;
    if byteSize > 0 {
      end := WriteRaw(buf, end, [26] + EncodeVarint(byteSize) + Messages.EncodeVarints(values), was, start, done);
    } else {
      assert done + [] == done;
    }
  }
}
