/** The wire format of GPU commands in numbers: where every field lies, which type is which structure,
    and how many bytes a command takes (section 5.7.6 of VIRTIO v1.2). */
module GpuLayout {
  import opened GpuProtocol
  import B = Bits
  import opened Wrappers

  // ---- byte order ----

  /** Bytes are in little-endian order: byte i holds the digit of 256^i. */
  lemma {:induction false} ByteOfNumber(n: nat, width: nat, i: nat)
    requires i < width
    ensures ToLe(n, width)[i] == n / Pow256(i) % 256
  {
    if i > 0 {
      ByteOfNumber(n / 256, width - 1, i - 1);
      DivideTwice(n, Pow256(i - 1));
    }
  }

  lemma DivideTwice(n: nat, d: nat)
    requires d > 0
    ensures n / 256 / d == n / (256 * d)
  {
    var q, r := n / 256, n % 256;
    var h, m := q / d, q % d;
    assert q == h * d + m;
    assert n == h * (256 * d) + (256 * m + r);
    B.DivModUnique(n, 256 * d, h, 256 * m + r);
  }

  function U32(b0: nat, b1: nat, b2: nat, b3: nat): nat {
    b0 + 0x100 * b1 + 0x1_0000 * b2 + 0x100_0000 * b3
  }

  lemma NumberOfBytes(bytes: seq<Byte>)
    ensures |bytes| == 1 ==> FromLe(bytes) == bytes[0]
    ensures |bytes| == 4 ==> FromLe(bytes) == U32(bytes[0], bytes[1], bytes[2], bytes[3])
  {
    assert FromLe([]) == 0;
    if |bytes| == 1 {
      assert bytes[1..] == [];
    } else if |bytes| == 4 {
      assert bytes[1..][1..] == bytes[2..] && bytes[2..][1..] == bytes[3..] && bytes[3..][1..] == [];
      assert FromLe(bytes[3..]) == bytes[3];
      assert FromLe(bytes[2..]) == bytes[2] + 256 * FromLe(bytes[3..]);
      assert FromLe(bytes[1..]) == bytes[1] + 256 * FromLe(bytes[2..]);
    }
  }

  // ---- where fields lie ----

  function Total(widths: seq<nat>): nat {
    if widths == [] then 0 else widths[0] + Total(widths[1..])
  }

  /** A structure can be read exactly if all its bytes are there, and takes exactly those. */
  lemma {:induction false} ReadsIff(bytes: seq<Byte>, widths: seq<nat>)
    ensures ReadFields(bytes, widths).Some? <==> Total(widths) <= |bytes|
    ensures ReadFields(bytes, widths).Some? ==> ReadFields(bytes, widths).value.1 == bytes[Total(widths)..]
  {
    if widths != [] && widths[0] <= |bytes| {
      ReadsIff(bytes[widths[0]..], widths[1..]);
    }
  }

  lemma {:induction false} TotalOfPrefix(widths: seq<nat>, i: nat)
    requires i < |widths|
    ensures Total(widths[..i]) + widths[i] <= Total(widths)
  {
    if i > 0 {
      TotalOfPrefix(widths[1..], i - 1);
      assert widths[..i][1..] == widths[1..][..i - 1];
    }
  }

  /** Field i lies behind the fields before it, without gaps. */
  lemma {:induction false} FieldAt(bytes: seq<Byte>, widths: seq<nat>, i: nat)
    requires ReadFields(bytes, widths).Some? && i < |widths|
    ensures var at := Total(widths[..i]);
            at + widths[i] <= |bytes|
            && ReadFields(bytes, widths).value.0[i] == FromLe(bytes[at..at + widths[i]])
  {
    if i > 0 {
      var w := widths[0];
      assert widths[..i][1..] == widths[1..][..i - 1];
      FieldAt(bytes[w..], widths[1..], i - 1);
      var at := Total(widths[1..][..i - 1]);
      assert bytes[w..][at..at + widths[i]] == bytes[w + at..w + at + widths[i]];
    }
  }

  lemma AddOne(count: nat, size: nat)
    requires count > 0
    ensures count * size == size + (count - 1) * size
  {
  }

  /** An array of structures can be read exactly if all of them are there, and takes exactly their bytes. */
  lemma {:induction false} ReadsManyIff(bytes: seq<Byte>, widths: seq<nat>, count: nat)
    ensures ReadMany(bytes, widths, count).Some? <==> count * Total(widths) <= |bytes|
    ensures ReadMany(bytes, widths, count).Some? ==>
              ReadMany(bytes, widths, count).value.1 == bytes[count * Total(widths)..]
    decreases count
  {
    hide ReadFields, Total;
    if count > 0 {
      ReadsIff(bytes, widths);
      var size := Total(widths);
      AddOne(count, size);
      if size <= |bytes| {
        var rest := bytes[size..];
        ReadsManyIff(rest, widths, count - 1);
        if (count - 1) * size <= |rest| {
          assert rest[(count - 1) * size..] == bytes[count * size..];
        }
      }
    }
  }

  /** Structure k of an array lies behind the k structures before it. */
  lemma {:induction false} StructureAt(bytes: seq<Byte>, widths: seq<nat>, count: nat, k: nat)
    requires ReadMany(bytes, widths, count).Some? && k < count
    ensures k * Total(widths) <= |bytes|
    ensures var one := ReadFields(bytes[k * Total(widths)..], widths);
            one.Some? && ReadMany(bytes, widths, count).value.0[k] == one.value.0
    decreases count
  {
    hide ReadFields, Total;
    ReadsIff(bytes, widths);
    var size := Total(widths);
    if k == 0 {
      assert bytes[0..] == bytes;
    } else {
      AddOne(k, size);
      StructureAt(bytes[size..], widths, count - 1, k - 1);
      assert bytes[size..][(k - 1) * size..] == bytes[k * size..];
    }
  }

  // ---- the structures ----

  lemma {:induction false} TotalJoin(a: seq<nat>, b: seq<nat>)
    ensures Total(a + b) == Total(a) + Total(b)
  {
    if a == [] {
      assert a + b == b;
    } else {
      assert (a + b)[1..] == a[1..] + b;
      TotalJoin(a[1..], b);
    }
  }

  lemma {:induction false} TotalOfEqual(width: nat, count: nat)
    ensures Total(Repeat(width, count)) == width * count
  {
    if count > 0 {
      assert Repeat(width, count)[1..] == Repeat(width, count - 1);
      TotalOfEqual(width, count - 1);
    }
  }

  lemma TotalOfTwo(a: nat, b: nat)
    ensures Total([a]) == a && Total([a, b]) == a + b
  {
    assert Total([]) == 0;
    assert [a] == [a] + [] && [b] == [b] + [] && [a, b] == [a] + [b];
    TotalFirst(a, []);
    TotalFirst(b, []);
    TotalFirst(a, [b]);
  }

  lemma TotalFirst(first: nat, rest: seq<nat>)
    ensures Total([first] + rest) == first + Total(rest)
  {
    assert ([first] + rest)[1..] == rest;
  }

  lemma TotalOfThree(a: nat, b: nat, c: nat)
    ensures Total([a, b, c]) == a + b + c
  {
    hide Total;
    assert [a, b, c] == [a] + [b, c];
    TotalFirst(a, [b, c]);
    TotalOfTwo(b, c);
  }

  lemma TotalOfFour(a: nat, b: nat, c: nat, d: nat)
    ensures Total([a, b, c, d]) == a + b + c + d
  {
    hide Total;
    assert [a, b, c, d] == [a, b] + [c, d];
    TotalJoin([a, b], [c, d]);
    TotalOfTwo(a, b);
    TotalOfTwo(c, d);
  }

  /** The bytes behind the header of a command of fixed length, by its type. */
  function BodyLength(kind: nat): Option<nat> {
    if kind in {0x100, 0x201} then Some(0)
    else if kind in {0x102, 0x107, 0x108, 0x109, 0x10a, 0x10b, 0x202, 0x203, 0x209} then Some(8)
    else if kind in {0x101, 0x208} then Some(16)
    else if kind in {0x103, 0x104} then Some(24)
    else if kind in {0x105, 0x10c, 0x300, 0x301} then Some(32)
    else if kind in {0x204, 0x205, 0x206} then Some(48)
    else if kind in {0x10d, 0x200} then Some(72)
    else None
  }

  /** Which type is which structure, with the widths of its fields. */
  lemma FieldsOfType(kind: nat)
    ensures kind in {0x100, 0x201} ==> Layout(kind) == Some([])
    ensures kind in {0x102, 0x107, 0x108, 0x109, 0x10a, 0x10b, 0x202, 0x203, 0x209} ==> Layout(kind) == Some([4, 4])
    ensures kind == 0x101 ==> Layout(kind) == Some([4, 4, 4, 4])
    ensures kind in {0x103, 0x104} ==> Layout(kind) == Some([4, 4, 4, 4, 4, 4])
    ensures kind == 0x105 ==> Layout(kind) == Some([4, 4, 4, 4, 8, 4, 4])
    ensures kind == 0x10c ==> Layout(kind) == Some([4, 4, 4, 4, 8, 8])
    ensures kind == 0x208 ==> Layout(kind) == Some([4, 4, 8])
    ensures kind in {0x300, 0x301} ==> Layout(kind) == Some([4, 4, 4, 4, 4, 4, 4, 4])
    ensures kind == 0x204 ==> Layout(kind) == Some(Repeat(4, 12))
    ensures kind in {0x205, 0x206} ==> Layout(kind) == Some([4, 4, 4, 4, 4, 4] + [8, 4, 4, 4, 4])
    ensures kind == 0x10d ==> Layout(kind) == Some(Repeat(4, 18))
    ensures kind == 0x200 ==> Layout(kind) == Some([4, 4] + Repeat(1, 64))
  {
    assert Repeat(4, 6) == [4, 4, 4, 4, 4, 4];
    assert RECT + [4, 4] == [4, 4, 4, 4, 4, 4] && RECT + [8, 4, 4] == [4, 4, 4, 4, 8, 4, 4];
    assert RECT + RECT == [4, 4, 4, 4, 4, 4, 4, 4];
    assert RECT + Repeat(4, 6) + Repeat(4, 4) + Repeat(4, 4) == Repeat(4, 18);
  }

  /** The types with a structure of fixed length, and that length. */
  lemma LengthOfType(kind: nat)
    ensures Layout(kind).Some? ==> BodyLength(kind) == Some(Total(Layout(kind).value))
    ensures Layout(kind).None? ==> BodyLength(kind).None?
  {
    hide Total;
    TotalOfSmall();
    TotalOfLarge();
  }

  lemma TotalOfSmall()
    ensures Total([]) == 0 && Total(TWO_WORDS) == 8 && Total(RECT) == 16 && Total([4, 4, 8]) == 16
    ensures Total(RECT + [4, 4]) == 24 && Total(RECT + [8, 4, 4]) == 32 && Total([4, 4, 4, 4, 8, 8]) == 32
    ensures Total([4, 4, 4, 4] + [4, 4, 4, 4]) == 32
  {
    assert Total([]) == 0;
    hide Total;
    TotalOfTwo(4, 4);
    TotalOfTwo(8, 8);
    TotalOfThree(4, 4, 8);
    TotalOfThree(8, 4, 4);
    TotalOfFour(4, 4, 4, 4);
    TotalJoin(RECT, [4, 4]);
    TotalJoin(RECT, [8, 4, 4]);
    TotalJoin([4, 4, 4, 4], [8, 8]);
    TotalJoin([4, 4, 4, 4], [4, 4, 4, 4]);
    assert [4, 4, 4, 4] + [8, 8] == [4, 4, 4, 4, 8, 8];
  }

  lemma TotalOfLarge()
    ensures Total(RECT + Repeat(4, 6) + Repeat(4, 4) + Repeat(4, 4)) == 72
    ensures Total([4, 4] + Repeat(1, 64)) == 72
    ensures Total(Repeat(4, 12)) == 48 && Total(Repeat(4, 6) + [8, 4, 4, 4, 4]) == 48
  {
    hide Total;
    TotalOfEqual(4, 4);
    TotalOfEqual(4, 6);
    TotalOfEqual(4, 12);
    TotalOfEqual(1, 64);
    TotalOfTwo(4, 4);
    TotalOfThree(4, 4, 4);
    TotalOfTwo(8, 4);
    TotalOfFour(4, 4, 4, 4);
    assert [8, 4] + [4, 4, 4] == [8, 4, 4, 4, 4];
    TotalJoin([8, 4], [4, 4, 4]);
    TotalJoin(RECT, Repeat(4, 6));
    TotalJoin(RECT + Repeat(4, 6), Repeat(4, 4));
    TotalJoin(RECT + Repeat(4, 6) + Repeat(4, 4), Repeat(4, 4));
    TotalJoin([4, 4], Repeat(1, 64));
    TotalJoin(Repeat(4, 6), [8, 4, 4, 4, 4]);
  }

  lemma TotalOfHeader()
    ensures Total(HEADER) == 24
    ensures Total(HEADER[..0]) == 0 && Total(HEADER[..1]) == 4 && Total(HEADER[..2]) == 8
    ensures Total(HEADER[..3]) == 16 && Total(HEADER[..4]) == 20
  {
    assert Total([]) == 0;
    assert HEADER[..0] == [] && HEADER[..1] == [4] && HEADER[..2] == [4, 4] && HEADER[..3] == [4, 4, 8];
    assert HEADER[..4] == [4, 4, 8, 4] && HEADER == [4, 4, 8, 4] + [1, 1, 1, 1];
    assert [4][1..] == [];
    assert Total([4]) == 4;
    hide Total;
    TotalOfTwo(4, 4);
    TotalOfThree(4, 4, 8);
    TotalOfFour(4, 4, 8, 4);
    TotalOfFour(1, 1, 1, 1);
    TotalJoin([4, 4, 8, 4], [1, 1, 1, 1]);
  }

  // ---- whole commands ----

  function U32At(bytes: seq<Byte>, at: nat): nat
    requires at + 4 <= |bytes|
  {
    U32(bytes[at], bytes[at + 1], bytes[at + 2], bytes[at + 3])
  }

  lemma U32Is(bytes: seq<Byte>, at: nat)
    requires at + 4 <= |bytes|
    ensures FromLe(bytes[at..at + 4]) == U32At(bytes, at)
  {
    NumberOfBytes(bytes[at..at + 4]);
  }

  /** The header is the first 24 bytes: type, flags, fence id (8 bytes), context, and ring. */
  lemma HeaderAt(bytes: seq<Byte>)
    ensures ReadFields(bytes, HEADER).Some? <==> |bytes| >= 24
    ensures |bytes| >= 24 ==>
              var (fields, body) := ReadFields(bytes, HEADER).value;
              var h := HeaderOf(fields);
              && body == bytes[24..]
              && h.kind == U32At(bytes, 0) && h.flags == U32At(bytes, 4)
              && h.fenceId == FromLe(bytes[8..16])
              && h.ctxId == U32At(bytes, 16) && h.ringIdx == bytes[20]
  {
    hide ReadFields, FromLe, Total;
    TotalOfHeader();
    ReadsIff(bytes, HEADER);
    if |bytes| >= 24 {
      FieldAt(bytes, HEADER, 0);
      FieldAt(bytes, HEADER, 1);
      FieldAt(bytes, HEADER, 2);
      FieldAt(bytes, HEADER, 3);
      FieldAt(bytes, HEADER, 4);
      U32Is(bytes, 0);
      U32Is(bytes, 4);
      U32Is(bytes, 16);
      NumberOfBytes(bytes[20..21]);
    }
  }

  /** How many bytes a command needs, by its type and, where it has one, its count; None for an unknown
      type. */
  function Needs(bytes: seq<Byte>): Option<nat>
    requires |bytes| >= 24
  {
    var kind := U32At(bytes, 0);
    if kind == 0x106 then
      if |bytes| < 32 then Some(32) else Some(32 + 16 * U32At(bytes, 28))
    else if kind == 0x207 then
      if |bytes| < 32 then Some(32) else Some(32 + 8 * U32At(bytes, 28) + U32At(bytes, 24))
    else
      match BodyLength(kind)
      case None => None
      case Some(n) => Some(24 + n)
  }

  /** Which byte strings decode: those with a whole header, a known type, and as many bytes as it needs;
      the others fail, with the one error or the other. A command takes exactly the bytes it needs. */
  lemma DecodesIff(bytes: seq<Byte>)
    ensures |bytes| < 24 ==> Decode(bytes) == Err(DescriptorReadFailed)
    ensures |bytes| >= 24 ==>
              match Needs(bytes)
              case None => Decode(bytes) == Err(InvalidType(U32At(bytes, 0)))
              case Some(n) =>
                && (Decode(bytes).Ok? <==> |bytes| >= n)
                && (Decode(bytes).Ok? ==> Decode(bytes).rest == bytes[n..])
                && (Decode(bytes).Err? ==> Decode(bytes).error == DescriptorReadFailed)
  {
    hide ReadFields, ReadMany, Layout, BodyLength, U32At, DecodeAttachBacking, DecodeSubmit3d, Entries, Ids;
    HeaderAt(bytes);
    if |bytes| >= 24 {
      var h, body := HeaderOf(ReadFields(bytes, HEADER).value.0), bytes[24..];
      assert h.kind == U32At(bytes, 0);
      if h.kind == 0x106 {
        AttachBackingAt(h, bytes);
      } else if h.kind == 0x207 {
        Submit3dAt(h, bytes);
      } else {
        LengthOfType(h.kind);
        if Layout(h.kind).Some? {
          ReadsIff(body, Layout(h.kind).value);
        }
      }
    }
  }

  /** A backing store: the resource and the number of entries, then 16 bytes for each: the address and
      the length, and padding. */
  lemma AttachBackingAt(h: Header, bytes: seq<Byte>)
    requires |bytes| >= 24
    ensures var d := DecodeAttachBacking(h, bytes[24..]);
            && (d.Ok? <==> |bytes| >= 32 && |bytes| >= 32 + 16 * U32At(bytes, 28))
            && (d.Ok? ==>
                  && d.command.AttachBacking? && d.rest == bytes[32 + 16 * U32At(bytes, 28)..]
                  && d.command.resourceId == U32At(bytes, 24) && |d.command.entries| == U32At(bytes, 28)
                  && forall k :: 0 <= k < |d.command.entries| ==>
                       && 48 + 16 * k <= |bytes|
                       && d.command.entries[k].address == FromLe(bytes[32 + 16 * k..40 + 16 * k])
                       && d.command.entries[k].length == FromLe(bytes[40 + 16 * k..44 + 16 * k]))
            && (d.Err? ==> d.error == DescriptorReadFailed)
  {
    hide ReadFields, ReadMany, FromLe, Total, U32At;
    var body := bytes[24..];
    TwoWordsAt(bytes);
    if |bytes| >= 32 {
      var (info, behind) := ReadFields(body, TWO_WORDS).value;
      TotalOfThree(8, 4, 4);
      ReadsManyIff(behind, MEM_ENTRY, info[1]);
      if ReadMany(behind, MEM_ENTRY, info[1]).Some? {
        var items := ReadMany(behind, MEM_ENTRY, info[1]).value.0;
        forall k | 0 <= k < |items|
          ensures 48 + 16 * k <= |bytes|
          ensures items[k][0] == FromLe(bytes[32 + 16 * k..40 + 16 * k])
          ensures items[k][1] == FromLe(bytes[40 + 16 * k..44 + 16 * k])
        {
          EntryAt(bytes, info[1], k);
        }
        assert behind[info[1] * 16..] == bytes[32 + 16 * info[1]..];
      }
    }
  }

  lemma TwoWordsAt(bytes: seq<Byte>)
    requires |bytes| >= 24
    ensures ReadFields(bytes[24..], TWO_WORDS).Some? <==> |bytes| >= 32
    ensures |bytes| >= 32 ==>
              var (info, behind) := ReadFields(bytes[24..], TWO_WORDS).value;
              |info| == 2 && info[0] == U32At(bytes, 24) && info[1] == U32At(bytes, 28) && behind == bytes[32..]
  {
    hide ReadFields, FromLe, U32At;
    var body := bytes[24..];
    assert TWO_WORDS[..0] == [] && TWO_WORDS[..1] == [4] && [4][1..] == [] && Total([4]) == 4;
    TotalOfTwo(4, 4);
    ReadsIff(body, TWO_WORDS);
    if |bytes| >= 32 {
      FieldAt(body, TWO_WORDS, 0);
      FieldAt(body, TWO_WORDS, 1);
      assert body[0..4] == bytes[24..28] && body[4..8] == bytes[28..32] && body[8..] == bytes[32..];
      U32Is(bytes, 24);
      U32Is(bytes, 28);
    }
  }

  lemma EntryAt(bytes: seq<Byte>, count: nat, k: nat)
    requires |bytes| >= 32 && ReadMany(bytes[32..], MEM_ENTRY, count).Some? && k < count
    ensures 48 + 16 * k <= |bytes|
    ensures var item := ReadMany(bytes[32..], MEM_ENTRY, count).value.0[k];
            && item[0] == FromLe(bytes[32 + 16 * k..40 + 16 * k])
            && item[1] == FromLe(bytes[40 + 16 * k..44 + 16 * k])
  {
    hide ReadFields, ReadMany, FromLe;
    var behind := bytes[32..];
    TotalOfThree(8, 4, 4);
    StructureAt(behind, MEM_ENTRY, count, k);
    var from := behind[k * 16..];
    ReadsIff(from, MEM_ENTRY);
    assert MEM_ENTRY[..0] == [] && MEM_ENTRY[..1] == [8] && [8][1..] == [] && Total([8]) == 8;
    FieldAt(from, MEM_ENTRY, 0);
    FieldAt(from, MEM_ENTRY, 1);
    assert from[0..8] == bytes[32 + 16 * k..40 + 16 * k] && from[8..12] == bytes[40 + 16 * k..44 + 16 * k];
  }

  /** A submission: the size of the command data and the number of fence ids, then 8 bytes for each id,
      then the data. */
  lemma Submit3dAt(h: Header, bytes: seq<Byte>)
    requires |bytes| >= 24
    ensures var d := DecodeSubmit3d(h, bytes[24..]);
            && (d.Ok? <==> |bytes| >= 32 && |bytes| >= 32 + 8 * U32At(bytes, 28) + U32At(bytes, 24))
            && (d.Ok? ==>
                  var data := 32 + 8 * U32At(bytes, 28);
                  && d.command.Submit3d? && d.rest == bytes[data + U32At(bytes, 24)..]
                  && d.command.data == bytes[data..data + U32At(bytes, 24)]
                  && |d.command.fenceIds| == U32At(bytes, 28)
                  && forall k :: 0 <= k < |d.command.fenceIds| ==>
                       40 + 8 * k <= |bytes| && d.command.fenceIds[k] == FromLe(bytes[32 + 8 * k..40 + 8 * k]))
            && (d.Err? ==> d.error == DescriptorReadFailed)
  {
    hide ReadFields, ReadMany, FromLe, U32At;
    TwoWordsAt(bytes);
    if |bytes| >= 32 {
      var (info, behind) := ReadFields(bytes[24..], TWO_WORDS).value;
      assert FENCE_ID[1..] == [] && Total(FENCE_ID) == 8;
      hide Total;
      ReadsManyIff(behind, FENCE_ID, info[1]);
      if ReadMany(behind, FENCE_ID, info[1]).Some? {
        var (items, data) := ReadMany(behind, FENCE_ID, info[1]).value;
        forall k | 0 <= k < |items|
          ensures 40 + 8 * k <= |bytes| && items[k][0] == FromLe(bytes[32 + 8 * k..40 + 8 * k])
        {
          FenceIdAt(bytes, info[1], k);
        }
        assert data == bytes[32 + 8 * info[1]..];
        if info[0] <= |data| {
          assert data[..info[0]] == bytes[32 + 8 * info[1]..32 + 8 * info[1] + info[0]];
          assert data[info[0]..] == bytes[32 + 8 * info[1] + info[0]..];
        }
      }
    }
  }

  lemma FenceIdAt(bytes: seq<Byte>, count: nat, k: nat)
    requires |bytes| >= 32 && ReadMany(bytes[32..], FENCE_ID, count).Some? && k < count
    ensures 40 + 8 * k <= |bytes|
    ensures ReadMany(bytes[32..], FENCE_ID, count).value.0[k][0] == FromLe(bytes[32 + 8 * k..40 + 8 * k])
  {
    hide ReadFields, ReadMany, FromLe;
    assert FENCE_ID[..0] == [] && FENCE_ID[1..] == [] && Total(FENCE_ID) == 8;
    StructureAt(bytes[32..], FENCE_ID, count, k);
    var from := bytes[32..][k * 8..];
    ReadsIff(from, FENCE_ID);
    FieldAt(from, FENCE_ID, 0);
    assert from[0..8] == bytes[32 + 8 * k..40 + 8 * k];
  }
}
