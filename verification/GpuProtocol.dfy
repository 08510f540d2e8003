/** Decoding of GPU commands from the readable bytes of a chain. Every structure of the wire format is
    a sequence of little-endian fields without gaps, so a structure is described by its field widths
    in bytes (section 5.7.6 of VIRTIO v1.2). */
module GpuProtocol {
  import opened Wrappers

  // ---- little-endian fields ----

  function Pow256(width: nat): (r: nat)
    ensures r >= 1
  {
    if width == 0 then 1 else 256 * Pow256(width - 1)
  }

  function ToLe(n: nat, width: nat): (bytes: seq<Byte>)
    ensures |bytes| == width
  {
    if width == 0 then [] else [n % 256] + ToLe(n / 256, width - 1)
  }

  function FromLe(bytes: seq<Byte>): nat {
    if bytes == [] then 0 else bytes[0] + 256 * FromLe(bytes[1..])
  }

  lemma {:induction false} FromToLe(n: nat, width: nat)
    requires n < Pow256(width)
    ensures FromLe(ToLe(n, width)) == n
  {
    if width > 0 {
      FromToLe(n / 256, width - 1);
    }
  }

  lemma {:induction false} ToFromLe(bytes: seq<Byte>)
    ensures FromLe(bytes) < Pow256(|bytes|)
    ensures ToLe(FromLe(bytes), |bytes|) == bytes
  {
    if bytes != [] {
      ToFromLe(bytes[1..]);
      assert bytes == [bytes[0]] + bytes[1..];
    }
  }

  // ---- structures ----

  predicate InRange(fields: seq<nat>, widths: seq<nat>) {
    |fields| == |widths| && forall i :: 0 <= i < |fields| ==> fields[i] < Pow256(widths[i])
  }

  function EncodeFields(fields: seq<nat>, widths: seq<nat>): seq<Byte>
    requires |fields| == |widths|
  {
    if fields == [] then [] else ToLe(fields[0], widths[0]) + EncodeFields(fields[1..], widths[1..])
  }

  /** `read_obj`: the fields of one structure and the bytes behind it. */
  function ReadFields(bytes: seq<Byte>, widths: seq<nat>): (r: Option<(seq<nat>, seq<Byte>)>)
    ensures r.Some? ==> |r.value.0| == |widths|
  {
    if widths == [] then Some(([], bytes))
    else if |bytes| < widths[0] then None
    else
      match ReadFields(bytes[widths[0]..], widths[1..])
      case None => None
      case Some((fields, rest)) => Some(([FromLe(bytes[..widths[0]])] + fields, rest))
  }

  lemma {:induction false} ReadEncoded(fields: seq<nat>, widths: seq<nat>, tail: seq<Byte>)
    requires InRange(fields, widths)
    ensures ReadFields(EncodeFields(fields, widths) + tail, widths) == Some((fields, tail))
  {
    if fields == [] {
      assert [] + tail == tail;
    } else {
      var first, rest := ToLe(fields[0], widths[0]), EncodeFields(fields[1..], widths[1..]);
      var bytes := first + rest + tail;
      assert bytes[..widths[0]] == first && bytes[widths[0]..] == rest + tail;
      FromToLe(fields[0], widths[0]);
      ReadEncoded(fields[1..], widths[1..], tail);
      assert [fields[0]] + fields[1..] == fields;
    }
  }

  lemma EncodeFirst(n: nat, fields: seq<nat>, widths: seq<nat>)
    requires widths != [] && |fields| + 1 == |widths|
    ensures EncodeFields([n] + fields, widths) == ToLe(n, widths[0]) + EncodeFields(fields, widths[1..])
    ensures InRange([n] + fields, widths) <==> n < Pow256(widths[0]) && InRange(fields, widths[1..])
  {
    hide Pow256;
    assert ([n] + fields)[1..] == fields;
    if InRange([n] + fields, widths) {
      assert ([n] + fields)[0] == n;
      assert forall i :: 0 <= i < |fields| ==> fields[i] == ([n] + fields)[i + 1] && widths[1..][i] == widths[i + 1];
    }
  }

  lemma {:induction false} EncodeRead(bytes: seq<Byte>, widths: seq<nat>)
    requires ReadFields(bytes, widths).Some?
    ensures var (fields, rest) := ReadFields(bytes, widths).value;
            InRange(fields, widths) && bytes == EncodeFields(fields, widths) + rest
  {
    if widths == [] {
      assert [] + bytes == bytes;
    } else {
      hide FromLe, ToLe, Pow256, EncodeFields, InRange;
      var w := widths[0];
      EncodeRead(bytes[w..], widths[1..]);
      ToFromLe(bytes[..w]);
      var (fields, rest) := ReadFields(bytes[w..], widths[1..]).value;
      EncodeFirst(FromLe(bytes[..w]), fields, widths);
      Regroup(bytes[..w], EncodeFields(fields, widths[1..]), rest);
      assert bytes == bytes[..w] + bytes[w..];
    }
  }

  lemma {:induction false} ReadMore(bytes: seq<Byte>, widths: seq<nat>, tail: seq<Byte>)
    requires ReadFields(bytes, widths).Some?
    ensures var (fields, rest) := ReadFields(bytes, widths).value;
            ReadFields(bytes + tail, widths) == Some((fields, rest + tail))
  {
    if widths != [] {
      var w := widths[0];
      assert (bytes + tail)[w..] == bytes[w..] + tail && (bytes + tail)[..w] == bytes[..w];
      ReadMore(bytes[w..], widths[1..], tail);
    }
  }

  // ---- arrays of structures ----

  predicate AllInRange(items: seq<seq<nat>>, widths: seq<nat>) {
    forall i :: 0 <= i < |items| ==> InRange(items[i], widths)
  }

  function EncodeMany(items: seq<seq<nat>>, widths: seq<nat>): seq<Byte>
    requires AllInRange(items, widths)
  {
    if items == [] then [] else EncodeFields(items[0], widths) + EncodeMany(items[1..], widths)
  }

  function ReadMany(bytes: seq<Byte>, widths: seq<nat>, count: nat): (r: Option<(seq<seq<nat>>, seq<Byte>)>)
    ensures r.Some? ==> |r.value.0| == count && forall i :: 0 <= i < count ==> |r.value.0[i]| == |widths|
    decreases count
  {
    if count == 0 then Some(([], bytes))
    else
      match ReadFields(bytes, widths)
      case None => None
      case Some((first, rest)) =>
        match ReadMany(rest, widths, count - 1)
        case None => None
        case Some((items, behind)) => Some(([first] + items, behind))
  }

  lemma {:induction false} ReadEncodedMany(items: seq<seq<nat>>, widths: seq<nat>, tail: seq<Byte>)
    requires AllInRange(items, widths)
    ensures ReadMany(EncodeMany(items, widths) + tail, widths, |items|) == Some((items, tail))
  {
    if items == [] {
      assert [] + tail == tail;
    } else {
      var first, rest := EncodeFields(items[0], widths), EncodeMany(items[1..], widths);
      assert first + rest + tail == first + (rest + tail);
      ReadEncoded(items[0], widths, rest + tail);
      ReadEncodedMany(items[1..], widths, tail);
      assert [items[0]] + items[1..] == items;
    }
  }

  lemma {:induction false} EncodeReadMany(bytes: seq<Byte>, widths: seq<nat>, count: nat)
    requires ReadMany(bytes, widths, count).Some?
    ensures var (items, rest) := ReadMany(bytes, widths, count).value;
            AllInRange(items, widths) && bytes == EncodeMany(items, widths) + rest
    decreases count
  {
    if count == 0 {
      assert [] + bytes == bytes;
    } else {
      EncodeRead(bytes, widths);
      var (first, behind) := ReadFields(bytes, widths).value;
      EncodeReadMany(behind, widths, count - 1);
      var (items, rest) := ReadMany(behind, widths, count - 1).value;
      assert ([first] + items)[1..] == items;
      assert AllInRange([first] + items, widths);
      assert bytes == EncodeFields(first, widths) + EncodeMany(items, widths) + rest;
    }
  }

  lemma {:induction false} ReadManyMore(bytes: seq<Byte>, widths: seq<nat>, count: nat, tail: seq<Byte>)
    requires ReadMany(bytes, widths, count).Some?
    ensures var (items, rest) := ReadMany(bytes, widths, count).value;
            ReadMany(bytes + tail, widths, count) == Some((items, rest + tail))
    decreases count
  {
    if count > 0 {
      ReadMore(bytes, widths, tail);
      ReadManyMore(ReadFields(bytes, widths).value.1, widths, count - 1, tail);
    }
  }

  // ---- commands ----

  const GET_DISPLAY_INFO: nat := 0x100
  const RESOURCE_CREATE_2D: nat := 0x101
  const RESOURCE_UNREF: nat := 0x102
  const SET_SCANOUT: nat := 0x103
  const RESOURCE_FLUSH: nat := 0x104
  const TRANSFER_TO_HOST_2D: nat := 0x105
  const RESOURCE_ATTACH_BACKING: nat := 0x106
  const RESOURCE_DETACH_BACKING: nat := 0x107
  const GET_CAPSET_INFO: nat := 0x108
  const GET_CAPSET: nat := 0x109
  const GET_EDID: nat := 0x10a
  const RESOURCE_ASSIGN_UUID: nat := 0x10b
  const RESOURCE_CREATE_BLOB: nat := 0x10c
  const SET_SCANOUT_BLOB: nat := 0x10d
  const CTX_CREATE: nat := 0x200
  const CTX_DESTROY: nat := 0x201
  const CTX_ATTACH_RESOURCE: nat := 0x202
  const CTX_DETACH_RESOURCE: nat := 0x203
  const RESOURCE_CREATE_3D: nat := 0x204
  const TRANSFER_TO_HOST_3D: nat := 0x205
  const TRANSFER_FROM_HOST_3D: nat := 0x206
  const SUBMIT_3D: nat := 0x207
  const RESOURCE_MAP_BLOB: nat := 0x208
  const RESOURCE_UNMAP_BLOB: nat := 0x209
  const UPDATE_CURSOR: nat := 0x300
  const MOVE_CURSOR: nat := 0x301

  const RECT := [4, 4, 4, 4]
  const TWO_WORDS := [4, 4]
  const HEADER := [4, 4, 8, 4, 1, 1, 1, 1]
  const MEM_ENTRY := [8, 4, 4]
  const FENCE_ID := [8]

  function Repeat(width: nat, count: nat): seq<nat> {
    seq(count, _ => width)
  }

  /** The structure behind the header of a command of fixed length. */
  function Layout(kind: nat): Option<seq<nat>> {
    if kind == GET_DISPLAY_INFO || kind == CTX_DESTROY then Some([])
    else if kind in {GET_EDID, RESOURCE_UNREF, RESOURCE_DETACH_BACKING, GET_CAPSET_INFO, GET_CAPSET,
                     CTX_ATTACH_RESOURCE, CTX_DETACH_RESOURCE, RESOURCE_UNMAP_BLOB, RESOURCE_ASSIGN_UUID} then
      Some(TWO_WORDS)
    else if kind == RESOURCE_CREATE_2D then Some([4, 4, 4, 4])
    else if kind == SET_SCANOUT || kind == RESOURCE_FLUSH then Some(RECT + [4, 4])
    else if kind == SET_SCANOUT_BLOB then Some(RECT + Repeat(4, 6) + Repeat(4, 4) + Repeat(4, 4))
    else if kind == TRANSFER_TO_HOST_2D then Some(RECT + [8, 4, 4])
    else if kind == CTX_CREATE then Some([4, 4] + Repeat(1, 64))
    else if kind == RESOURCE_CREATE_3D then Some(Repeat(4, 12))
    else if kind == TRANSFER_TO_HOST_3D || kind == TRANSFER_FROM_HOST_3D then Some(Repeat(4, 6) + [8, 4, 4, 4, 4])
    else if kind == RESOURCE_CREATE_BLOB then Some([4, 4, 4, 4, 8, 8])
    else if kind == RESOURCE_MAP_BLOB then Some([4, 4, 8])
    else if kind == UPDATE_CURSOR || kind == MOVE_CURSOR then Some([4, 4, 4, 4] + [4, 4, 4, 4])
    else None
  }

  datatype Header = Header(
    kind: nat, flags: nat, fenceId: nat, ctxId: nat, ringIdx: nat, pad0: nat, pad1: nat, pad2: nat)

  datatype Entry = Entry(address: nat, length: nat)

  datatype Command =
    | Fixed(fields: seq<nat>)
    | AttachBacking(resourceId: nat, entries: seq<Entry>)
    | Submit3d(fenceIds: seq<nat>, data: seq<Byte>)

  datatype DecodeError = InvalidType(kind: nat) | DescriptorReadFailed

  datatype Decoded = Ok(header: Header, command: Command, rest: seq<Byte>) | Err(error: DecodeError)

  function HeaderFields(h: Header): seq<nat> {
    [h.kind, h.flags, h.fenceId, h.ctxId, h.ringIdx, h.pad0, h.pad1, h.pad2]
  }

  function HeaderOf(f: seq<nat>): Header
    requires |f| == |HEADER|
  {
    Header(f[0], f[1], f[2], f[3], f[4], f[5], f[6], f[7])
  }

  /** The padding of a memory entry is dropped. */
  function Entries(items: seq<seq<nat>>): seq<Entry>
    requires forall i :: 0 <= i < |items| ==> |items[i]| == |MEM_ENTRY|
  {
    seq(|items|, i requires 0 <= i < |items| => Entry(items[i][0], items[i][1]))
  }

  function Ids(items: seq<seq<nat>>): seq<nat>
    requires forall i :: 0 <= i < |items| ==> |items[i]| == |FENCE_ID|
  {
    seq(|items|, i requires 0 <= i < |items| => items[i][0])
  }

  function Decode(bytes: seq<Byte>): Decoded {
    match ReadFields(bytes, HEADER)
    case None => Err(DescriptorReadFailed)
    case Some((fields, body)) => DecodeBody(HeaderOf(fields), body)
  }

  function DecodeBody(h: Header, body: seq<Byte>): Decoded {
    if h.kind == RESOURCE_ATTACH_BACKING then DecodeAttachBacking(h, body)
    else if h.kind == SUBMIT_3D then DecodeSubmit3d(h, body)
    else
      match Layout(h.kind)
      case None => Err(InvalidType(h.kind))
      case Some(widths) =>
        match ReadFields(body, widths)
        case None => Err(DescriptorReadFailed)
        case Some((fields, rest)) => Ok(h, Fixed(fields), rest)
  }

  function DecodeAttachBacking(h: Header, body: seq<Byte>): Decoded {
    match ReadFields(body, TWO_WORDS)
    case None => Err(DescriptorReadFailed)
    case Some((info, behind)) =>
      match ReadMany(behind, MEM_ENTRY, info[1])
      case None => Err(DescriptorReadFailed)
      case Some((items, rest)) => Ok(h, AttachBacking(info[0], Entries(items)), rest)
  }

  function DecodeSubmit3d(h: Header, body: seq<Byte>): Decoded {
    match ReadFields(body, TWO_WORDS)
    case None => Err(DescriptorReadFailed)
    case Some((info, behind)) =>
      match ReadMany(behind, FENCE_ID, info[1])
      case None => Err(DescriptorReadFailed)
      case Some((items, data)) =>
        if |data| < info[0] then Err(DescriptorReadFailed)
        else Ok(h, Submit3d(Ids(items), data[..info[0]]), data[info[0]..])
  }

  // ---- the wire layout ----

  function EntryItems(entries: seq<Entry>, pads: seq<nat>): seq<seq<nat>>
    requires |pads| == |entries|
  {
    seq(|entries|, i requires 0 <= i < |entries| => [entries[i].address, entries[i].length, pads[i]])
  }

  function IdItems(ids: seq<nat>): seq<seq<nat>> {
    seq(|ids|, i requires 0 <= i < |ids| => [ids[i]])
  }

  /** A header and command that the wire format can express; `pads` is the padding of the entries. */
  predicate Expressible(h: Header, c: Command, pads: seq<nat>) {
    && InRange(HeaderFields(h), HEADER)
    && match c
       case Fixed(fields) =>
         h.kind != RESOURCE_ATTACH_BACKING && h.kind != SUBMIT_3D
         && Layout(h.kind).Some? && InRange(fields, Layout(h.kind).value)
       case AttachBacking(resourceId, entries) =>
         h.kind == RESOURCE_ATTACH_BACKING && InRange([resourceId, |entries|], TWO_WORDS)
         && |pads| == |entries| && AllInRange(EntryItems(entries, pads), MEM_ENTRY)
       case Submit3d(fenceIds, data) =>
         h.kind == SUBMIT_3D && InRange([|data|, |fenceIds|], TWO_WORDS) && AllInRange(IdItems(fenceIds), FENCE_ID)
  }

  function Encode(h: Header, c: Command, pads: seq<nat>): seq<Byte>
    requires Expressible(h, c, pads)
  {
    EncodeFields(HeaderFields(h), HEADER) + EncodeBody(h, c, pads)
  }

  function EncodeBody(h: Header, c: Command, pads: seq<nat>): seq<Byte>
    requires Expressible(h, c, pads)
  {
    match c
    case Fixed(fields) => EncodeFields(fields, Layout(h.kind).value)
    case AttachBacking(resourceId, entries) =>
      EncodeFields([resourceId, |entries|], TWO_WORDS) + EncodeMany(EntryItems(entries, pads), MEM_ENTRY)
    case Submit3d(fenceIds, data) =>
      EncodeFields([|data|, |fenceIds|], TWO_WORDS) + (EncodeMany(IdItems(fenceIds), FENCE_ID) + data)
  }

  lemma BodyDecodes(h: Header, c: Command, pads: seq<nat>, tail: seq<Byte>)
    requires Expressible(h, c, pads)
    ensures DecodeBody(h, EncodeBody(h, c, pads) + tail) == Ok(h, c, tail)
  {
    hide Layout, ReadFields, ReadMany, EncodeFields, EncodeMany, Pow256;
    match c
    case Fixed(fields) =>
      ReadEncoded(fields, Layout(h.kind).value, tail);
    case AttachBacking(resourceId, entries) =>
      var items := EntryItems(entries, pads);
      var info := EncodeFields([resourceId, |entries|], TWO_WORDS);
      Regroup(info, EncodeMany(items, MEM_ENTRY), tail);
      ReadEncoded([resourceId, |entries|], TWO_WORDS, EncodeMany(items, MEM_ENTRY) + tail);
      ReadEncodedMany(items, MEM_ENTRY, tail);
      assert Entries(items) == entries;
    case Submit3d(fenceIds, data) =>
      var items := IdItems(fenceIds);
      var info, ids := EncodeFields([|data|, |fenceIds|], TWO_WORDS), EncodeMany(items, FENCE_ID);
      Regroup(info, ids + data, tail);
      Regroup(ids, data, tail);
      ReadEncoded([|data|, |fenceIds|], TWO_WORDS, ids + (data + tail));
      ReadEncodedMany(items, FENCE_ID, data + tail);
      assert (data + tail)[..|data|] == data && (data + tail)[|data|..] == tail;
      assert Ids(items) == fenceIds;
  }

  /** Decoding inverts the wire layout and consumes exactly its bytes. */
  lemma DecodeInvertsEncode(h: Header, c: Command, pads: seq<nat>, tail: seq<Byte>)
    requires Expressible(h, c, pads)
    ensures Decode(Encode(h, c, pads) + tail) == Ok(h, c, tail)
  {
    hide Layout, ReadFields, EncodeFields, EncodeBody, DecodeBody, Pow256;
    var header, body := EncodeFields(HeaderFields(h), HEADER), EncodeBody(h, c, pads);
    Regroup(header, body, tail);
    ReadEncoded(HeaderFields(h), HEADER, body + tail);
    BodyDecodes(h, c, pads, tail);
    assert HeaderOf(HeaderFields(h)) == h;
  }

  lemma BodyEncodes(h: Header, body: seq<Byte>) returns (pads: seq<nat>)
    requires InRange(HeaderFields(h), HEADER) && DecodeBody(h, body).Ok?
    ensures var d := DecodeBody(h, body);
            d.header == h && Expressible(h, d.command, pads) && body == EncodeBody(h, d.command, pads) + d.rest
  {
    hide Layout, ReadFields, ReadMany, EncodeFields, EncodeMany, Pow256;
    if h.kind == RESOURCE_ATTACH_BACKING {
      EncodeRead(body, TWO_WORDS);
      var (info, behind) := ReadFields(body, TWO_WORDS).value;
      EncodeReadMany(behind, MEM_ENTRY, info[1]);
      var (items, rest) := ReadMany(behind, MEM_ENTRY, info[1]).value;
      pads := seq(|items|, i requires 0 <= i < |items| => items[i][2]);
      forall i | 0 <= i < |items| ensures EntryItems(Entries(items), pads)[i] == items[i] {
        assert items[i] == [items[i][0], items[i][1], items[i][2]];
      }
      assert EntryItems(Entries(items), pads) == items;
      assert |info| == 2;
      assert |items| == info[1];
      assert info == [info[0], |items|];
      Regroup(EncodeFields(info, TWO_WORDS), EncodeMany(items, MEM_ENTRY), rest);
    } else if h.kind == SUBMIT_3D {
      pads := [];
      EncodeRead(body, TWO_WORDS);
      var (info, behind) := ReadFields(body, TWO_WORDS).value;
      EncodeReadMany(behind, FENCE_ID, info[1]);
      var (items, data) := ReadMany(behind, FENCE_ID, info[1]).value;
      forall i | 0 <= i < |items| ensures IdItems(Ids(items))[i] == items[i] {
        assert items[i] == [items[i][0]];
      }
      assert IdItems(Ids(items)) == items;
      assert |info| == 2;
      assert |items| == info[1];
      assert info == [info[0], |items|];
      var size := info[0];
      assert data == data[..size] + data[size..];
      Regroup(EncodeMany(items, FENCE_ID), data[..size], data[size..]);
      Regroup(EncodeFields(info, TWO_WORDS), EncodeMany(items, FENCE_ID) + data[..size], data[size..]);
    } else {
      pads := [];
      EncodeRead(body, Layout(h.kind).value);
    }
  }

  /** Only wire layouts decode: whatever is accepted starts with the encoding of its result. */
  lemma EncodeInvertsDecode(bytes: seq<Byte>) returns (pads: seq<nat>)
    requires Decode(bytes).Ok?
    ensures var d := Decode(bytes);
            Expressible(d.header, d.command, pads) && bytes == Encode(d.header, d.command, pads) + d.rest
  {
    hide Layout, ReadFields, EncodeFields, EncodeBody, DecodeBody, Pow256;
    EncodeRead(bytes, HEADER);
    var (fields, body) := ReadFields(bytes, HEADER).value;
    assert HeaderFields(HeaderOf(fields)) == fields;
    pads := BodyEncodes(HeaderOf(fields), body);
    Regroup(EncodeFields(fields, HEADER), EncodeBody(HeaderOf(fields), Decode(bytes).command, pads),
            Decode(bytes).rest);
  }

  /** Every strict prefix of an encoding is rejected as too short. */
  lemma PrefixesAreRejected(h: Header, c: Command, pads: seq<nat>, k: nat)
    requires Expressible(h, c, pads) && k < |Encode(h, c, pads)|
    ensures Decode(Encode(h, c, pads)[..k]) == Err(DescriptorReadFailed)
  {
    hide Encode, Decode, Expressible;
    var bytes := Encode(h, c, pads);
    var prefix := bytes[..k];
    assert prefix + bytes[k..] == bytes == bytes + [];
    DecodeInvertsEncode(h, c, pads, []);
    match Decode(prefix) {
      case Ok(h', c', rest) =>
        var pads' := EncodeInvertsDecode(prefix);
        Regroup(Encode(h', c', pads'), rest, bytes[k..]);
        DecodeInvertsEncode(h', c', pads', rest + bytes[k..]);
        assert false;
      case Err(InvalidType(kind)) =>
        InvalidTypeStays(prefix, bytes[k..]);
        assert false;
      case Err(DescriptorReadFailed) =>
    }
  }

  lemma InvalidTypeStays(bytes: seq<Byte>, tail: seq<Byte>)
    requires Decode(bytes).Err? && Decode(bytes).error.InvalidType?
    ensures Decode(bytes + tail) == Decode(bytes)
  {
    ReadMore(bytes, HEADER, tail);
  }

  // ---- the reader ----

  class Reader {
    var bytes: seq<Byte>

    constructor (bytes: seq<Byte>)
      ensures this.bytes == bytes
    {
      this.bytes := bytes;
    }

    /** Fails if there are too few bytes. */
    method ReadExact(n: nat) returns (r: Option<seq<Byte>>)
      modifies this
      ensures r.Some? <==> n <= |old(bytes)|
      ensures r.Some? ==> r.value == old(bytes)[..n] && bytes == old(bytes)[n..]
    {
      if |bytes| < n {
        return None;
      }
      r := Some(bytes[..n]);
      bytes := bytes[n..];
    }

    method ReadObj(widths: seq<nat>) returns (r: Option<seq<nat>>)
      modifies this
      ensures ReadFields(old(bytes), widths) == if r.Some? then Some((r.value, bytes)) else None
      ensures r.Some? ==> |r.value| == |widths|
      decreases |widths|
    {
      if widths == [] {
        return Some([]);
      }
      var first := ReadExact(widths[0]);
      if first.None? {
        return None;
      }
      var rest := ReadObj(widths[1..]);
      if rest.None? {
        return None;
      }
      return Some([FromLe(first.value)] + rest.value);
    }

    /** The loop that pushes `count` structures of one kind. */
    method ReadObjs(widths: seq<nat>, count: nat) returns (r: Option<seq<seq<nat>>>)
      modifies this
      ensures ReadMany(old(bytes), widths, count) == if r.Some? then Some((r.value, bytes)) else None
      ensures r.Some? ==> |r.value| == count && forall i :: 0 <= i < count ==> |r.value[i]| == |widths|
    {
      hide ReadFields;
      var items: seq<seq<nat>> := [];
      var i := 0;
      ghost var all := ReadMany(bytes, widths, count);
      assert all.Some? ==> [] + all.value.0 == all.value.0;
      while i < count
        invariant i == |items| <= count
        invariant forall k :: 0 <= k < |items| ==> |items[k]| == |widths|
        invariant ReadMany(old(bytes), widths, count) ==
                    match ReadMany(bytes, widths, count - i)
                    case None => None
                    case Some((rest, behind)) => Some((items + rest, behind))
      {
        var item := ReadObj(widths);
        if item.None? {
          return None;
        }
        ghost var later := ReadMany(bytes, widths, count - i - 1);
        assert later.Some? ==> items + ([item.value] + later.value.0) == (items + [item.value]) + later.value.0;
        items := items + [item.value];
        i := i + 1;
      }
      assert items + [] == items;
      return Some(items);
    }

    method DecodeCommand() returns (d: Decoded)
      modifies this
      ensures d == Decode(old(bytes))
      ensures d.Ok? ==> bytes == d.rest
    {
      hide ReadFields, ReadMany, Layout;
      var fields := ReadObj(HEADER);
      if fields.None? {
        return Err(DescriptorReadFailed);
      }
      var h := HeaderOf(fields.value);
      if h.kind == RESOURCE_ATTACH_BACKING {
        var info := ReadObj(TWO_WORDS);
        if info.None? {
          return Err(DescriptorReadFailed);
        }
        var items := ReadObjs(MEM_ENTRY, info.value[1]);
        if items.None? {
          return Err(DescriptorReadFailed);
        }
        return Ok(h, AttachBacking(info.value[0], Entries(items.value)), bytes);
      } else if h.kind == SUBMIT_3D {
        var info := ReadObj(TWO_WORDS);
        if info.None? {
          return Err(DescriptorReadFailed);
        }
        var ids := ReadObjs(FENCE_ID, info.value[1]);
        if ids.None? {
          return Err(DescriptorReadFailed);
        }
        var data := ReadExact(info.value[0]);
        if data.None? {
          return Err(DescriptorReadFailed);
        }
        return Ok(h, Submit3d(Ids(ids.value), data.value), bytes);
      } else {
        var layout := Layout(h.kind);
        if layout.None? {
          return Err(InvalidType(h.kind));
        }
        var body := ReadObj(layout.value);
        if body.None? {
          return Err(DescriptorReadFailed);
        }
        return Ok(h, Fixed(body.value), bytes);
      }
    }
  }
}
