/** Packing of nested enums into a 64-bit epoll token: the code that `#[derive(EventToken)]`
    generates, and the instances it bottoms out in. A Rust type is described by a `Ty`; a value of
    it by a `Value`. */
module EventToken {
  import opened Bits
  import opened Wrappers

  const TOKEN_BITS: nat := 64

  /** The derive macro computes its mask `(1 << variant_bits) - 1` as an i32. */
  const MAX_MASK_BITS: nat := 30

  datatype Variant = NoData | Data(ty: Ty)

  datatype Ty =
    | Unit                          // ()
    | Word(bits: nat)               // u8, u16, u32, u64, usize
    | UInt(bits: nat)               // N-bit integers of the arbitrary-int crate
    | Enum(variants: seq<Variant>)  // a type deriving EventToken

  datatype Value =
    | UnitValue
    | Number(n: nat)
    | Bare(index: nat)
    | Carrying(index: nat, payload: Value)

  predicate HasType(v: Value, ty: Ty)
    decreases ty
  {
    match ty
    case Unit => v == UnitValue
    case Word(bits) => v.Number? && v.n < Pow2(bits)
    case UInt(bits) => v.Number? && v.n < Pow2(bits)
    case Enum(variants) =>
      match v
      case Bare(i) => i < |variants| && variants[i].NoData?
      case Carrying(i, p) => i < |variants| && variants[i].Data? && HasType(p, variants[i].ty)
      case _ => false
  }

  // ---- the width of the variant tag ----

  function NextPowerOfTwo(n: nat): (r: nat)
    ensures r >= 1
  {
    if n <= 1 then 1 else 2 * NextPowerOfTwo((n + 1) / 2)
  }

  function TrailingZeros(x: nat): nat
    requires x > 0
  {
    if x % 2 == 1 then 0 else 1 + TrailingZeros(x / 2)
  }

  function VariantBits(count: nat): nat {
    if count == 0 then 0 else TrailingZeros(NextPowerOfTwo(count))
  }

  /** The tag is as narrow as a tag for `count` variants can be. */
  lemma {:induction false} VariantBitsIsLeast(count: nat)
    requires count > 0
    ensures NextPowerOfTwo(count) == Pow2(VariantBits(count))
    ensures forall k: nat :: count <= Pow2(k) <==> VariantBits(count) <= k
  {
    if count == 1 {
    } else {
      var half := (count + 1) / 2;
      VariantBitsIsLeast(half);
      assert VariantBits(count) == VariantBits(half) + 1;
      forall k: nat ensures count <= Pow2(k) <==> VariantBits(count) <= k {
        if k > 0 {
          assert count <= Pow2(k) <==> half <= Pow2(k - 1);
        }
      }
    }
  }

  // ---- the compile-time bit budget ----

  function MaxOf(nums: seq<nat>): (max: nat)
    ensures forall n :: n in nums ==> n <= max
    ensures nums != [] ==> max in nums
    ensures nums == [] ==> max == 0
  {
    if nums == [] then 0
    else
      var rest := MaxOf(nums[1..]);
      assert nums == [nums[0]] + nums[1..];
      if nums[0] > rest then nums[0] else rest
  }

  /** The `maximum` function of the generated const block. */
  method Maximum(nums: seq<nat>) returns (max: nat)
    ensures forall n :: n in nums ==> n <= max
    ensures if nums == [] then max == 0 else max in nums
    ensures max == MaxOf(nums)
  {
    max := 0;
    var i := 0;
    while i < |nums|
      invariant i <= |nums|
      invariant forall j :: 0 <= j < i ==> nums[j] <= max
      invariant max == 0 || max in nums
    {
      if nums[i] > max {
        max := nums[i];
      }
      i := i + 1;
    }
    assert nums != [] ==> nums[0] <= max;
  }

  /** `USED_BITS`, or None where evaluating the constant stops the compilation. */
  function UsedBits(ty: Ty): Option<nat>
    decreases ty, 0
  {
    match ty
    case Unit => Some(0)
    case Word(bits) => if bits <= TOKEN_BITS then Some(bits) else None
    case UInt(bits) => if bits <= TOKEN_BITS then Some(bits) else None
    case Enum(variants) =>
      var tagBits := VariantBits(|variants|);
      if tagBits > MAX_MASK_BITS then None
      else
        match InnerBits(variants, TOKEN_BITS - tagBits)
        case None => None
        case Some(inner) => Some(MaxOf(inner) + tagBits)
  }

  /** The width a variant asks for: None if its data has no width, Some(None) if it has no data. */
  function VariantWidth(variant: Variant): Option<Option<nat>>
    decreases variant, 0
  {
    match variant
    case NoData => Some(None)
    case Data(ty) => (match UsedBits(ty) case None => None case Some(bits) => Some(Some(bits)))
  }

  predicate WithinBudget(variant: Variant, allowed: nat)
    decreases variant, 1
  {
    var width := VariantWidth(variant);
    width.Some? && (width.value.Some? ==> width.value.value <= allowed)
  }

  /** The widths of the carried data, in variant order, each checked against the allowed maximum. */
  function InnerBits(variants: seq<Variant>, allowed: nat): (r: Option<seq<nat>>)
    ensures r.Some? <==> forall i :: 0 <= i < |variants| ==> WithinBudget(variants[i], allowed)
    ensures r.Some? ==> forall i :: 0 <= i < |variants| && variants[i].Data? ==>
                                      VariantWidth(variants[i]).value.value in r.value
    decreases variants
  {
    if variants == [] then Some([])
    else
      var rest := InnerBits(variants[1..], allowed);
      assert forall i :: 1 <= i < |variants| ==> variants[i] == variants[1..][i - 1];
      if !WithinBudget(variants[0], allowed) || rest.None? then None
      else
        match VariantWidth(variants[0]).value
        case None => rest
        case Some(bits) => Some([bits] + rest.value)
  }

  /** Which types are accepted, in numbers: an integer of at most 64 bits; an enum of at most 2^30
      variants whose data types are accepted if with the tag none of them needs more than 64 bits. It is
      then as wide as its tag and its widest data together. */
  lemma AcceptedIff(variants: seq<Variant>)
    requires 0 < |variants| <= 0x4000_0000
    requires forall i :: 0 <= i < |variants| && variants[i].Data? ==> UsedBits(variants[i].ty).Some?
    ensures UsedBits(Enum(variants)).Some? <==>
              && VariantBits(|variants|) <= 64
              && forall i :: 0 <= i < |variants| && variants[i].Data? ==>
                   UsedBits(variants[i].ty).value + VariantBits(|variants|) <= 64
    ensures UsedBits(Enum(variants)).Some? ==>
              var data := UsedBits(Enum(variants)).value - VariantBits(|variants|);
              && (forall i :: 0 <= i < |variants| && variants[i].Data? ==> UsedBits(variants[i].ty).value <= data)
              && (data != 0 ==>
                    exists i :: 0 <= i < |variants| && variants[i].Data? && UsedBits(variants[i].ty).value == data)
  {
    hide TrailingZeros, NextPowerOfTwo, InnerBits, MaxOf;
    var tagBits := VariantBits(|variants|);
    TagsUpTo30Bits(|variants|);
    forall i | 0 <= i < |variants|
      ensures WithinBudget(variants[i], 64 - tagBits) <==>
                (variants[i].Data? ==> UsedBits(variants[i].ty).value + tagBits <= 64)
    {
    }
    if UsedBits(Enum(variants)).Some? {
      BudgetBoundsWidths(variants);
      var widths := InnerBits(variants, 64 - tagBits).value;
      if MaxOf(widths) > 0 {
        var i := WidthOf(variants, 64 - tagBits, MaxOf(widths));
      }
    }
  }

  /** Integers keep their own width, up to the 64 bits of a token; an enum whose tag would need more than
      30 bits is refused. */
  lemma AcceptedParts(bits: nat, variants: seq<Variant>)
    ensures UsedBits(Unit) == Some(0)
    ensures UsedBits(Word(bits)) == UsedBits(UInt(bits)) == if bits <= 64 then Some(bits) else None
    ensures |variants| > 0x4000_0000 ==> UsedBits(Enum(variants)).None?
  {
    if |variants| > 0x4000_0000 {
      TagsUpTo30Bits(|variants|);
    }
  }

  lemma TagsUpTo30Bits(count: nat)
    requires count > 0
    ensures VariantBits(count) <= 30 <==> count <= 0x4000_0000
  {
    hide Pow2;
    VariantBitsIsLeast(count);
    Pow2Of30();
  }

  lemma Pow2Of30()
    ensures Pow2(30) == 0x4000_0000
  {
    assert Pow2(5) == 32;
    Pow2Add(5, 5);
    Pow2Add(10, 10);
    Pow2Add(10, 20);
  }

  // ---- packing and unpacking ----

  function AsRawToken(ty: Ty, v: Value): nat
    requires HasType(v, ty)
    decreases ty
  {
    match ty
    case Unit => 0
    case Word(_) => v.n
    case UInt(_) => v.n
    case Enum(variants) =>
      match v
      case Bare(i) => i
      case Carrying(i, p) =>
        Or(i, Shl(AsRawToken(variants[i].ty, p), VariantBits(|variants|), TOKEN_BITS))
  }

  /** None where the generated code reaches `unreachable!` or unwraps a failed conversion. */
  function FromRawToken(ty: Ty, data: nat): Option<Value>
    decreases ty
  {
    match ty
    case Unit => Some(UnitValue)
    case Word(bits) => Some(Number(data % Pow2(bits)))
    case UInt(bits) => if data < Pow2(bits) then Some(Number(data)) else None
    case Enum(variants) =>
      var tagBits := VariantBits(|variants|);
      var tag := And(data, Pow2(tagBits) - 1);
      if tag >= |variants| then None
      else if variants[tag].NoData? then Some(Bare(tag))
      else
        match FromRawToken(variants[tag].ty, Shr(data, tagBits))
        case None => None
        case Some(p) => Some(Carrying(tag, p))
  }

  // ---- what the packing guarantees ----

  /** Tag and data occupy disjoint bits of the word, so both can be read back. */
  lemma PackedFields(tag: nat, data: nat, tagBits: nat, dataBits: nat, width: nat) returns (raw: nat)
    requires tag < Pow2(tagBits) && data < Pow2(dataBits) && tagBits + dataBits <= width
    ensures raw == Or(tag, Shl(data, tagBits, width))
    ensures raw == tag + data * Pow2(tagBits)
    ensures raw < Pow2(tagBits + dataBits)
    ensures And(raw, Pow2(tagBits) - 1) == tag
    ensures Shr(raw, tagBits) == data
  {
    raw := tag + data * Pow2(tagBits);
    SumFits(tag, data, tagBits, dataBits);
    Pow2Monotone(tagBits + dataBits, width);
    DivModUnique(data * Pow2(tagBits), Pow2(width), 0, data * Pow2(tagBits));
    OrOfDisjointFields(tag, data, tagBits);
    MaskIsRemainder(raw, tagBits);
    DivModUnique(raw, Pow2(tagBits), data, tag);
    ShrDropsLowField(tag, data, tagBits);
  }

  lemma SumFits(tag: nat, data: nat, tagBits: nat, dataBits: nat)
    requires tag < Pow2(tagBits) && data < Pow2(dataBits)
    ensures tag + data * Pow2(tagBits) < Pow2(tagBits + dataBits)
  {
    Pow2Add(dataBits, tagBits);
    MulMonotone(data + 1, Pow2(dataBits), Pow2(tagBits));
    assert (data + 1) * Pow2(tagBits) == data * Pow2(tagBits) + Pow2(tagBits);
  }

  lemma {:induction false} MulMonotone(a: nat, b: nat, c: nat)
    requires a <= b
    ensures a * c <= b * c
  {
    assert b * c - a * c == (b - a) * c;
  }

  /** Every accepted type fits its budget, and unpacking inverts packing on each of its values. */
  lemma {:induction false} RoundTrip(ty: Ty, v: Value)
    requires UsedBits(ty).Some? && HasType(v, ty)
    ensures UsedBits(ty).value <= TOKEN_BITS
    ensures AsRawToken(ty, v) < Pow2(UsedBits(ty).value)
    ensures FromRawToken(ty, AsRawToken(ty, v)) == Some(v)
    decreases ty
  {
    match ty
    case Unit =>
    case Word(bits) => DivModUnique(v.n, Pow2(bits), 0, v.n);
    case UInt(bits) =>
    case Enum(variants) =>
      match v {
        case Bare(i) =>
          BareRoundTrip(variants, i);
        case Carrying(i, p) =>
          BudgetBoundsWidths(variants);
          RoundTrip(variants[i].ty, p);
          CarryingRoundTrip(variants, i, p);
      }
  }

  lemma BareRoundTrip(variants: seq<Variant>, i: nat)
    requires UsedBits(Enum(variants)).Some? && HasType(Bare(i), Enum(variants))
    ensures UsedBits(Enum(variants)).value <= TOKEN_BITS
    ensures AsRawToken(Enum(variants), Bare(i)) < Pow2(UsedBits(Enum(variants)).value)
    ensures FromRawToken(Enum(variants), AsRawToken(Enum(variants), Bare(i))) == Some(Bare(i))
  {
    var tagBits := VariantBits(|variants|);
    BudgetBoundsWidths(variants);
    TagFits(|variants|, i);
    MaskIsRemainder(i, tagBits);
    DivModUnique(i, Pow2(tagBits), 0, i);
    Pow2Monotone(tagBits, UsedBits(Enum(variants)).value);
  }

  lemma CarryingRoundTrip(variants: seq<Variant>, i: nat, p: Value)
    requires UsedBits(Enum(variants)).Some? && HasType(Carrying(i, p), Enum(variants))
    requires var inner := variants[i].ty;
             && UsedBits(inner).Some?
             && AsRawToken(inner, p) < Pow2(UsedBits(inner).value)
             && FromRawToken(inner, AsRawToken(inner, p)) == Some(p)
    ensures UsedBits(Enum(variants)).value <= TOKEN_BITS
    ensures AsRawToken(Enum(variants), Carrying(i, p)) < Pow2(UsedBits(Enum(variants)).value)
    ensures FromRawToken(Enum(variants), AsRawToken(Enum(variants), Carrying(i, p))) == Some(Carrying(i, p))
  {
    hide Or, And, Shl, Shr, Pow2, TrailingZeros, NextPowerOfTwo;
    var tagBits, used := VariantBits(|variants|), UsedBits(Enum(variants)).value;
    BudgetBoundsWidths(variants);
    TagFits(|variants|, i);
    var raw := PackEnum(variants, i, p);
    Pow2Monotone(tagBits + UsedBits(variants[i].ty).value, used);
    UnpackEnum(variants, raw, i);
  }

  lemma PackEnum(variants: seq<Variant>, i: nat, p: Value) returns (raw: nat)
    requires HasType(Carrying(i, p), Enum(variants)) && UsedBits(variants[i].ty).Some?
    requires i < Pow2(VariantBits(|variants|))
    requires AsRawToken(variants[i].ty, p) < Pow2(UsedBits(variants[i].ty).value)
    requires VariantBits(|variants|) + UsedBits(variants[i].ty).value <= TOKEN_BITS
    ensures raw == AsRawToken(Enum(variants), Carrying(i, p))
    ensures raw == i + AsRawToken(variants[i].ty, p) * Pow2(VariantBits(|variants|))
    ensures raw < Pow2(VariantBits(|variants|) + UsedBits(variants[i].ty).value)
    ensures And(raw, Pow2(VariantBits(|variants|)) - 1) == i
    ensures Shr(raw, VariantBits(|variants|)) == AsRawToken(variants[i].ty, p)
  {
    hide Or, And, Shl, Shr, Pow2, TrailingZeros, NextPowerOfTwo;
    raw := PackedFields(i, AsRawToken(variants[i].ty, p), VariantBits(|variants|), UsedBits(variants[i].ty).value,
                        TOKEN_BITS);
  }

  /** Reading back an enum once its tag has been recognised. */
  lemma UnpackEnum(variants: seq<Variant>, raw: nat, tag: nat)
    requires tag < |variants| && variants[tag].Data?
    requires And(raw, Pow2(VariantBits(|variants|)) - 1) == tag
    ensures var p := FromRawToken(variants[tag].ty, Shr(raw, VariantBits(|variants|)));
            FromRawToken(Enum(variants), raw) == if p.Some? then Some(Carrying(tag, p.value)) else None
  {
  }

  lemma TagFits(count: nat, i: nat)
    requires i < count
    ensures i < Pow2(VariantBits(count))
  {
    VariantBitsIsLeast(count);
  }

  /** An accepted enum is as wide as its tag plus its widest data, which fits the token. */
  lemma BudgetBoundsWidths(variants: seq<Variant>)
    requires UsedBits(Enum(variants)).Some?
    ensures var used, tagBits := UsedBits(Enum(variants)).value, VariantBits(|variants|);
            && tagBits <= used <= TOKEN_BITS
            && forall i :: 0 <= i < |variants| && variants[i].Data? ==>
                 UsedBits(variants[i].ty).Some? && UsedBits(variants[i].ty).value + tagBits <= used
  {
    var tagBits := VariantBits(|variants|);
    InnerBitsAllowed(variants, TOKEN_BITS - tagBits);
    forall i | 0 <= i < |variants| && variants[i].Data?
      ensures UsedBits(variants[i].ty).Some?
      ensures UsedBits(variants[i].ty).value in InnerBits(variants, TOKEN_BITS - tagBits).value
    {
      assert WithinBudget(variants[i], TOKEN_BITS - tagBits);
    }
  }

  lemma {:induction false} InnerBitsAllowed(variants: seq<Variant>, allowed: nat)
    requires InnerBits(variants, allowed).Some?
    ensures forall n :: n in InnerBits(variants, allowed).value ==> n <= allowed
  {
    if variants != [] {
      InnerBitsAllowed(variants[1..], allowed);
    }
  }

  /** Distinct values of an accepted type never share a token. */
  lemma TokensAreDistinct(ty: Ty, v: Value, w: Value)
    requires UsedBits(ty).Some? && HasType(v, ty) && HasType(w, ty)
    ensures AsRawToken(ty, v) == AsRawToken(ty, w) <==> v == w
  {
    RoundTrip(ty, v);
    RoundTrip(ty, w);
  }

  /** On every step of packing an accepted enum the shift loses no bit and the OR is an addition. */
  lemma PackingIsAddition(variants: seq<Variant>, i: nat, p: Value)
    requires UsedBits(Enum(variants)).Some? && HasType(Carrying(i, p), Enum(variants))
    ensures AsRawToken(Enum(variants), Carrying(i, p))
         == i + AsRawToken(variants[i].ty, p) * Pow2(VariantBits(|variants|))
  {
    BudgetBoundsWidths(variants);
    TagFits(|variants|, i);
    RoundTrip(variants[i].ty, p);
    var raw := PackEnum(variants, i, p);
  }

  /** The tokens of the GPU worker's four events are 0 to 3, in two bits. */
  lemma PlainTokens(i: nat)
    requires i < 4
    ensures var events := Enum([NoData, NoData, NoData, NoData]);
            UsedBits(events) == Some(2) && AsRawToken(events, Bare(i)) == i && FromRawToken(events, i) == Some(Bare(i))
  {
    var variants := [NoData, NoData, NoData, NoData];
    FourVariants();
    AcceptedIff(variants);
    BareRoundTrip(variants, i);
  }

  lemma FourVariants()
    ensures VariantBits(4) == 2
  {
    assert NextPowerOfTwo(2) == 2 && NextPowerOfTwo(4) == 4;
    assert TrailingZeros(2) == 1 && TrailingZeros(4) == 2;
  }

  /** Data sits above the tag: byte `n` carried by the second of four variants. */
  lemma DataAboveTag(n: nat)
    requires n < 256
    ensures var ty := Enum([NoData, Data(Word(8)), NoData, NoData]);
            && UsedBits(ty) == Some(10)
            && HasType(Carrying(1, Number(n)), ty) && AsRawToken(ty, Carrying(1, Number(n))) == 1 + 4 * n
            && FromRawToken(ty, 1 + 4 * n) == Some(Carrying(1, Number(n)))
  {
    var variants := [NoData, Data(Word(8)), NoData, NoData];
    TenBits();
    ByteValue(n);
    hide UsedBits, VariantBits, Pow2, FromRawToken;
    PackingIsAddition(variants, 1, Number(n));
    RoundTrip(Enum(variants), Carrying(1, Number(n)));
  }

  lemma ByteValue(n: nat)
    ensures HasType(Number(n), Word(8)) <==> n < 256
    ensures Pow2(VariantBits(4)) == 4
  {
    assert Pow2(8) == 256;
    FourVariants();
    assert Pow2(2) == 4;
  }

  lemma TenBits()
    ensures UsedBits(Enum([NoData, Data(Word(8)), NoData, NoData])) == Some(10)
  {
    hide UsedBits, VariantBits;
    var variants := [NoData, Data(Word(8)), NoData, NoData];
    FourVariants();
    AcceptedParts(8, [NoData]);
    AcceptedIff(variants);
    assert variants[1].Data? && UsedBits(variants[1].ty) == Some(8);
  }

  /** Whatever a word decodes to has the type, and its own token is the lowest bits of that word: decoding
      reads only the bits that packing writes. */
  lemma {:induction false} DecodesLowBits(ty: Ty, data: nat) returns (k: nat)
    requires UsedBits(ty).Some? && FromRawToken(ty, data).Some?
    ensures k <= UsedBits(ty).value && HasType(FromRawToken(ty, data).value, ty)
    ensures AsRawToken(ty, FromRawToken(ty, data).value) == data % Pow2(k)
    decreases ty
  {
    hide Or, And, Shl, Shr, Pow2, TrailingZeros, NextPowerOfTwo, InnerBits, MaxOf;
    match ty
    case Unit =>
      k := 0;
      assert Pow2(0) == 1 by { WidthZero(); }
    case Word(bits) =>
      k := bits;
      DivModUnique(data, Pow2(bits), data / Pow2(bits), data % Pow2(bits));
    case UInt(bits) =>
      k := bits;
      DivModUnique(data, Pow2(bits), 0, data);
    case Enum(variants) =>
      var tagBits := VariantBits(|variants|);
      var tag := And(data, Pow2(tagBits) - 1);
      MaskIsRemainder(data, tagBits);
      BudgetBoundsWidths(variants);
      if variants[tag].NoData? {
        k := tagBits;
      } else {
        var j := DecodesLowBits(variants[tag].ty, Shr(data, tagBits));
        k := tagBits + j;
        var p := FromRawToken(variants[tag].ty, Shr(data, tagBits)).value;
        PackingIsAddition(variants, tag, p);
        ShrIsDivision(data, tagBits);
        LowBitsOfBoth(data, tagBits, j);
      }
  }

  /** Decoding fails exactly on an N-bit integer that does not fit, and on an enum whose lowest bits, as
      many as the tag has, name no variant, or whose data, above the tag, fails to decode. */
  lemma DecodeFailsIff(ty: Ty, data: nat)
    ensures match ty
            case Unit => FromRawToken(ty, data).Some?
            case Word(_) => FromRawToken(ty, data).Some?
            case UInt(bits) => FromRawToken(ty, data).None? <==> data >= Pow2(bits)
            case Enum(variants) =>
              var size := Pow2(VariantBits(|variants|));
              FromRawToken(ty, data).None? <==>
                || data % size >= |variants|
                || (variants[data % size].Data? && FromRawToken(variants[data % size].ty, data / size).None?)
  {
    hide Or, And, Shl, Shr, Pow2, TrailingZeros, NextPowerOfTwo;
    if ty.Enum? {
      var tagBits := VariantBits(|ty.variants|);
      MaskIsRemainder(data, tagBits);
      ShrIsDivision(data, tagBits);
    }
  }

  lemma WidthZero()
    ensures Pow2(0) == 1
  {
  }

  lemma ShrIsDivision(x: nat, k: nat)
    ensures Shr(x, k) == x / Pow2(k)
  {
    hide Pow2, Shr;
    QuotientAndRest(x, Pow2(k));
    ShrDropsLowField(x % Pow2(k), x / Pow2(k), k);
  }

  lemma QuotientAndRest(x: nat, d: nat)
    requires d > 0
    ensures x == x % d + x / d * d
  {
  }

  lemma LowBitsOfBoth(data: nat, low: nat, high: nat)
    ensures data % Pow2(low) + (data / Pow2(low)) % Pow2(high) * Pow2(low) == data % Pow2(low + high)
  {
    hide Pow2;
    Pow2Add(low, high);
    TwoRemainders(data, Pow2(low), Pow2(high));
  }

  lemma TwoRemainders(x: nat, a: nat, b: nat)
    requires a > 0 && b > 0
    ensures a * b > 0 && x % a + (x / a) % b * a == x % (a * b)
  {
    var q, r := x / a, x % a;
    var h, m := q / b, q % b;
    QuotientAndRest(x, a);
    QuotientAndRest(q, b);
    MulAtLeast(a, b);
    Regrouped(h, b, m, a, r);
    MulMonotone(m + 1, b, a);
    Distribute(m, 1, a);
    DivModUnique(x, a * b, h, r + m * a);
  }

  lemma Regrouped(h: nat, b: nat, m: nat, a: nat, r: nat)
    ensures r + (m + h * b) * a == h * (a * b) + (r + m * a)
  {
    Distribute(m, h * b, a);
    assert (h * b) * a == h * (a * b);
  }

  ghost predicate Faithful(ty: Ty) {
    forall v, w | HasType(v, ty) && HasType(w, ty) && AsRawToken(ty, v) == AsRawToken(ty, w) :: v == w
  }

  /** Types whose every part has a value: integers fit the token, no enum is empty, and its tag is
      within reach of the macro's mask. */
  predicate Sensible(ty: Ty)
    decreases ty
  {
    match ty
    case Unit => true
    case Word(bits) => bits <= TOKEN_BITS
    case UInt(bits) => bits <= TOKEN_BITS
    case Enum(variants) =>
      && variants != [] && VariantBits(|variants|) <= MAX_MASK_BITS
      && forall i :: 0 <= i < |variants| && variants[i].Data? ==> Sensible(variants[i].ty)
  }

  /** The compile-time check refuses a type exactly when two of its values would share a token. */
  lemma BudgetIsExact(ty: Ty)
    requires Sensible(ty)
    ensures UsedBits(ty).Some? <==> Faithful(ty)
  {
    if UsedBits(ty).Some? {
      forall v, w | HasType(v, ty) && HasType(w, ty) && AsRawToken(ty, v) == AsRawToken(ty, w)
        ensures v == w
      {
        TokensAreDistinct(ty, v, w);
      }
    } else {
      var v, w := Collision(ty);
    }
  }

  /** A refused type has a refused inner type, or inner data whose top bit does not reach the token. */
  lemma {:induction false} Collision(ty: Ty) returns (v: Value, w: Value)
    requires Sensible(ty) && UsedBits(ty).None?
    ensures HasType(v, ty) && HasType(w, ty) && v != w && AsRawToken(ty, v) == AsRawToken(ty, w)
    decreases ty
  {
    hide Or, Shl, Pow2, TrailingZeros, NextPowerOfTwo, InnerBits, MaxOf, FromRawToken, AsRawToken;
    var variants := ty.variants;
    var tagBits := VariantBits(|variants|);
    var i :| 0 <= i < |variants| && !WithinBudget(variants[i], TOKEN_BITS - tagBits);
    var inner := variants[i].ty;
    var p, q;
    if UsedBits(inner).None? {
      p, q := Collision(inner);
    } else {
      p, q := TopBit(inner);
      ShiftedOut(AsRawToken(inner, p), UsedBits(inner).value - 1, tagBits, TOKEN_BITS);
    }
    v, w := Carrying(i, p), Carrying(i, q);
    SameShifted(variants, i, p, q);
  }

  lemma SameShifted(variants: seq<Variant>, i: nat, p: Value, q: Value)
    requires HasType(Carrying(i, p), Enum(variants)) && HasType(Carrying(i, q), Enum(variants))
    requires var tagBits := VariantBits(|variants|);
             Shl(AsRawToken(variants[i].ty, p), tagBits, TOKEN_BITS)
             == Shl(AsRawToken(variants[i].ty, q), tagBits, TOKEN_BITS)
    ensures AsRawToken(Enum(variants), Carrying(i, p)) == AsRawToken(Enum(variants), Carrying(i, q))
  {
    hide Or, Shl, Pow2, TrailingZeros, NextPowerOfTwo;
  }

  lemma ShiftedOut(x: nat, bit: nat, k: nat, width: nat)
    requires bit + k >= width
    ensures Shl(x + Pow2(bit), k, width) == Shl(x, k, width)
  {
    hide Pow2;
    var high := Pow2(bit + k - width);
    Pow2Add(bit, k);
    Pow2Add(bit + k - width, width);
    Distribute(x, Pow2(bit), Pow2(k));
    AddMultiple(x * Pow2(k), high, Pow2(width));
  }

  lemma Distribute(a: nat, b: nat, c: nat)
    ensures (a + b) * c == a * c + b * c
  {
  }

  lemma AddMultiple(low: nat, high: nat, m: nat)
    requires m > 0
    ensures (low + high * m) % m == low % m
  {
    var quotient, rest := low / m, low % m;
    Distribute(quotient, high, m);
    DivModUnique(low + high * m, m, quotient + high, rest);
  }

  /** A sensible type uses the width it asks for: some two of its tokens differ in just the top bit. */
  lemma {:induction false} TopBit(ty: Ty) returns (v: Value, w: Value)
    requires Sensible(ty) && UsedBits(ty).Some? && UsedBits(ty).value > 0
    ensures HasType(v, ty) && HasType(w, ty) && v != w
    ensures AsRawToken(ty, w) == AsRawToken(ty, v) + Pow2(UsedBits(ty).value - 1)
    decreases ty
  {
    hide Pow2, Or, Shl, TrailingZeros, NextPowerOfTwo, InnerBits, MaxOf;
    match ty
    case Word(bits) =>
      v, w := Number(0), Number(Pow2(bits - 1));
      Pow2Monotone(bits - 1, bits);
    case UInt(bits) =>
      v, w := Number(0), Number(Pow2(bits - 1));
      Pow2Monotone(bits - 1, bits);
    case Enum(variants) =>
      var tagBits := VariantBits(|variants|);
      var widths := InnerBits(variants, TOKEN_BITS - tagBits).value;
      if MaxOf(widths) > 0 {
        var i := WidthOf(variants, TOKEN_BITS - tagBits, MaxOf(widths));
        var p, q := TopBit(variants[i].ty);
        v, w := Carrying(i, p), Carrying(i, q);
        TopBitOfData(variants, i, p, q);
      } else {
        v, w := TopBitOfTag(variants);
      }
  }

  lemma TopBitOfData(variants: seq<Variant>, i: nat, p: Value, q: Value)
    requires UsedBits(Enum(variants)).Some?
    requires HasType(Carrying(i, p), Enum(variants)) && HasType(Carrying(i, q), Enum(variants))
    requires UsedBits(variants[i].ty).Some? && UsedBits(variants[i].ty).value > 0
    requires UsedBits(Enum(variants)).value == UsedBits(variants[i].ty).value + VariantBits(|variants|)
    requires AsRawToken(variants[i].ty, q) == AsRawToken(variants[i].ty, p) + Pow2(UsedBits(variants[i].ty).value - 1)
    ensures AsRawToken(Enum(variants), Carrying(i, q))
         == AsRawToken(Enum(variants), Carrying(i, p)) + Pow2(UsedBits(Enum(variants)).value - 1)
  {
    hide AsRawToken, UsedBits, Pow2, VariantBits;
    PackingIsAddition(variants, i, p);
    PackingIsAddition(variants, i, q);
    var tagBits, top := VariantBits(|variants|), UsedBits(variants[i].ty).value - 1;
    Pow2Add(top, tagBits);
    var a := AsRawToken(variants[i].ty, p);
    assert (a + Pow2(top)) * Pow2(tagBits) == a * Pow2(tagBits) + Pow2(top) * Pow2(tagBits);
  }

  /** Without wide data the top bit is that of the tag, which some variant has. */
  lemma TopBitOfTag(variants: seq<Variant>) returns (v: Value, w: Value)
    requires Sensible(Enum(variants)) && UsedBits(Enum(variants)).Some?
    requires UsedBits(Enum(variants)).value == VariantBits(|variants|) > 0
    ensures HasType(v, Enum(variants)) && HasType(w, Enum(variants)) && v != w
    ensures AsRawToken(Enum(variants), w) == AsRawToken(Enum(variants), v) + Pow2(VariantBits(|variants|) - 1)
  {
    var half := Pow2(VariantBits(|variants|) - 1);
    VariantBitsIsLeast(|variants|);
    assert !(|variants| <= half);
    v, w := OfVariant(variants, 0), OfVariant(variants, half);
    TokenIsTag(variants, 0);
    TokenIsTag(variants, half);
  }

  function AnyValue(ty: Ty): (v: Value)
    requires Sensible(ty)
    ensures HasType(v, ty)
    decreases ty
  {
    match ty
    case Unit => UnitValue
    case Word(_) => Number(0)
    case UInt(_) => Number(0)
    case Enum(variants) => if variants[0].NoData? then Bare(0) else Carrying(0, AnyValue(variants[0].ty))
  }

  function OfVariant(variants: seq<Variant>, i: nat): (v: Value)
    requires Sensible(Enum(variants)) && i < |variants|
    ensures HasType(v, Enum(variants))
  {
    if variants[i].NoData? then Bare(i) else Carrying(i, AnyValue(variants[i].ty))
  }

  lemma TokenIsTag(variants: seq<Variant>, i: nat)
    requires Sensible(Enum(variants)) && UsedBits(Enum(variants)).Some? && i < |variants|
    requires UsedBits(Enum(variants)).value == VariantBits(|variants|)
    ensures AsRawToken(Enum(variants), OfVariant(variants, i)) == i
  {
    hide Or, Shl, TrailingZeros, NextPowerOfTwo, FromRawToken, InnerBits, MaxOf, Pow2;
    if variants[i].Data? {
      var p := AnyValue(variants[i].ty);
      BudgetBoundsWidths(variants);
      RoundTrip(variants[i].ty, p);
      PackingIsAddition(variants, i, p);
      WidthZero();
    }
  }

  /** Every inner width is some variant's. */
  lemma {:induction false} WidthOf(variants: seq<Variant>, allowed: nat, bits: nat) returns (i: nat)
    requires InnerBits(variants, allowed).Some? && bits in InnerBits(variants, allowed).value
    ensures i < |variants| && variants[i].Data? && UsedBits(variants[i].ty) == Some(bits)
  {
    if VariantWidth(variants[0]) == Some(Some(bits)) {
      i := 0;
    } else {
      var j := WidthOf(variants[1..], allowed, bits);
      i := j + 1;
    }
  }
}
