/** src/io-ipfix.c: the allocator that lays out an IPFIX record, and the list of
    elements and paddings that describes the same layout to libfixbuf. */
module IpfixTemplate {
  import opened Bytes

  datatype IeType =
    | UNKNOWN | STRING | UNSIGNED64 | UNSIGNED8 | DATETIMEMICROSECONDS | OCTETARRAY
    | FLOAT64 | DATETIMESECONDS | UNSIGNED16 | UNSIGNED32 | DATETIMEMILLISECONDS
    | BOOLEAN | IPV6ADDRESS | IPV4ADDRESS | MACADDRESS | SUBTEMPLATEMULTILIST
    | DATETIMENANOSECONDS | BASICLIST | SUBTEMPLATELIST

  /** `ipfix_ie_type_sizeof`, -1 for types without a fixed size here. */
  function SizeOf(ty: IeType): int {
    match ty
    case UNSIGNED8 => 1
    case UNSIGNED16 => 2
    case UNSIGNED32 | IPV4ADDRESS | DATETIMESECONDS => 4
    case MACADDRESS => 6
    case UNSIGNED64 | FLOAT64 | DATETIMEMICROSECONDS | DATETIMEMILLISECONDS | DATETIMENANOSECONDS => 8
    case IPV6ADDRESS => 16
    case _ => -1
  }

  predicate Fixed(ty: IeType) { SizeOf(ty) > 0 }

  /** The `size_t` the result turns into. */
  function SizeT(ty: IeType): u64 {
    if SizeOf(ty) == -1 then TWO_64 - 1 else SizeOf(ty)
  }

  datatype Ie = Ie(name: string, offset: u64, size: u64, ty: IeType) {
    function End(): nat { offset + size }
  }

  type Types = map<string, IeType>

  /** `get_ipfix_type`. */
  function TypeOf(types: Types, name: string): IeType {
    if name in types then types[name] else UNKNOWN
  }

  datatype Templ = Templ(arr: seq<Ie>, nextOffset: u64)

  function Names(arr: seq<Ie>): (names: seq<string>)
    ensures |names| == |arr| && forall i :: 0 <= i < |arr| ==> names[i] == arr[i].name
  {
    seq(|arr|, i requires 0 <= i < |arr| => arr[i].name)
  }

  /** The first multiple of `size` at or after `next`, as the code computes it. */
  function AlignUp(next: u64, size: u64): u64
    requires 0 < size
  {
    var rest := next % size;
    if rest != 0 then (next + (size - rest)) % TWO_64 else next
  }

  /** `ipfix_templ_get_rec_size`, shifts included. */
  function RecSize(next: u64): u64 {
    ((next + 7) % TWO_64) / 8 * 8
  }

  /** `ipfix_templ_ie_register`: the new template and the return value. */
  function Register(types: Types, t: Templ, name: string): (Templ, int) {
    var ty := TypeOf(types, name);
    if name in Names(t.arr) then (t, 0)
    else if ty.UNKNOWN? then (t, -1)
    else
      var size := SizeT(ty);
      var offset := AlignUp(t.nextOffset, size);
      (Templ(t.arr + [Ie(name, offset, size, ty)], (offset + size) % TWO_64), 0)
  }

  // ---- what a layout must be ----

  /** Names are unique, offsets are aligned to the element's own size, ranges are
      disjoint and in order, and all lie within the record. */
  ghost predicate Layout(t: Templ) {
    && (forall i, j :: 0 <= i < j < |t.arr| ==> t.arr[i].name != t.arr[j].name)
    && (forall i :: 0 <= i < |t.arr| ==>
          0 < t.arr[i].size && t.arr[i].offset % t.arr[i].size == 0 && t.arr[i].End() <= RecSize(t.nextOffset))
    && (forall i, j :: 0 <= i < j < |t.arr| ==> t.arr[i].End() <= t.arr[j].offset)
  }

  function EndOf(arr: seq<Ie>): nat {
    if arr == [] then 0 else arr[|arr| - 1].End()
  }

  /** A template built by successful registrations of fixed-size elements: each
      element sits at the first aligned place after the one before. */
  ghost predicate Built(types: Types, t: Templ) {
    && (forall i, j :: 0 <= i < j < |t.arr| ==> t.arr[i].name != t.arr[j].name)
    && (forall i :: 0 <= i < |t.arr| ==> Placed(types, t.arr, i))
    && t.nextOffset == EndOf(t.arr) <= 31 * |t.arr|
    && 31 * |types| + 40 < TWO_64
  }

  ghost predicate Placed(types: Types, arr: seq<Ie>, i: nat)
    requires i < |arr|
  {
    && arr[i].name in types && arr[i].ty == types[arr[i].name] && Fixed(arr[i].ty)
    && arr[i].size == SizeOf(arr[i].ty)
    && EndOf(arr[..i]) <= arr[i].offset < EndOf(arr[..i]) + arr[i].size
    && arr[i].offset % arr[i].size == 0
  }

  lemma EmptyBuilt(types: Types)
    requires 31 * |types| + 40 < TWO_64
    ensures Built(types, Templ([], 0))
  {
  }

  lemma SizeCases(ty: IeType)
    ensures Fixed(ty) ==> SizeT(ty) in {1, 2, 4, 6, 8, 16} && SizeT(ty) == SizeOf(ty)
    ensures !Fixed(ty) ==> SizeT(ty) == TWO_64 - 1
  {
  }

  lemma AlignUpForm(next: u64, size: u64)
    requires 0 < size <= 16 && next + 16 < TWO_64
    ensures AlignUp(next, size) == if next % size == 0 then next else next + size - next % size
  {
    if next % size != 0 {
      ModUnique(next + (size - next % size), TWO_64, 0, next + (size - next % size));
    }
  }

  /** The computed offset is the least multiple of the size that is not below
      the next free byte. */
  lemma AlignUpLeast(next: u64, size: u64)
    requires 0 < size <= 16 && next + 16 < TWO_64
    ensures AlignUp(next, size) % size == 0
    ensures next <= AlignUp(next, size) < next + size
    ensures forall m :: next <= m < AlignUp(next, size) ==> m % size != 0
  {
    AlignUpForm(next, size);
    var a, q := AlignUp(next, size), next / size;
    if next % size != 0 {
      assert a == size * (q + 1);
      ModUnique(a, size, q + 1, 0);
      forall m | next <= m < a
        ensures m % size != 0
      {
        ModUnique(m, size, q, m - size * q);
      }
    }
  }

  lemma RecSizeLeast(next: u64)
    requires next + 7 < TWO_64
    ensures RecSize(next) % 8 == 0 && next <= RecSize(next) < next + 8
  {
  }

  lemma {:induction false} UniqueNamesFit(types: Types, arr: seq<Ie>) returns (names: set<string>)
    requires forall i, j :: 0 <= i < j < |arr| ==> arr[i].name != arr[j].name
    requires forall i :: 0 <= i < |arr| ==> arr[i].name in types
    ensures |names| == |arr| && names <= types.Keys
    ensures forall x :: x in names <==> x in Names(arr)
  {
    if arr == [] {
      names := {};
    } else {
      var n := |arr| - 1;
      var front := UniqueNamesFit(types, arr[..n]);
      names := front + {arr[n].name};
      assert Names(arr) == Names(arr[..n]) + [arr[n].name];
    }
  }

  lemma SubsetSmaller(a: set<string>, b: set<string>)
    requires a <= b
    ensures |a| <= |b|
  {
    assert b == a + (b - a);
  }

  lemma SpaceLeft(types: Types, t: Templ)
    requires Built(types, t)
    ensures t.nextOffset + 40 < TWO_64
  {
    forall i | 0 <= i < |t.arr|
      ensures t.arr[i].name in types
    {
      assert Placed(types, t.arr, i);
    }
    var names := UniqueNamesFit(types, t.arr);
    SubsetSmaller(names, types.Keys);
    assert |types.Keys| == |types|;
  }

  /** A new element right behind the others keeps them where they are. */
  lemma AppendBuilds(types: Types, t: Templ, ie: Ie, nextOffset: u64)
    requires Built(types, t) && ie.name !in Names(t.arr)
    requires ie.name in types && ie.ty == types[ie.name] && Fixed(ie.ty) && ie.size == SizeOf(ie.ty)
    requires t.nextOffset <= ie.offset < t.nextOffset + ie.size && ie.offset % ie.size == 0
    requires nextOffset == ie.End()
    ensures Built(types, Templ(t.arr + [ie], nextOffset))
  {
    var arr, n := t.arr + [ie], |t.arr|;
    SizeCases(ie.ty);
    forall i | 0 <= i < |arr|
      ensures Placed(types, arr, i)
    {
      assert arr[..i] == t.arr[..i];
      if i < n {
        assert Placed(types, t.arr, i);
      } else {
        assert t.arr[..n] == t.arr;
      }
    }
    forall i | 0 <= i < n
      ensures t.arr[i].name != ie.name
    {
      assert t.arr[i].name == Names(t.arr)[i];
    }
  }

  /** Registering a fixed-size element, a known one again, or failing on an
      unknown one keeps a built template built. */
  lemma RegisterBuilds(types: Types, t: Templ, name: string)
    requires Built(types, t)
    requires name in Names(t.arr) || TypeOf(types, name).UNKNOWN? || Fixed(TypeOf(types, name))
    ensures Built(types, Register(types, t, name).0)
  {
    hide Placed, AlignUp;
    var ty := TypeOf(types, name);
    if name !in Names(t.arr) && !ty.UNKNOWN? {
      SpaceLeft(types, t);
      SizeCases(ty);
      AlignUpLeast(t.nextOffset, SizeT(ty));
      var offset := AlignUp(t.nextOffset, SizeT(ty));
      ModUnique(offset + SizeT(ty), TWO_64, 0, offset + SizeT(ty));
      AppendBuilds(types, t, Ie(name, offset, SizeT(ty), ty), offset + SizeT(ty));
    }
  }

  lemma {:induction false} EndsInOrder(types: Types, t: Templ, i: nat, j: nat)
    requires Built(types, t) && i < j < |t.arr|
    ensures t.arr[i].End() <= t.arr[j].offset
    decreases j - i
  {
    assert Placed(types, t.arr, j);
    if i < j - 1 {
      EndsInOrder(types, t, i, j - 1);
    }
  }

  /** A built template is a proper layout. */
  lemma BuiltIsLayout(types: Types, t: Templ)
    requires Built(types, t)
    ensures Layout(t)
  {
    SpaceLeft(types, t);
    RecSizeLeast(t.nextOffset);
    forall i | 0 <= i < |t.arr|
      ensures 0 < t.arr[i].size && t.arr[i].offset % t.arr[i].size == 0
      ensures t.arr[i].End() <= RecSize(t.nextOffset)
    {
      assert Placed(types, t.arr, i);
      if i < |t.arr| - 1 {
        EndsInOrder(types, t, i, |t.arr| - 1);
      }
    }
    forall i, j | 0 <= i < j < |t.arr|
      ensures t.arr[i].End() <= t.arr[j].offset
    {
      EndsInOrder(types, t, i, j);
    }
  }

  /** One registration keeps the layout exactly when the element is already
      there, is unknown, or has a fixed size: the size -1 of any other type
      becomes 2^64 - 1 and leaves the record. */
  lemma RegisterKeepsLayoutIffFixed(types: Types, t: Templ, name: string)
    requires Built(types, t)
    ensures Layout(Register(types, t, name).0) <==>
      name in Names(t.arr) || TypeOf(types, name).UNKNOWN? || Fixed(TypeOf(types, name))
  {
    var ty := TypeOf(types, name);
    if name in Names(t.arr) || ty.UNKNOWN? || Fixed(ty) {
      RegisterBuilds(types, t, name);
      BuiltIsLayout(types, Register(types, t, name).0);
    } else {
      SpaceLeft(types, t);
      SizeCases(ty);
      var t' := Register(types, t, name).0;
      var n := |t.arr|;
      OversizeNext(t.nextOffset);
      assert t'.arr[n].size == TWO_64 - 1;
      assert t'.arr[n].End() > RecSize(t'.nextOffset);
    }
  }

  lemma OversizeNext(next: u64)
    requires next + 40 < TWO_64
    ensures RecSize((AlignUp(next, TWO_64 - 1) + (TWO_64 - 1)) % TWO_64) == 0
  {
    var size: u64 := TWO_64 - 1;
    assert next % size == next;
    if next == 0 {
      assert AlignUp(next, size) == 0;
      assert (0 + size) % TWO_64 == size;
    } else {
      assert AlignUp(next, size) == size;
      ModUnique(size + size, TWO_64, 1, TWO_64 - 2);
    }
  }

  /** How many bytes each type takes, by the octets its values have (section 6.1 of
      RFC 7011); no other type gets into a built template. */
  predicate Octets(ty: IeType, n: nat) {
    || (n == 1 && ty == UNSIGNED8)
    || (n == 2 && ty == UNSIGNED16)
    || (n == 4 && ty in {UNSIGNED32, IPV4ADDRESS, DATETIMESECONDS})
    || (n == 6 && ty == MACADDRESS)
    || (n == 8 && ty in {UNSIGNED64, FLOAT64, DATETIMEMILLISECONDS, DATETIMEMICROSECONDS, DATETIMENANOSECONDS})
    || (n == 16 && ty == IPV6ADDRESS)
  }

  /** An element of a built template spans exactly the octets of its type. */
  lemma ElementOctets(types: Types, t: Templ, i: nat)
    requires Built(types, t) && i < |t.arr|
    ensures t.arr[i].name in types && t.arr[i].ty == types[t.arr[i].name]
    ensures Octets(t.arr[i].ty, t.arr[i].size)
  {
    assert Placed(types, t.arr, i);
  }

  /** One registration keeps the layout exactly when the element is already there,
      is unknown, or its type has a number of octets. */
  lemma LayoutNeedsOctets(types: Types, t: Templ, name: string)
    requires Built(types, t)
    ensures Layout(Register(types, t, name).0) <==>
      || name in Names(t.arr) || TypeOf(types, name) == UNKNOWN
      || exists n :: Octets(TypeOf(types, name), n)
  {
    RegisterKeepsLayoutIffFixed(types, t, name);
    FixedHasOctets(TypeOf(types, name));
  }

  lemma FixedHasOctets(ty: IeType)
    ensures Fixed(ty) <==> exists n :: Octets(ty, n)
  {
    if Fixed(ty) {
      assert Octets(ty, SizeOf(ty));
    }
  }

  // ---- whole runs of registrations ----

  function RegisterAll(types: Types, t: Templ, names: seq<string>): Templ {
    if names == [] then t
    else Register(types, RegisterAll(types, t, names[..|names| - 1]), names[|names| - 1]).0
  }

  /** No name has a type of variable length. */
  predicate NoneVariable(types: Types, names: seq<string>) {
    forall i :: 0 <= i < |names| ==> TypeOf(types, names[i]).UNKNOWN? || Fixed(TypeOf(types, names[i]))
  }

  /** Registering the same element again changes nothing. */
  lemma RegisterTwice(types: Types, t: Templ, name: string)
    ensures var (t1, rv) := Register(types, t, name); rv == 0 ==> Register(types, t1, name) == (t1, 0)
  {
    var (t1, rv) := Register(types, t, name);
    if rv == 0 && name !in Names(t.arr) {
      assert Names(t1.arr)[|t.arr|] == name;
    }
  }

  lemma RegisterAdds(types: Types, t: Templ, name: string)
    ensures t.arr <= Register(types, t, name).0.arr
    ensures forall x :: x in Names(t.arr) ==> x in Names(Register(types, t, name).0.arr)
    ensures !TypeOf(types, name).UNKNOWN? ==> name in Names(Register(types, t, name).0.arr)
  {
    var t' := Register(types, t, name).0;
    assert Names(t.arr) <= Names(t'.arr);
    if name !in Names(t.arr) && !TypeOf(types, name).UNKNOWN? {
      assert Names(t'.arr)[|t.arr|] == name;
    }
  }

  lemma {:induction false} RunBuilds(types: Types, t: Templ, names: seq<string>)
    requires Built(types, t)
    requires NoneVariable(types, names)
    ensures Built(types, RegisterAll(types, t, names))
  {
    if names != [] {
      var n := |names| - 1;
      RunBuilds(types, t, names[..n]);
      RegisterBuilds(types, RegisterAll(types, t, names[..n]), names[n]);
    }
  }

  lemma {:induction false} RunAdds(types: Types, t: Templ, names: seq<string>)
    ensures t.arr <= RegisterAll(types, t, names).arr
    ensures forall i :: 0 <= i < |names| && !TypeOf(types, names[i]).UNKNOWN? ==>
      names[i] in Names(RegisterAll(types, t, names).arr)
  {
    if names != [] {
      var n := |names| - 1;
      RunAdds(types, t, names[..n]);
      RegisterAdds(types, RegisterAll(types, t, names[..n]), names[n]);
      assert forall i :: 0 <= i < n ==> names[i] == names[..n][i];
    }
  }

  /** After any run of registrations without variable-length elements: a proper
      layout, every known name in it, and nothing placed earlier moved. */
  lemma AnyRunIsLayout(types: Types, t: Templ, names: seq<string>)
    requires Built(types, t)
    requires NoneVariable(types, names)
    ensures Layout(RegisterAll(types, t, names))
    ensures t.arr <= RegisterAll(types, t, names).arr
    ensures forall i :: 0 <= i < |names| && !TypeOf(types, names[i]).UNKNOWN? ==>
      names[i] in Names(RegisterAll(types, t, names).arr)
  {
    RunBuilds(types, t, names);
    BuiltIsLayout(types, RegisterAll(types, t, names));
    RunAdds(types, t, names);
  }

  // ---- the template object ----

  class Template {
    const types: Types
    var arr: seq<Ie>
    var nextOffset: u64

    ghost function State(): Templ
      reads this
    {
      Templ(arr, nextOffset)
    }

    constructor (types: Types)
      ensures this.types == types && State() == Templ([], 0)
    {
      this.types := types;
      arr, nextOffset := [], 0;
    }

    /** `ipfix_templ_get_ie`: the first element of that name, or -1. */
    method GetIe(name: string) returns (found: int)
      ensures -1 <= found < |arr|
      ensures found == -1 <==> name !in Names(arr)
      ensures found >= 0 ==> arr[found].name == name && forall i :: 0 <= i < found ==> arr[i].name != name
    {
      var i := 0;
      while i < |arr|
        invariant 0 <= i <= |arr|
        invariant forall k :: 0 <= k < i ==> arr[k].name != name
      {
        if arr[i].name == name {
          assert Names(arr)[i] == name;
          return i;
        }
        i := i + 1;
      }
      return -1;
    }

    /** `ipfix_templ_get_ie_offset`. */
    method GetIeOffset(name: string) returns (offset: int)
      ensures offset == -1 <==> name !in Names(arr)
      ensures offset != -1 ==> exists i :: 0 <= i < |arr| && arr[i].name == name && arr[i].offset == offset
    {
      var found := GetIe(name);
      offset := if found == -1 then -1 else arr[found].offset;
    }

    /** `ipfix_templ_ie_register`. */
    method IeRegister(name: string) returns (rv: int)
      modifies this`arr, this`nextOffset
      ensures (State(), rv) == Register(types, old(State()), name)
      ensures old(arr) <= arr
    {
      var found := GetIe(name);
      if found != -1 {
        return 0;
      }
      var ty := TypeOf(types, name);
      if ty.UNKNOWN? {
        return -1;
      }
      var size := SizeT(ty);
      var rest := nextOffset % size;
      if rest != 0 {
        nextOffset := (nextOffset + (size - rest)) % TWO_64;
      }
      arr := arr + [Ie(name, nextOffset, size, ty)];
      nextOffset := (nextOffset + size) % TWO_64;
      return 0;
    }

    /** `ipfix_get_fb_info_elem_spec`: elements in order, paddings wherever the
        running offset falls short, and the end marker. */
    method GetFbInfoElemSpec() returns (spec: seq<FbElem>)
      requires Built(types, State())
      ensures Describes(types, State(), spec)
    {
      spec := [];
      var currOffset := 0;
      for i := 0 to |arr|
        invariant currOffset == EndOf(arr[..i]) == SpecEnd(types, spec)
        invariant AllElems(spec)
        invariant NamedAt(types, spec) == Placements(arr[..i])
      {
        assert Placed(types, arr, i);
        assert arr[..i + 1] == arr[..i] + [arr[i]];
        SizeCases(arr[i].ty);
        PlacementsSnoc(arr[..i], arr[i]);
        spec, currOffset := AddIe(types, spec, currOffset, arr[i]);
      }
      assert arr[..|arr|] == arr;
      SpaceLeft(types, State());
      spec := EndSpec(types, spec, nextOffset);
    }
  }

  /** The padding up to a multiple of 8 and the end marker. */
  method EndSpec(types: Types, spec: seq<FbElem>, currOffset: u64) returns (spec': seq<FbElem>)
    requires AllElems(spec) && SpecEnd(types, spec) == currOffset && currOffset + 7 < TWO_64
    ensures spec' != [] && spec'[|spec'| - 1] == FbNull && AllElems(spec'[..|spec'| - 1])
    ensures NamedAt(types, spec') == NamedAt(types, spec) && SpecEnd(types, spec') == RecSize(currOffset)
  {
    EndPadding(currOffset);
    spec' := spec;
    if currOffset % 8 != 0 {
      spec' := AddPadding(types, spec', 8 - currOffset % 8);
    }
    SpecSnoc(types, spec', FbNull);
    spec' := spec' + [FbNull];
  }

  /** The macro `_fbtempl_add_padding`. */
  method AddPadding(types: Types, spec: seq<FbElem>, paddingSize: nat) returns (spec': seq<FbElem>)
    requires 0 < paddingSize < 16 && AllElems(spec)
    ensures AllElems(spec') && NamedAt(types, spec') == NamedAt(types, spec)
    ensures SpecEnd(types, spec') == SpecEnd(types, spec) + paddingSize
  {
    SpecSnoc(types, spec, Elem("paddingOctets", paddingSize));
    spec' := spec + [Elem("paddingOctets", paddingSize)];
  }

  /** The macro `_fbtempl_add`. */
  method AddNamed(types: Types, spec: seq<FbElem>, name: string) returns (spec': seq<FbElem>)
    requires AllElems(spec)
    ensures AllElems(spec') && NamedAt(types, spec') == NamedAt(types, spec) + [(name, SpecEnd(types, spec))]
    ensures SpecEnd(types, spec') == SpecEnd(types, spec) + ElemLen(types, Elem(name, 0))
  {
    SpecSnoc(types, spec, Elem(name, 0));
    spec' := spec + [Elem(name, 0)];
  }

  /** One round of the loop: a padding if needed, then the element. */
  method AddIe(types: Types, spec: seq<FbElem>, currOffset: nat, ie: Ie)
    returns (spec': seq<FbElem>, currOffset': nat)
    requires ElemLen(types, Elem(ie.name, 0)) == ie.size <= 16 && AllElems(spec)
    requires SpecEnd(types, spec) == currOffset <= ie.offset < currOffset + ie.size
    ensures AllElems(spec') && SpecEnd(types, spec') == currOffset' == ie.End()
    ensures NamedAt(types, spec') == NamedAt(types, spec) + [(ie.name, ie.offset)]
  {
    spec', currOffset' := spec, currOffset;
    if ie.offset != currOffset' {
      var paddingSize := ie.offset - currOffset';
      assert 0 < paddingSize < 64;
      spec' := AddPadding(types, spec', paddingSize);
      currOffset' := currOffset' + paddingSize;
    }
    spec' := AddNamed(types, spec', ie.name);
    currOffset' := currOffset' + ie.size;
  }

  predicate AllElems(spec: seq<FbElem>) {
    forall k :: 0 <= k < |spec| ==> spec[k].Elem? && spec[k].lenOverride < 16
  }

  /** The elements `ipfix_templ_new` starts every template with. */
  const DEFAULT_NAMES: seq<string> := [
    "flowStartMilliseconds", "flowEndMilliseconds", "sourceIPv4Address", "destinationIPv4Address",
    "sourceTransportPort", "destinationTransportPort", "ingressInterface", "egressInterface",
    "packetDeltaCount", "octetDeltaCount", "protocolIdentifier", "ipClassOfService", "tcpControlBits"]

  /** The types of the default elements (src/ipfix-constants.c) and the offsets
      that follow from them. */
  const DEFAULT_TYPES: seq<IeType> := [
    DATETIMEMILLISECONDS, DATETIMEMILLISECONDS, IPV4ADDRESS, IPV4ADDRESS, UNSIGNED16, UNSIGNED16,
    UNSIGNED32, UNSIGNED32, UNSIGNED64, UNSIGNED64, UNSIGNED8, UNSIGNED8, UNSIGNED8]

  ghost predicate DefaultsTyped(types: Types) {
    && |DEFAULT_TYPES| == |DEFAULT_NAMES| && 31 * |types| + 40 < TWO_64
    && forall i :: 0 <= i < |DEFAULT_NAMES| ==>
      DEFAULT_NAMES[i] in types && types[DEFAULT_NAMES[i]] == DEFAULT_TYPES[i]
  }

  predicate At(ie: Ie, name: string, offset: nat) {
    ie.name == name && ie.offset == offset
  }

  /** Where a new template puts its elements. */
  predicate DefaultPlaces(arr: seq<Ie>) {
    && |arr| == 13
    && At(arr[0], "flowStartMilliseconds", 0) && At(arr[1], "flowEndMilliseconds", 8)
    && At(arr[2], "sourceIPv4Address", 16) && At(arr[3], "destinationIPv4Address", 20)
    && At(arr[4], "sourceTransportPort", 24) && At(arr[5], "destinationTransportPort", 26)
    && At(arr[6], "ingressInterface", 28) && At(arr[7], "egressInterface", 32)
    && At(arr[8], "packetDeltaCount", 40) && At(arr[9], "octetDeltaCount", 48)
    && At(arr[10], "protocolIdentifier", 56) && At(arr[11], "ipClassOfService", 57)
    && At(arr[12], "tcpControlBits", 58)
  }

  /** With the types of the source a new template has exactly this layout, in
      records of 64 bytes. */
  lemma DefaultLayout(types: Types)
    requires DefaultsTyped(types)
    ensures var t := RegisterAll(types, Templ([], 0), DEFAULT_NAMES);
      DefaultPlaces(t.arr) && RecSize(t.nextOffset) == 64
  {
    hide DEFAULT_NAMES, DEFAULT_TYPES, DefaultPlaces, DefaultsTyped, RegisterAll, Built, RecSize;
    DefaultRun(types);
    DefaultEnd(types, RegisterAll(types, Templ([], 0), DEFAULT_NAMES));
  }

  lemma DefaultRun(types: Types)
    requires DefaultsTyped(types)
    ensures var t := RegisterAll(types, Templ([], 0), DEFAULT_NAMES);
      Built(types, t) && Names(t.arr) == DEFAULT_NAMES
  {
    DefaultNamesDiffer();
    DefaultsKnown(types);
    hide DEFAULT_NAMES, DEFAULT_TYPES, RegisterAll, Built;
    AllNamed(types, DEFAULT_NAMES);
    EmptyBuilt(types);
    RunBuilds(types, Templ([], 0), DEFAULT_NAMES);
  }

  lemma DefaultEnd(types: Types, t: Templ)
    requires DefaultsTyped(types) && Built(types, t) && Names(t.arr) == DEFAULT_NAMES
    ensures DefaultPlaces(t.arr) && RecSize(t.nextOffset) == 64
  {
    hide DEFAULT_NAMES, DEFAULT_TYPES, DEFAULT_OFFSETS, DefaultPlaces, DefaultsTyped, Built, At, SizeOf;
    DefaultCounts();
    DefaultOffsets(types, t, 13);
    BuiltEnd(types, t);
    assert t.arr[..13] == t.arr;
    NamedPlaces(t.arr);
  }

  lemma BuiltEnd(types: Types, t: Templ)
    requires Built(types, t)
    ensures t.nextOffset == EndOf(t.arr)
  {
  }

  lemma DefaultCounts()
    ensures |DEFAULT_NAMES| == |DEFAULT_TYPES| == |DEFAULT_OFFSETS| == 13
    ensures SizeOf(DEFAULT_TYPES[12]) == 1 && DEFAULT_OFFSETS[12] == 58
  {
  }

  lemma NamedPlaces(arr: seq<Ie>)
    requires |arr| == |DEFAULT_OFFSETS| == |DEFAULT_NAMES|
    requires forall i :: 0 <= i < 13 ==> At(arr[i], DEFAULT_NAMES[i], DEFAULT_OFFSETS[i])
    ensures DefaultPlaces(arr)
  {
    hide At;
  }

  /** The offsets of `DefaultPlaces` in their order. */
  const DEFAULT_OFFSETS: seq<nat> := [0, 8, 16, 20, 24, 26, 28, 32, 40, 48, 56, 57, 58]

  lemma {:induction false} DefaultOffsets(types: Types, t: Templ, n: nat)
    requires DefaultsTyped(types) && Built(types, t) && Names(t.arr) == DEFAULT_NAMES && n <= 13
    ensures |t.arr| == |DEFAULT_OFFSETS| == 13
    ensures forall i :: 0 <= i < n ==> At(t.arr[i], DEFAULT_NAMES[i], DEFAULT_OFFSETS[i])
    ensures n > 0 ==> EndOf(t.arr[..n]) == DEFAULT_OFFSETS[n - 1] + SizeOf(DEFAULT_TYPES[n - 1])
  {
    assert |DEFAULT_NAMES| == 13;
    hide DEFAULT_NAMES, Built;
    if n > 0 {
      DefaultOffsets(types, t, n - 1);
      NextOffset(n - 1);
      var end := if n == 1 then 0 else DEFAULT_OFFSETS[n - 2] + SizeOf(DEFAULT_TYPES[n - 2]);
      var end' := DefaultOffsetAt(types, t, n - 1, end, DEFAULT_OFFSETS[n - 1]);
    }
  }

  lemma NextOffset(i: nat)
    requires i < 13
    ensures |DEFAULT_TYPES| == |DEFAULT_OFFSETS| == 13
    ensures var end := if i == 0 then 0 else DEFAULT_OFFSETS[i - 1] + SizeOf(DEFAULT_TYPES[i - 1]);
      var size := SizeOf(DEFAULT_TYPES[i]);
      0 < size && 0 <= end <= DEFAULT_OFFSETS[i] < end + size && DEFAULT_OFFSETS[i] % size == 0
  {
  }

  /** Element i after `end` used bytes: at the first offset its size allows. */
  lemma DefaultOffsetAt(types: Types, t: Templ, i: nat, end: nat, offset: nat) returns (end': nat)
    requires DefaultsTyped(types) && Built(types, t) && Names(t.arr) == DEFAULT_NAMES
    requires i < |t.arr| && end == EndOf(t.arr[..i])
    requires var size := SizeOf(DEFAULT_TYPES[i]);
      0 < size && end <= offset < end + size && offset % size == 0
    ensures At(t.arr[i], DEFAULT_NAMES[i], offset)
    ensures end' == offset + SizeOf(DEFAULT_TYPES[i]) == EndOf(t.arr[..i + 1])
  {
    hide DEFAULT_NAMES, DEFAULT_TYPES, SizeOf;
    assert Placed(types, t.arr, i);
    assert t.arr[i].name == Names(t.arr)[i] == DEFAULT_NAMES[i];
    var size := SizeOf(DEFAULT_TYPES[i]);
    OneMultiple(end, size, offset, t.arr[i].offset);
    end' := offset + size;
  }

  lemma OneMultiple(end: nat, size: int, a: nat, b: nat)
    requires 0 < size && end <= a < end + size && end <= b < end + size && a % size == 0 && b % size == 0
    ensures a == b
  {
    var p, q := a / size, b / size;
    assert a == size * p && b == size * q;
    MulAtLeast(size, p - q);
    MulAtLeast(size, q - p);
  }

  lemma DefaultsKnown(types: Types)
    requires DefaultsTyped(types)
    ensures forall i :: 0 <= i < |DEFAULT_NAMES| ==> Fixed(TypeOf(types, DEFAULT_NAMES[i]))
  {
    DefaultCounts();
    hide DEFAULT_NAMES;
    assert forall i :: 0 <= i < 13 ==> Fixed(DEFAULT_TYPES[i]);
  }

  /** The place of a default name, told by its length and second letter. */
  function DefaultIndex(name: string): nat
    requires 2 <= |name|
  {
    match (|name|, name[1])
    case (21, _) => 0
    case (19, 'l') => 1
    case (17, _) => 2
    case (22, _) => 3
    case (19, _) => 4
    case (24, _) => 5
    case (16, 'n') => 6
    case (15, 'g') => 7
    case (16, 'a') => 8
    case (15, _) => 9
    case (18, _) => 10
    case (16, _) => 11
    case _ => 12
  }

  lemma DefaultNamesDiffer()
    ensures forall i, j :: 0 <= i < j < |DEFAULT_NAMES| ==> DEFAULT_NAMES[i] != DEFAULT_NAMES[j]
  {
    forall i | 0 <= i < |DEFAULT_NAMES|
      ensures 2 <= |DEFAULT_NAMES[i]| && DefaultIndex(DEFAULT_NAMES[i]) == i
    {
    }
  }

  /** Different known names are all registered, in order. */
  lemma {:induction false} AllNamed(types: Types, names: seq<string>)
    requires forall i, j :: 0 <= i < j < |names| ==> names[i] != names[j]
    requires forall i :: 0 <= i < |names| ==> TypeOf(types, names[i]) != UNKNOWN
    ensures Names(RegisterAll(types, Templ([], 0), names).arr) == names
  {
    if names != [] {
      var n := |names| - 1;
      AllNamed(types, names[..n]);
      var front := RegisterAll(types, Templ([], 0), names[..n]);
      assert names[n] !in names[..n];
      hide RegisterAll;
      assert Names(Register(types, front, names[n]).0.arr) == names[..n] + [names[n]];
    }
  }

  /** `ipfix_templ_new`. */
  method TemplNew(types: Types) returns (templ: Template?)
    ensures templ == null <==> exists i :: 0 <= i < |DEFAULT_NAMES| && TypeOf(types, DEFAULT_NAMES[i]).UNKNOWN?
    ensures templ != null ==> fresh(templ) && templ.types == types
    ensures templ != null ==> templ.State() == RegisterAll(types, Templ([], 0), DEFAULT_NAMES)
    ensures templ != null && 31 * |types| + 40 < TWO_64 && NoneVariable(types, DEFAULT_NAMES) ==>
      Built(types, templ.State()) && Layout(templ.State())
    ensures DefaultsTyped(types) ==>
      templ != null && DefaultPlaces(templ.arr) && RecSize(templ.nextOffset) == 64
  {
    hide DEFAULT_NAMES, DEFAULT_TYPES, Built, Layout, NoneVariable, DefaultsTyped, DefaultPlaces, RecSize;
    templ := TemplWith(types, DEFAULT_NAMES);
    if DefaultsTyped(types) {
      DefaultsKnown(types);
      DefaultLayout(types);
    }
    if 31 * |types| + 40 < TWO_64 && NoneVariable(types, DEFAULT_NAMES) {
      EmptyBuilt(types);
      RunBuilds(types, Templ([], 0), DEFAULT_NAMES);
      AnyRunIsLayout(types, Templ([], 0), DEFAULT_NAMES);
    }
  }

  /** A new template with the given elements; gives up at the first it cannot
      register. */
  method TemplWith(types: Types, names: seq<string>) returns (templ: Template?)
    ensures templ == null <==> exists i :: 0 <= i < |names| && TypeOf(types, names[i]).UNKNOWN?
    ensures templ != null ==> fresh(templ) && templ.types == types
    ensures templ != null ==> templ.State() == RegisterAll(types, Templ([], 0), names)
  {
    templ := new Template(types);
    for i := 0 to |names|
      invariant templ != null && fresh(templ) && templ.types == types
      invariant templ.State() == RegisterAll(types, Templ([], 0), names[..i])
      invariant forall k :: 0 <= k < i ==> !TypeOf(types, names[k]).UNKNOWN?
    {
      RunNamesKnown(types, names[..i], names[i]);
      assert names[..i + 1][..i] == names[..i];
      var rv := templ.IeRegister(names[i]);
      if rv < 0 {
        return null;
      }
    }
    assert names[..|names|] == names;
  }

  /** Only known names get into a template. */
  lemma {:induction false} RunNamesKnown(types: Types, names: seq<string>, name: string)
    ensures name in Names(RegisterAll(types, Templ([], 0), names).arr) ==> !TypeOf(types, name).UNKNOWN?
  {
    if names != [] {
      var n := |names| - 1;
      RunNamesKnown(types, names[..n], name);
      var front := RegisterAll(types, Templ([], 0), names[..n]);
      var all := RegisterAll(types, Templ([], 0), names);
      if name in Names(all.arr) && name !in Names(front.arr) {
        assert Names(all.arr) == Names(front.arr) + [names[n]];
      }
    }
  }

  lemma EndPadding(next: u64)
    requires next + 7 < TWO_64
    ensures RecSize(next) == if next % 8 == 0 then next else next + (8 - next % 8)
  {
  }

  // ---- the description handed to libfixbuf ----

  datatype FbElem = Elem(name: string, lenOverride: nat) | FbNull

  /** How many bytes libfixbuf gives an element: the override when there is one,
      else the size of the named element's type. */
  function ElemLen(types: Types, e: FbElem): nat {
    match e
    case FbNull => 0
    case Elem(name, lenOverride) =>
      if lenOverride != 0 then lenOverride
      else if Fixed(TypeOf(types, name)) then SizeOf(TypeOf(types, name)) else 0
  }

  function SpecEnd(types: Types, spec: seq<FbElem>): nat {
    if spec == [] then 0
    else SpecEnd(types, spec[..|spec| - 1]) + ElemLen(types, spec[|spec| - 1])
  }

  /** Where summing the lengths puts each element that is not a padding. */
  function NamedAt(types: Types, spec: seq<FbElem>): seq<(string, nat)> {
    if spec == [] then [] else
      var front, last := spec[..|spec| - 1], spec[|spec| - 1];
      NamedAt(types, front)
      + (if last.Elem? && last.lenOverride == 0 then [(last.name, SpecEnd(types, front))] else [])
  }

  function Placements(arr: seq<Ie>): seq<(string, nat)> {
    seq(|arr|, i requires 0 <= i < |arr| => (arr[i].name, arr[i].offset))
  }

  lemma PlacementsSnoc(arr: seq<Ie>, ie: Ie)
    ensures Placements(arr + [ie]) == Placements(arr) + [(ie.name, ie.offset as nat)]
  {
  }

  lemma SpecSnoc(types: Types, spec: seq<FbElem>, e: FbElem)
    ensures SpecEnd(types, spec + [e]) == SpecEnd(types, spec) + ElemLen(types, e)
    ensures NamedAt(types, spec + [e]) == NamedAt(types, spec)
      + (if e.Elem? && e.lenOverride == 0 then [(e.name, SpecEnd(types, spec))] else [])
  {
    assert (spec + [e])[..|spec|] == spec;
  }

  /** The list and the template are two descriptions of one layout: every element
      at its registered offset, and the same total length. */
  ghost predicate Describes(types: Types, t: Templ, spec: seq<FbElem>) {
    && spec != [] && spec[|spec| - 1] == FbNull
    && AllElems(spec[..|spec| - 1])
    && NamedAt(types, spec) == Placements(t.arr)
    && SpecEnd(types, spec) == RecSize(t.nextOffset)
  }
}
