/** The instruction scanner that extracts direct calls from a function body. An
    instruction is an opcode and an immediate; the scanner accepts exactly the
    byte strings that encode allowed instructions, and returns their call targets
    in order (sections 5.2.2 and 5.4 of the WebAssembly Core Specification). */
module WasmScanner {
  import opened Wrappers
  import opened Leb

  datatype Shape =
    | Plain
    | SignedImm(bits: nat)
    | Index
    | CallTarget
    | Labels
    | MemArg
    | TypeVector
    | RawImm(size: nat)
    | Misc
    | Forbidden

  function ShapeOf(op: Byte): (s: Shape)
    ensures s.SignedImm? ==> s.bits > 0
    ensures s.CallTarget? <==> op == 0x10
  {
    if op == 0x00 || op == 0x01 || op == 0x05 || op == 0x0b || op == 0x0f || op == 0x1a || op == 0x1b
      || op == 0xd1 then Plain
    else if 0x45 <= op <= 0xbf then Plain
    else if 0xc0 <= op <= 0xc4 then Plain
    else if op == 0x02 || op == 0x03 || op == 0x04 then SignedImm(33)
    else if op == 0x0c || op == 0x0d || 0x20 <= op <= 0x26 then Index
    else if op == 0x0e then Labels
    else if op == 0x10 then CallTarget
    else if op == 0x11 then Forbidden
    else if 0x12 <= op <= 0x15 then Forbidden
    else if op == 0x1c then TypeVector
    else if 0x28 <= op <= 0x3e then MemArg
    else if op == 0x3f || op == 0x40 then Index
    else if op == 0x41 then SignedImm(32)
    else if op == 0x42 then SignedImm(64)
    else if op == 0x43 then RawImm(4)
    else if op == 0x44 then RawImm(8)
    else if op == 0xd0 then SignedImm(33)
    else if op == 0xd2 then Index
    else if op == 0xfc then Misc
    else Forbidden
  }

  // ---- Instructions and their encodings ----

  datatype Imm =
    | NoImm
    | One(number: Bytes)
    | Two(first: Bytes, second: Bytes)
    | Vector(count: Bytes, items: seq<Bytes>)
    | Types(typeCount: Bytes, types: Bytes)
    | Raw(bytes: Bytes)

  datatype Instr = Instr(op: Byte, imm: Imm)

  predicate ValueType(b: Byte) {
    b == 0x7f || b == 0x7e || b == 0x7d || b == 0x7c || b == 0x70 || b == 0x6f
  }

  ghost predicate ImmOk(s: Shape, imm: Imm)
    requires s.SignedImm? ==> s.bits > 0
  {
    match s
    case Plain => imm == NoImm
    case SignedImm(n) => imm.One? && EncodesSigned(imm.number, n)
    case Index => imm.One? && EncodesU32(imm.number)
    case CallTarget => imm.One? && EncodesU32(imm.number)
    case Labels => imm.Vector? && EncodesU32(imm.count) && |imm.items| == Unsigned(imm.count) + 1
      && (forall e :: e in imm.items ==> EncodesU32(e))
    case MemArg => imm.Two? && EncodesU32(imm.first) && EncodesU32(imm.second)
    case TypeVector => imm.Types? && EncodesU32(imm.typeCount) && |imm.types| == Unsigned(imm.typeCount)
      && (forall b :: b in imm.types ==> ValueType(b))
    case RawImm(n) => imm.Raw? && |imm.bytes| == n
    case Misc =>
      || (imm.One? && EncodesU32(imm.number) && Unsigned(imm.number) <= 0x07)
      || (imm.Two? && EncodesU32(imm.first) && 0x0f <= Unsigned(imm.first) <= 0x11 && EncodesU32(imm.second))
    case Forbidden => false
  }

  ghost function Concat(es: seq<Bytes>): Bytes {
    if es == [] then [] else es[0] + Concat(es[1..])
  }

  ghost function EncodeImm(imm: Imm): Bytes {
    match imm
    case NoImm => []
    case One(e) => e
    case Two(a, b) => a + b
    case Vector(c, es) => c + Concat(es)
    case Types(c, ts) => c + ts
    case Raw(bs) => bs
  }

  ghost predicate InstrOk(i: Instr) { ImmOk(ShapeOf(i.op), i.imm) }

  ghost function Encode(i: Instr): Bytes { [i.op] + EncodeImm(i.imm) }

  ghost function EncodeAll(body: seq<Instr>): Bytes {
    if body == [] then [] else Encode(body[0]) + EncodeAll(body[1..])
  }

  ghost predicate BodyOk(body: seq<Instr>) { forall i :: i in body ==> InstrOk(i) }

  ghost function Target(i: Instr): seq<nat> {
    if i.op == 0x10 && i.imm.One? then [Unsigned(i.imm.number)] else []
  }

  /** The functions a body calls directly, in order. */
  ghost function CallsOf(body: seq<Instr>): seq<nat> {
    if body == [] then [] else Target(body[0]) + CallsOf(body[1..])
  }

  /** The instruction table by immediate: none, a type or a constant, an index, a vector of
      labels, a memory argument, a vector of types, raw bytes, or a second opcode. Tail
      calls, indirect calls and everything not in the table are forbidden. */
  lemma ShapesAre(op: Byte)
    ensures ShapeOf(op) == Plain <==>
              op in {0x00, 0x01, 0x05, 0x0b, 0x0f, 0x1a, 0x1b, 0xd1} || 0x45 <= op <= 0xc4
    ensures ShapeOf(op) == SignedImm(33) <==> op in {0x02, 0x03, 0x04, 0xd0}
    ensures ShapeOf(op) == SignedImm(32) <==> op == 0x41
    ensures ShapeOf(op) == SignedImm(64) <==> op == 0x42
    ensures ShapeOf(op) == Index <==> op in {0x0c, 0x0d, 0x3f, 0x40, 0xd2} || 0x20 <= op <= 0x26
    ensures ShapeOf(op) == Labels <==> op == 0x0e
    ensures ShapeOf(op) == CallTarget <==> op == 0x10
    ensures ShapeOf(op) == MemArg <==> 0x28 <= op <= 0x3e
    ensures ShapeOf(op) == TypeVector <==> op == 0x1c
    ensures ShapeOf(op) == RawImm(4) <==> op == 0x43
    ensures ShapeOf(op) == RawImm(8) <==> op == 0x44
    ensures ShapeOf(op) == Misc <==> op == 0xfc
    ensures ValueType(op) <==> op in {0x6f, 0x70, 0x7c, 0x7d, 0x7e, 0x7f}
  {
  }

  /** The calls of a body are the targets of its call instructions, in their order. */
  lemma {:induction false} CallsAre(body: seq<Instr>, i: nat)
    requires i < |body|
    ensures CallsOf(body) ==
            CallsOf(body[..i])
            + (if body[i].op == 0x10 && body[i].imm.One? then [Unsigned(body[i].imm.number)] else [])
            + CallsOf(body[i + 1..])
    decreases i
  {
    hide Unsigned;
    if i > 0 {
      CallsAre(body[1..], i - 1);
      assert body[1..][..i - 1] == body[..i][1..] && body[1..][i..] == body[i + 1..];
      assert body[1..][i - 1] == body[i];
    }
  }

  // ---- Decoding ----

  ghost function ParseItems(bs: Bytes, k: nat): Option<seq<Bytes>> {
    if k == 0 then Some([])
    else
      var n := TakeU32(bs);
      if n == 0 then None
      else
        match ParseItems(bs[n..], k - 1)
        case None => None
        case Some(es) => Some([bs[..n]] + es)
  }

  ghost function ParseImm(s: Shape, bs: Bytes): Option<Imm>
    requires s.SignedImm? ==> s.bits > 0
  {
    match s
    case Plain => Some(NoImm)
    case SignedImm(bits) => var n := TakeSigned(bs, bits); if n == 0 then None else Some(One(bs[..n]))
    case Index => var n := TakeU32(bs); if n == 0 then None else Some(One(bs[..n]))
    case CallTarget => var n := TakeU32(bs); if n == 0 then None else Some(One(bs[..n]))
    case Labels =>
      var n := TakeU32(bs);
      if n == 0 then None
      else
        (match ParseItems(bs[n..], Unsigned(bs[..n]) + 1)
         case None => None
         case Some(es) => Some(Vector(bs[..n], es)))
    case MemArg =>
      var n := TakeU32(bs);
      var m := TakeU32(bs[n..]);
      if n == 0 || m == 0 then None else Some(Two(bs[..n], bs[n..][..m]))
    case TypeVector =>
      var n := TakeU32(bs);
      if n == 0 || Unsigned(bs[..n]) > |bs| - n then None
      else
        var ts := bs[n..][..Unsigned(bs[..n])];
        if forall b :: b in ts ==> ValueType(b) then Some(Types(bs[..n], ts)) else None
    case RawImm(n) => if n > |bs| then None else Some(Raw(bs[..n]))
    case Misc =>
      var n := TakeU32(bs);
      if n == 0 then None
      else if Unsigned(bs[..n]) <= 0x07 then Some(One(bs[..n]))
      else if 0x0f <= Unsigned(bs[..n]) <= 0x11 then
        var m := TakeU32(bs[n..]);
        if m == 0 then None else Some(Two(bs[..n], bs[n..][..m]))
      else None
    case Forbidden => None
  }

  ghost function Parse(bs: Bytes): Option<seq<Instr>>
    decreases |bs|
  {
    if bs == [] then Some([])
    else
      match ParseImm(ShapeOf(bs[0]), bs[1..])
      case None => None
      case Some(imm) =>
        var size := 1 + |EncodeImm(imm)|;
        if size > |bs| then None
        else
          match Parse(bs[size..])
          case None => None
          case Some(rest) => Some([Instr(bs[0], imm)] + rest)
  }

  // ---- Decoding is sound and complete for the encodings ----

  lemma Front(e: Bytes, bs: Bytes)
    ensures TakeU32(bs) > 0 ==> EncodesU32(bs[..TakeU32(bs)])
    ensures EncodesU32(e) && e <= bs ==> TakeU32(bs) == |e| && bs[..|e|] == e && |e| > 0
  {
    TakeU32Exact(bs);
  }

  lemma {:induction false} ItemsSound(bs: Bytes, k: nat)
    requires ParseItems(bs, k).Some?
    ensures var es := ParseItems(bs, k).value;
            |es| == k && Concat(es) <= bs && forall e :: e in es ==> EncodesU32(e)
    decreases k
  {
    hide TakeU32, EncodesU32;
    if k > 0 {
      var n := TakeU32(bs);
      Front([], bs);
      ItemsSound(bs[n..], k - 1);
      var es, rest := ParseItems(bs, k).value, ParseItems(bs[n..], k - 1).value;
      assert es[1..] == rest && es[0] == bs[..n];
      assert bs == bs[..n] + bs[n..];
    }
  }

  lemma {:induction false} ItemsComplete(es: seq<Bytes>, tail: Bytes)
    requires forall e :: e in es ==> EncodesU32(e)
    ensures ParseItems(Concat(es) + tail, |es|) == Some(es)
    decreases |es|
  {
    if es != [] {
      var e, rest := es[0], es[1..];
      var bs := Concat(es) + tail;
      assert bs == e + (Concat(rest) + tail);
      Front(e, bs);
      assert bs[|e|..] == Concat(rest) + tail;
      ItemsComplete(rest, tail);
      assert es == [e] + rest;
    }
  }

  /** Every item takes at least one byte, so the length test never rejects a valid vector. */
  lemma {:induction false} ItemsTakeRoom(bs: Bytes, k: nat)
    requires ParseItems(bs, k).Some?
    ensures |bs| >= k
    decreases k
  {
    if k > 0 {
      ItemsTakeRoom(bs[TakeU32(bs)..], k - 1);
    }
  }

  lemma ImmSound(s: Shape, bs: Bytes)
    requires (s.SignedImm? ==> s.bits > 0) && ParseImm(s, bs).Some?
    ensures ImmOk(s, ParseImm(s, bs).value) && EncodeImm(ParseImm(s, bs).value) <= bs
  {
    hide TakeU32, TakeSigned, ParseItems, EncodesU32, EncodesSigned;
    match s {
      case Plain =>
      case SignedImm(bits) => TakeSignedExact(bs, bits);
      case Index => Front([], bs);
      case CallTarget => Front([], bs);
      case Labels =>
        Front([], bs);
        var n := TakeU32(bs);
        ItemsSound(bs[n..], Unsigned(bs[..n]) + 1);
        assert bs == bs[..n] + bs[n..];
      case MemArg =>
        var n := TakeU32(bs);
        Front([], bs);
        Front([], bs[n..]);
        assert bs == bs[..n] + bs[n..];
      case TypeVector => Front([], bs);
      case RawImm(n) =>
      case Misc =>
        var n := TakeU32(bs);
        Front([], bs);
        Front([], bs[n..]);
        assert bs == bs[..n] + bs[n..];
      case Forbidden =>
    }
  }

  lemma ImmComplete(s: Shape, imm: Imm, tail: Bytes)
    requires (s.SignedImm? ==> s.bits > 0) && ImmOk(s, imm)
    ensures ParseImm(s, EncodeImm(imm) + tail) == Some(imm)
  {
    hide TakeU32, TakeSigned, ParseItems, EncodesU32, EncodesSigned, Unsigned;
    var bs := EncodeImm(imm) + tail;
    match imm {
      case NoImm =>
      case One(e) =>
        if s.SignedImm? {
          TakeSignedExact(bs, s.bits);
          assert e <= bs && bs[..|e|] == e;
          assert |e| > 0 by { NotEmpty(e, s.bits); }
        } else {
          Front(e, bs);
        }
      case Two(a, b) =>
        assert bs == a + (b + tail);
        Front(a, bs);
        assert bs[|a|..] == b + tail;
        Front(b, bs[|a|..]);
      case Vector(c, es) =>
        assert bs == c + (Concat(es) + tail);
        Front(c, bs);
        assert bs[|c|..] == Concat(es) + tail;
        ItemsComplete(es, tail);
      case Types(c, ts) =>
        assert bs == c + (ts + tail);
        Front(c, bs);
        assert bs[|c|..] == ts + tail && (ts + tail)[..|ts|] == ts;
      case Raw(raw) =>
        assert bs[..|raw|] == raw;
    }
  }

  lemma NotEmpty(e: Bytes, bits: nat)
    requires bits > 0 && EncodesSigned(e, bits)
    ensures |e| > 0
  {
  }

  lemma {:induction false} ParseSound(bs: Bytes)
    requires Parse(bs).Some?
    ensures BodyOk(Parse(bs).value) && EncodeAll(Parse(bs).value) == bs
    decreases |bs|
  {
    hide ParseImm, ImmOk, EncodeImm;
    if bs != [] {
      ImmSound(ShapeOf(bs[0]), bs[1..]);
      var imm := ParseImm(ShapeOf(bs[0]), bs[1..]).value;
      var size := 1 + |EncodeImm(imm)|;
      ParseSound(bs[size..]);
      var body, rest := Parse(bs).value, Parse(bs[size..]).value;
      assert body[1..] == rest && body[0] == Instr(bs[0], imm);
      assert bs == [bs[0]] + bs[1..];
      assert bs == Encode(body[0]) + bs[size..];
    }
  }

  lemma {:induction false} ParseComplete(body: seq<Instr>)
    requires BodyOk(body)
    ensures Parse(EncodeAll(body)) == Some(body)
    decreases |body|
  {
    hide ParseImm, ImmOk, EncodeImm;
    if body != [] {
      var i, rest := body[0], body[1..];
      var tail := EncodeAll(rest);
      var bs := EncodeAll(body);
      assert bs == [i.op] + (EncodeImm(i.imm) + tail);
      assert bs[0] == i.op && bs[1..] == EncodeImm(i.imm) + tail;
      assert InstrOk(i);
      ImmComplete(ShapeOf(i.op), i.imm, tail);
      assert bs[1 + |EncodeImm(i.imm)|..] == tail;
      ParseComplete(rest);
      assert body == [i] + rest;
    }
  }

  /** A body is decoded exactly when it encodes allowed instructions, and those
      instructions are then unique. */
  lemma ParseIsInverse(bs: Bytes, body: seq<Instr>)
    ensures Parse(bs) == Some(body) <==> BodyOk(body) && EncodeAll(body) == bs
  {
    if Parse(bs) == Some(body) {
      ParseSound(bs);
    }
    if BodyOk(body) && EncodeAll(body) == bs {
      ParseComplete(body);
    }
  }

  // ---- The scanner ----

  ghost function ItemsLength(bs: Bytes, k: nat): nat {
    match ParseItems(bs, k) case None => 0 case Some(es) => |Concat(es)|
  }

  lemma ItemsStep(bs: Bytes, k: nat)
    requires k > 0
    ensures var n := TakeU32(bs);
            && (ParseItems(bs, k).Some? <==> n > 0 && ParseItems(bs[n..], k - 1).Some?)
            && (ParseItems(bs, k).Some? ==> ItemsLength(bs, k) == n + ItemsLength(bs[n..], k - 1))
  {
    var n := TakeU32(bs);
    if ParseItems(bs, k).Some? {
      var es := ParseItems(bs, k).value;
      assert es[1..] == ParseItems(bs[n..], k - 1).value;
    }
  }

  method ReadU32Vector(r: Reader) returns (ok: bool)
    requires r.Valid()
    modifies r
    ensures r.Valid()
    ensures ok <==> ParseImm(Labels, old(r.Rest())).Some?
    ensures ok ==> r.offset == old(r.offset) + |EncodeImm(ParseImm(Labels, old(r.Rest())).value)|
  {
    hide ParseItems, Unsigned, TakeU32;
    ghost var bs, start := r.Rest(), r.offset;
    var count := r.ReadU32();
    if count.None? {
      return false;
    }
    ghost var n := TakeU32(bs);
    assert r.Rest() == bs[n..];
    var total := count.value + 1;
    if total > |r.data| - r.offset {
      if ParseItems(bs[n..], total).Some? {
        ItemsTakeRoom(bs[n..], total);
      }
      return false;
    }
    ghost var items := bs[n..];
    var index := 0;
    while index < total
      invariant 0 <= index <= total && r.Valid() && r.offset >= start + n
      invariant ParseItems(items, total).Some? <==> ParseItems(r.Rest(), total - index).Some?
      invariant ParseItems(items, total).Some? ==>
                  r.offset - start - n + ItemsLength(r.Rest(), total - index) == ItemsLength(items, total)
    {
      ItemsStep(r.Rest(), total - index);
      ghost var before, at := r.Rest(), r.offset;
      var item := r.ReadU32();
      if item.None? {
        return false;
      }
      assert r.Rest() == before[TakeU32(before)..];
      index := index + 1;
    }
    assert ParseItems(r.Rest(), 0) == Some([]) by { NoItems(r.Rest()); }
    ok := true;
  }

  lemma NoItems(bs: Bytes)
    ensures ParseItems(bs, 0) == Some([])
  {
  }

  method ReadValueTypes(r: Reader) returns (ok: bool)
    requires r.Valid()
    modifies r
    ensures r.Valid()
    ensures ok <==> ParseImm(TypeVector, old(r.Rest())).Some?
    ensures ok ==> r.offset == old(r.offset) + |EncodeImm(ParseImm(TypeVector, old(r.Rest())).value)|
  {
    hide Unsigned, TakeU32;
    ghost var bs := r.Rest();
    var count := r.ReadU32();
    if count.None? {
      return false;
    }
    ghost var n := TakeU32(bs);
    if count.value > |r.data| - r.offset {
      return false;
    }
    ghost var ts, start := bs[n..][..count.value], r.offset;
    assert ts == r.data[start..start + count.value];
    var index := 0;
    while index < count.value
      invariant 0 <= index <= count.value && r.offset == start + index && r.Valid()
      invariant forall j :: 0 <= j < index ==> ValueType(ts[j])
    {
      var b := r.ReadByte();
      if b.None? {
        return false;
      }
      assert b.value == ts[index];
      if !ValueType(b.value) {
        assert ts[index] in ts;
        return false;
      }
      index := index + 1;
    }
    ok := true;
  }

  method ReadMisc(r: Reader) returns (ok: bool)
    requires r.Valid()
    modifies r
    ensures r.Valid()
    ensures ok <==> ParseImm(Misc, old(r.Rest())).Some?
    ensures ok ==> r.offset == old(r.offset) + |EncodeImm(ParseImm(Misc, old(r.Rest())).value)|
  {
    hide Unsigned, TakeU32;
    ghost var bs := r.Rest();
    var op := r.ReadU32();
    if op.None? {
      return false;
    }
    if op.value <= 0x07 {
      return true;
    }
    if 0x0f <= op.value <= 0x11 {
      assert r.Rest() == bs[TakeU32(bs)..];
      var index := r.ReadU32();
      return index.Some?;
    }
    ok := false;
  }

  method ReadMemArg(r: Reader) returns (ok: bool)
    requires r.Valid()
    modifies r
    ensures r.Valid()
    ensures ok <==> ParseImm(MemArg, old(r.Rest())).Some?
    ensures ok ==> r.offset == old(r.offset) + |EncodeImm(ParseImm(MemArg, old(r.Rest())).value)|
  {
    hide Unsigned, TakeU32;
    ghost var bs := r.Rest();
    var align := r.ReadU32();
    if align.None? {
      return false;
    }
    assert r.Rest() == bs[TakeU32(bs)..];
    var offset := r.ReadU32();
    ok := offset.Some?;
  }

  /** One immediate; for a call, its target. */
  method ReadImmediate(r: Reader, s: Shape) returns (ok: bool, target: nat)
    requires r.Valid() && (s.SignedImm? ==> s.bits > 0)
    modifies r
    ensures r.Valid()
    ensures ok <==> ParseImm(s, old(r.Rest())).Some?
    ensures ok ==> r.offset == old(r.offset) + |EncodeImm(ParseImm(s, old(r.Rest())).value)|
    ensures ok && s.CallTarget? ==>
              ParseImm(s, old(r.Rest())).value.One? && target == Unsigned(ParseImm(s, old(r.Rest())).value.number)
  {
    hide Unsigned, TakeU32, TakeSigned;
    target := 0;
    match s {
      case Plain => ok := true;
      case SignedImm(bits) => ok := r.ReadSigned(bits);
      case Index =>
        var v := r.ReadU32();
        ok := v.Some?;
      case CallTarget =>
        var v := r.ReadU32();
        ok := v.Some?;
        target := if ok then v.value else 0;
      case Labels => ok := ReadU32Vector(r);
      case MemArg => ok := ReadMemArg(r);
      case TypeVector => ok := ReadValueTypes(r);
      case RawImm(n) => ok := r.ReadBytes(n);
      case Misc => ok := ReadMisc(r);
      case Forbidden => ok := false;
    }
  }

  lemma ParseStep(bs: Bytes)
    requires bs != []
    ensures var imm := ParseImm(ShapeOf(bs[0]), bs[1..]);
            && (imm.None? ==> Parse(bs).None?)
            && (imm.Some? ==>
                 var size := 1 + |EncodeImm(imm.value)|;
                 && size <= |bs|
                 && (Parse(bs).Some? <==> Parse(bs[size..]).Some?)
                 && (Parse(bs).Some? ==>
                   CallsOf(Parse(bs).value) == Target(Instr(bs[0], imm.value)) + CallsOf(Parse(bs[size..]).value)))
  {
    hide ParseImm, EncodeImm, ImmOk;
    var imm := ParseImm(ShapeOf(bs[0]), bs[1..]);
    if imm.Some? {
      ImmSound(ShapeOf(bs[0]), bs[1..]);
      var size := 1 + |EncodeImm(imm.value)|;
      if Parse(bs).Some? {
        assert Parse(bs).value[1..] == Parse(bs[size..]).value;
      }
    }
  }

  /** Accepts exactly the encodings of allowed instructions and returns their
      call targets in order. */
  method ParseDirectCalls(data: Bytes) returns (calls: Option<seq<nat>>)
    ensures calls.Some? <==> Parse(data).Some?
    ensures calls.Some? ==> calls.value == CallsOf(Parse(data).value)
  {
    hide Parse, ParseImm, EncodeImm, CallsOf, ShapeOf;
    var r := new Reader(data);
    assert r.Rest() == data;
    var found: seq<nat> := [];
    while r.offset < |r.data|
      invariant r.Valid() && r.data == data
      invariant Parse(data).Some? <==> Parse(r.Rest()).Some?
      invariant Parse(data).Some? ==> CallsOf(Parse(data).value) == found + CallsOf(Parse(r.Rest()).value)
      decreases |data| - r.offset
    {
      ghost var bs := r.Rest();
      ParseStep(bs);
      var op := r.ReadByte();
      assert op.value == bs[0] && r.Rest() == bs[1..];
      var shape := ShapeOf(op.value);
      var ok, target := ReadImmediate(r, shape);
      if !ok {
        return None;
      }
      assert r.Rest() == bs[1 + |EncodeImm(ParseImm(shape, bs[1..]).value)|..];
      assert Target(Instr(bs[0], ParseImm(shape, bs[1..]).value)) == if shape.CallTarget? then [target] else [] ;
      if shape.CallTarget? {
        found := found + [target];
      }
    }
    assert r.Rest() == [];
    assert Parse([]) == Some([]) && CallsOf([]) == [] by { NothingLeft(); }
    calls := Some(found);
  }

  lemma NothingLeft()
    ensures Parse([]) == Some([]) && CallsOf([]) == []
  {
  }
}
