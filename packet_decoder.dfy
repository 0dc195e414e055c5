/**
 * The packet decoder of 16.py: a transmission in hexadecimal is expanded into a
 * queue of bits, most significant bit first, and read back as a tree of packets.
 * Every packet starts with a 3-bit version and a 3-bit type; type 4 is a literal
 * whose value follows in 5-bit groups, every other type is an operator whose
 * sub-packets are given either by their total length in bits (15-bit field) or by
 * their number (11-bit field). Reading a packet returns the sum of all versions in
 * it and its value.
 */
module PacketDecoder {
  import opened Wrappers
  import opened Numbers

  /** One element of the bit queue (`deque[int]` holding 0s and 1s). */
  type Bit = b: int | 0 <= b <= 1

  const PACKET_LITERAL := 4
  const LENGTH_TYPE_NUMBER_OF_BITS := 0
  const LENGTH_TYPE_NUMBER_OF_PACKETS := 1

  /** `LENGTH_TYPE_COUNTS`: the width of the length field for each length type. */
  function LengthFieldWidth(lengthType: Bit): nat
  {
    if lengthType == LENGTH_TYPE_NUMBER_OF_BITS then 15 else 11
  }

  // ---------------------------------------------------------------------------
  // Big-endian numbers
  // ---------------------------------------------------------------------------

  /** The number a sequence of bits denotes, most significant bit first. */
  function BigEndian(s: seq<Bit>): nat
  {
    if s == [] then 0 else 2 * BigEndian(s[..|s| - 1]) + s[|s| - 1]
  }

  /** The `w`-bit big-endian representation of `n` (its low `w` bits). */
  function ToBits(n: nat, w: nat): (r: seq<Bit>)
    ensures |r| == w
  {
    if w == 0 then [] else ToBits(n / 2, w - 1) + [n % 2]
  }

  /** A `w`-bit number lies below `2^w`. */
  lemma {:induction false} BigEndianBound(s: seq<Bit>)
    ensures BigEndian(s) < Pow2(|s|)
  {
    if s != [] {
      BigEndianBound(s[..|s| - 1]);
    }
  }

  /** Reading `w` bits back from the `w`-bit representation of `n < 2^w` gives `n`. */
  lemma {:induction false} ToBitsInverse(n: nat, w: nat)
    requires n < Pow2(w)
    ensures BigEndian(ToBits(n, w)) == n
  {
    if w > 0 {
      ToBitsInverse(n / 2, w - 1);
      var s := ToBits(n, w);
      assert s[..|s| - 1] == ToBits(n / 2, w - 1);
    }
  }

  /** Writing a sequence's value back in as many bits gives the sequence. */
  lemma {:induction false} BigEndianInverse(s: seq<Bit>)
    ensures ToBits(BigEndian(s), |s|) == s
  {
    if s != [] {
      BigEndianInverse(s[..|s| - 1]);
    }
  }

  /** The value of a concatenation: the first part is shifted past the second. */
  lemma {:induction false} BigEndianAppend(a: seq<Bit>, b: seq<Bit>)
    ensures BigEndian(a + b) == BigEndian(a) * Pow2(|b|) + BigEndian(b)
  {
    if b == [] {
      assert a + b == a;
    } else {
      var init := b[..|b| - 1];
      var last := b[|b| - 1];
      assert (a + b)[..|a + b| - 1] == a + init;
      assert (a + b)[|a + b| - 1] == last;
      BigEndianAppend(a, init);
      ShiftDouble(BigEndian(a), Pow2(|init|), BigEndian(init), last);
    }
  }

  /** Doubling `x * p + y` and adding a bit is `x * (2 * p)` plus the doubled `y` and the bit. */
  lemma ShiftDouble(x: int, p: int, y: int, bit: int)
    ensures 2 * (x * p + y) + bit == x * (2 * p) + (2 * y + bit)
  {
  }

  // ---------------------------------------------------------------------------
  // The bit queue
  // ---------------------------------------------------------------------------

  /** The `deque[int]` the decoder reads from the front and appends to at the back. */
  class BitQueue {
    var bits: seq<Bit>

    constructor ()
      ensures bits == []
    {
      bits := [];
    }

    /** `append`. */
    method Append(b: Bit)
      modifies this
      ensures bits == old(bits) + [b]
    {
      bits := bits + [b];
    }

    /** `popleft`; the deque raises on an empty queue, which callers rule out. */
    method PopLeft() returns (b: Bit)
      requires bits != []
      modifies this
      ensures b == old(bits)[0] && bits == old(bits)[1..]
    {
      b := bits[0];
      bits := bits[1..];
    }
  }

  /** The characters `int(letter, base=16)` accepts. */
  predicate IsHexDigit(c: char)
  {
    '0' <= c <= '9' || 'a' <= c <= 'f' || 'A' <= c <= 'F'
  }

  /** `int(letter, base=16)` on a hexadecimal digit. */
  function HexValue(c: char): (v: nat)
    requires IsHexDigit(c)
    ensures v < 16
  {
    if '0' <= c <= '9' then c as nat - '0' as nat
    else if 'a' <= c <= 'f' then c as nat - 'a' as nat + 10
    else c as nat - 'A' as nat + 10
  }

  /**
   * The hexadecimal digits are the sixteen digits in either case, and each has the
   * value of its place among them.
   */
  lemma HexDigits(c: char)
    ensures IsHexDigit(c) <==> c in "0123456789abcdefABCDEF"
    ensures IsHexDigit(c) ==> "0123456789abcdef"[HexValue(c)] == c || "0123456789ABCDEF"[HexValue(c)] == c
  {
  }

  /**
   * The leading bit of a `k + 1`-bit number is whether `2^k` fits in it; the other
   * `k` bits are what is left once it is subtracted.
   */
  lemma {:induction false} TopBit(n: nat, k: nat)
    requires n < Pow2(k + 1)
    ensures n >= Pow2(k) ==> ToBits(n, k + 1) == [1] + ToBits(n - Pow2(k), k)
    ensures n < Pow2(k) ==> ToBits(n, k + 1) == [0] + ToBits(n, k)
  {
    if k > 0 {
      TopBit(n / 2, k - 1);
      if n >= Pow2(k) {
        assert (n - Pow2(k)) / 2 == n / 2 - Pow2(k - 1) && (n - Pow2(k)) % 2 == n % 2;
      }
    }
  }

  /** The divisors 8, 4, 2, 1 are the powers of two from the top bit of a nibble down. */
  lemma DivisorPower(divisors: seq<nat>, i: nat, remaining: nat)
    requires divisors == [8, 4, 2, 1] && i < 4 && remaining == 4 - i
    ensures divisors[i] == Pow2(remaining - 1)
  {
    assert Pow2(0) == 1 && Pow2(1) == 2 && Pow2(2) == 4 && Pow2(3) == 8;
  }

  /**
   * One divisor of `add_hex_to_bits`: the bit it writes and the number `next` left
   * over, whose `width - 1` bits are still to come.
   */
  lemma NibbleStep(added: seq<Bit>, n: nat, width: nat, bit: Bit, next: nat)
    requires width >= 1 && n < Pow2(width)
    requires bit == if n >= Pow2(width - 1) then 1 else 0
    requires next == if n >= Pow2(width - 1) then n - Pow2(width - 1) else n
    ensures next < Pow2(width - 1)
    ensures added + ToBits(n, width) == added + [bit] + ToBits(next, width - 1)
  {
    TopBit(n, width - 1);
    assert added + ([bit] + ToBits(next, width - 1)) == added + [bit] + ToBits(next, width - 1);
  }

  /**
   * `add_hex_to_bits`: appends the four bits of a hexadecimal digit, most significant
   * first, by subtracting the divisors 8, 4, 2, 1 in turn. A character that is not a
   * hexadecimal digit makes `int` raise before anything is appended.
   */
  method AddHexToBits(q: BitQueue, letter: char) returns (valid: bool)
    modifies q
    ensures valid == IsHexDigit(letter)
    ensures valid ==> q.bits == old(q.bits) + ToBits(HexValue(letter), 4)
    ensures !valid ==> q.bits == old(q.bits)
  {
    if !IsHexDigit(letter) {
      return false;
    }
    valid := true;
    AppendNibble(q, HexValue(letter));
  }

  /** The divisor loop of `add_hex_to_bits`: appends `h` as four bits, most significant first. */
  method AppendNibble(q: BitQueue, h: nat)
    requires h < 16
    modifies q
    ensures q.bits == old(q.bits) + ToBits(h, 4)
  {
    var hexadecimal: nat := h;
    var divisors := [8, 4, 2, 1];
    ghost var added: seq<Bit> := [];
    ghost var remaining: nat := 4;
    assert Pow2(4) == 16;
    for i := 0 to 4
      invariant remaining == 4 - i
      invariant q.bits == old(q.bits) + added
      invariant hexadecimal < Pow2(remaining)
      invariant added + ToBits(hexadecimal, remaining) == ToBits(h, 4)
    {
      var divisor := divisors[i];
      DivisorPower(divisors, i, remaining);
      ghost var before := hexadecimal;
      if hexadecimal >= divisor {
        hexadecimal := hexadecimal - divisor;
        q.Append(1);
        NibbleStep(added, before, remaining, 1, hexadecimal);
        added := added + [1];
      } else {
        q.Append(0);
        NibbleStep(added, before, remaining, 0, hexadecimal);
        added := added + [0];
      }
      remaining := remaining - 1;
    }
    assert added + ToBits(hexadecimal, 0) == added;
  }

  /**
   * `read_bits`: removes the first `count` bits and returns their big-endian value.
   * The deque raises when it runs dry, so callers must hold `count` bits.
   */
  method ReadBits(q: BitQueue, count: nat) returns (result: nat)
    requires count <= |q.bits|
    modifies q
    ensures result == BigEndian(old(q.bits)[..count])
    ensures q.bits == old(q.bits)[count..]
  {
    ghost var s := q.bits;
    result := 0;
    for i := 0 to count
      invariant result == BigEndian(s[..i])
      invariant q.bits == s[i..]
    {
      result := result * 2;
      var b := q.PopLeft();
      result := result + b;
      assert s[..i + 1][..i] == s[..i];
    }
  }

  /** `read_bits` of a number written in `w` bits returns it: the hexadecimal round trip for `w == 4`. */
  lemma ReadWrittenBits(n: nat, w: nat, rest: seq<Bit>)
    requires n < Pow2(w)
    ensures BigEndian((ToBits(n, w) + rest)[..w]) == n
    ensures (ToBits(n, w) + rest)[w..] == rest
  {
    assert (ToBits(n, w) + rest)[..w] == ToBits(n, w);
    ToBitsInverse(n, w);
  }

  // ---------------------------------------------------------------------------
  // Packets
  // ---------------------------------------------------------------------------

  /**
   * A decoded packet. The source never builds this tree: it folds versions and values
   * as it reads. The tree is the reference the reading methods are proved against.
   */
  datatype Packet =
    | Literal(version: nat, value: nat)
    | Operator(version: nat, typeId: nat, lengthType: Bit, subs: seq<Packet>)

  /**
   * Every way reading a packet can raise: the deque running dry (`IndexError`),
   * `min`/`max` of no operands (`ValueError`), a comparison with fewer than two
   * operands (`IndexError`), or a type missing from `OPERATORS` (`KeyError`).
   */
  datatype Failure = Malformed

  /**
   * The 5-bit groups of a literal: each has a lead bit (1 = more groups follow) and
   * 4 payload bits. Returns the concatenated payloads and the bits after the last group.
   */
  function DecodeGroups(s: seq<Bit>): (r: Option<(seq<Bit>, seq<Bit>)>)
    ensures r.Some? ==> |r.value.1| + 5 <= |s|
    decreases |s|
  {
    if |s| < 5 then None
    else if s[0] == 0 then Some((s[1..5], s[5..]))
    else match DecodeGroups(s[5..])
      case None => None
      case Some((payload, rest)) => Some((s[1..5] + payload, rest))
  }

  /** One packet, read from the front of `s`: the packet and the bits after it. */
  function Decode(s: seq<Bit>): (r: Result<(Packet, seq<Bit>), Failure>)
    ensures r.Ok? ==> |r.value.1| + 6 <= |s|
    decreases |s|, 0
  {
    if |s| < 6 then Err(Malformed)
    else
      var version := BigEndian(s[..3]);
      var typeId := BigEndian(s[3..6]);
      var body := s[6..];
      if typeId == PACKET_LITERAL then
        match DecodeGroups(body)
        case None => Err(Malformed)
        case Some((payload, rest)) => Ok((Literal(version, BigEndian(payload)), rest))
      else if |body| < 1 || |body| < 1 + LengthFieldWidth(body[0]) then Err(Malformed)
      else
        var lengthType := body[0];
        var width := LengthFieldWidth(lengthType);
        var length := BigEndian(body[1..1 + width]);
        var after := body[1 + width..];
        AsOperator(version, typeId, lengthType, DecodeSubs(lengthType, length, after))
  }

  /**
   * The sub-packets of an operator, read from `after` as its length type says: until
   * `length` bits are consumed, or `length` packets.
   */
  function DecodeSubs(lengthType: Bit, length: nat, after: seq<Bit>): (r: Result<(seq<Packet>, seq<Bit>), Failure>)
    ensures r.Ok? ==> |r.value.1| <= |after|
    decreases |after|, 2
  {
    if lengthType == LENGTH_TYPE_NUMBER_OF_BITS then DecodeUntil(after, |after| - length)
    else DecodeCount(after, length)
  }

  /** The operator packet over decoded sub-packets, or their failure. */
  function AsOperator(version: nat, typeId: nat, lengthType: Bit, subs: Result<(seq<Packet>, seq<Bit>), Failure>)
    : Result<(Packet, seq<Bit>), Failure>
  {
    match subs
    case Err(e) => Err(e)
    case Ok((ps, rest)) => Ok((Operator(version, typeId, lengthType, ps), rest))
  }

  /**
   * Length type 0: packets read one after another while more than `stop` bits remain,
   * that is, until the length field's number of bits has been consumed or overrun.
   */
  function DecodeUntil(s: seq<Bit>, stop: int): (r: Result<(seq<Packet>, seq<Bit>), Failure>)
    ensures r.Ok? ==> |r.value.1| <= |s| && |r.value.1| <= stop
    decreases |s|, 1
  {
    if |s| <= stop then Ok(([], s))
    else match Decode(s)
      case Err(e) => Err(e)
      case Ok((p, rest)) =>
        match DecodeUntil(rest, stop)
        case Err(e) => Err(e)
        case Ok((ps, rest')) => Ok(([p] + ps, rest'))
  }

  /** Length type 1: exactly `n` packets read one after another. */
  function DecodeCount(s: seq<Bit>, n: nat): (r: Result<(seq<Packet>, seq<Bit>), Failure>)
    ensures r.Ok? ==> |r.value.1| <= |s| && |r.value.0| == n
    decreases |s|, 1, n
  {
    if n == 0 then Ok(([], s))
    else match Decode(s)
      case Err(e) => Err(e)
      case Ok((p, rest)) =>
        match DecodeCount(rest, n - 1)
        case Err(e) => Err(e)
        case Ok((ps, rest')) => Ok(([p] + ps, rest'))
  }

  // ---------------------------------------------------------------------------
  // Versions and values
  // ---------------------------------------------------------------------------

  /** The packet's own version plus the version sums of all its sub-packets. */
  function VersionSum(p: Packet): nat
    decreases p, 1
  {
    match p
    case Literal(version, _) => version
    case Operator(version, _, _, subs) => version + VersionSumAll(subs)
  }

  function VersionSumAll(ps: seq<Packet>): nat
    decreases ps, 0
  {
    if ps == [] then 0 else VersionSum(ps[0]) + VersionSumAll(ps[1..])
  }

  /** `sum`. */
  function Sum(vs: seq<nat>): nat
  {
    if vs == [] then 0 else vs[0] + Sum(vs[1..])
  }

  /** `prod`. */
  function Product(vs: seq<nat>): nat
  {
    if vs == [] then 1 else vs[0] * Product(vs[1..])
  }

  /** `min` of a non-empty list: an element no other element undercuts. */
  function Min(vs: seq<nat>): (m: nat)
    requires vs != []
    ensures m in vs && forall v :: v in vs ==> m <= v
  {
    if |vs| == 1 then vs[0]
    else
      var rest := Min(vs[1..]);
      assert forall v :: v in vs ==> v == vs[0] || v in vs[1..];
      if vs[0] <= rest then vs[0] else rest
  }

  /** `max` of a non-empty list: an element no other element exceeds. */
  function Max(vs: seq<nat>): (m: nat)
    requires vs != []
    ensures m in vs && forall v :: v in vs ==> v <= m
  {
    if |vs| == 1 then vs[0]
    else
      var rest := Max(vs[1..]);
      assert forall v :: v in vs ==> v == vs[0] || v in vs[1..];
      if vs[0] >= rest then vs[0] else rest
  }

  /**
   * `OPERATORS[typeId](operands)`: sum, product, min and max for types 0 to 3; for
   * types 5, 6 and 7 whether the first operand is greater than, less than or equal to
   * the second. An empty `min`/`max`, a comparison short of operands and a type not
   * in the table raise.
   */
  function Apply(typeId: nat, operands: seq<nat>): (r: Result<nat, Failure>)
    ensures r.Ok? <==> || typeId == 0 || typeId == 1
                       || ((typeId == 2 || typeId == 3) && operands != [])
                       || ((typeId == 5 || typeId == 6 || typeId == 7) && |operands| >= 2)
    ensures r.Ok? && typeId == 2 ==> r.value in operands && forall v :: v in operands ==> r.value <= v
    ensures r.Ok? && typeId == 3 ==> r.value in operands && forall v :: v in operands ==> v <= r.value
    ensures r.Ok? && typeId >= 5 ==> r.value <= 1
  {
    match typeId
    case 0 => Ok(Sum(operands))
    case 1 => Ok(Product(operands))
    case 2 => if operands == [] then Err(Malformed) else Ok(Min(operands))
    case 3 => if operands == [] then Err(Malformed) else Ok(Max(operands))
    case 5 => if |operands| < 2 then Err(Malformed) else Ok(if operands[0] > operands[1] then 1 else 0)
    case 6 => if |operands| < 2 then Err(Malformed) else Ok(if operands[0] < operands[1] then 1 else 0)
    case 7 => if |operands| < 2 then Err(Malformed) else Ok(if operands[0] == operands[1] then 1 else 0)
    case _ => Err(Malformed)
  }

  /**
   * The values `OPERATORS` computes for the types without an extreme: the sum, the
   * product, and 1 or 0 for whether the first operand is greater than, less than or
   * equal to the second.
   */
  lemma ApplyValues(typeId: nat, operands: seq<nat>)
    ensures typeId == 0 ==> Apply(typeId, operands) == Ok(Sum(operands))
    ensures typeId == 1 ==> Apply(typeId, operands) == Ok(Product(operands))
    ensures typeId == 5 && |operands| >= 2 ==>
      Apply(typeId, operands) == Ok(if operands[0] > operands[1] then 1 else 0)
    ensures typeId == 6 && |operands| >= 2 ==>
      Apply(typeId, operands) == Ok(if operands[0] < operands[1] then 1 else 0)
    ensures typeId == 7 && |operands| >= 2 ==>
      Apply(typeId, operands) == Ok(if operands[0] == operands[1] then 1 else 0)
  {
  }

  /** `sum` and `prod` fold from the left: one more operand is added to the sum and multiplies the product. */
  lemma {:induction false} SumProductSnoc(vs: seq<nat>, v: nat)
    ensures Sum(vs + [v]) == Sum(vs) + v
    ensures Product(vs + [v]) == Product(vs) * v
  {
    if vs != [] {
      assert (vs + [v])[1..] == vs[1..] + [v];
      SumProductSnoc(vs[1..], v);
      assert vs[0] * (Product(vs[1..]) * v) == (vs[0] * Product(vs[1..])) * v;
    }
  }

  /** The value of a packet: a literal's number, or its operator applied to its sub-packets' values. */
  function Eval(p: Packet): Result<nat, Failure>
    decreases p, 1
  {
    match p
    case Literal(_, value) => Ok(value)
    case Operator(_, typeId, _, subs) =>
      match EvalAll(subs)
      case Err(e) => Err(e)
      case Ok(operands) => Apply(typeId, operands)
  }

  /** The values of packets in order; the first failing packet fails them all. */
  function EvalAll(ps: seq<Packet>): (r: Result<seq<nat>, Failure>)
    ensures r.Ok? ==> |r.value| == |ps|
    decreases ps, 0
  {
    if ps == [] then Ok([])
    else match Eval(ps[0])
      case Err(e) => Err(e)
      case Ok(v) =>
        match EvalAll(ps[1..])
        case Err(e) => Err(e)
        case Ok(vs) => Ok([v] + vs)
  }

  /**
   * What `read_packets` returns on the bits `s`: the version sum and the value of the
   * packet at the front, and the bits left after it; or the failure it raises.
   */
  function Interpret(s: seq<Bit>): Result<(nat, nat, seq<Bit>), Failure>
  {
    match Decode(s)
    case Err(e) => Err(e)
    case Ok((p, rest)) =>
      match Eval(p)
      case Err(e) => Err(e)
      case Ok(value) => Ok((VersionSum(p), value, rest))
  }

  // ---------------------------------------------------------------------------
  // Reading from the queue
  // ---------------------------------------------------------------------------

  /** A group decoding with `pre` in front of its payload. */
  function PrependPayload(pre: seq<Bit>, r: Option<(seq<Bit>, seq<Bit>)>): Option<(seq<Bit>, seq<Bit>)>
  {
    match r
    case None => None
    case Some((payload, rest)) => Some((pre + payload, rest))
  }

  /** What one complete group adds to the payloads read before it. */
  lemma GroupRead(before: seq<Bit>, group: seq<Bit>)
    requires |group| >= 5
    ensures group[0] == 0 ==> PrependPayload(before, DecodeGroups(group)) == Some((before + group[1..5], group[5..]))
    ensures group[0] == 1
        ==> PrependPayload(before, DecodeGroups(group)) == PrependPayload(before + group[1..5], DecodeGroups(group[5..]))
  {
    if group[0] == 1 {
      PrependPayloadTwice(before, group[1..5], DecodeGroups(group[5..]));
    }
  }

  /**
   * One pass of `read_number`'s loop: the lead bit, then four bits moved to
   * `numberBits`. Runs out (`complete` false) when fewer than five bits remain, having
   * moved what there was.
   */
  method ReadGroup(q: BitQueue, numberBits: BitQueue) returns (complete: bool, lead: Bit)
    requires q != numberBits
    modifies q, numberBits
    ensures complete <==> |old(q.bits)| >= 5
    ensures complete ==> lead == old(q.bits)[0] && q.bits == old(q.bits)[5..]
                         && numberBits.bits == old(numberBits.bits) + old(q.bits)[1..5]
    ensures !complete ==> q.bits == []
    ensures !complete && |old(q.bits)| > 0 ==> numberBits.bits == old(numberBits.bits) + old(q.bits)[1..]
    ensures !complete && |old(q.bits)| == 0 ==> numberBits.bits == old(numberBits.bits)
  {
    ghost var group := q.bits;
    if |q.bits| < 1 {
      return false, 0;
    }
    var first := ReadBits(q, 1);
    assert first == group[0];
    lead := first;
    for j := 0 to 4
      invariant |group| >= 1 + j && q.bits == group[1 + j..]
      invariant numberBits.bits == old(numberBits.bits) + group[1..1 + j]
    {
      if |q.bits| < 1 {
        assert group[1..] == group[1..1 + j];
        return false, lead;
      }
      var b := ReadBits(q, 1);
      assert b == group[1 + j];
      numberBits.Append(b);
      assert group[1..1 + j] + [group[1 + j]] == group[1..2 + j];
    }
    complete := true;
  }

  /**
   * `read_number`: reads 5-bit groups until one whose lead bit is 0, collecting their
   * 4-bit payloads in a fresh queue, and returns the payloads' big-endian value.
   */
  method ReadNumber(q: BitQueue) returns (r: Result<nat, Failure>)
    modifies q
    ensures r.Err? <==> DecodeGroups(old(q.bits)).None?
    ensures r.Ok? ==> r.value == BigEndian(DecodeGroups(old(q.bits)).value.0)
                      && q.bits == DecodeGroups(old(q.bits)).value.1
  {
    ghost var s := q.bits;
    var numberBits := new BitQueue();
    var last := false;
    if DecodeGroups(s).Some? {
      assert [] + DecodeGroups(s).value.0 == DecodeGroups(s).value.0;
    }
    while !last
      invariant numberBits != q
      invariant !last ==> DecodeGroups(s) == PrependPayload(numberBits.bits, DecodeGroups(q.bits))
      invariant last ==> DecodeGroups(s) == Some((numberBits.bits, q.bits))
      decreases |q.bits|
    {
      ghost var group := q.bits;
      ghost var before := numberBits.bits;
      var complete, lead := ReadGroup(q, numberBits);
      if !complete {
        assert DecodeGroups(group) == None;
        return Err(Malformed);
      }
      last := lead == 0;
      GroupRead(before, group);
    }
    ghost var payload := numberBits.bits;
    assert payload[..|payload|] == payload;
    var value := ReadBits(numberBits, |numberBits.bits|);
    return Ok(value);
  }

  /** A sub-packet decoding with the packets `pre` in front. */
  function PrependAll(pre: seq<Packet>, r: Result<(seq<Packet>, seq<Bit>), Failure>): Result<(seq<Packet>, seq<Bit>), Failure>
  {
    match r
    case Err(e) => Err(e)
    case Ok((ps, rest)) => Ok((pre + ps, rest))
  }

  lemma {:induction false} VersionSumAllAppend(a: seq<Packet>, b: seq<Packet>)
    ensures VersionSumAll(a + b) == VersionSumAll(a) + VersionSumAll(b)
  {
    if a == [] {
      assert a + b == b;
    } else {
      assert (a + b)[1..] == a[1..] + b;
      VersionSumAllAppend(a[1..], b);
    }
  }

  /** Evaluating a concatenation evaluates both parts, the first failure winning. */
  lemma {:induction false} EvalAllAppend(a: seq<Packet>, b: seq<Packet>)
    ensures EvalAll(a + b) == match EvalAll(a)
                              case Err(e) => Err(e)
                              case Ok(x) => match EvalAll(b)
                                            case Err(e) => Err(e)
                                            case Ok(y) => Ok(x + y)
  {
    if a == [] {
      assert a + b == b;
      if EvalAll(b).Ok? {
        assert [] + EvalAll(b).value == EvalAll(b).value;
      }
    } else {
      assert (a + b)[1..] == a[1..] + b;
      assert (a + b)[0] == a[0];
      EvalAllAppend(a[1..], b);
      if EvalAll(a).Ok? && EvalAll(b).Ok? {
        var x := EvalAll(a).value;
        assert x == [x[0]] + x[1..];
        assert [x[0]] + (x[1..] + EvalAll(b).value) == x + EvalAll(b).value;
      }
    }
  }

  /** Reading one more sub-packet of a length-type-0 operator. */
  lemma UntilStep(subs: seq<Packet>, cur: seq<Bit>, stop: int)
    requires |cur| > stop && Decode(cur).Ok?
    ensures PrependAll(subs, DecodeUntil(cur, stop))
         == PrependAll(subs + [Decode(cur).value.0], DecodeUntil(Decode(cur).value.1, stop))
  {
    var r := DecodeUntil(Decode(cur).value.1, stop);
    if r.Ok? {
      assert subs + ([Decode(cur).value.0] + r.value.0) == subs + [Decode(cur).value.0] + r.value.0;
    }
  }

  /** Reading one more sub-packet of a length-type-1 operator. */
  lemma CountStep(subs: seq<Packet>, cur: seq<Bit>, n: nat)
    requires n > 0 && Decode(cur).Ok?
    ensures PrependAll(subs, DecodeCount(cur, n))
         == PrependAll(subs + [Decode(cur).value.0], DecodeCount(Decode(cur).value.1, n - 1))
  {
    var r := DecodeCount(Decode(cur).value.1, n - 1);
    if r.Ok? {
      assert subs + ([Decode(cur).value.0] + r.value.0) == subs + [Decode(cur).value.0] + r.value.0;
    }
  }

  /** One more read sub-packet: its version sum and value join those before it. */
  lemma OperandStep(subs: seq<Packet>, operands: seq<nat>, cur: seq<Bit>)
    requires EvalAll(subs) == Ok(operands)
    requires Interpret(cur).Ok?
    ensures Decode(cur).Ok? && Decode(cur).value.1 == Interpret(cur).value.2
    ensures EvalAll(subs + [Decode(cur).value.0]) == Ok(operands + [Interpret(cur).value.1])
    ensures VersionSumAll(subs + [Decode(cur).value.0]) == VersionSumAll(subs) + Interpret(cur).value.0
  {
    var p := Decode(cur).value.0;
    assert Eval(p) == Ok(Interpret(cur).value.1);
    assert [p][1..] == [] && [p][0] == p;
    assert EvalAll([p][1..]) == Ok([]);
    assert [Interpret(cur).value.1] + [] == [Interpret(cur).value.1];
    assert EvalAll([p]) == Ok([Interpret(cur).value.1]);
    assert VersionSumAll([p]) == VersionSum(p);
    VersionSumAllAppend(subs, [p]);
    EvalAllAppend(subs, [p]);
  }

  /**
   * What the sub-packet loops of `read_packets` produce from a decoding of sub-packets:
   * the sum of their versions, their values and the bits left; or the failure.
   */
  function InterpretAll(r: Result<(seq<Packet>, seq<Bit>), Failure>): Result<(nat, seq<nat>, seq<Bit>), Failure>
  {
    match r
    case Err(e) => Err(e)
    case Ok((ps, rest)) =>
      match EvalAll(ps)
      case Err(e) => Err(e)
      case Ok(values) => Ok((VersionSumAll(ps), values, rest))
  }

  /** An operator's sum of versions and value, from the interpretation of its sub-packets. */
  function InterpretOperator(version: nat, typeId: nat, subs: Result<(nat, seq<nat>, seq<Bit>), Failure>)
    : Result<(nat, nat, seq<Bit>), Failure>
  {
    match subs
    case Err(e) => Err(e)
    case Ok((versions, operands, rest)) =>
      match Apply(typeId, operands)
      case Err(e) => Err(e)
      case Ok(value) => Ok((version + versions, value, rest))
  }

  /**
   * An operator packet's sum of versions, value and the bits after it, from the bits
   * after its header: the length type, the length field, then the sub-packets.
   */
  function InterpretOperatorBody(version: nat, typeId: nat, body: seq<Bit>): Result<(nat, nat, seq<Bit>), Failure>
  {
    if |body| < 1 || |body| < 1 + LengthFieldWidth(body[0]) then Err(Malformed)
    else
      var width := LengthFieldWidth(body[0]);
      InterpretOperator(version, typeId, InterpretAll(DecodeSubs(body[0], BigEndian(body[1..1 + width]), body[1 + width..])))
  }

  /** Interpreting an operator packet is interpreting its sub-packets, then applying its operator. */
  lemma InterpretOperatorPacket(s: seq<Bit>)
    requires |s| >= 6 && BigEndian(s[3..6]) != PACKET_LITERAL
    ensures Interpret(s) == InterpretOperatorBody(BigEndian(s[..3]), BigEndian(s[3..6]), s[6..])
  {
  }

  /**
   * A sub-packet whose reading failed (it could not be decoded, or its value could not
   * be computed) makes the whole list of sub-packets fail, whatever follows it.
   */
  lemma FailedOperand(subs: seq<Packet>, operands: seq<nat>, cur: seq<Bit>,
                      whole: Result<(seq<Packet>, seq<Bit>), Failure>, next: Result<(seq<Packet>, seq<Bit>), Failure>)
    requires EvalAll(subs) == Ok(operands)
    requires Interpret(cur).Err?
    requires Decode(cur).Err? ==> next.Err?
    requires Decode(cur).Ok? ==> next == PrependAll([Decode(cur).value.0], whole)
    ensures InterpretAll(PrependAll(subs, next)).Err?
  {
    if next.Ok? {
      var p := Decode(cur).value.0;
      var ps := PrependAll(subs, next).value.0;
      assert ps == subs + [p] + whole.value.0;
      EvalAllAppend(subs + [p], whole.value.0);
      EvalAllAppend(subs, [p]);
      assert EvalAll([p]).Err?;
    }
  }

  /** A sub-packet of length type 0 that does not interpret spoils the whole operand list. */
  lemma UntilFails(subs: seq<Packet>, operands: seq<nat>, cur: seq<Bit>, stop: int)
    requires EvalAll(subs) == Ok(operands) && Interpret(cur).Err? && |cur| > stop
    ensures InterpretAll(PrependAll(subs, DecodeUntil(cur, stop))).Err?
  {
    var whole := if Decode(cur).Ok? then DecodeUntil(Decode(cur).value.1, stop) else Err(Malformed);
    FailedOperand(subs, operands, cur, whole, DecodeUntil(cur, stop));
  }

  /** A sub-packet of length type 1 that does not interpret spoils the whole operand list. */
  lemma CountFails(subs: seq<Packet>, operands: seq<nat>, cur: seq<Bit>, n: nat)
    requires EvalAll(subs) == Ok(operands) && Interpret(cur).Err? && n > 0
    ensures InterpretAll(PrependAll(subs, DecodeCount(cur, n))).Err?
  {
    var whole := if Decode(cur).Ok? then DecodeCount(Decode(cur).value.1, n - 1) else Err(Malformed);
    FailedOperand(subs, operands, cur, whole, DecodeCount(cur, n));
  }

  /**
   * `read_packets` for an operator of length type 0: reads sub-packets while the queue
   * holds more than its length on entry minus `length`, adding up their version sums
   * and collecting their values.
   */
  method ReadOperandsByLength(q: BitQueue, length: nat) returns (r: Result<(nat, seq<nat>), Failure>)
    modifies q
    ensures r.Err? <==> InterpretAll(DecodeUntil(old(q.bits), |old(q.bits)| - length)).Err?
    ensures r.Ok? ==> var (versionSum, operands, rest) := InterpretAll(DecodeUntil(old(q.bits), |old(q.bits)| - length)).value;
                      r.value == (versionSum, operands) && q.bits == rest
    decreases |q.bits|, 1
  {
    ghost var after := q.bits;
    var versionSum := 0;
    var operands: seq<nat> := [];
    ghost var subs: seq<Packet> := [];
    var totalLength := |q.bits|;
    ghost var stop := |after| - length;
    assert PrependAll([], DecodeUntil(after, stop)) == DecodeUntil(after, stop) by {
      if DecodeUntil(after, stop).Ok? {
        assert [] + DecodeUntil(after, stop).value.0 == DecodeUntil(after, stop).value.0;
      }
    }
    while |q.bits| > totalLength - length
      invariant |q.bits| <= |after|
      invariant DecodeUntil(after, stop) == PrependAll(subs, DecodeUntil(q.bits, stop))
      invariant EvalAll(subs) == Ok(operands)
      invariant versionSum == VersionSumAll(subs)
      decreases |q.bits|
    {
      ghost var cur := q.bits;
      var result := ReadPackets(q);
      if result.Err? {
        UntilFails(subs, operands, cur, stop);
        return Err(Malformed);
      }
      ghost var p := Decode(cur).value.0;
      UntilStep(subs, cur, stop);
      OperandStep(subs, operands, cur);
      versionSum := versionSum + result.value.0;
      operands := operands + [result.value.1];
      subs := subs + [p];
    }
    assert subs + [] == subs;
    return Ok((versionSum, operands));
  }

  /**
   * `read_packets` for an operator of length type 1: reads exactly `count` sub-packets,
   * adding up their version sums and collecting their values.
   */
  method ReadOperandsByCount(q: BitQueue, count: nat) returns (r: Result<(nat, seq<nat>), Failure>)
    modifies q
    ensures r.Err? <==> InterpretAll(DecodeCount(old(q.bits), count)).Err?
    ensures r.Ok? ==> var (versionSum, operands, rest) := InterpretAll(DecodeCount(old(q.bits), count)).value;
                      r.value == (versionSum, operands) && q.bits == rest
    decreases |q.bits|, 1
  {
    ghost var after := q.bits;
    var versionSum := 0;
    var operands: seq<nat> := [];
    ghost var subs: seq<Packet> := [];
    assert PrependAll([], DecodeCount(after, count)) == DecodeCount(after, count) by {
      if DecodeCount(after, count).Ok? {
        assert [] + DecodeCount(after, count).value.0 == DecodeCount(after, count).value.0;
      }
    }
    for i := 0 to count
      invariant |q.bits| <= |after|
      invariant DecodeCount(after, count) == PrependAll(subs, DecodeCount(q.bits, count - i))
      invariant EvalAll(subs) == Ok(operands)
      invariant versionSum == VersionSumAll(subs)
    {
      ghost var cur := q.bits;
      var result := ReadPackets(q);
      if result.Err? {
        CountFails(subs, operands, cur, count - i);
        return Err(Malformed);
      }
      ghost var p := Decode(cur).value.0;
      CountStep(subs, cur, count - i);
      OperandStep(subs, operands, cur);
      versionSum := versionSum + result.value.0;
      operands := operands + [result.value.1];
      subs := subs + [p];
    }
    assert subs + [] == subs;
    return Ok((versionSum, operands));
  }

  /**
   * `read_packets`: reads one packet from the front of the queue and returns the sum
   * of the versions in it and its value, reading sub-packets recursively by bit
   * length or by count. The source runs both sub-packet loops inline; here each is a
   * method of its own.
   */
  method ReadPackets(q: BitQueue) returns (r: Result<(nat, nat), Failure>)
    modifies q
    ensures r.Err? <==> Interpret(old(q.bits)).Err?
    ensures r.Ok? ==> r.value.0 == Interpret(old(q.bits)).value.0
                      && r.value.1 == Interpret(old(q.bits)).value.1
                      && q.bits == Interpret(old(q.bits)).value.2
    decreases |q.bits|, 0
  {
    ghost var s := q.bits;
    if |q.bits| < 6 {
      return Err(Malformed);
    }
    var versionSum := ReadBits(q, 3);
    var packetType := ReadBits(q, 3);
    assert s[3..][..3] == s[3..6] && s[3..][3..] == s[6..];

    if packetType == PACKET_LITERAL {
      var number := ReadNumber(q);
      if number.Err? {
        return Err(Malformed);
      }
      return Ok((versionSum, number.value));
    }

    InterpretOperatorPacket(s);
    r := ReadOperator(q, versionSum, packetType);
  }

  /**
   * The operator branch of `read_packets`, once the version and the type are read:
   * the length type, the length field, the sub-packets, and the operator applied.
   */
  method ReadOperator(q: BitQueue, version: nat, typeId: nat) returns (r: Result<(nat, nat), Failure>)
    modifies q
    ensures var expected := InterpretOperatorBody(version, typeId, old(q.bits));
            && (r.Err? <==> expected.Err?)
            && (r.Ok? ==> r.value.0 == expected.value.0 && r.value.1 == expected.value.1 && q.bits == expected.value.2)
    decreases |q.bits|, 3
  {
    ghost var body := q.bits;
    if |q.bits| < 1 {
      return Err(Malformed);
    }
    var lengthType := ReadBits(q, 1);
    assert lengthType == body[0];
    var width := LengthFieldWidth(lengthType);
    if |q.bits| < width {
      return Err(Malformed);
    }
    var length := ReadBits(q, width);
    assert body[1..][..width] == body[1..1 + width] && body[1..][width..] == body[1 + width..];

    OperatorBodyUnfold(version, typeId, body, width, length);
    var operands := ReadOperands(q, lengthType, length);
    if operands.Err? {
      return Err(Malformed);
    }
    var value := Apply(typeId, operands.value.1);
    if value.Err? {
      return Err(Malformed);
    }
    return Ok((version + operands.value.0, value.value));
  }

  /** Lines 66-77: the sub-packets read by the length type's rule. */
  method ReadOperands(q: BitQueue, lengthType: Bit, length: nat) returns (r: Result<(nat, seq<nat>), Failure>)
    modifies q
    ensures r.Err? <==> InterpretAll(DecodeSubs(lengthType, length, old(q.bits))).Err?
    ensures r.Ok? ==> var (versionSum, operands, rest) := InterpretAll(DecodeSubs(lengthType, length, old(q.bits))).value;
                      r.value == (versionSum, operands) && q.bits == rest
    decreases |q.bits|, 2
  {
    if lengthType == LENGTH_TYPE_NUMBER_OF_BITS {
      r := ReadOperandsByLength(q, length);
    } else {
      r := ReadOperandsByCount(q, length);
    }
  }

  /** The operator body past its length fields, as ReadOperator has read them. */
  lemma OperatorBodyUnfold(version: nat, typeId: nat, body: seq<Bit>, width: nat, length: nat)
    requires |body| >= 1 + width && width == LengthFieldWidth(body[0])
    requires length == BigEndian(body[1..1 + width])
    ensures InterpretOperatorBody(version, typeId, body) ==
            InterpretOperator(version, typeId, InterpretAll(DecodeSubs(body[0], length, body[1 + width..])))
  {
  }

  /** Every character of the line is a hexadecimal digit. */
  predicate AllHex(line: seq<char>)
  {
    forall i :: 0 <= i < |line| ==> IsHexDigit(line[i])
  }

  /** The bits of a hexadecimal line, four per digit, most significant first. */
  function Nibbles(line: seq<char>): (r: seq<Bit>)
    requires AllHex(line)
    ensures |r| == 4 * |line|
  {
    if line == [] then [] else Nibbles(line[..|line| - 1]) + ToBits(HexValue(line[|line| - 1]), 4)
  }

  /**
   * The main block of 16.py: every letter of the line expanded into the bit queue,
   * then one packet read from it; the sum of its versions and its value. A letter
   * that is not hexadecimal raises before any packet is read; bits after the packet
   * are ignored.
   */
  method Transmission(line: seq<char>) returns (r: Result<(nat, nat), Failure>)
    ensures !AllHex(line) ==> r.Err?
    ensures AllHex(line) ==> (r.Err? <==> Interpret(Nibbles(line)).Err?)
    ensures AllHex(line) && r.Ok? ==> r.value == (Interpret(Nibbles(line)).value.0, Interpret(Nibbles(line)).value.1)
  {
    var q := new BitQueue();
    for i := 0 to |line|
      invariant AllHex(line[..i]) && q.bits == Nibbles(line[..i])
    {
      var valid := AddHexToBits(q, line[i]);
      if !valid {
        return Err(Malformed);
      }
      assert line[..i + 1][..i] == line[..i];
    }
    assert line[..|line|] == line;
    r := ReadPackets(q);
  }

  // ---------------------------------------------------------------------------
  // Encoding, and the round trip
  // ---------------------------------------------------------------------------

  /**
   * The 5-bit groups of a literal value, shortest form, the last group led by `lead`
   * and every earlier group by 1.
   */
  function LiteralGroups(value: nat, lead: Bit): (r: seq<Bit>)
    decreases value
  {
    if value < 16 then [lead] + ToBits(value, 4)
    else LiteralGroups(value / 16, 1) + ([lead] + ToBits(value % 16, 4))
  }

  /** The 4-bit payloads of `LiteralGroups(value, _)`, concatenated. */
  function Payload(value: nat): seq<Bit>
    decreases value
  {
    if value < 16 then ToBits(value, 4) else Payload(value / 16) + ToBits(value % 16, 4)
  }

  /** The payloads of a literal's groups are its value in big-endian order. */
  lemma {:induction false} PayloadValue(value: nat)
    ensures BigEndian(Payload(value)) == value
  {
    assert Pow2(4) == 16;
    if value < 16 {
      ToBitsInverse(value, 4);
    } else {
      PayloadValue(value / 16);
      ToBitsInverse(value % 16, 4);
      BigEndianAppend(Payload(value / 16), ToBits(value % 16, 4));
    }
  }

  /** Reading the groups of a literal recovers its payloads and stops after the last group. */
  lemma GroupsDecode(value: nat, tail: seq<Bit>)
    ensures DecodeGroups(LiteralGroups(value, 0) + tail) == Some((Payload(value), tail))
  {
    if value < 16 {
      OneGroupDecode(value, 0, tail);
    } else {
      var nibble := ToBits(value % 16, 4);
      var rest := [0] + nibble + tail;
      GroupsSplit(value, 0, tail);
      GroupsDecodeMore(value / 16, rest);
      LastGroupDecode(0, nibble, tail);
      assert DecodeGroups(rest) == Some((nibble, tail));
      PayloadSplit(value);
    }
  }

  /** Groups led by 1 all say that more follow: reading them reads on into `tail`. */
  lemma {:induction false} GroupsDecodeMore(value: nat, tail: seq<Bit>)
    ensures DecodeGroups(LiteralGroups(value, 1) + tail) == PrependPayload(Payload(value), DecodeGroups(tail))
    decreases value
  {
    if value < 16 {
      OneGroupDecode(value, 1, tail);
    } else {
      var nibble := ToBits(value % 16, 4);
      var rest := [1] + nibble + tail;
      GroupsSplit(value, 1, tail);
      GroupsDecodeMore(value / 16, rest);
      LastGroupDecode(1, nibble, tail);
      PrependPayloadTwice(Payload(value / 16), nibble, DecodeGroups(tail));
      PayloadSplit(value);
    }
  }

  /** A value below 16 is one group. */
  lemma OneGroupDecode(value: nat, lead: Bit, tail: seq<Bit>)
    requires value < 16
    ensures DecodeGroups(LiteralGroups(value, lead) + tail)
         == if lead == 0 then Some((Payload(value), tail)) else PrependPayload(Payload(value), DecodeGroups(tail))
  {
    LastGroupDecode(lead, ToBits(value, 4), tail);
  }

  /** The payloads of a value of more than one digit: the higher digits', then the last. */
  lemma PayloadSplit(value: nat)
    requires value >= 16
    ensures Payload(value) == Payload(value / 16) + ToBits(value % 16, 4)
  {
  }

  /** The groups of a value of more than one digit: the higher digits' groups, then the last. */
  lemma GroupsSplit(value: nat, lead: Bit, tail: seq<Bit>)
    requires value >= 16
    ensures LiteralGroups(value, lead) + tail == LiteralGroups(value / 16, 1) + ([lead] + ToBits(value % 16, 4) + tail)
  {
    var high := LiteralGroups(value / 16, 1);
    var last := [lead] + ToBits(value % 16, 4);
    assert high + last + tail == high + (last + tail);
  }

  /** Two payloads put in front one after the other are their concatenation put in front. */
  lemma PrependPayloadTwice(a: seq<Bit>, b: seq<Bit>, r: Option<(seq<Bit>, seq<Bit>)>)
    ensures PrependPayload(a, PrependPayload(b, r)) == PrependPayload(a + b, r)
  {
    if r.Some? {
      assert a + (b + r.value.0) == a + b + r.value.0;
    }
  }

  /** The last group read, whatever its four payload bits: it ends the literal or reads on. */
  lemma LastGroupDecode(lead: Bit, nibble: seq<Bit>, tail: seq<Bit>)
    requires |nibble| == 4
    ensures DecodeGroups([lead] + nibble + tail)
         == if lead == 0 then Some((nibble, tail)) else PrependPayload(nibble, DecodeGroups(tail))
  {
    var last := [lead] + nibble + tail;
    assert last[0] == lead && last[1..5] == nibble && last[5..] == tail;
  }

  /** The bits of a packet: header, literal groups or length field and sub-packets. */
  function Encode(p: Packet): seq<Bit>
    decreases p, 1
  {
    match p
    case Literal(version, value) =>
      ToBits(version, 3) + ToBits(PACKET_LITERAL, 3) + LiteralGroups(value, 0)
    case Operator(version, typeId, lengthType, subs) =>
      ToBits(version, 3) + ToBits(typeId, 3)
        + ([lengthType] + ToBits(LengthField(lengthType, subs), LengthFieldWidth(lengthType)) + EncodeAll(subs))
  }

  /** What an operator's length field holds: the bits of its sub-packets, or their number. */
  function LengthField(lengthType: Bit, subs: seq<Packet>): nat
    decreases subs, 1
  {
    if lengthType == LENGTH_TYPE_NUMBER_OF_BITS then |EncodeAll(subs)| else |subs|
  }

  function EncodeAll(ps: seq<Packet>): seq<Bit>
    decreases ps, 0
  {
    if ps == [] then [] else Encode(ps[0]) + EncodeAll(ps[1..])
  }

  /**
   * A packet the format can carry: versions and types fit in 3 bits, an operator's
   * type is not the literal type, and its length field fits in its width.
   */
  predicate WellFormed(p: Packet)
    decreases p, 1
  {
    match p
    case Literal(version, _) => version < 8
    case Operator(version, typeId, lengthType, subs) =>
      && version < 8 && typeId < 8 && typeId != PACKET_LITERAL
      && LengthField(lengthType, subs) < Pow2(LengthFieldWidth(lengthType))
      && AllWellFormed(subs)
  }

  predicate AllWellFormed(ps: seq<Packet>)
    decreases ps, 0
  {
    ps == [] || (WellFormed(ps[0]) && AllWellFormed(ps[1..]))
  }

  /** Reading the three header fields written in front of `rest`. */
  lemma HeaderDecode(version: nat, typeId: nat, rest: seq<Bit>)
    requires version < 8 && typeId < 8
    ensures var s := ToBits(version, 3) + ToBits(typeId, 3) + rest;
            |s| >= 6 && BigEndian(s[..3]) == version && BigEndian(s[3..6]) == typeId && s[6..] == rest
  {
    assert Pow2(3) == 8;
    var s := ToBits(version, 3) + ToBits(typeId, 3) + rest;
    assert s[..3] == ToBits(version, 3) && s[3..6] == ToBits(typeId, 3) && s[6..] == rest;
    ToBitsInverse(version, 3);
    ToBitsInverse(typeId, 3);
  }

  /** Decoding the bits of a well-formed packet gives the packet back and leaves what followed. */
  lemma {:induction false} DecodeEncode(p: Packet, rest: seq<Bit>)
    requires WellFormed(p)
    ensures Decode(Encode(p) + rest) == Ok((p, rest))
    decreases p, 2
  {
    if p.Literal? {
      DecodeEncodeLiteral(p.version, p.value, rest);
    } else {
      if p.lengthType == LENGTH_TYPE_NUMBER_OF_BITS {
        DecodeUntilEncodeAll(p.subs, rest);
      } else {
        DecodeCountEncodeAll(p.subs, rest);
      }
      DecodeEncodeOperator(p, rest);
    }
  }

  /**
   * Reading an encoded packet, as `read_packets` does, returns the sum of its versions
   * and its value, and leaves exactly the bits after it.
   */
  lemma InterpretEncode(p: Packet, rest: seq<Bit>)
    requires WellFormed(p)
    ensures Interpret(Encode(p) + rest).Err? <==> Eval(p).Err?
    ensures Eval(p).Ok? ==> Interpret(Encode(p) + rest) == Ok((VersionSum(p), Eval(p).value, rest))
  {
    DecodeEncode(p, rest);
  }

  lemma DecodeEncodeLiteral(version: nat, value: nat, rest: seq<Bit>)
    requires version < 8
    ensures Decode(Encode(Literal(version, value)) + rest) == Ok((Literal(version, value), rest))
  {
    var groups := LiteralGroups(value, 0) + rest;
    HeaderDecode(version, PACKET_LITERAL, groups);
    assert Encode(Literal(version, value)) + rest == ToBits(version, 3) + ToBits(PACKET_LITERAL, 3) + groups;
    GroupsDecode(value, rest);
    PayloadValue(value);
  }

  /** Reading an operator's header and length field back, in front of its sub-packets' bits `after`. */
  lemma OperatorHeaderDecode(version: nat, typeId: nat, lengthType: Bit, length: nat, after: seq<Bit>)
    requires version < 8 && typeId < 8 && typeId != PACKET_LITERAL
    requires length < Pow2(LengthFieldWidth(lengthType))
    ensures Decode(ToBits(version, 3) + ToBits(typeId, 3) + ([lengthType] + ToBits(length, LengthFieldWidth(lengthType)) + after))
         == AsOperator(version, typeId, lengthType, DecodeSubs(lengthType, length, after))
  {
    var width := LengthFieldWidth(lengthType);
    var body := [lengthType] + ToBits(length, width) + after;
    var s := ToBits(version, 3) + ToBits(typeId, 3) + body;
    HeaderDecode(version, typeId, body);
    assert body[0] == lengthType && body[1..1 + width] == ToBits(length, width) && body[1 + width..] == after;
    ToBitsInverse(length, width);
    assert |s| >= 6 && BigEndian(s[3..6]) != PACKET_LITERAL && s[6..] == body;
    assert BigEndian(s[6..][1..1 + width]) == length;
    assert s[6..][1 + width..] == after;
  }

  /** An operator decodes as its sub-packets do, once its header and length field are read back. */
  lemma DecodeEncodeOperator(p: Packet, rest: seq<Bit>)
    requires p.Operator? && WellFormed(p)
    requires p.lengthType == LENGTH_TYPE_NUMBER_OF_BITS ==> DecodeUntil(EncodeAll(p.subs) + rest, |rest|) == Ok((p.subs, rest))
    requires p.lengthType == LENGTH_TYPE_NUMBER_OF_PACKETS ==> DecodeCount(EncodeAll(p.subs) + rest, |p.subs|) == Ok((p.subs, rest))
    ensures Decode(Encode(p) + rest) == Ok((p, rest))
  {
    var Operator(version, typeId, lengthType, subs) := p;
    var length := LengthField(lengthType, subs);
    var after := EncodeAll(subs) + rest;
    EncodeOperatorLayout(version, typeId, lengthType, subs, rest);
    OperatorHeaderDecode(version, typeId, lengthType, length, after);
    assert DecodeSubs(lengthType, length, after) == Ok((subs, rest));
  }

  /** The bits of an encoded operator packet followed by `rest`, field by field. */
  lemma EncodeOperatorLayout(version: nat, typeId: nat, lengthType: Bit, subs: seq<Packet>, rest: seq<Bit>)
    ensures Encode(Operator(version, typeId, lengthType, subs)) + rest
         == ToBits(version, 3) + ToBits(typeId, 3)
              + ([lengthType] + ToBits(LengthField(lengthType, subs), LengthFieldWidth(lengthType)) + (EncodeAll(subs) + rest))
  {
    var a, b := ToBits(version, 3), ToBits(typeId, 3);
    var c := [lengthType] + ToBits(LengthField(lengthType, subs), LengthFieldWidth(lengthType));
    var d := EncodeAll(subs);
    assert Encode(Operator(version, typeId, lengthType, subs)) == a + b + (c + d);
    assert a + b + (c + d) + rest == a + b + (c + (d + rest));
  }

  /** Length type 0 reads back exactly the encoded sub-packets. */
  lemma {:induction false} DecodeUntilEncodeAll(ps: seq<Packet>, rest: seq<Bit>)
    requires AllWellFormed(ps)
    ensures DecodeUntil(EncodeAll(ps) + rest, |rest|) == Ok((ps, rest))
    decreases ps, 1
  {
    if ps == [] {
      assert EncodeAll(ps) + rest == rest;
    } else {
      DecodeEncode(ps[0], EncodeAll(ps[1..]) + rest);
      DecodeUntilEncodeAll(ps[1..], rest);
      assert [ps[0]] + ps[1..] == ps;
      DecodeUntilEncodeCons(ps[0], ps[1..], rest);
    }
  }

  /** The encoding of a non-empty sequence of packets starts with that of the first. */
  lemma EncodeAllCons(ps: seq<Packet>, rest: seq<Bit>)
    requires ps != []
    ensures EncodeAll(ps) + rest == Encode(ps[0]) + (EncodeAll(ps[1..]) + rest)
  {
    Regroup(Encode(ps[0]), EncodeAll(ps[1..]), rest);
  }

  lemma Regroup(a: seq<Bit>, b: seq<Bit>, c: seq<Bit>)
    ensures (a + b) + c == a + (b + c)
  {
  }

  /** The step of `DecodeUntilEncodeAll`: the first packet reads back, then the others. */
  lemma DecodeUntilEncodeCons(p: Packet, ps: seq<Packet>, rest: seq<Bit>)
    requires Decode(Encode(p) + (EncodeAll(ps) + rest)) == Ok((p, EncodeAll(ps) + rest))
    requires DecodeUntil(EncodeAll(ps) + rest, |rest|) == Ok((ps, rest))
    ensures DecodeUntil(EncodeAll([p] + ps) + rest, |rest|) == Ok(([p] + ps, rest))
  {
    assert ([p] + ps)[0] == p && ([p] + ps)[1..] == ps;
    EncodeAllCons([p] + ps, rest);
    DecodeUntilStep(EncodeAll([p] + ps) + rest, |rest|, p, EncodeAll(ps) + rest, ps, rest);
  }


  /** Length type 1 reads back exactly the encoded sub-packets. */
  lemma {:induction false} DecodeCountEncodeAll(ps: seq<Packet>, rest: seq<Bit>)
    requires AllWellFormed(ps)
    ensures DecodeCount(EncodeAll(ps) + rest, |ps|) == Ok((ps, rest))
    decreases ps, 1
  {
    if ps == [] {
      assert EncodeAll(ps) + rest == rest;
    } else {
      DecodeEncode(ps[0], EncodeAll(ps[1..]) + rest);
      DecodeCountEncodeAll(ps[1..], rest);
      assert [ps[0]] + ps[1..] == ps;
      DecodeCountEncodeCons(ps[0], ps[1..], rest);
    }
  }

  /** The step of `DecodeCountEncodeAll`: the first packet reads back, then the others. */
  lemma DecodeCountEncodeCons(p: Packet, ps: seq<Packet>, rest: seq<Bit>)
    requires Decode(Encode(p) + (EncodeAll(ps) + rest)) == Ok((p, EncodeAll(ps) + rest))
    requires DecodeCount(EncodeAll(ps) + rest, |ps|) == Ok((ps, rest))
    ensures DecodeCount(EncodeAll([p] + ps) + rest, |ps| + 1) == Ok(([p] + ps, rest))
  {
    assert ([p] + ps)[0] == p && ([p] + ps)[1..] == ps;
    EncodeAllCons([p] + ps, rest);
    DecodeCountStep(EncodeAll([p] + ps) + rest, |ps| + 1, p, EncodeAll(ps) + rest, ps, rest);
  }


  /** A packet read, then the rest of the sub-packets up to the stop mark. */
  lemma DecodeUntilStep(s: seq<Bit>, stop: int, p: Packet, tail: seq<Bit>, ps: seq<Packet>, rest: seq<Bit>)
    requires |s| > stop && Decode(s) == Ok((p, tail)) && DecodeUntil(tail, stop) == Ok((ps, rest))
    ensures DecodeUntil(s, stop) == Ok(([p] + ps, rest))
  {
  }

  /** A packet read, then the remaining count of sub-packets. */
  lemma DecodeCountStep(s: seq<Bit>, n: nat, p: Packet, tail: seq<Bit>, ps: seq<Packet>, rest: seq<Bit>)
    requires n > 0 && Decode(s) == Ok((p, tail)) && DecodeCount(tail, n - 1) == Ok((ps, rest))
    ensures DecodeCount(s, n) == Ok(([p] + ps, rest))
  {
  }
}
