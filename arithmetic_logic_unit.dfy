/**
 * The ALU of 24.py: instructions `name variable value` over the registers `w`,
 * `x`, `y` and `z`, and the depth-first search for the inputs (one digit per
 * program part) that leave `z` at 0. Failed (digit, depth, z) triples are cached
 * so that a state already known to fail is not explored again.
 */
module ArithmeticLogicUnit {
  import opened Wrappers
  import opened Numbers
  import PyText

  /** The Python exceptions an instruction or the search can raise. */
  datatype Failure = KeyError | ValueError | ZeroDivisionError | IndexError

  // ---------------------------------------------------------------------------
  // The operations
  // ---------------------------------------------------------------------------

  /**
   * `int(x / y)`: the quotient rounded toward zero. The remainder it leaves is
   * smaller than the divisor and has the sign of the dividend.
   */
  function TruncDiv(x: int, y: int): (q: int)
    requires y != 0
    ensures Abs(x - q * y) < Abs(y)
    ensures x >= 0 ==> x - q * y >= 0
    ensures x <= 0 ==> x - q * y <= 0
  {
    var q := if x >= 0 then
      if y > 0 then x / y else -(x / -y)
    else
      if y > 0 then -(-x / y) else -x / -y;
    TruncRemainder(x, y, q);
    q
  }

  /** The remainder of each sign case of `TruncDiv` is a Euclidean remainder, up to sign. */
  lemma TruncRemainder(x: int, y: int, q: int)
    requires y != 0
    requires q == if x >= 0 then
      if y > 0 then x / y else -(x / -y)
    else
      if y > 0 then -(-x / y) else -x / -y
    ensures Abs(x - q * y) < Abs(y)
    ensures x >= 0 ==> x - q * y >= 0
    ensures x <= 0 ==> x - q * y <= 0
  {
    if x >= 0 && y > 0 {
      Remainder(x, y);
    } else if x >= 0 {
      var m := x / -y;
      Remainder(x, -y);
      Negated(m, y);
    } else if y > 0 {
      var m := -x / y;
      Remainder(-x, y);
      Negated(m, y);
    } else {
      var m := -x / -y;
      Remainder(-x, -y);
      Negated(m, y);
    }
  }

  /** Euclidean division of a natural number leaves a remainder below the divisor. */
  lemma Remainder(a: nat, b: int)
    requires b > 0
    ensures 0 <= a - (a / b) * b < b
  {
  }

  /** Moving a sign across a product. */
  lemma Negated(m: int, y: int)
    ensures (-m) * y == m * (-y) == -(m * y)
  {
  }

  /** `x // y`: the quotient rounded toward negative infinity. */
  function FloorDiv(x: int, y: int): int
    requires y != 0
  {
    if y > 0 || x % y == 0 then x / y else x / y - 1
  }

  /**
   * `x % y`: the remainder that goes with `x // y`. It has the sign of the divisor
   * and is smaller than it.
   */
  function FloorMod(x: int, y: int): (r: int)
    requires y != 0
    ensures x == y * FloorDiv(x, y) + r
    ensures y > 0 ==> 0 <= r < y
    ensures y < 0 ==> y < r <= 0
  {
    if y > 0 || x % y == 0 then x % y else x % y + y
  }

  /** The names `FUNCTIONS` has. */
  predicate IsFunction(name: string)
  {
    name == "add" || name == "mul" || name == "div" || name == "mod" || name == "eql"
  }

  /**
   * `FUNCTIONS[name](x, y)`: an unknown name is a `KeyError`, a zero divisor of
   * `div` or `mod` a `ZeroDivisionError`.
   */
  function Apply(name: string, x: int, y: int): (r: Result<int, Failure>)
    ensures r == Err(KeyError) <==> !IsFunction(name)
    ensures r == Err(ZeroDivisionError) <==> (name == "div" || name == "mod") && y == 0
    ensures r.Ok? ==> IsFunction(name)
    ensures r.Ok? && name == "eql" ==> (r.value == 1 <==> x == y) && (r.value == 0 <==> x != y)
    ensures r.Ok? && name == "div" ==> Abs(x - r.value * y) < Abs(y)
    ensures r.Ok? && name == "mod" ==> x == y * FloorDiv(x, y) + r.value
  {
    if name == "add" then Ok(x + y)
    else if name == "mul" then Ok(x * y)
    else if name == "div" then (if y == 0 then Err(ZeroDivisionError) else Ok(TruncDiv(x, y)))
    else if name == "mod" then (if y == 0 then Err(ZeroDivisionError) else Ok(FloorMod(x, y)))
    else if name == "eql" then Ok(if x == y then 1 else 0)
    else Err(KeyError)
  }

  /** On a non-negative dividend and a positive divisor, `div` and `//` agree, and `mod` is what `div` leaves. */
  lemma TruncMatchesFloorOnNonNegative(x: int, y: int)
    requires x >= 0 && y > 0
    ensures TruncDiv(x, y) == FloorDiv(x, y)
    ensures x == y * TruncDiv(x, y) + FloorMod(x, y)
  {
  }

  /** The values of the five operations of `FUNCTIONS`, by name. */
  lemma ApplyValues(name: string, x: int, y: int)
    ensures name == "add" ==> Apply(name, x, y) == Ok(x + y)
    ensures name == "mul" ==> Apply(name, x, y) == Ok(x * y)
    ensures name == "div" && y != 0 ==> Apply(name, x, y) == Ok(TruncDiv(x, y))
    ensures name == "mod" && y != 0 ==> Apply(name, x, y) == Ok(FloorMod(x, y))
    ensures name == "eql" ==> Apply(name, x, y) == Ok(if x == y then 1 else 0)
  {
  }

  /**
   * Truncation toward zero is the only quotient whose remainder is smaller than the
   * divisor and has the sign of the dividend: `TruncDiv` is `int(x / y)` and not `x // y`.
   */
  lemma TruncDivUnique(x: int, y: int, q: int)
    requires y != 0 && Abs(x - q * y) < Abs(y)
    requires x >= 0 ==> x - q * y >= 0
    requires x <= 0 ==> x - q * y <= 0
    ensures q == TruncDiv(x, y)
  {
    SameQuotient(x, y, q, TruncDiv(x, y));
  }

  /**
   * Rounding toward negative infinity is the only quotient whose remainder has the sign
   * of the divisor and is smaller than it: `FloorDiv` is Python's `x // y`.
   */
  lemma FloorDivUnique(x: int, y: int, q: int)
    requires y != 0
    requires y > 0 ==> 0 <= x - q * y < y
    requires y < 0 ==> y < x - q * y <= 0
    ensures q == FloorDiv(x, y)
  {
    var r := FloorMod(x, y);
    SameQuotient(x, y, q, FloorDiv(x, y));
  }

  /** Two quotients whose remainders differ by less than the divisor are equal. */
  lemma SameQuotient(x: int, y: int, q1: int, q2: int)
    requires y != 0 && Abs((x - q1 * y) - (x - q2 * y)) < Abs(y)
    ensures q1 == q2
  {
    assert (x - q1 * y) - (x - q2 * y) == (q2 - q1) * y;
    if q1 != q2 {
      MultipleAtLeast(q2 - q1, y);
    }
  }

  /** A non-zero multiple of `y` is at least `y` in magnitude. */
  lemma MultipleAtLeast(k: int, y: int)
    requires k != 0
    ensures Abs(k * y) >= Abs(y)
  {
    var a: nat, b: nat := Abs(k), Abs(y);
    NaturalMultiple(a, b);
    if k > 0 && y < 0 {
      Negated(k, -y);
    } else if k < 0 && y >= 0 {
      Negated(-k, y);
    } else if k < 0 {
      Negated(-k, -y);
      Negated(k, -y);
    }
  }

  /** A positive multiple of a natural number is at least that number. */
  lemma NaturalMultiple(a: nat, b: nat)
    requires a >= 1
    ensures a * b >= b
  {
    assert a * b == (a - 1) * b + b;
  }

  // ---------------------------------------------------------------------------
  // Instructions
  // ---------------------------------------------------------------------------

  /** An instruction line: the operation's name, the register it writes, and the operand token. */
  datatype Instruction = Instruction(name: string, variable: string, value: string)

  /** `Instruction.__init__(raw)`: the first three words; fewer raise `IndexError`. */
  function ParseInstruction(raw: string): (r: Result<Instruction, Failure>)
    ensures r.Ok? <==> |PyText.Words(raw)| >= 3
    ensures r.Ok? ==> var words := PyText.Words(raw);
                      r.value == Instruction(words[0], words[1], words[2])
  {
    var words := PyText.Words(raw);
    if |words| < 3 then Err(IndexError) else Ok(Instruction(words[0], words[1], words[2]))
  }

  /** `Instruction.__repr__`: the three tokens separated by spaces. */
  function Repr(instruction: Instruction): string
  {
    instruction.name + " " + instruction.variable + " " + instruction.value
  }

  /** Tokens without whitespace survive printing and reading back. */
  lemma ParseRepr(instruction: Instruction)
    requires instruction.name != [] && PyText.NoSpace(instruction.name)
    requires instruction.variable != [] && PyText.NoSpace(instruction.variable)
    requires instruction.value != [] && PyText.NoSpace(instruction.value)
    ensures ParseInstruction(Repr(instruction)) == Ok(instruction)
  {
    var ws := [instruction.name, instruction.variable, instruction.value];
    assert ws[1..] == [instruction.variable, instruction.value] && ws[1..][1..] == [instruction.value];
    assert PyText.Unwords(ws[1..][1..]) == instruction.value;
    assert PyText.Unwords(ws[1..]) == instruction.variable + " " + instruction.value;
    assert Repr(instruction) == PyText.Unwords(ws);
    PyText.WordsUnwords(ws);
  }

  /** The operand: the register the token names, otherwise `int(token)`. */
  function Operand(token: string, values: map<string, int>): (r: Result<int, Failure>)
    ensures token in values ==> r == Ok(values[token])
    ensures token !in values ==> (r.Ok? <==> PyText.ParseInt(token).Some?)
    ensures token !in values && r.Ok? ==> r.value == PyText.ParseInt(token).value
  {
    if token in values then Ok(values[token])
    else match PyText.ParseInt(token)
      case None => Err(ValueError)
      case Some(n) => Ok(n)
  }

  /**
   * The registers after `evaluate`: only the written register changes, to the
   * operation applied to its old value and the operand. A bad literal raises
   * `ValueError`, an unknown name or register `KeyError`.
   */
  function Evaluated(instruction: Instruction, values: map<string, int>): (r: Result<map<string, int>, Failure>)
    ensures r.Ok? ==> instruction.variable in values && r.value.Keys == values.Keys
    ensures r.Ok? ==> forall k :: k in values && k != instruction.variable ==> r.value[k] == values[k]
    ensures r.Ok? ==> var operand := Operand(instruction.value, values);
                      && operand.Ok?
                      && Apply(instruction.name, values[instruction.variable], operand.value) == Ok(r.value[instruction.variable])
  {
    match Operand(instruction.value, values)
    case Err(e) => Err(e)
    case Ok(operand) =>
      if !IsFunction(instruction.name) then Err(KeyError)
      else if instruction.variable !in values then Err(KeyError)
      else match Apply(instruction.name, values[instruction.variable], operand)
        case Err(e) => Err(e)
        case Ok(v) => Ok(values[instruction.variable := v])
  }

  /** The `variables` dict one program part is run on. */
  class Registers {
    var values: map<string, int>

    constructor (values: map<string, int>)
      ensures this.values == values
    {
      this.values := values;
    }
  }

  /** `instruction.evaluate(variables)`: the dict is left as it was when the instruction raises. */
  method Evaluate(instruction: Instruction, registers: Registers) returns (r: Result<(), Failure>)
    modifies registers
    ensures r.Ok? <==> Evaluated(instruction, old(registers.values)).Ok?
    ensures r.Ok? ==> registers.values == Evaluated(instruction, old(registers.values)).value
    ensures r.Err? ==> r.error == Evaluated(instruction, old(registers.values)).error && registers.values == old(registers.values)
  {
    var operand: int;
    if instruction.value in registers.values {
      operand := registers.values[instruction.value];
    } else {
      var parsed := PyText.ParseInt(instruction.value);
      if parsed.None? {
        return Err(ValueError);
      }
      operand := parsed.value;
    }
    if !IsFunction(instruction.name) || instruction.variable !in registers.values {
      return Err(KeyError);
    }
    var result := Apply(instruction.name, registers.values[instruction.variable], operand);
    if result.Err? {
      return Err(result.error);
    }
    registers.values := registers.values[instruction.variable := result.value];
    return Ok(());
  }

  // ---------------------------------------------------------------------------
  // Running a program part
  // ---------------------------------------------------------------------------

  /** The registers after each instruction of a part in turn. */
  function RunPart(part: seq<Instruction>, values: map<string, int>): (r: Result<map<string, int>, Failure>)
    ensures r.Ok? ==> r.value.Keys == values.Keys
    decreases |part|
  {
    if part == [] then Ok(values)
    else match Evaluated(part[0], values)
      case Err(e) => Err(e)
      case Ok(next) => RunPart(part[1..], next)
  }

  /** The registers a part starts from: the digit in `w`, `x` and `y` cleared, `z` carried over. */
  function Initial(digit: int, z: int): map<string, int>
  {
    map["w" := digit, "x" := 0, "y" := 0, "z" := z]
  }

  /** The `z` a part leaves when it reads `digit` and starts from `z`. */
  function Step(part: seq<Instruction>, digit: int, z: int): Result<int, Failure>
  {
    match RunPart(part, Initial(digit, z))
    case Err(e) => Err(e)
    case Ok(values) =>
      assert "z" in Initial(digit, z);
      Ok(values["z"])
  }

  /**
   * A step raises exactly what an instruction of its part raises: reading `z` back
   * cannot fail, as instructions keep the four registers. An empty part leaves `z`.
   */
  lemma StepOutcome(part: seq<Instruction>, digit: int, z: int)
    ensures Step(part, digit, z).Err? <==> RunPart(part, Initial(digit, z)).Err?
    ensures Step(part, digit, z).Err? ==> Step(part, digit, z).error == RunPart(part, Initial(digit, z)).error
    ensures part == [] ==> Step(part, digit, z) == Ok(z)
  {
  }

  /** The body of the digit loop: fresh registers, every instruction of the part, then `z`. */
  method RunDigit(part: seq<Instruction>, digit: int, z: int) returns (r: Result<int, Failure>)
    ensures r == Step(part, digit, z)
  {
    var registers := new Registers(Initial(digit, z));
    for i := 0 to |part|
      invariant RunPart(part, Initial(digit, z)) == RunPart(part[i..], registers.values)
      invariant registers.values.Keys == Initial(digit, z).Keys
    {
      assert part[i..][1..] == part[i + 1..];
      var evaluated := Evaluate(part[i], registers);
      if evaluated.Err? {
        return Err(evaluated.error);
      }
    }
    return Ok(registers.values["z"]);
  }

  // ---------------------------------------------------------------------------
  // What the search looks for
  // ---------------------------------------------------------------------------

  /** The `z` left after the parts from `depth` on read the digits `ds`. */
  function RunFrom(program: seq<seq<Instruction>>, depth: nat, z: int, ds: seq<int>): Result<int, Failure>
    requires depth + |ds| <= |program|
    decreases |ds|
  {
    if ds == [] then Ok(z)
    else match Step(program[depth], ds[0], z)
      case Err(e) => Err(e)
      case Ok(next) => RunFrom(program, depth + 1, next, ds[1..])
  }

  /** `ds` completes the inputs from `depth` and `z`: one digit of `order` per remaining part, ending at `z == 0`. */
  ghost predicate Completes(program: seq<seq<Instruction>>, order: seq<int>, depth: nat, z: int, ds: seq<int>)
  {
    && depth + |ds| == |program|
    && (forall i :: 0 <= i < |ds| ==> ds[i] in order)
    && RunFrom(program, depth, z, ds) == Ok(0)
  }

  /** `ds` reads digits of `order` from `depth` and `z`, and one of their parts raises `e`. */
  ghost predicate Raises(program: seq<seq<Instruction>>, order: seq<int>, depth: nat, z: int, ds: seq<int>, e: Failure)
  {
    && depth + |ds| <= |program|
    && (forall i :: 0 <= i < |ds| ==> ds[i] in order)
    && RunFrom(program, depth, z, ds) == Err(e)
  }

  /** Some digits of `order` from `depth` and `z` raise `e`. */
  ghost predicate CanRaise(program: seq<seq<Instruction>>, order: seq<int>, depth: nat, z: int, e: Failure)
  {
    exists ds :: Raises(program, order, depth, z, ds, e)
  }

  /** Some digits of `order` starting with `digit`, from `depth` and `z`, raise `e`. */
  ghost predicate DigitRaises(program: seq<seq<Instruction>>, order: seq<int>, digit: int, depth: nat, z: int, e: Failure)
  {
    exists ds :: ds != [] && ds[0] == digit && Raises(program, order, depth, z, ds, e)
  }

  /** A digit raises when its own part raises, or when its part runs and digits after it raise. */
  lemma DigitRaisesStep(program: seq<seq<Instruction>>, order: seq<int>, digit: int, depth: nat, z: int, e: Failure)
    requires depth < |program| && digit in order
    requires || Step(program[depth], digit, z) == Err(e)
             || (Step(program[depth], digit, z).Ok? && CanRaise(program, order, depth + 1, Step(program[depth], digit, z).value, e))
    ensures DigitRaises(program, order, digit, depth, z, e)
  {
    if Step(program[depth], digit, z) == Err(e) {
      assert Raises(program, order, depth, z, [digit], e);
    } else {
      var ds :| Raises(program, order, depth + 1, Step(program[depth], digit, z).value, ds, e);
      assert ([digit] + ds)[1..] == ds;
      assert Raises(program, order, depth, z, [digit] + ds, e);
    }
  }

  lemma DigitCanRaise(program: seq<seq<Instruction>>, order: seq<int>, digit: int, depth: nat, z: int, e: Failure)
    requires DigitRaises(program, order, digit, depth, z, e)
    ensures CanRaise(program, order, depth, z, e)
  {
    var ds :| ds != [] && ds[0] == digit && Raises(program, order, depth, z, ds, e);
  }

  /** No inputs complete from `depth` and `z`. */
  ghost predicate Dead(program: seq<seq<Instruction>>, order: seq<int>, depth: nat, z: int)
  {
    forall ds :: !Completes(program, order, depth, z, ds)
  }

  /** `digit` fails from `depth` and `z`: its part runs, and nothing completes after it. */
  ghost predicate Fails(program: seq<seq<Instruction>>, order: seq<int>, digit: int, depth: nat, z: int)
  {
    depth < |program| && Step(program[depth], digit, z).Ok? && Dead(program, order, depth + 1, Step(program[depth], digit, z).value)
  }

  /**
   * What a cached `(digit, depth, z)` means: the digit failed there, and, at
   * `depth` and below, every digit failed there.
   */
  ghost predicate CacheSound(program: seq<seq<Instruction>>, order: seq<int>, cache: set<(int, nat, int)>, depth: nat)
  {
    forall e :: e in cache ==> CachedFails(program, order, e, depth)
  }

  ghost predicate CachedFails(program: seq<seq<Instruction>>, order: seq<int>, e: (int, nat, int), depth: nat)
  {
    Fails(program, order, e.0, e.1, e.2) && (e.1 >= depth ==> Dead(program, order, e.1, e.2))
  }

  /** What holds of the cache from one depth on holds from any deeper one. */
  lemma CacheSoundDeeper(program: seq<seq<Instruction>>, order: seq<int>, cache: set<(int, nat, int)>, depth: nat, deeper: nat)
    requires depth <= deeper && CacheSound(program, order, cache, depth)
    ensures CacheSound(program, order, cache, deeper)
  {
    forall e | e in cache
      ensures CachedFails(program, order, e, deeper)
    {
      assert CachedFails(program, order, e, depth);
    }
  }

  /** A `range` holds no digit twice. */
  predicate Distinct(order: seq<int>)
  {
    forall i, j :: 0 <= i < j < |order| ==> order[i] != order[j]
  }

  /** A digit of `order` that runs into a completion extends it. */
  lemma CompletesCons(program: seq<seq<Instruction>>, order: seq<int>, depth: nat, z: int, inputs: seq<int>)
    requires depth < |program| && depth < |inputs| && inputs[depth] in order
    requires Step(program[depth], inputs[depth], z).Ok?
    requires Completes(program, order, depth + 1, Step(program[depth], inputs[depth], z).value, inputs[depth + 1..])
    ensures Completes(program, order, depth, z, inputs[depth..])
  {
    assert inputs[depth..][1..] == inputs[depth + 1..];
  }

  /** When every digit fails, nothing completes. */
  lemma {:induction false} AllDigitsFail(program: seq<seq<Instruction>>, order: seq<int>, depth: nat, z: int)
    requires depth < |program|
    requires forall i :: 0 <= i < |order| ==> Fails(program, order, order[i], depth, z)
    ensures Dead(program, order, depth, z)
  {
    forall ds
      ensures !Completes(program, order, depth, z, ds)
    {
      if Completes(program, order, depth, z, ds) {
        var i :| 0 <= i < |order| && order[i] == ds[0];
        var next := Step(program[depth], ds[0], z).value;
        assert Completes(program, order, depth + 1, next, ds[1..]);
        assert false;
      }
    }
  }

  /** At the last part, only `z == 0` completes, with no more digits. */
  lemma CompletesAtEnd(program: seq<seq<Instruction>>, order: seq<int>, z: int)
    ensures Completes(program, order, |program|, z, []) <==> z == 0
    ensures z != 0 ==> Dead(program, order, |program|, z)
  {
  }

  // ---------------------------------------------------------------------------
  // The search
  // ---------------------------------------------------------------------------

  /** The state `run_program_part` shares down the recursion: the digits so far and the failure cache. */
  class DigitSearch {
    const program: seq<seq<Instruction>>
    const order: seq<int>
    var inputs: seq<int>
    var cache: set<(int, nat, int)>

    constructor (program: seq<seq<Instruction>>, order: seq<int>)
      ensures this.program == program && this.order == order
      ensures inputs == [] && cache == {}
    {
      this.program := program;
      this.order := order;
      inputs := [];
      cache := {};
    }

    /**
     * `run_program_part(program, z, inputs, cache, digit_order)`. `True` leaves in
     * `inputs` digits completing them from `z`; `False` leaves `inputs` as they
     * were, and then nothing completes from here. The cache only grows, and only
     * with failures at this depth or below.
     */
    method RunProgramPart(z: int) returns (r: Result<bool, Failure>)
      requires |inputs| <= |program| && Distinct(order)
      requires CacheSound(program, order, cache, |inputs|)
      modifies this
      decreases |program| - |inputs|, 1
      ensures r.Ok? ==> GrewBelow(old(cache), |old(inputs)|)
      ensures r == Ok(false) ==> inputs == old(inputs) && CacheSound(program, order, cache, |inputs|)
      ensures r == Ok(false) ==> Dead(program, order, |inputs|, z)
      ensures r == Ok(true) ==> |old(inputs)| <= |inputs| == |program| && inputs[..|old(inputs)|] == old(inputs)
      ensures r == Ok(true) ==> Completes(program, order, |old(inputs)|, z, inputs[|old(inputs)|..])
      ensures r == Ok(true) ==> CacheSound(program, order, cache, |program| + 1)
      ensures r.Err? ==> CanRaise(program, order, |old(inputs)|, z, r.error)
    {
      var depth := |inputs|;
      if depth == |program| {
        CompletesAtEnd(program, order, z);
        CacheSoundDeeper(program, order, cache, depth, |program| + 1);
        if z == 0 {
          assert inputs[depth..] == [];
        }
        return Ok(z == 0);
      }
      CacheEntering(depth, z);
      for i := 0 to |order|
        invariant inputs == old(inputs) && GrewBelow(old(cache), depth)
        invariant LoopView(depth, z, i)
        invariant forall j :: 0 <= j < i ==> Fails(program, order, order[j], depth, z)
      {
        if (order[i], depth, z) in cache {
          CacheHit(depth, z, i);
          CacheHere(depth, z, i);
          return Ok(false);
        }
        r := TryDigit(z, i);
        if r.Err? {
          DigitCanRaise(program, order, order[i], depth, z, r.error);
        }
        if r != Ok(false) {
          return r;
        }
      }
      AllDigitsFail(program, order, depth, z);
      CacheHere(depth, z, |order|);
      return Ok(false);
    }

    /**
     * One turn of the digit loop, past the cache check: append the digit, run its
     * part, search on, and on failure cache the digit and pop it again.
     */
    method TryDigit(z: int, i: nat) returns (r: Result<bool, Failure>)
      requires |inputs| < |program| && Distinct(order) && i < |order|
      requires LoopView(|inputs|, z, i)
      modifies this
      decreases |program| - |inputs|, 0
      ensures r.Ok? ==> GrewBelow(old(cache), |old(inputs)|)
      ensures r == Ok(false) ==> inputs == old(inputs) && Fails(program, order, order[i], |inputs|, z)
      ensures r == Ok(false) ==> LoopView(|inputs|, z, i + 1)
      ensures r == Ok(true) ==> |old(inputs)| < |inputs| == |program| && inputs[..|old(inputs)|] == old(inputs)
      ensures r == Ok(true) ==> Completes(program, order, |old(inputs)|, z, inputs[|old(inputs)|..])
      ensures r == Ok(true) ==> CacheSound(program, order, cache, |program| + 1)
      ensures r.Err? ==> DigitRaises(program, order, order[i], |old(inputs)|, z, r.error)
    {
      var depth := |inputs|;
      var digit := order[i];
      inputs := inputs + [digit];
      var next := RunDigit(program[depth], digit, z);
      if next.Err? {
        DigitRaisesStep(program, order, digit, depth, z, next.error);
        return Err(next.error);
      }
      CacheDeeper(depth, z, i);
      ghost var before, pushed := cache, inputs;
      r := RunProgramPart(next.value);
      if r.Err? {
        DigitRaisesStep(program, order, digit, depth, z, r.error);
        return r;
      }
      if r.value {
        assert inputs[..depth + 1] == pushed;
        assert inputs[depth] == digit;
        CompletesCons(program, order, depth, z, inputs);
        assert inputs[..depth] == pushed[..depth];
        return r;
      }
      CacheAdded(before, depth, z, i);
      var entry: (int, nat, int) := (digit, depth, z);
      cache := cache + {entry};
      inputs := inputs[..depth];
    }

    /** The cache holds what it held `before`, and more only at `depth` or below. */
    ghost predicate GrewBelow(before: set<(int, nat, int)>, depth: nat)
      reads this
    {
      before <= cache && forall e :: e in cache ==> e in before || e.1 >= depth
    }

    /** The digit loop's view of the cache at `depth` and `z`, with the digits before `i` tried. */
    ghost predicate LoopView(depth: nat, z: int, i: nat)
      reads this
    {
      forall e :: e in cache ==> CachedFailsHere(e, depth, z, i)
    }

    /** Inside the digit loop at `depth` and `z`: the digits before `i` are the only partial entries there. */
    ghost predicate CachedFailsHere(e: (int, nat, int), depth: nat, z: int, i: nat)
      reads this
    {
      && Fails(program, order, e.0, e.1, e.2)
      && (e.1 >= depth ==> Dead(program, order, e.1, e.2) || (e.1 == depth && e.2 == z && i <= |order| && e.0 in order[..i]))
    }

    /** Entering the digit loop, no entry at this depth is partial yet. */
    lemma CacheEntering(depth: nat, z: int)
      requires CacheSound(program, order, cache, depth)
      ensures LoopView(depth, z, 0)
    {
      forall e | e in cache
        ensures CachedFailsHere(e, depth, z, 0)
      {
        assert CachedFails(program, order, e, depth);
      }
    }

    /** A digit found in the cache at this depth was not cached by this loop, so the whole state is dead. */
    lemma CacheHit(depth: nat, z: int, i: nat)
      requires Distinct(order) && i < |order|
      requires (order[i], depth, z) in cache
      requires LoopView(depth, z, i)
      ensures Dead(program, order, depth, z)
    {
      assert CachedFailsHere((order[i], depth, z), depth, z, i);
    }

    /** The partial entries at `depth` and `z` are sound once everything there is known dead. */
    lemma CacheHere(depth: nat, z: int, i: nat)
      requires LoopView(depth, z, i)
      requires Dead(program, order, depth, z)
      ensures CacheSound(program, order, cache, depth)
    {
      forall e | e in cache
        ensures CachedFails(program, order, e, depth)
      {
        assert CachedFailsHere(e, depth, z, i);
      }
    }

    /** Below `depth`, every cached entry is a whole dead state. */
    lemma CacheDeeper(depth: nat, z: int, i: nat)
      requires LoopView(depth, z, i)
      ensures CacheSound(program, order, cache, depth + 1)
    {
      forall e | e in cache
        ensures CachedFails(program, order, e, depth + 1)
      {
        assert CachedFailsHere(e, depth, z, i);
      }
    }

    /** Caching the digit that just failed keeps the loop's view of the cache. */
    lemma CacheAdded(before: set<(int, nat, int)>, depth: nat, z: int, i: nat)
      requires i < |order|
      requires forall e :: e in before ==> CachedFailsHere(e, depth, z, i)
      requires Fails(program, order, order[i], depth, z)
      requires CacheSound(program, order, cache, depth + 1)
      requires GrewBelow(before, depth + 1)
      ensures forall e :: e in cache + {(order[i], depth, z)} ==> CachedFailsHere(e, depth, z, i + 1)
    {
      forall e | e in cache + {(order[i], depth, z)}
        ensures CachedFailsHere(e, depth, z, i + 1)
      {
        if e == (order[i], depth, z) {
          assert e.0 in order[..i + 1];
        } else if e in before {
          assert CachedFailsHere(e, depth, z, i);
          assert order[..i] <= order[..i + 1];
        } else {
          assert CachedFails(program, order, e, depth + 1);
        }
      }
    }
  }

  /**
   * One search with a fresh cache and no inputs, as `print_edge_model_numbers`
   * starts it: the digits found complete the program, and none found means no
   * digits of `order` do.
   */
  method EdgeModelNumber(program: seq<seq<Instruction>>, order: seq<int>) returns (r: Result<Option<seq<int>>, Failure>)
    requires Distinct(order)
    ensures r.Ok? && r.value.Some? ==> Completes(program, order, 0, 0, r.value.value)
    ensures r == Ok(None) ==> Dead(program, order, 0, 0)
    ensures r.Err? ==> CanRaise(program, order, 0, 0, r.error)
  {
    var search := new DigitSearch(program, order);
    var found := search.RunProgramPart(0);
    if found.Err? {
      return Err(found.error);
    }
    if found.value {
      assert search.inputs[0..] == search.inputs;
      return Ok(Some(search.inputs));
    }
    return Ok(None);
  }

  /** `HIGHEST_TO_LOWEST`: the digits 9 down to 1. */
  const HighestToLowest: seq<int> := [9, 8, 7, 6, 5, 4, 3, 2, 1]

  /** `LOWEST_TO_HIGHEST`: the digits 1 up to 9. */
  const LowestToHighest: seq<int> := [1, 2, 3, 4, 5, 6, 7, 8, 9]

  lemma DigitOrders()
    ensures Distinct(HighestToLowest) && Distinct(LowestToHighest)
    ensures forall i :: 0 <= i < 9 ==> HighestToLowest[i] == 9 - i && LowestToHighest[i] == i + 1
  {
  }
}
