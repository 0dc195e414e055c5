/**
 * Pair insertion on a polymer, counted by pairs rather than by building the polymer:
 * `template_after_steps` and `polymer_subtraction` of 14.py.
 *
 * A polymer is summarised by a `Counter` from its two-letter pairs to how often they
 * occur; each step replaces every pair `AB` that has a rule `AB -> C` by the pairs
 * `AC` and `CB`.  Python's halves (`quantity / 2`, `+ 0.5`) are modelled by doubled
 * integer tallies.
 */
module ExtendedPolymerization {
  import opened Wrappers
  import opened Numbers
  import Counters

  /** The exceptions the two functions can raise. */
  datatype Failure = KeyError | IndexError | ValueError

  /** Pair quantities, a `dict[str, int]` (missing keys read as 0). */
  type Counts = map<string, int>

  /** The insertion rules, `dict[str, str]`: pair to inserted element(s). */
  type Rules = map<string, string>

  // ---------------------------------------------------------------------------
  // One step of template_after_steps
  // ---------------------------------------------------------------------------

  /** A pair that lines 13-14 can expand: it has a rule and two letters to index. */
  predicate Expandable(pair: string, rules: Rules)
  {
    |pair| >= 2 && pair in rules
  }

  /**
   * The exception lines 13-14 raise for `pair`: `pair[0]` is evaluated first, then
   * `rules[pair]`, then `pair[1]`.
   */
  function PairFailure(pair: string, rules: Rules): (r: Option<Failure>)
    ensures r.None? <==> Expandable(pair, rules)
    ensures r == Some(KeyError) <==> |pair| >= 1 && pair !in rules
  {
    if |pair| == 0 then Some(IndexError)
    else if pair !in rules then Some(KeyError)
    else if |pair| == 1 then Some(IndexError)
    else None
  }

  /** `pair[0] + rules[pair]`: the left pair a rule produces. */
  function LeftPair(pair: string, rules: Rules): string
    requires Expandable(pair, rules)
  {
    pair[..1] + rules[pair]
  }

  /** `rules[pair] + pair[1]`: the right pair a rule produces. */
  function RightPair(pair: string, rules: Rules): string
    requires Expandable(pair, rules)
  {
    rules[pair] + pair[1..2]
  }

  /** What `pair` contributes to the quantity of `k` after a step. */
  function Share(before: Counts, rules: Rules, k: string): string -> int
  {
    pair =>
      if pair in before && Expandable(pair, rules) then
        (if LeftPair(pair, rules) == k then before[pair] else 0) +
        (if RightPair(pair, rules) == k then before[pair] else 0)
      else 0
  }

  /** The pairs one pair of `before` produces: none when it cannot be expanded. */
  function Outputs(before: Counts, rules: Rules): string -> set<string>
  {
    pair =>
      if pair in before && Expandable(pair, rules) then {LeftPair(pair, rules), RightPair(pair, rules)}
      else {}
  }

  /** The pairs the pairs of `pairs` produce. */
  ghost function Produced(before: Counts, rules: Rules, pairs: set<string>): set<string>
  {
    Counters.UnionSet(pairs, Outputs(before, rules))
  }

  /**
   * Lines 13-14 for one pair: its quantity is added to both pairs it produces, which
   * are exactly the keys it adds.
   */
  function Grow(after: Counts, before: Counts, rules: Rules, pair: string): (r: Counts)
    ensures pair in before && Expandable(pair, rules) ==> r.Keys == after.Keys + {LeftPair(pair, rules), RightPair(pair, rules)}
  {
    if pair in before && Expandable(pair, rules) then
      Counters.Add(Counters.Add(after, LeftPair(pair, rules), before[pair]), RightPair(pair, rules), before[pair])
    else after
  }

  /** The pairs of `pairs` grown one after another into a fresh map. */
  ghost function Expand(before: Counts, rules: Rules, pairs: set<string>): Counts
    decreases |pairs|
  {
    if pairs == {} then map[]
    else
      var pair := Counters.Pick(pairs);
      Grow(Expand(before, rules, pairs - {pair}), before, rules, pair)
  }

  /** One step: every pair of `before` expanded. */
  ghost function Inserted(before: Counts, rules: Rules): Counts
  {
    Expand(before, rules, before.Keys)
  }

  /** Growing by a pair adds what it contributes to each quantity... */
  lemma GrowGet(after: Counts, before: Counts, rules: Rules, pair: string, k: string)
    ensures Counters.Get(Grow(after, before, rules, pair), k) == Counters.Get(after, k) + Share(before, rules, k)(pair)
  {
    if pair in before && Expandable(pair, rules) {
      var once := Counters.Add(after, LeftPair(pair, rules), before[pair]);
      AddGet(once, RightPair(pair, rules), before[pair], k);
      AddGet(after, LeftPair(pair, rules), before[pair], k);
    }
  }

  /** ...and the pairs it produces to the keys. */
  lemma GrowKeys(after: Counts, before: Counts, rules: Rules, pair: string)
    ensures Grow(after, before, rules, pair).Keys == Outputs(before, rules)(pair) + after.Keys
  {
    if pair in before && Expandable(pair, rules) {
      var once := Counters.Add(after, LeftPair(pair, rules), before[pair]);
      assert once.Keys == after.Keys + {LeftPair(pair, rules)};
      assert Grow(after, before, rules, pair).Keys == once.Keys + {RightPair(pair, rules)};
    }
  }

  /** `m[key] += q` read back at `k`. */
  lemma AddGet(m: Counts, key: string, q: int, k: string)
    ensures Counters.Get(Counters.Add(m, key, q), k) == Counters.Get(m, k) + (if key == k then q else 0)
  {
  }

  /** Two pairs can be grown in either order. */
  lemma GrowCommute(after: Counts, before: Counts, rules: Rules, x: string, y: string)
    ensures Grow(Grow(after, before, rules, x), before, rules, y) ==
            Grow(Grow(after, before, rules, y), before, rules, x)
  {
    var xy := Grow(Grow(after, before, rules, x), before, rules, y);
    var yx := Grow(Grow(after, before, rules, y), before, rules, x);
    GrowCommuteKeys(after, before, rules, x, y);
    forall k | k in xy
      ensures xy[k] == yx[k]
    {
      GrowCommuteGet(after, before, rules, x, y, k);
    }
    Counters.MapExt(xy, yx);
  }

  /** The keys half of GrowCommute. */
  lemma GrowCommuteKeys(after: Counts, before: Counts, rules: Rules, x: string, y: string)
    ensures Grow(Grow(after, before, rules, x), before, rules, y).Keys ==
            Grow(Grow(after, before, rules, y), before, rules, x).Keys
  {
    GrowKeys(after, before, rules, x);
    GrowKeys(after, before, rules, y);
    GrowKeys(Grow(after, before, rules, x), before, rules, y);
    GrowKeys(Grow(after, before, rules, y), before, rules, x);
  }

  /** The values half of GrowCommute. */
  lemma GrowCommuteGet(after: Counts, before: Counts, rules: Rules, x: string, y: string, k: string)
    ensures Counters.Get(Grow(Grow(after, before, rules, x), before, rules, y), k) ==
            Counters.Get(Grow(Grow(after, before, rules, y), before, rules, x), k)
  {
    GrowGet(after, before, rules, x, k);
    GrowGet(after, before, rules, y, k);
    GrowGet(Grow(after, before, rules, x), before, rules, y, k);
    GrowGet(Grow(after, before, rules, y), before, rules, x, k);
  }

  /**
   * The order in which the dictionary yields its pairs does not matter: any pair may
   * be taken last.
   */
  lemma {:induction false} ExpandRemove(before: Counts, rules: Rules, pairs: set<string>, y: string)
    requires y in pairs
    ensures Expand(before, rules, pairs) == Grow(Expand(before, rules, pairs - {y}), before, rules, y)
    decreases |pairs|
  {
    var x := Counters.Pick(pairs);
    if x != y {
      var rest := pairs - {x} - {y};
      ExpandRemove(before, rules, pairs - {x}, y);
      ExpandRemove(before, rules, pairs - {y}, x);
      assert pairs - {y} - {x} == rest;
      GrowCommute(Expand(before, rules, rest), before, rules, x, y);
    }
  }

  /** Growing a pair not yet expanded extends the expansion by it. */
  lemma ExpandInsert(before: Counts, rules: Rules, pairs: set<string>, y: string)
    requires y !in pairs
    ensures Expand(before, rules, pairs + {y}) == Grow(Expand(before, rules, pairs), before, rules, y)
  {
    ExpandRemove(before, rules, pairs + {y}, y);
    assert pairs + {y} - {y} == pairs;
  }

  /**
   * What a step computes, pair by pair: the pairs present afterwards are exactly those
   * the rules produce, and each one's quantity is the sum of what every pair before
   * the step contributes to it, `q` for each side of `AB -> C` that it is.
   */
  lemma ExpandCounts(before: Counts, rules: Rules, pairs: set<string>)
    ensures Expand(before, rules, pairs).Keys == Produced(before, rules, pairs)
    ensures forall k :: Counters.Get(Expand(before, rules, pairs), k) == Counters.SumSet(pairs, Share(before, rules, k))
  {
    ExpandKeys(before, rules, pairs);
    forall k
      ensures Counters.Get(Expand(before, rules, pairs), k) == Counters.SumSet(pairs, Share(before, rules, k))
    {
      ExpandValue(before, rules, pairs, k);
    }
  }

  /** The keys half of ExpandCounts. */
  lemma {:induction false} ExpandKeys(before: Counts, rules: Rules, pairs: set<string>)
    ensures Expand(before, rules, pairs).Keys == Produced(before, rules, pairs)
    decreases |pairs|
  {
    if pairs != {} {
      var pair := Counters.Pick(pairs);
      ExpandKeys(before, rules, pairs - {pair});
      GrowKeys(Expand(before, rules, pairs - {pair}), before, rules, pair);
    }
  }

  /** The values half of ExpandCounts. */
  lemma {:induction false} ExpandValue(before: Counts, rules: Rules, pairs: set<string>, k: string)
    ensures Counters.Get(Expand(before, rules, pairs), k) == Counters.SumSet(pairs, Share(before, rules, k))
    decreases |pairs|
  {
    if pairs != {} {
      var pair := Counters.Pick(pairs);
      ExpandValue(before, rules, pairs - {pair}, k);
      GrowGet(Expand(before, rules, pairs - {pair}), before, rules, pair, k);
    }
  }

  /** A single pair `AB` with quantity `q` becomes `q` of `A+C` and `q` of `C+B`. */
  lemma InsertedOnePair(pair: string, q: int, rules: Rules)
    requires Expandable(pair, rules)
    ensures Inserted(map[pair := q], rules) ==
            Counters.Add(Counters.Add(map[], LeftPair(pair, rules), q), RightPair(pair, rules), q)
  {
    var before := map[pair := q];
    var empty: set<string> := {};
    ExpandInsert(before, rules, empty, pair);
    assert before.Keys == empty + {pair};
    assert Expand(before, rules, empty) == map[];
  }

  /** Adding a pair's quantity twice adds twice its quantity to the total. */
  lemma TotalStep(after: Counts, before: Counts, rules: Rules, pairs: set<string>, pair: string)
    requires pair in before && Expandable(pair, rules) && pair in pairs
    requires Counters.Total(after) == 2 * Counters.SumSet(pairs - {pair}, Counters.Lookup(before))
    ensures Counters.Total(Grow(after, before, rules, pair)) == 2 * Counters.SumSet(pairs, Counters.Lookup(before))
  {
    var once := Counters.Add(after, LeftPair(pair, rules), before[pair]);
    Counters.SumSetRemove(pairs, Counters.Lookup(before), pair);
    Counters.TotalAdd(after, LeftPair(pair, rules), before[pair]);
    Counters.TotalAdd(once, RightPair(pair, rules), before[pair]);
  }

  /** Expanding pairs that all have rules doubles their quantity. */
  lemma {:induction false} ExpandTotal(before: Counts, rules: Rules, pairs: set<string>)
    requires pairs <= before.Keys
    requires forall pair :: pair in pairs ==> Expandable(pair, rules)
    ensures Counters.Total(Expand(before, rules, pairs)) == 2 * Counters.SumSet(pairs, Counters.Lookup(before))
    decreases |pairs|
  {
    if pairs == {} {
      var empty: Counts := map[];
      assert Expand(before, rules, pairs) == empty;
      assert Counters.Total(empty) == 0;
    } else {
      var pair := Counters.Pick(pairs);
      var rest := pairs - {pair};
      var grown := Expand(before, rules, rest);
      assert Expand(before, rules, pairs) == Grow(grown, before, rules, pair);
      ExpandTotal(before, rules, rest);
      TotalStep(grown, before, rules, pairs, pair);
    }
  }

  /** A step doubles the length of the polymer: the total of the pair quantities doubles. */
  lemma InsertedTotal(before: Counts, rules: Rules)
    requires forall pair :: pair in before ==> Expandable(pair, rules)
    ensures Counters.Total(Inserted(before, rules)) == 2 * Counters.Total(before)
  {
    ExpandTotal(before, rules, before.Keys);
  }

  /**
   * `after` holds the expansion of the pairs of `done`, every one of which has a rule.
   * With `done` all of `before`, it is the step itself, `Inserted(before, rules)`.
   */
  ghost predicate Expanded(after: Counts, before: Counts, rules: Rules, done: set<string>)
  {
    && (forall pair :: pair in done ==> Expandable(pair, rules))
    && after == Expand(before, rules, done)
  }

  /** Lines 13-14 for one more pair keep `Expanded`. */
  lemma ExpandOne(after: Counts, before: Counts, rules: Rules, remaining: set<string>, pair: string)
    requires pair in remaining && remaining <= before.Keys && Expandable(pair, rules)
    requires Expanded(after, before, rules, before.Keys - remaining)
    ensures Expanded(Grow(after, before, rules, pair), before, rules, before.Keys - (remaining - {pair}))
  {
    var done := before.Keys - remaining;
    Counters.MoveOne(before.Keys, remaining, pair);
    ExpandInsert(before, rules, done, pair);
  }

  /**
   * The inner loop of `template_after_steps` (lines 10-16): a fresh map, filled pair
   * by pair in whatever order the dictionary yields them.
   */
  method ApplyRules(before: Counts, rules: Rules) returns (r: Result<Counts, Failure>)
    ensures r.Ok? ==> (forall pair :: pair in before ==> Expandable(pair, rules)) && r.value == Inserted(before, rules)
    ensures r.Err? ==> exists pair :: pair in before && !Expandable(pair, rules) && PairFailure(pair, rules) == Some(r.error)
  {
    var after: Counts := map[];
    var remaining := before.Keys;
    assert before.Keys - remaining == {};
    while remaining != {}
      invariant remaining <= before.Keys
      invariant Expanded(after, before, rules, before.Keys - remaining)
      decreases |remaining|
    {
      var pair :| pair in remaining;
      var failure := PairFailure(pair, rules);
      if failure.Some? {
        assert pair in before && !Expandable(pair, rules) && PairFailure(pair, rules) == Some(failure.value);
        return Err(failure.value);
      }
      ExpandOne(after, before, rules, remaining, pair);
      after := Grow(after, before, rules, pair);
      remaining := remaining - {pair};
    }
    assert before.Keys - remaining == before.Keys;
    return Ok(after);
  }

  // ---------------------------------------------------------------------------
  // template_after_steps
  // ---------------------------------------------------------------------------

  /** The pair quantities after `steps` steps, or None once some pair cannot be expanded. */
  ghost function AfterSteps(template: Counts, rules: Rules, steps: nat): Option<Counts>
  {
    if steps == 0 then Some(template)
    else
      match AfterSteps(template, rules, steps - 1)
      case None => None
      case Some(before) =>
        if forall pair :: pair in before ==> Expandable(pair, rules)
        then Some(Inserted(before, rules)) else None
  }

  /**
   * `template_after_steps` (lines 4-18).  `range(steps)` is empty for a negative
   * count, so the template comes back unchanged then as for 0; the template itself
   * is a value and is never modified.
   */
  method TemplateAfterSteps(template: Counts, rules: Rules, steps: int) returns (r: Result<Counts, Failure>)
    ensures steps <= 0 ==> r == Ok(template)
    ensures r.Ok? <==> AfterSteps(template, rules, Steps(steps)).Some?
    ensures r.Ok? ==> r.value == AfterSteps(template, rules, Steps(steps)).value
    ensures r.Ok? ==> Counters.Total(r.value) == Pow2(Steps(steps)) * Counters.Total(template)
  {
    var beforeStep := template;
    var i := 0;
    while i < steps
      invariant 0 <= i <= Steps(steps)
      invariant AfterSteps(template, rules, i) == Some(beforeStep)
      invariant Counters.Total(beforeStep) == Pow2(i) * Counters.Total(template)
    {
      var afterStep := ApplyRules(beforeStep, rules);
      if afterStep.Err? {
        AfterStepsFails(template, rules, i, beforeStep, Steps(steps));
        return Err(afterStep.error);
      }
      AfterStepsNext(template, rules, i, beforeStep, afterStep.value);
      beforeStep := afterStep.value;
      i := i + 1;
    }
    assert i == Steps(steps);
    return Ok(beforeStep);
  }

  /** A step that succeeds from the quantities after `i` steps gives those after `i + 1`. */
  lemma AfterStepsNext(template: Counts, rules: Rules, i: nat, before: Counts, after: Counts)
    requires AfterSteps(template, rules, i) == Some(before)
    requires forall pair :: pair in before ==> Expandable(pair, rules)
    requires after == Inserted(before, rules)
    requires Counters.Total(before) == Pow2(i) * Counters.Total(template)
    ensures AfterSteps(template, rules, i + 1) == Some(after)
    ensures Counters.Total(after) == Pow2(i + 1) * Counters.Total(template)
  {
    assert AfterSteps(template, rules, i + 1) == Some(Inserted(before, rules));
    InsertedTotal(before, rules);
    DoubleTimes(Pow2(i), Counters.Total(template));
  }

  /** Doubling a product doubles its first factor. */
  lemma DoubleTimes(a: int, b: int)
    ensures 2 * (a * b) == (2 * a) * b
  {
  }

  /** A step that fails from the quantities after `i` steps fails every later count. */
  lemma AfterStepsFails(template: Counts, rules: Rules, i: nat, before: Counts, steps: nat)
    requires AfterSteps(template, rules, i) == Some(before)
    requires !forall pair :: pair in before ==> Expandable(pair, rules)
    requires i < steps
    ensures AfterSteps(template, rules, steps).None?
  {
    AfterStepsStuck(template, rules, i + 1, steps);
  }

  /** The number of iterations of `range(steps)`. */
  function Steps(steps: int): nat
  {
    if steps < 0 then 0 else steps
  }

  /** Once a step fails, every later count of steps fails too. */
  lemma {:induction false} AfterStepsStuck(template: Counts, rules: Rules, failed: nat, steps: nat)
    requires AfterSteps(template, rules, failed).None?
    requires failed <= steps
    ensures AfterSteps(template, rules, steps).None?
    decreases steps - failed
  {
    if failed < steps {
      AfterStepsStuck(template, rules, failed + 1, steps);
    }
  }

  // ---------------------------------------------------------------------------
  // polymer_subtraction
  // ---------------------------------------------------------------------------

  /** How often `e` occurs in `s`. */
  function Occurrences(s: string, e: char): nat
    decreases |s|
  {
    if s == [] then 0
    else Occurrences(s[..|s| - 1], e) + (if s[|s| - 1] == e then 1 else 0)
  }

  /** The elements of `s`. */
  function Elements(s: string): set<char>
  {
    set i | 0 <= i < |s| :: s[i]
  }

  /** An element occurs in `s` exactly when it is one of the elements of `s`. */
  lemma {:induction false} OccurrencesElements(s: string, e: char)
    ensures Occurrences(s, e) > 0 <==> e in Elements(s)
    decreases |s|
  {
    if s != [] {
      var init := s[..|s| - 1];
      OccurrencesElements(init, e);
      assert Elements(s) == Elements(init) + {s[|s| - 1]} by {
        assert forall i :: 0 <= i < |init| ==> init[i] == s[i];
      }
    }
  }

  /** What one pair contributes, doubled, to the tally of `e` (line 29). */
  function Weight(after: Counts, e: char): string -> int
  {
    pair => Counters.Get(after, pair) * Occurrences(pair, e)
  }

  /** The elements of the pairs of `pairs`. */
  ghost function PairElements(pairs: set<string>): set<char>
  {
    Counters.UnionSet(pairs, Elements)
  }

  /**
   * Twice `element_quantities` (lines 25-32): the elements present are those of the
   * pairs and of `corners`, and each one's tally is its occurrences in the pairs
   * weighted by their quantities, plus its occurrences in `corners`.
   */
  ghost predicate IsDoubled(tallies: map<char, int>, after: Counts, corners: string)
  {
    && tallies.Keys == PairElements(after.Keys) + Elements(corners)
    && forall e :: Counters.Get(tallies, e) == Counters.SumSet(after.Keys, Weight(after, e)) + Occurrences(corners, e)
  }

  /** The doubled tallies as one map. */
  ghost function Doubled(after: Counts, corners: string): map<char, int>
  {
    map e | e in PairElements(after.Keys) + Elements(corners) ::
      Counters.SumSet(after.Keys, Weight(after, e)) + Occurrences(corners, e)
  }

  /** `IsDoubled` describes exactly one map: `Doubled`. */
  lemma DoubledUnique(tallies: map<char, int>, after: Counts, corners: string)
    ensures IsDoubled(tallies, after, corners) <==> tallies == Doubled(after, corners)
  {
    var d := Doubled(after, corners);
    assert d.Keys == PairElements(after.Keys) + Elements(corners);
    if IsDoubled(tallies, after, corners) {
      forall e | e in tallies
        ensures tallies[e] == d[e]
      {
        assert Counters.Get(tallies, e) == tallies[e];
      }
      Counters.MapExt(tallies, d);
    } else if tallies == d {
      forall e
        ensures Counters.Get(tallies, e) == Counters.SumSet(after.Keys, Weight(after, e)) + Occurrences(corners, e)
      {
        if e !in d {
          DoubledMissing(after, corners, e);
        }
      }
      assert false;
    }
  }

  /** An element of neither the pairs nor the corners tallies 0. */
  lemma DoubledMissing(after: Counts, corners: string, e: char)
    requires e !in PairElements(after.Keys) + Elements(corners)
    ensures Counters.SumSet(after.Keys, Weight(after, e)) + Occurrences(corners, e) == 0
  {
    OccurrencesElements(corners, e);
    forall pair | pair in after.Keys
      ensures Weight(after, e)(pair) == 0
    {
      OccurrencesElements(pair, e);
      Counters.UnionSetRemove(after.Keys, Elements, pair);
    }
    Counters.SumSetZero(after.Keys, Weight(after, e));
  }

  /** Tallies after the pairs of `done` (line 29, doubled). */
  ghost predicate TalliedPairs(tallies: map<char, int>, after: Counts, done: set<string>)
  {
    && tallies.Keys == PairElements(done)
    && forall e :: Counters.Get(tallies, e) == Counters.SumSet(done, Weight(after, e))
  }

  /** The tallies once the first `j` letters of `pair` have gained its quantity (line 29). */
  ghost predicate TalliedLetters(tallies: map<char, int>, after: Counts, done: set<string>, pair: string, j: nat)
    requires j <= |pair|
  {
    && tallies.Keys == PairElements(done) + Elements(pair[..j])
    && forall e :: Counters.Get(tallies, e) ==
         Counters.SumSet(done, Weight(after, e)) + Counters.Get(after, pair) * Occurrences(pair[..j], e)
  }

  /** Line 29 for one more letter keeps `TalliedLetters`. */
  lemma LetterStep(tallies: map<char, int>, after: Counts, done: set<string>, pair: string, j: nat)
    requires pair in after && j < |pair| && TalliedLetters(tallies, after, done, pair, j)
    ensures TalliedLetters(Counters.Add(tallies, pair[j], after[pair]), after, done, pair, j + 1)
  {
    ElementsStep(pair, j);
    forall e
      ensures Counters.Get(Counters.Add(tallies, pair[j], after[pair]), e) ==
              Counters.SumSet(done, Weight(after, e)) + Counters.Get(after, pair) * Occurrences(pair[..j + 1], e)
    {
      OccurrencesStep(pair, j, after[pair], e);
    }
  }

  /** All the letters of a pair tallied complete the pair. */
  lemma LettersDone(tallies: map<char, int>, after: Counts, done: set<string>, pair: string)
    requires pair in after && pair !in done && TalliedLetters(tallies, after, done, pair, |pair|)
    ensures TalliedPairs(tallies, after, done + {pair})
  {
    assert pair[..|pair|] == pair;
    Counters.UnionSetInsert(done, Elements, pair);
    forall e
      ensures Counters.Get(tallies, e) == Counters.SumSet(done + {pair}, Weight(after, e))
    {
      Counters.SumSetInsert(done, Weight(after, e), pair);
    }
  }

  /** Lines 28-29 for one pair: each of its letters gains the pair's quantity (doubled). */
  method TallyPair(tallies: map<char, int>, after: Counts, ghost done: set<string>, pair: string)
    returns (r: map<char, int>)
    requires pair in after && pair !in done
    requires TalliedPairs(tallies, after, done)
    ensures TalliedPairs(r, after, done + {pair})
  {
    r := tallies;
    assert pair[..0] == [];
    var j := 0;
    while j < |pair|
      invariant 0 <= j <= |pair|
      invariant TalliedLetters(r, after, done, pair, j)
    {
      LetterStep(r, after, done, pair, j);
      r := Counters.Add(r, pair[j], after[pair]);
      j := j + 1;
    }
    LettersDone(r, after, done, pair);
  }

  /** One more letter of `s` is one more element. */
  lemma ElementsStep(s: string, j: nat)
    requires j < |s|
    ensures Elements(s[..j + 1]) == Elements(s[..j]) + {s[j]}
  {
    assert forall i :: 0 <= i < j ==> s[..j + 1][i] == s[..j][i];
    assert s[..j + 1][j] == s[j];
  }

  /** One more letter of `s` adds `q` to its own weighted count and nothing to others. */
  lemma OccurrencesStep(s: string, j: nat, q: int, e: char)
    requires j < |s|
    ensures q * Occurrences(s[..j + 1], e) == q * Occurrences(s[..j], e) + (if s[j] == e then q else 0)
  {
    assert s[..j + 1][..j] == s[..j];
  }

  /** Lines 27-29, doubled: the tallies of every element of the pairs. */
  method TallyPairs(after: Counts) returns (tallies: map<char, int>)
    ensures TalliedPairs(tallies, after, after.Keys)
  {
    tallies := map[];
    var remaining := after.Keys;
    assert after.Keys - remaining == {};
    while remaining != {}
      invariant remaining <= after.Keys
      invariant TalliedPairs(tallies, after, after.Keys - remaining)
      decreases |remaining|
    {
      var pair :| pair in remaining;
      tallies := TallyPair(tallies, after, after.Keys - remaining, pair);
      Counters.MoveOne(after.Keys, remaining, pair);
      remaining := remaining - {pair};
    }
    assert after.Keys - remaining == after.Keys;
  }

  /** The tallies once the first `j` letters of `corners` have been added (lines 31-32). */
  ghost predicate TalliedCorners(tallies: map<char, int>, after: Counts, corners: string, j: nat)
    requires j <= |corners|
  {
    && tallies.Keys == PairElements(after.Keys) + Elements(corners[..j])
    && forall e :: Counters.Get(tallies, e) ==
         Counters.SumSet(after.Keys, Weight(after, e)) + Occurrences(corners[..j], e)
  }

  /** Line 32 for one more letter keeps `TalliedCorners`. */
  lemma CornerStep(tallies: map<char, int>, after: Counts, corners: string, j: nat)
    requires j < |corners| && TalliedCorners(tallies, after, corners, j)
    ensures TalliedCorners(Counters.Add(tallies, corners[j], 1), after, corners, j + 1)
  {
    ElementsStep(corners, j);
    forall e
      ensures Counters.Get(Counters.Add(tallies, corners[j], 1), e) ==
              Counters.SumSet(after.Keys, Weight(after, e)) + Occurrences(corners[..j + 1], e)
    {
      OccurrencesStep(corners, j, 1, e);
    }
  }

  /** Lines 27-32, doubled: the tallies of every element of the pairs and the corners. */
  method TallyElements(after: Counts, corners: string) returns (tallies: map<char, int>)
    ensures IsDoubled(tallies, after, corners)
  {
    tallies := TallyPairs(after);
    assert corners[..0] == [];
    var j := 0;
    while j < |corners|
      invariant 0 <= j <= |corners|
      invariant TalliedCorners(tallies, after, corners, j)
    {
      CornerStep(tallies, after, corners, j);
      tallies := Counters.Add(tallies, corners[j], 1);
      j := j + 1;
    }
    assert corners[..j] == corners;
  }

  /** `v` is `int(max(...) - min(...))` of the halved tallies `d`. */
  ghost predicate IsSpread(d: map<char, int>, v: int)
  {
    exists most, least :: most in d && least in d && v == (d[most] - d[least]) / 2 &&
      forall e :: e in d ==> d[least] <= d[e] <= d[most]
  }

  /** `max(values)` and `min(values)` of a non-empty dictionary. */
  method Extremes(d: map<char, int>) returns (most: int, least: int)
    requires d != map[]
    ensures most in d.Values && least in d.Values
    ensures forall e :: e in d ==> least <= d[e] <= most
  {
    var first :| first in d;
    most, least := d[first], d[first];
    var remaining := d.Keys - {first};
    while remaining != {}
      invariant remaining <= d.Keys
      invariant most in d.Values && least in d.Values
      invariant forall e :: e in d && e !in remaining ==> least <= d[e] <= most
      decreases |remaining|
    {
      var e :| e in remaining;
      if d[e] > most {
        most := d[e];
      }
      if d[e] < least {
        least := d[e];
      }
      remaining := remaining - {e};
    }
  }

  /**
   * `polymer_subtraction` (lines 21-34): the most common element's quantity minus the
   * least common one's after `steps` steps.  `max` of no values raises ValueError.
   */
  method PolymerSubtraction(template: Counts, corners: string, rules: Rules, steps: int)
    returns (r: Result<int, Failure>)
    ensures r.Ok? <==> AfterSteps(template, rules, Steps(steps)).Some? &&
                       Doubled(AfterSteps(template, rules, Steps(steps)).value, corners) != map[]
    ensures r.Ok? ==> IsSpread(Doubled(AfterSteps(template, rules, Steps(steps)).value, corners), r.value)
    ensures r.Ok? ==> r.value >= 0
  {
    var afterSteps := TemplateAfterSteps(template, rules, steps);
    if afterSteps.Err? {
      return Err(afterSteps.error);
    }
    var tallies := TallyElements(afterSteps.value, corners);
    DoubledUnique(tallies, afterSteps.value, corners);
    if tallies == map[] {
      return Err(ValueError);
    }
    var most, least := Extremes(tallies);
    SpreadOfExtremes(tallies, most, least);
    r := Ok((most - least) / 2);
  }

  /** Half the gap between the largest and smallest value is the spread. */
  lemma SpreadOfExtremes(d: map<char, int>, most: int, least: int)
    requires most in d.Values && least in d.Values
    requires forall e :: e in d ==> least <= d[e] <= most
    ensures IsSpread(d, (most - least) / 2) && most >= least
  {
    var hi :| hi in d && d[hi] == most;
    var lo :| lo in d && d[lo] == least;
    assert (most - least) / 2 == (d[hi] - d[lo]) / 2;
  }

  // ---------------------------------------------------------------------------
  // Why the halves count elements
  // ---------------------------------------------------------------------------

  /**
   * `Counter(line[x : x + 2] for x in range(len(line) - 1))` (line 40): how often each
   * pair of adjacent letters occurs in a polymer.
   */
  function PairCounts(polymer: string): Counts
    decreases |polymer|
  {
    if |polymer| < 2 then map[]
    else Counters.Add(PairCounts(polymer[..|polymer| - 1]), polymer[|polymer| - 2..], 1)
  }

  /** `line[0] + line[-1]` (line 41): the first and the last letter. */
  function Corners(polymer: string): string
    requires polymer != []
  {
    [polymer[0], polymer[|polymer| - 1]]
  }

  /** One more occurrence of `k` adds its letters to the weighted sum. */
  lemma WeightAdd(m: Counts, k: string, e: char)
    ensures Counters.SumSet(Counters.Add(m, k, 1).Keys, Weight(Counters.Add(m, k, 1), e)) ==
            Counters.SumSet(m.Keys, Weight(m, e)) + Occurrences(k, e)
  {
    var r := Counters.Add(m, k, 1);
    var f, g := Weight(m, e), Weight(r, e);
    WeightOne(m, k, e);
    forall x | x != k
      ensures f(x) == g(x)
    {
      assert Counters.Get(r, x) == Counters.Get(m, x);
    }
    if k in m {
      assert r.Keys == m.Keys;
      Counters.SumSetRemove(m.Keys, f, k);
      Counters.SumSetRemove(r.Keys, g, k);
      Counters.SumSetExt(m.Keys - {k}, f, g);
    } else {
      Counters.SumSetInsert(m.Keys, g, k);
      Counters.SumSetExt(m.Keys, f, g);
    }
  }

  /** The weight of `k` itself grows by its occurrences. */
  lemma WeightOne(m: Counts, k: string, e: char)
    ensures Weight(Counters.Add(m, k, 1), e)(k) == Weight(m, e)(k) + Occurrences(k, e)
  {
    var q := Counters.Get(m, k);
    assert Counters.Get(Counters.Add(m, k, 1), k) == q + 1;
    assert (q + 1) * Occurrences(k, e) == q * Occurrences(k, e) + Occurrences(k, e);
  }

  /**
   * Every letter of a polymer but the first and the last lies in two of its pairs; the
   * corners make up the difference, so pairs and corners together count each letter twice.
   */
  lemma {:induction false} PairWeights(polymer: string, e: char)
    requires polymer != []
    ensures Counters.SumSet(PairCounts(polymer).Keys, Weight(PairCounts(polymer), e)) +
            Occurrences(Corners(polymer), e) == 2 * Occurrences(polymer, e)
    decreases |polymer|
  {
    var n := |polymer|;
    if n == 1 {
      var empty: Counts := map[];
      assert PairCounts(polymer) == empty;
      assert Counters.SumSet(empty.Keys, Weight(empty, e)) == 0;
      assert polymer[..0] == [];
      OccurrencesTwo(polymer[0], polymer[0], e);
    } else {
      var init := polymer[..n - 1];
      var pair := polymer[n - 2..];
      assert pair == [init[n - 2], polymer[n - 1]];
      assert PairCounts(polymer) == Counters.Add(PairCounts(init), pair, 1);
      PairWeights(init, e);
      WeightAdd(PairCounts(init), pair, e);
      OccurrencesTwo(init[n - 2], polymer[n - 1], e);
      OccurrencesTwo(polymer[0], init[n - 2], e);
      OccurrencesTwo(polymer[0], polymer[n - 1], e);
    }
  }

  /** The occurrences of `e` among two letters. */
  lemma OccurrencesTwo(x: char, y: char, e: char)
    ensures Occurrences([x, y], e) == (if x == e then 1 else 0) + (if y == e then 1 else 0)
  {
    var none: string := [];
    assert [x, y][..1] == [x];
    assert [x][..0] == none;
    assert Occurrences([x], e) == Occurrences(none, e) + (if x == e then 1 else 0);
    assert Occurrences([x, y], e) == Occurrences([x], e) + (if y == e then 1 else 0);
  }

  /**
   * For a template read from a polymer, the doubled tallies of lines 27-32 are twice the
   * number of times each element occurs in it: the halves add up to whole counts.
   */
  lemma DoubledCountsElements(polymer: string, tallies: map<char, int>)
    requires polymer != []
    requires IsDoubled(tallies, PairCounts(polymer), Corners(polymer))
    ensures forall e :: Counters.Get(tallies, e) == 2 * Occurrences(polymer, e)
  {
    forall e
      ensures Counters.Get(tallies, e) == 2 * Occurrences(polymer, e)
    {
      PairWeights(polymer, e);
    }
  }
}
