/**
  Running several rules: a rule list may nest lists, which are flattened in
  order, and the rules are applied one after the other, each to the output
  of the previous one (`rt([rule1, [rule2]], text)`).
 */
module Pipeline {
  import opened Replace

  datatype RuleTree = Single(rule: Rule) | Nested(items: seq<RuleTree>)

  /** The rules of a tree in the order they are written. */
  function Flatten(t: RuleTree): seq<Rule>
    decreases t, 1
  {
    match t
    case Single(r) => [r]
    case Nested(items) => FlattenAll(items)
  }

  function FlattenAll(items: seq<RuleTree>): seq<Rule>
    decreases items, 0
  {
    if |items| == 0 then []
    else Flatten(items[0]) + FlattenAll(items[1..])
  }

  /** Apply the rules left to right. */
  function RunRules(rules: seq<Rule>, s: string): string
    decreases |rules|
  {
    if |rules| == 0 then s else RunRules(rules[1..], Apply(rules[0], s))
  }

  /** Run a rule tree on a text. */
  function Run(t: RuleTree, s: string): string {
    RunRules(Flatten(t), s)
  }

  /** A single rule runs as itself. */
  lemma RunSingle(r: Rule, s: string)
    ensures Run(Single(r), s) == Apply(r, s)
  {
    assert Flatten(Single(r)) == [r];
    assert [r][1..] == [];
    assert RunRules([r], s) == RunRules([], Apply(r, s));
  }

  /** A two-rule list runs its first rule, then its second. */
  lemma RunPair(a: Rule, b: Rule, s: string)
    ensures RunRules([a, b], s) == Apply(b, Apply(a, s))
  {
    assert [a, b][1..] == [b];
    assert [b][1..] == [];
    assert RunRules([a, b], s) == RunRules([b], Apply(a, s));
    assert RunRules([b], Apply(a, s)) == RunRules([], Apply(b, Apply(a, s)));
  }

  /** A four-rule list runs its rules one after the other. */
  lemma RunFour(a: Rule, b: Rule, c: Rule, d: Rule, s: string)
    ensures RunRules([a, b, c, d], s) == Apply(d, Apply(c, Apply(b, Apply(a, s))))
  {
    assert [a, b, c, d][1..] == [b, c, d];
    assert [b, c, d][1..] == [c, d];
    assert RunRules([a, b, c, d], s) == RunRules([b, c, d], Apply(a, s));
    assert RunRules([b, c, d], Apply(a, s)) == RunRules([c, d], Apply(b, Apply(a, s)));
    RunPair(c, d, Apply(b, Apply(a, s)));
  }

  /** Running a concatenation of rule lists runs the first, then the second. */
  lemma {:induction false} RunRulesAppend(a: seq<Rule>, b: seq<Rule>, s: string)
    ensures RunRules(a + b, s) == RunRules(b, RunRules(a, s))
    decreases |a|
  {
    if |a| > 0 {
      assert (a + b)[0] == a[0];
      assert (a + b)[1..] == a[1..] + b;
      RunRulesAppend(a[1..], b, Apply(a[0], s));
    } else {
      assert a + b == b;
    }
  }

  /** Each item of a tree run in turn, whatever its own nesting. */
  function RunEach(items: seq<RuleTree>, s: string): string
    decreases |items|
  {
    if |items| == 0 then s else RunEach(items[1..], Run(items[0], s))
  }

  /** Nesting does not matter: a nested list runs as its items run one
      after the other. */
  lemma {:induction false} RunNestedIsSequential(items: seq<RuleTree>, s: string)
    ensures Run(Nested(items), s) == RunEach(items, s)
    decreases |items|
  {
    assert Flatten(Nested(items)) == FlattenAll(items);
    if |items| > 0 {
      calc {
        Run(Nested(items), s);
        RunRules(FlattenAll(items), s);
        RunRules(Flatten(items[0]) + FlattenAll(items[1..]), s);
        { RunRulesAppend(Flatten(items[0]), FlattenAll(items[1..]), s); }
        RunRules(FlattenAll(items[1..]), Run(items[0], s));
        { RunNestedIsSequential(items[1..], Run(items[0], s)); }
        RunEach(items[1..], Run(items[0], s));
      }
    }
  }

  /** The nested list `[rule1, [rule2]]` runs exactly like `[rule1, rule2]`. */
  lemma NestedPairRunsInOrder(r1: Rule, r2: Rule, s: string)
    ensures Run(Nested([Single(r1), Nested([Single(r2)])]), s) == Apply(r2, Apply(r1, s))
    ensures Run(Nested([Single(r1), Nested([Single(r2)])]), s) == Run(Nested([Single(r1), Single(r2)]), s)
  {
    var t1, t2 := [Single(r1), Nested([Single(r2)])], [Single(r1), Single(r2)];
    RunNestedIsSequential(t1, s);
    RunNestedIsSequential(t2, s);
    RunNestedIsSequential([Single(r2)], Apply(r1, s));
    RunSingle(r1, s);
    RunSingle(r2, Apply(r1, s));
    assert t1[1..] == [Nested([Single(r2)])] && t2[1..] == [Single(r2)];
    assert RunEach(t1, s) == RunEach(t1[1..], Apply(r1, s));
    assert RunEach(t2, s) == RunEach(t2[1..], Apply(r1, s));
    assert RunEach([Single(r2)], Apply(r1, s)) == Apply(r2, Apply(r1, s));
    assert RunEach(t1[1..], Apply(r1, s)) == Run(Nested([Single(r2)]), Apply(r1, s));
  }
}
