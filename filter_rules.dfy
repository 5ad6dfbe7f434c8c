/** The filter expression tree as values: leaf conditions and nested chains
    (src/Filter/Rule.php), and the comparison `Equal::sameAs`
    (src/Filter/Equal.php). */
module FilterRules {
  import opened PhpValues

  /** The three chain classes: All (AND), Any (OR), None (NOT). */
  datatype Combinator = All | Any | None

  /** The condition classes. Equal, Like and Unlike are modelled from their
      source; Unequal appears only as a leaf the builder is given. */
  datatype Operator = Equal | Unequal | Like | Unlike

  /** A condition's column: one name or a list of names, never validated. */
  datatype Column = Name(name: string) | Names(names: seq<string>)

  /** A node of a filter tree. A condition's metadata is not part of its
      value: `sameAs` ignores it. */
  datatype Rule =
    | Cond(op: Operator, column: Column, value: Value, ignoreCase: bool)
    | Group(kind: Combinator, rules: seq<Rule>)

  /** Nesting depth: a condition is 0, a chain one more than its deepest child. */
  function Depth(r: Rule): nat {
    match r
    case Cond(_, _, _, _) => 0
    case Group(_, rules) => 1 + MaxDepth(rules)
  }

  function MaxDepth(rules: seq<Rule>): nat
    decreases rules
  {
    if rules == [] then 0
    else
      var d := Depth(rules[|rules| - 1]);
      var m := MaxDepth(rules[..|rules| - 1]);
      if d < m then m else d
  }

  /** Whether `x` occurs in `haystack` under PHP's array_diff comparison,
      which compares the string casts of the elements. */
  predicate OccursIn(x: Value, haystack: seq<Value>) {
    exists y :: y in haystack && StringCast(y) == StringCast(x)
  }

  /** PHP's `array_diff(a, b)`: the elements of `a`, in order, whose string
      cast matches no element of `b`. */
  function ArrayDiff(a: seq<Value>, b: seq<Value>): (d: seq<Value>)
    ensures |d| <= |a|
    ensures forall x :: x in d ==> x in a
  {
    if a == [] then []
    else if OccursIn(a[0], b) then ArrayDiff(a[1..], b)
    else [a[0]] + ArrayDiff(a[1..], b)
  }

  /** `array_diff(a, b) === []` holds exactly when every element of `a`
      occurs in `b`. */
  lemma {:induction false} ArrayDiffEmptyIff(a: seq<Value>, b: seq<Value>)
    ensures ArrayDiff(a, b) == [] <==> forall i :: 0 <= i < |a| ==> OccursIn(a[i], b)
  {
    if a != [] {
      ArrayDiffEmptyIff(a[1..], b);
      if forall i :: 0 <= i < |a| ==> OccursIn(a[i], b) {
        assert forall i :: 0 <= i < |a| - 1 ==> OccursIn(a[1..][i], b) by {
          forall i | 0 <= i < |a| - 1 ensures OccursIn(a[1..][i], b) {
            assert a[1..][i] == a[i + 1];
          }
        }
      } else if OccursIn(a[0], b) {
        var i :| 0 <= i < |a| && !OccursIn(a[i], b);
        assert i > 0 && a[1..][i - 1] == a[i];
      }
    }
  }

  /** `Equal::sameAs`. The other rule must be an Equal with the same
      ignore-case flag. With an array value the check is one-way
      containment against the other value cast to an array, and the columns
      are not compared; otherwise the inherited Condition comparison
      decides, which is not part of this model and is given as
      `conditionSameAs`. */
  function EqualSameAs(self: Rule, other: Rule, conditionSameAs: (Rule, Rule) -> bool): (same: bool)
    requires self.Cond? && self.op == Equal
    ensures same ==> other.Cond? && other.op == Equal && other.ignoreCase == self.ignoreCase
    ensures other.Cond? && other.op == Equal && other.ignoreCase == self.ignoreCase && self.value.Arr? ==>
      (same <==> forall i :: 0 <= i < |self.value.items| ==> OccursIn(self.value.items[i], ArrayCast(other.value)))
    ensures other.Cond? && other.op == Equal && other.ignoreCase == self.ignoreCase && !self.value.Arr? ==>
      (same <==> conditionSameAs(self, other))
  {
    if !(other.Cond? && other.op == Equal) then false
    else if self.ignoreCase != other.ignoreCase then false
    else if self.value.Arr? then
      ArrayDiffEmptyIff(self.value.items, ArrayCast(other.value));
      ArrayDiff(self.value.items, ArrayCast(other.value)) == []
    else conditionSameAs(self, other)
  }

  /** The array comparison ignores order and repetition: two Equal rules
      whose array values hold the same elements (by string cast) compare
      alike against every other rule. */
  lemma EqualSameAsIgnoresOrder(c: Column, d: Column, xs: seq<Value>, ys: seq<Value>, ic: bool,
                                other: Rule, conditionSameAs: (Rule, Rule) -> bool)
    requires forall x :: x in xs ==> x in ys
    requires forall y :: y in ys ==> y in xs
    ensures EqualSameAs(Cond(Equal, c, Arr(xs), ic), other, conditionSameAs)
         == EqualSameAs(Cond(Equal, d, Arr(ys), ic), other, conditionSameAs)
  {
    var l, r := Cond(Equal, c, Arr(xs), ic), Cond(Equal, d, Arr(ys), ic);
    if other.Cond? && other.op == Equal && other.ignoreCase == ic {
      var hay := ArrayCast(other.value);
      if EqualSameAs(l, other, conditionSameAs) {
        forall j | 0 <= j < |ys| ensures OccursIn(ys[j], hay) {
          assert ys[j] in xs;
          var i :| 0 <= i < |xs| && xs[i] == ys[j];
        }
      }
      if EqualSameAs(r, other, conditionSameAs) {
        forall i | 0 <= i < |xs| ensures OccursIn(xs[i], hay) {
          assert xs[i] in ys;
          var j :| 0 <= j < |ys| && ys[j] == xs[i];
        }
      }
    }
  }

  /** The array comparison is one-way: Equal(c, ['a']) is the same as
      Equal(d, ['a', 'b']) but not the other way round, whatever the columns. */
  lemma EqualSameAsIsOneWay(c: Column, d: Column, conditionSameAs: (Rule, Rule) -> bool)
    ensures EqualSameAs(Cond(Equal, c, Arr([Str("a")]), false), Cond(Equal, d, Arr([Str("a"), Str("b")]), false), conditionSameAs)
    ensures !EqualSameAs(Cond(Equal, d, Arr([Str("a"), Str("b")]), false), Cond(Equal, c, Arr([Str("a")]), false), conditionSameAs)
  {
    var small, large := [Str("a")], [Str("a"), Str("b")];
    assert OccursIn(Str("a"), large);
    assert forall y :: y in small ==> StringCast(y) == "a";
    assert !OccursIn(large[1], small);
  }

  /** A scalar or null value on the other side is cast to an array: an Equal
      with an empty array value is the same as any Equal with the same flag,
      and with a non-empty array it is never the same as one whose value is
      null. */
  lemma EqualSameAsNullOther(c: Column, xs: seq<Value>, ic: bool, d: Column, conditionSameAs: (Rule, Rule) -> bool)
    ensures EqualSameAs(Cond(Equal, c, Arr(xs), ic), Cond(Equal, d, Null, ic), conditionSameAs) <==> xs == []
  {
    if xs != [] {
      assert !OccursIn(xs[0], []);
    }
  }
}
