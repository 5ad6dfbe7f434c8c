/** The root chain object the builder mutates. Chain.php is not part of
    this model: only the three operations the builder calls (src/Filters.php
    lines 19-23) are modelled, with the behaviour the builder and its tests
    rely on. Children are rule values. */
module FilterChains {
  import opened FilterRules

  /** Index of the first occurrence of `x` in `s`. */
  function IndexOf(s: seq<Rule>, x: Rule): (i: nat)
    requires x in s
    ensures i < |s| && s[i] == x
    ensures forall j :: 0 <= j < i ==> s[j] != x
  {
    if s[0] == x then 0 else 1 + IndexOf(s[1..], x)
  }

  class Chain {
    const kind: Combinator
    var rules: seq<Rule>

    /** `Filter::all(...)`, `Filter::any(...)`, `Filter::none(...)`. */
    constructor (kind: Combinator, rules: seq<Rule>)
      ensures this.kind == kind && this.rules == rules
    {
      this.kind := kind;
      this.rules := rules;
    }

    function IsEmpty(): bool
      reads this
    {
      rules == []
    }

    /** This chain as a node of a filter tree. */
    function AsRule(): (r: Rule)
      reads this
      ensures r.Group? && r.kind == kind && r.rules == rules
      ensures r.rules == [] <==> IsEmpty()
    {
      Group(kind, rules)
    }

    /** `add(rule)` appends the rule as the last child and returns this chain. */
    method Add(rule: Rule) returns (self: Chain)
      modifies this
      ensures self == this
      ensures rules == old(rules) + [rule]
    {
      rules := rules + [rule];
      self := this;
    }

    /** `insertBefore(rule, before)` puts `rule` directly in front of the
        first child equal to `before`; when there is none, nothing changes
        and `found` is false (the chain raises an error in that case). */
    method InsertBefore(rule: Rule, before: Rule) returns (found: bool)
      modifies this
      ensures found <==> before in old(rules)
      ensures found ==> rules == old(rules)[..IndexOf(old(rules), before)] + [rule] + old(rules)[IndexOf(old(rules), before)..]
      ensures !found ==> rules == old(rules)
    {
      found := before in rules;
      if found {
        var i := IndexOf(rules, before);
        rules := rules[..i] + [rule] + rules[i..];
      }
    }
  }
}
