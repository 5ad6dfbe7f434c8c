/** The filter-tree builder (src/Filters.php): one root chain per object,
    and the four operations that merge a rule into it, either appending it
    to a root of the requested kind or wrapping the previous root. */
module Filters {
  import opened FilterRules
  import opened FilterChains

  /** The tree after merging `r` into `root` with combinator `kind`: a root
      of that kind gets `r` appended; any other root becomes the first child
      of a new chain of that kind, unless it has no children, in which case
      it is dropped. */
  function Join(kind: Combinator, root: Rule, r: Rule): (t: Rule)
    requires root.Group?
    ensures t.Group? && t.kind == kind && |t.rules| > 0 && t.rules[|t.rules| - 1] == r
  {
    if root.kind == kind then Group(kind, root.rules + [r])
    else if root.rules == [] then Group(kind, [r])
    else Group(kind, [root, r])
  }

  /** The builder's calls, for stating what a sequence of them builds. */
  datatype Call = Filter(r: Rule) | OrFilter(r: Rule) | NotFilter(r: Rule) | OrNotFilter(r: Rule)

  /** The tree after one call: `notFilter(r)` is `filter(None(r))` and
      `orNotFilter(r)` is `orFilter(None(r))`. */
  function Apply(root: Rule, call: Call): (t: Rule)
    requires root.Group?
    ensures t.Group? && |t.rules| > 0
  {
    match call
    case Filter(r) => Join(All, root, r)
    case OrFilter(r) => Join(Any, root, r)
    case NotFilter(r) => Join(All, root, Group(None, [r]))
    case OrNotFilter(r) => Join(Any, root, Group(None, [r]))
  }

  /** The tree `getFilter()` returns after the given calls on a fresh
      object, which starts from an empty All. */
  function Build(calls: seq<Call>): (t: Rule)
    ensures t.Group?
  {
    if calls == [] then Group(All, [])
    else Apply(Build(calls[..|calls| - 1]), calls[|calls| - 1])
  }

  /** The object the builder is mixed into; `filter` is the stored root. */
  class Filterable {
    var filter: Chain?

    constructor ()
      ensures filter == null
    {
      filter := null;
    }

    /** The tree `getFilter()` returns. */
    ghost function Tree(): (t: Rule)
      reads this, filter
      ensures t.Group?
    {
      if filter == null then Group(All, []) else filter.AsRule()
    }

    /** `getFilter()`: the stored root, or else a fresh empty All that is
        not stored. */
    method GetFilter() returns (c: Chain)
      ensures filter != null ==> c == filter
      ensures filter == null ==> fresh(c) && c.kind == All && c.IsEmpty()
      ensures c.AsRule() == Tree()
    {
      if filter != null {
        c := filter;
      } else {
        c := new Chain(All, []);
      }
    }

    /** `filter(rule)`: an All root keeps its identity and gets the rule
        appended; otherwise a new All root holds the previous root (if it
        had children) followed by the rule. */
    method Filter(r: Rule) returns (self: Filterable)
      modifies this, filter
      ensures self == this && filter != null
      ensures Tree() == Join(All, old(Tree()), r)
      ensures old(filter) != null && old(filter.kind) == All ==> filter == old(filter)
      ensures old(filter) == null || old(filter.kind) != All ==> fresh(filter)
    {
      var current := GetFilter();
      if current.kind == All {
        filter := current.Add(r);
      } else {
        filter := new Chain(All, [r]);
        if !current.IsEmpty() {
          var found := filter.InsertBefore(current.AsRule(), r);
        }
      }
      self := this;
    }

    /** `orFilter(rule)`: the same with Any in place of All. */
    method OrFilter(r: Rule) returns (self: Filterable)
      modifies this, filter
      ensures self == this && filter != null
      ensures Tree() == Join(Any, old(Tree()), r)
      ensures old(filter) != null && old(filter.kind) == Any ==> filter == old(filter)
      ensures old(filter) == null || old(filter.kind) != Any ==> fresh(filter)
    {
      var current := GetFilter();
      if current.kind == Any {
        filter := current.Add(r);
      } else {
        filter := new Chain(Any, [r]);
        if !current.IsEmpty() {
          var found := filter.InsertBefore(current.AsRule(), r);
        }
      }
      self := this;
    }

    /** Makes the builder call `call` describes. */
    method Perform(call: Call)
      modifies this, filter
      ensures Tree() == Apply(old(Tree()), call)
      ensures filter == old(filter) || fresh(filter)
    {
      var s: Filterable;
      match call {
        case Filter(r) => s := Filter(r);
        case OrFilter(r) => s := OrFilter(r);
        case NotFilter(r) => s := NotFilter(r);
        case OrNotFilter(r) => s := OrNotFilter(r);
      }
    }

    /** `notFilter(rule)` is `filter(None(rule))`. */
    method NotFilter(r: Rule) returns (self: Filterable)
      modifies this, filter
      ensures self == this && filter != null
      ensures Tree() == Join(All, old(Tree()), Group(None, [r]))
      ensures filter == old(filter) || fresh(filter)
    {
      var negated := new Chain(None, [r]);
      self := Filter(negated.AsRule());
    }

    /** `orNotFilter(rule)` is `orFilter(None(rule))`. */
    method OrNotFilter(r: Rule) returns (self: Filterable)
      modifies this, filter
      ensures self == this && filter != null
      ensures Tree() == Join(Any, old(Tree()), Group(None, [r]))
      ensures filter == old(filter) || fresh(filter)
    {
      var negated := new Chain(None, [r]);
      self := OrFilter(negated.AsRule());
    }
  }

  // ---------------------------------------------------------------------
  // Meaning: the builder keeps the boolean meaning of the calls.

  /** A reference meaning for filter trees: All is conjunction, Any is
      disjunction, None holds when none of its children holds. How a single
      condition is decided lies outside this library and is the parameter
      `holds`. */
  function Eval(t: Rule, holds: Rule -> bool): bool
    decreases t, 1
  {
    match t
    case Cond(_, _, _, _) => holds(t)
    case Group(kind, rules) =>
      match kind
      case All => EvalAll(rules, holds)
      case Any => EvalAny(rules, holds)
      case None => !EvalAny(rules, holds)
  }

  function EvalAll(rules: seq<Rule>, holds: Rule -> bool): bool
    decreases rules, 0
  {
    if rules == [] then true
    else EvalAll(rules[..|rules| - 1], holds) && Eval(rules[|rules| - 1], holds)
  }

  function EvalAny(rules: seq<Rule>, holds: Rule -> bool): bool
    decreases rules, 0
  {
    if rules == [] then false
    else EvalAny(rules[..|rules| - 1], holds) || Eval(rules[|rules| - 1], holds)
  }

  /** Merging a rule never changes what the existing tree means: the result
      is the old tree combined with the rule by the requested combinator,
      or just the rule when the old tree had no children. */
  lemma JoinKeepsMeaning(kind: Combinator, root: Rule, r: Rule, holds: Rule -> bool)
    requires root.Group? && kind != None
    ensures root.rules == [] ==> Eval(Join(kind, root, r), holds) == Eval(r, holds)
    ensures root.rules != [] && kind == All ==>
      Eval(Join(kind, root, r), holds) == (Eval(root, holds) && Eval(r, holds))
    ensures root.rules != [] && kind == Any ==>
      Eval(Join(kind, root, r), holds) == (Eval(root, holds) || Eval(r, holds))
  {
    var t := Join(kind, root, r);
    var init := t.rules[..|t.rules| - 1];
    if root.kind == kind {
      assert init == root.rules;
    } else if root.rules == [] {
      assert init == [];
    } else {
      assert init == [root] && init[..0] == [];
      assert EvalAll(init, holds) == Eval(root, holds);
      assert EvalAny(init, holds) == Eval(root, holds);
    }
    assert init == [] ==> !EvalAny(init, holds) && EvalAll(init, holds);
  }

  /** The rule a call merges: its argument, negated for the `not` calls. */
  function Operand(call: Call): Rule {
    if call.Filter? || call.OrFilter? then call.r else Group(None, [call.r])
  }

  /** The meaning of a call sequence read left to right: each call combines
      everything before it with its operand, by AND for `filter`/`notFilter`
      and by OR for `orFilter`/`orNotFilter`; the first call contributes its
      operand alone, and no call at all means no restriction. */
  function Meaning(calls: seq<Call>, holds: Rule -> bool): bool {
    if calls == [] then true
    else
      var last := calls[|calls| - 1];
      var operand := Eval(Operand(last), holds);
      if |calls| == 1 then operand
      else if last.Filter? || last.NotFilter? then Meaning(calls[..|calls| - 1], holds) && operand
      else Meaning(calls[..|calls| - 1], holds) || operand
  }

  /** The tree the builder produces means exactly the call sequence read
      left to right. */
  lemma {:induction false} BuildKeepsMeaning(calls: seq<Call>, holds: Rule -> bool)
    ensures Eval(Build(calls), holds) == Meaning(calls, holds)
    decreases |calls|
  {
    if calls != [] {
      var init := calls[..|calls| - 1];
      var last := calls[|calls| - 1];
      var root := Build(init);
      BuildKeepsMeaning(init, holds);
      var kind := if last.Filter? || last.NotFilter? then All else Any;
      assert Apply(root, last) == Join(kind, root, Operand(last));
      JoinKeepsMeaning(kind, root, Operand(last), holds);
      if |calls| == 1 {
        assert init == [];
      } else {
        assert init[..|init| - 1] == calls[..|calls| - 2];
        assert root.rules != [];
      }
    }
  }

  // ---------------------------------------------------------------------
  // Shape: depth and breadth.

  lemma {:induction false} MaxDepthAppend(rules: seq<Rule>, r: Rule)
    ensures MaxDepth(rules + [r]) == if Depth(r) < MaxDepth(rules) then MaxDepth(rules) else Depth(r)
  {
    assert (rules + [r])[..|rules|] == rules;
  }

  /** Appending to a root of the same kind makes the tree no deeper than
      the root or one level above the rule; wrapping adds exactly one level
      above the deeper of the old root and the rule. */
  lemma JoinDepth(kind: Combinator, root: Rule, r: Rule)
    requires root.Group?
    ensures root.kind == kind ==>
      Depth(Join(kind, root, r)) == if 1 + Depth(r) < Depth(root) then Depth(root) else 1 + Depth(r)
    ensures root.kind != kind && root.rules == [] ==> Depth(Join(kind, root, r)) == 1 + Depth(r)
    ensures root.kind != kind && root.rules != [] ==>
      Depth(Join(kind, root, r)) == 1 + (if Depth(r) < Depth(root) then Depth(root) else Depth(r))
  {
    if root.kind == kind {
      MaxDepthAppend(root.rules, r);
    } else if root.rules == [] {
      JoinDepthFresh(kind, root, r);
    } else {
      JoinDepthWrap(kind, root, r);
    }
  }

  lemma JoinDepthFresh(kind: Combinator, root: Rule, r: Rule)
    requires root.Group? && root.kind != kind && root.rules == []
    ensures Depth(Join(kind, root, r)) == 1 + Depth(r)
  {
    MaxDepthAppend([], r);
    assert [] + [r] == [r];
  }

  lemma JoinDepthWrap(kind: Combinator, root: Rule, r: Rule)
    requires root.Group? && root.kind != kind && root.rules != []
    ensures Depth(Join(kind, root, r)) == 1 + (if Depth(r) < Depth(root) then Depth(root) else Depth(r))
  {
    MaxDepthAppend([root], r);
    MaxDepthAppend([], root);
    assert [] + [root] == [root];
    assert [root] + [r] == [root, r];
  }

  /** The tree after merging each of `rs` in turn with the same combinator. */
  function JoinEach(kind: Combinator, root: Rule, rs: seq<Rule>): (t: Rule)
    requires root.Group?
    ensures t.Group?
    decreases |rs|
  {
    if rs == [] then root
    else Join(kind, JoinEach(kind, root, rs[..|rs| - 1]), rs[|rs| - 1])
  }

  /** A run of same-combinator calls on a root of that kind keeps the tree
      flat: the root's children followed by the rules, one per call, and no
      deeper than the root or one level above the deepest rule. */
  lemma {:induction false} RunStaysFlat(kind: Combinator, root: Rule, rs: seq<Rule>)
    requires root.Group? && root.kind == kind
    ensures JoinEach(kind, root, rs) == Group(kind, root.rules + rs)
    ensures Depth(JoinEach(kind, root, rs)) == if 1 + MaxDepth(rs) < Depth(root) then Depth(root) else 1 + MaxDepth(rs)
    decreases |rs|
  {
    if rs != [] {
      var init := rs[..|rs| - 1];
      RunStaysFlat(kind, root, init);
      assert root.rules + init + [rs[|rs| - 1]] == root.rules + rs;
    }
    MaxDepthConcat(root.rules, rs);
  }

  lemma {:induction false} MaxDepthConcat(a: seq<Rule>, b: seq<Rule>)
    ensures MaxDepth(a + b) == if MaxDepth(a) < MaxDepth(b) then MaxDepth(b) else MaxDepth(a)
    decreases |b|
  {
    if b == [] {
      assert a + b == a;
    } else {
      var init := b[..|b| - 1];
      MaxDepthConcat(a, init);
      assert (a + b)[..|a + b| - 1] == a + init;
      assert b[..|b| - 1] == init;
    }
  }

  // ---------------------------------------------------------------------
  // What the builder's tests and its documentation expect.

  /** After any call the root is non-empty, of the call's combinator, and
      ends with the call's argument (wrapped in None for the negating calls). */
  lemma BuildShape(calls: seq<Call>)
    requires calls != []
    ensures var t := Build(calls); var c := calls[|calls| - 1];
      && |t.rules| > 0
      && t.kind == (if c.Filter? || c.NotFilter? then All else Any)
      && t.rules[|t.rules| - 1] == (if c.Filter? || c.OrFilter? then c.r else Group(None, [c.r]))
  {
  }

  /** On a fresh object `filter(r)` gives All(r) and `orFilter(r)` gives
      Any(r): the empty default never becomes a child. */
  lemma FirstCall(r: Rule)
    ensures Build([Filter(r)]) == Group(All, [r])
    ensures Build([OrFilter(r)]) == Group(Any, [r])
    ensures Build([NotFilter(r)]) == Group(All, [Group(None, [r])])
    ensures Build([OrNotFilter(r)]) == Group(Any, [Group(None, [r])])
  {
    assert [Filter(r)][..0] == [] && [OrFilter(r)][..0] == [];
    assert [NotFilter(r)][..0] == [] && [OrNotFilter(r)][..0] == [];
  }

  /** The eight hierarchies the builder's tests expect, for any two rules. */
  lemma TestedHierarchies(a: Rule, b: Rule)
    ensures Build([Filter(a), Filter(b)]) == Group(All, [a, b])
    ensures Build([OrFilter(a), Filter(b)]) == Group(All, [Group(Any, [a]), b])
    ensures Build([OrFilter(a), OrFilter(b)]) == Group(Any, [a, b])
    ensures Build([Filter(a), OrFilter(b)]) == Group(Any, [Group(All, [a]), b])
    ensures Build([NotFilter(a), NotFilter(b)]) == Group(All, [Group(None, [a]), Group(None, [b])])
    ensures Build([OrFilter(a), NotFilter(b)]) == Group(All, [Group(Any, [a]), Group(None, [b])])
    ensures Build([OrNotFilter(a), OrNotFilter(b)]) == Group(Any, [Group(None, [a]), Group(None, [b])])
    ensures Build([Filter(a), OrNotFilter(b)]) == Group(Any, [Group(All, [a]), Group(None, [b])])
  {
    FirstCall(a);
    assert [Filter(a), Filter(b)][..1] == [Filter(a)];
    assert [OrFilter(a), Filter(b)][..1] == [OrFilter(a)];
    assert [OrFilter(a), OrFilter(b)][..1] == [OrFilter(a)];
    assert [Filter(a), OrFilter(b)][..1] == [Filter(a)];
    assert [NotFilter(a), NotFilter(b)][..1] == [NotFilter(a)];
    assert [OrFilter(a), NotFilter(b)][..1] == [OrFilter(a)];
    assert [OrNotFilter(a), OrNotFilter(b)][..1] == [OrNotFilter(a)];
    assert [Filter(a), OrNotFilter(b)][..1] == [Filter(a)];
  }

  /** filter(a), orFilter(b), filter(c) gives All(Any(All(a), b), c). */
  lemma MixedRun(a: Rule, b: Rule, c: Rule)
    ensures Build([Filter(a), OrFilter(b), Filter(c)]) == Group(All, [Group(Any, [Group(All, [a]), b]), c])
  {
    TestedHierarchies(a, b);
    assert [Filter(a), OrFilter(b), Filter(c)][..2] == [Filter(a), OrFilter(b)];
  }

  /** The methods build what `Build` describes for every sequence of
      calls made on a fresh object. */
  method BuildRun(calls: seq<Call>) returns (f: Filterable)
    ensures fresh(f)
    ensures f.Tree() == Build(calls)
  {
    f := new Filterable();
    var i := 0;
    while i < |calls|
      invariant 0 <= i <= |calls|
      invariant fresh(f) && (f.filter == null || fresh(f.filter))
      invariant f.Tree() == Build(calls[..i])
    {
      assert calls[..i + 1][..i] == calls[..i];
      f.Perform(calls[i]);
      i := i + 1;
    }
    assert calls[..|calls|] == calls;
  }

  /** The methods build what `Build` describes: a fresh object after
      filter(a), orFilter(b), filter(c). */
  method BuilderRun(a: Rule, b: Rule, c: Rule) returns (f: Filterable)
    ensures fresh(f) && f.filter != null
    ensures f.Tree() == Build([Filter(a), OrFilter(b), Filter(c)])
  {
    f := new Filterable();
    var s := f.Filter(a);
    s := f.OrFilter(b);
    s := f.Filter(c);
    FirstCall(a);
    TestedHierarchies(a, b);
    MixedRun(a, b, c);
  }
}
