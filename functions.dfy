/** The free functions of src/functions.php: `arrayval`, the first key and
    value of an iterable, and `yield_groups`, which groups consecutive items
    of a traversable by a criterion. An iterable is modelled as the (key,
    value) pairs it yields, in order. */
module StdFunctions {
  import opened Wrappers
  import opened PhpValues
  import Strings

  /** What an iterable yields: (key, value) pairs in iteration order. */
  type Iterable = seq<(Value, Value)>

  // ---------------------------------------------------------------------
  // arrayval, iterable_key_first, iterable_value_first

  datatype ArrayvalError = NotArrayLike(got: Value)   // InvalidArgumentException

  /** `arrayval`: an array is returned as it is; any other value of the
      model is refused (objects and traversables are not modelled). */
  function Arrayval(subject: Value): (r: Result<Value, ArrayvalError>)
    ensures r.Success? <==> subject.Arr?
    ensures r.Success? ==> r.value == subject
    ensures r.Failure? ==> r.error == NotArrayLike(subject)
  {
    if subject.Arr? then Success(subject) else Failure(NotArrayLike(subject))
  }

  /** `iterable_key_first`: the first key, or null for an empty iterable. */
  function IterableKeyFirst(it: Iterable): (k: Value)
    ensures it == [] ==> k == Null
    ensures it != [] ==> k == it[0].0
  {
    if it == [] then Null else it[0].0
  }

  /** `iterable_value_first`: the first value, or null for an empty
      iterable. */
  function IterableValueFirst(it: Iterable): (v: Value)
    ensures it == [] ==> v == Null
    ensures it != [] ==> v == it[0].1
  {
    if it == [] then Null else it[0].1
  }

  /** The first key and the first value belong to the same first pair, and
      both are null when there is none. */
  lemma FirstKeyAndValue(it: Iterable)
    ensures it != [] ==> (IterableKeyFirst(it), IterableValueFirst(it)) == it[0]
    ensures it == [] ==> IterableKeyFirst(it) == Null && IterableValueFirst(it) == Null
  {
  }

  lemma FirstExamples()
    ensures IterableKeyFirst([(Str("a"), Str("a")), (Str("b"), Str("b"))]) == Str("a")
    ensures IterableKeyFirst([]) == Null
    ensures Arrayval(Null).Failure?
  {
  }

  // ---------------------------------------------------------------------
  // groups: ordered maps written key by key

  /** A group as PHP builds it: an ordered map from keys to values. Keys
      are compared as model values (PHP's key coercion is not modelled). */
  type Group = seq<(Value, Value)>

  function Lookup(g: Group, k: Value): (r: Option<Value>)
    ensures r.Some? ==> (k, r.value) in g
    ensures r.None? ==> forall p :: p in g ==> p.0 != k
  {
    if g == [] then None
    else if g[0].0 == k then Some(g[0].1)
    else Lookup(g[1..], k)
  }

  /** `$group[k] = v`: a present key keeps its place and gets the new
      value, a new key goes to the end. */
  function Put(g: Group, k: Value, v: Value): (r: Group)
    ensures |r| >= 1
  {
    if g == [] then [(k, v)]
    else if g[0].0 == k then [(k, v)] + g[1..]
    else [g[0]] + Put(g[1..], k, v)
  }

  /** After `$group[k] = v`, k maps to v. */
  lemma {:induction false} PutLookupSame(g: Group, k: Value, v: Value)
    ensures Lookup(Put(g, k, v), k) == Some(v)
    decreases |g|
  {
    if g != [] && g[0].0 != k {
      PutLookupSame(g[1..], k, v);
      assert Put(g, k, v)[1..] == Put(g[1..], k, v);
    }
  }

  /** Every other key keeps what it mapped to. */
  lemma {:induction false} PutLookupOther(g: Group, k: Value, v: Value, k': Value)
    requires k' != k
    ensures Lookup(Put(g, k, v), k') == Lookup(g, k')
    decreases |g|
  {
    if g != [] && g[0].0 != k {
      PutLookupOther(g[1..], k, v, k');
      assert Put(g, k, v)[1..] == Put(g[1..], k, v);
    } else if g != [] {
      assert Put(g, k, v)[1..] == g[1..];
    }
  }

  /** A new key goes to the end. */
  lemma {:induction false} PutNewKey(g: Group, k: Value, v: Value)
    requires Lookup(g, k).None?
    ensures Put(g, k, v) == g + [(k, v)]
    decreases |g|
  {
    if g != [] {
      PutNewKey(g[1..], k, v);
      assert g == [g[0]] + g[1..];
    }
  }

  /** A present key keeps its place: the group does not grow. */
  lemma {:induction false} PutPresentKey(g: Group, k: Value, v: Value)
    requires Lookup(g, k).Some?
    ensures |Put(g, k, v)| == |g|
    decreases |g|
  {
    if g[0].0 != k {
      PutPresentKey(g[1..], k, v);
    }
  }

  // ---------------------------------------------------------------------
  // yield_groups

  /** What the callback says about one item: its criterion and the key and
      value it goes under. */
  datatype Entry = Entry(criterion: Value, key: Value, value: Value)

  /** `a ?? b`. */
  function Coalesce(a: Value, b: Value): Value {
    if a.Null? then b else a
  }

  /** `list($c, $v, $k) = array_pad((array) result, 3, null)`, with the
      item's own key and value standing in for a missing or null `$k` and
      `$v`. */
  function Unpack(result: Value, key: Value, value: Value): (e: Entry)
    ensures var parts := ArrayCast(result);
      && e.criterion == (if |parts| > 0 then parts[0] else Null)
      && e.value == (if |parts| > 1 && !parts[1].Null? then parts[1] else value)
      && e.key == (if |parts| > 2 && !parts[2].Null? then parts[2] else key)
  {
    var parts := Strings.ArrayPad(ArrayCast(result), 3, Null);
    assert |parts| >= 3;
    Entry(parts[0], Coalesce(parts[2], key), Coalesce(parts[1], value))
  }

  /** The callback `groupBy(value, key)` applied to every item. */
  function Entries(items: Iterable, groupBy: (Value, Value) -> Value): (es: seq<Entry>)
    ensures |es| == |items|
    ensures forall i :: 0 <= i < |items| ==>
      es[i] == Unpack(groupBy(items[i].1, items[i].0), items[i].0, items[i].1)
  {
    seq(|items|, i requires 0 <= i < |items| => Unpack(groupBy(items[i].1, items[i].0), items[i].0, items[i].1))
  }

  /** Adding one entry to the groups built so far: an entry whose
      criterion is identical to the current one joins the current group,
      any other starts a new group. */
  function AddEntry(gs: seq<(Value, Group)>, e: Entry): seq<(Value, Group)> {
    if gs == [] then [(e.criterion, Put([], e.key, e.value))]
    else if e.criterion != gs[|gs| - 1].0 then gs + [(e.criterion, Put([], e.key, e.value))]
    else gs[..|gs| - 1] + [(gs[|gs| - 1].0, Put(gs[|gs| - 1].1, e.key, e.value))]
  }

  /** The groups yielded for a run of entries, as (criterion, group) pairs. */
  function Groups(es: seq<Entry>): (gs: seq<(Value, Group)>)
    ensures |gs| == 0 <==> |es| == 0
    decreases |es|
  {
    if es == [] then [] else AddEntry(Groups(es[..|es| - 1]), es[|es| - 1])
  }

  lemma GroupsSnoc(es: seq<Entry>, e: Entry)
    ensures Groups(es + [e]) == AddEntry(Groups(es), e)
  {
    assert (es + [e])[..|es|] == es;
  }

  /** `yield_groups(traversable, groupBy)`: the groups are collected in
      the order the generator yields them. */
  method YieldGroups(items: Iterable, groupBy: (Value, Value) -> Value) returns (groups: seq<(Value, Group)>)
    ensures groups == Groups(Entries(items, groupBy))
  {
    if |items| == 0 {
      return [];
    }
    var first := Unpack(groupBy(items[0].1, items[0].0), items[0].0, items[0].1);
    var criterion := first.criterion;
    var group := Put([], first.key, first.value);
    groups := [];
    GroupsFirst(items, groupBy);
    var i := 1;
    while i < |items|
      invariant 1 <= i <= |items|
      invariant groups + [(criterion, group)] == Groups(Entries(items, groupBy)[..i])
    {
      var (key, value) := items[i];
      var e := Unpack(groupBy(value, key), key, value);
      GroupsNext(items, groupBy, i);
      groups, criterion, group := Advance(groups, criterion, group, e);
      i := i + 1;
    }
    TakeAll(Entries(items, groupBy));
    groups := groups + [(criterion, group)];
  }

  /** The first item opens the first group. */
  lemma GroupsFirst(items: Iterable, groupBy: (Value, Value) -> Value)
    requires |items| > 0
    ensures var e := Unpack(groupBy(items[0].1, items[0].0), items[0].0, items[0].1);
      Groups(Entries(items, groupBy)[..1]) == [] + [(e.criterion, Put([], e.key, e.value))]
  {
    var es := Entries(items, groupBy);
    GroupsSnoc([], es[0]);
    assert es[..1] == [] + [es[0]];
  }

  /** Each further item adds its entry to the groups so far. */
  lemma GroupsNext(items: Iterable, groupBy: (Value, Value) -> Value, i: nat)
    requires i < |items|
    ensures Groups(Entries(items, groupBy)[..i + 1])
      == AddEntry(Groups(Entries(items, groupBy)[..i]), Unpack(groupBy(items[i].1, items[i].0), items[i].0, items[i].1))
  {
    var es := Entries(items, groupBy);
    TakeOneMore(es, i);
    GroupsSnoc(es[..i], es[i]);
  }

  /** The body of the loop in `yield_groups`: an entry with the current
      criterion is put into the current group; any other closes it and
      opens a new one holding the entry. */
  method Advance(done: seq<(Value, Group)>, criterion: Value, group: Group, e: Entry)
    returns (done': seq<(Value, Group)>, criterion': Value, group': Group)
    ensures done' + [(criterion', group')] == AddEntry(done + [(criterion, group)], e)
  {
    AddToCurrent(done, criterion, group, e);
    done', criterion', group' := done, criterion, group;
    if e.criterion != criterion {
      done' := done + [(criterion, group)];
      group' := [];
      criterion' := e.criterion;
    }
    group' := Put(group', e.key, e.value);
  }

  lemma TakeOneMore<T>(s: seq<T>, i: nat)
    requires i < |s|
    ensures s[..i + 1] == s[..i] + [s[i]]
  {
  }

  lemma TakeAll<T>(s: seq<T>)
    ensures s[..|s|] == s
  {
  }

  /** One step of the loop in `yield_groups`: the entry either joins the
      current group or closes it and opens the next one. */
  lemma AddToCurrent(done: seq<(Value, Group)>, criterion: Value, group: Group, e: Entry)
    ensures AddEntry(done + [(criterion, group)], e)
      == if e.criterion != criterion
         then done + [(criterion, group)] + [(e.criterion, Put([], e.key, e.value))]
         else done + [(criterion, Put(group, e.key, e.value))]
  {
    var gs := done + [(criterion, group)];
    assert gs[..|gs| - 1] == done;
  }

  /** Every group yielded holds at least one item, two neighbouring groups
      never share their criterion, and the last group carries the last
      item's criterion. */
  lemma {:induction false} GroupsWellFormed(es: seq<Entry>)
    ensures var gs := Groups(es);
      && |gs| <= |es|
      && (|gs| > 0 ==> gs[|gs| - 1].0 == es[|es| - 1].criterion)
      && (forall i :: 0 <= i < |gs| ==> |gs[i].1| > 0)
      && (forall i :: 0 < i < |gs| ==> gs[i].0 != gs[i - 1].0)
    decreases |es|
  {
    if es != [] {
      GroupsWellFormed(es[..|es| - 1]);
    }
  }

  /** An empty traversable yields no groups. */
  lemma NoItemsNoGroups(groupBy: (Value, Value) -> Value)
    ensures Groups(Entries([], groupBy)) == []
  {
  }

  /** All (key, value) pairs of the groups, group after group. */
  function Flatten(gs: seq<(Value, Group)>): Group
    decreases |gs|
  {
    if gs == [] then [] else Flatten(gs[..|gs| - 1]) + gs[|gs| - 1].1
  }

  function Pairs(es: seq<Entry>): (ps: Group)
    ensures |ps| == |es| && forall i :: 0 <= i < |es| ==> ps[i] == (es[i].key, es[i].value)
  {
    seq(|es|, i requires 0 <= i < |es| => (es[i].key, es[i].value))
  }

  predicate DistinctKeys(es: seq<Entry>) {
    forall i, j :: 0 <= i < j < |es| ==> es[i].key != es[j].key
  }

  /** With pairwise distinct keys, concatenating the groups gives back
      every item's key and value, in order. */
  lemma FlattenSnoc(gs: seq<(Value, Group)>, x: (Value, Group))
    ensures Flatten(gs + [x]) == Flatten(gs) + x.1
  {
    assert (gs + [x])[..|gs|] == gs;
  }

  lemma {:induction false} FlattenGroups(es: seq<Entry>)
    requires DistinctKeys(es)
    ensures Flatten(Groups(es)) == Pairs(es)
    decreases |es|
  {
    if es != [] {
      var n := |es|;
      var init := es[..n - 1];
      var e := es[n - 1];
      assert es == init + [e];
      assert DistinctKeys(init) && forall j :: 0 <= j < |init| ==> init[j].key != e.key by {
        assert forall j :: 0 <= j < |init| ==> init[j] == es[j];
      }
      FlattenGroups(init);
      GroupsSnoc(init, e);
      PairsSnoc(init, e);
      FlattenAddEntry(init, Groups(init), e);
    }
  }

  lemma PairsSnoc(es: seq<Entry>, e: Entry)
    ensures Pairs(es + [e]) == Pairs(es) + [(e.key, e.value)]
  {
  }

  /** Adding an entry whose key is new adds its pair at the end of the
      flattened groups, whether it joins the last group or opens one. */
  lemma {:induction false} FlattenAddEntry(init: seq<Entry>, gs: seq<(Value, Group)>, e: Entry)
    requires Flatten(gs) == Pairs(init)
    requires forall j :: 0 <= j < |init| ==> init[j].key != e.key
    ensures Flatten(AddEntry(gs, e)) == Pairs(init) + [(e.key, e.value)]
  {
    if gs == [] || e.criterion != gs[|gs| - 1].0 {
      assert AddEntry(gs, e) == gs + [(e.criterion, [(e.key, e.value)])];
      FlattenSnoc(gs, (e.criterion, [(e.key, e.value)]));
    } else {
      var front := gs[..|gs| - 1];
      var last := gs[|gs| - 1];
      assert gs == front + [last];
      FlattenSnoc(front, last);
      NewKeyInLastGroup(init, e.key, front, last);
      PutNewKey(last.1, e.key, e.value);
      assert AddEntry(gs, e) == front + [(last.0, last.1 + [(e.key, e.value)])];
      FlattenSnoc(front, (last.0, last.1 + [(e.key, e.value)]));
    }
  }

  lemma NewKeyInLastGroup(init: seq<Entry>, k: Value, front: seq<(Value, Group)>, last: (Value, Group))
    requires Flatten(front) + last.1 == Pairs(init)
    requires forall j :: 0 <= j < |init| ==> init[j].key != k
    ensures Lookup(last.1, k).None?
  {
    forall p | p in last.1
      ensures p.0 != k
    {
      assert p in Pairs(init);
      var j :| 0 <= j < |init| && Pairs(init)[j] == p;
      assert p.0 == init[j].key;
    }
  }

  /** A criterion that comes back after a different one starts a new
      group: criteria are not merged across the traversable. */
  lemma RecurringCriterionExample()
    ensures var a, b := Str("a"), Str("b");
      Groups([Entry(a, Int(0), a), Entry(b, Int(1), b), Entry(a, Int(2), a)])
        == [(a, [(Int(0), a)]), (b, [(Int(1), b)]), (a, [(Int(2), a)])]
  {
    var a, b := Str("a"), Str("b");
    var e0, e1, e2 := Entry(a, Int(0), a), Entry(b, Int(1), b), Entry(a, Int(2), a);
    GroupsSnoc([], e0);
    GroupsSnoc([e0], e1);
    GroupsSnoc([e0, e1], e2);
    assert [] + [e0] == [e0] && [e0] + [e1] == [e0, e1] && [e0, e1] + [e2] == [e0, e1, e2];
  }

  /** Within a group a repeated key keeps its first position and takes
      the later value. */
  lemma RepeatedKeyOverwrites(c: Value, k: Value, v1: Value, v2: Value)
    ensures Groups([Entry(c, k, v1), Entry(c, k, v2)]) == [(c, [(k, v2)])]
  {
    var e1, e2 := Entry(c, k, v1), Entry(c, k, v2);
    GroupsSnoc([], e1);
    GroupsSnoc([e1], e2);
    assert [] + [e1] == [e1] && [e1] + [e2] == [e1, e2];
    assert Groups([e1]) == [(c, [(k, v1)])];
    assert [(k, v1)][1..] == [];
    assert Put([(k, v1)], k, v2) == [(k, v2)];
  }
}
