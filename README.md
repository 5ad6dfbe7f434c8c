# ipl-stdlib core, modelled in Dafny

This project models the core of Icinga's `ipl-stdlib` PHP library and proves
properties of the model. It covers:

- **The filter builder** (`Filters`): it keeps one root chain per object. `filter`
  and `notFilter` merge a rule into it with AND, and `orFilter` and `orNotFilter` with OR.
  A root of the requested kind grows in place; any other root is wrapped in a new one.
- **Filter conditions**: the column, value and ignore-case flag of `Equal`, `Like`
  and `Unlike`, the metadata that is created lazily and deep-copied on clone, and
  `Equal::sameAs`.
- **`Data`**: a string-keyed store updated in place.
- **The base-filter slot** (`BaseFilter`).
- **`OrderIterator`**: values are stored under `order << 8`, probing up to the next
  key that `isset` does not report (a key holding null counts as free), and
  iterated in ascending key order.
- **`ExponentialBackoff`**: wait times double from a minimum up to a maximum, and a
  retry loop runs around a callback that may throw.
- **The string helpers of `Str`**: `camel`, `startsWith`, `symmetricSplit`,
  `trimSplit`, and the PHP functions they are built from.
- **The free functions of `functions.php`**: `arrayval`, `iterable_key_first`,
  `iterable_value_first` and `yield_groups`.
- **`MessageContainer`**.
- **The `Option` attribute's name rules** and how an option's value is taken out of
  the values map.

How each part is modelled:

- Objects whose fields the library updates in place are Dafny classes:
  - `Data`, `Condition`, the filter chain, the builder, `BaseFilter`,
    `OrderIterator`, `ExponentialBackoff` and `MessageContainer`.
  - Their methods carry `modifies` clauses.
  - Their `ensures` clauses tie the new state to specification functions.
- Pure code is made of functions and lemmas.
- Loops in the source are methods with loop invariants, proved against a function:
  - the probe of `add`, and `extend`;
  - `retry`;
  - `yield_groups`;
  - `setMessages`;
  - the name loop of `extractValue`.
- PHP's untyped values are the datatype `PhpValues.Value`.
- Exceptions are `Failure` results of a `Result` datatype.
- Integers are unbounded.

Files:

| file | contents |
|---|---|
| wrappers.dfy | `Option` and `Result` |
| php_values.dfy | PHP values, the `(string)` and `(array)` casts |
| data.dfy | `Data` |
| filter_rules.dfy | filter trees as values, `array_diff`, `Equal::sameAs` |
| filter_condition.dfy | `Condition` with metadata and the ignore-case flag |
| filter_chain.dfy | the three chain operations the builder calls |
| filters.dfy | the builder, and the meaning and shape of what it builds |
| base_filter.dfy | `BaseFilter` |
| order_iterator.dfy | `OrderIterator` and its ordering properties |
| backoff.dfy | `ExponentialBackoff` |
| str.dfy | `Str` and the string functions under it |
| functions.dfy | `arrayval`, the iterable-first helpers, `yield_groups` |
| message_container.dfy | `MessageContainer` |
| option.dfy | `Option` |

The builder calls `insertBefore($currentFilter, $filter)` (src/Filters.php:23,
src/Filters.php:38). The model follows this call as the code makes it: the
previous root ends up in front of the new rule, whichever way the parameter names
of `insertBefore` are read.

## Model

| member | source | states |
|---|---|---|
| Filters.Filterable.GetFilter | src/Filters.php:10-13 | returns the stored root; when there is none it returns a fresh empty All that is not stored |
| Filters.Filterable.Filter | src/Filters.php:15-28 | the new tree is `Join(All, old tree, rule)`; an All root keeps its identity, and any other root is replaced by a fresh All |
| Filters.Filterable.OrFilter | src/Filters.php:30-43 | the same as `Filter`, with Any: the tree is `Join(Any, old tree, rule)` |
| Filters.Filterable.NotFilter | src/Filters.php:45-50 | the tree is `Join(All, old tree, None(rule))`, i.e. `filter(None(rule))` |
| Filters.Filterable.OrNotFilter | src/Filters.php:52-57 | the tree is `Join(Any, old tree, None(rule))`, i.e. `orFilter(None(rule))` |
| Filters.Filterable.constructor | src/Filters.php:8 | no root is stored initially |
| Filters.Filterable.Tree | src/Filters.php:10-13 | the tree `getFilter()` returns is always a chain |
| Filters.Join | src/Filters.php:15-43 | the result is a non-empty chain of the requested kind whose last child is the rule |
| Filters.Apply | src/Filters.php:15-57 | after any of the four calls the root is a non-empty chain |
| Filters.Build | src/Filters.php:10-57 | the tree after any sequence of calls on a fresh object is a chain |
| Filters.JoinKeepsMeaning | src/Filters.php:15-43 | merging never changes what the old tree means. The result evaluates to old AND rule (All) or old OR rule (Any), or to the rule alone when the old root was empty |
| Filters.BuildKeepsMeaning | src/Filters.php:15-57 | the built tree evaluates exactly like the call sequence read left to right, combined by AND/OR, with None negating |
| Filters.JoinDepth | src/Filters.php:17-24 | appending to a root of the same kind adds no level above the rule; wrapping adds exactly one level above the deeper of the old root and the rule |
| Filters.RunStaysFlat | src/Filters.php:17-19 | a run of same-kind calls on a root of that kind yields the root's children followed by the rules, one level deep |
| Filters.BuildShape | src/Filters.php:15-57 | after any call the root is non-empty, All after `filter`/`notFilter` and Any after `orFilter`/`orNotFilter`, and ends with the (negated) argument |
| Filters.FirstCall | src/Filters.php:12-24 | on a fresh object `filter(r)` gives All(r) and `orFilter(r)` gives Any(r); the empty default is never a child |
| Filters.TestedHierarchies | tests/FiltersTest.php:19-104 | the eight keep/wrap hierarchies of the builder's tests, for any two rules |
| Filters.MixedRun | src/Filters.php:15-43 | `filter(a)`, `orFilter(b)`, `filter(c)` gives All(Any(All(a), b), c) |
| Filters.Filterable.Perform | src/Filters.php:15-57 | one builder call changes the tree as `Apply` describes |
| Filters.BuildRun | src/Filters.php:15-57 | any sequence of `filter`, `orFilter`, `notFilter` and `orNotFilter` calls on a fresh object builds exactly the tree that `Build` describes |
| Filters.BuilderRun | src/Filters.php:15-43 | the methods build exactly the tree that `Build` describes for that run |
| FilterChains.Chain.constructor | src/Filters.php:12 | a chain of the given kind holding the given children |
| FilterChains.Chain.Add | src/Filters.php:19 | `add(rule)` appends the rule as the last child and returns the same chain |
| FilterChains.Chain.InsertBefore | src/Filters.php:23 | inserts the rule directly before the first child equal to `before`; reports whether there was one |
| FilterRules.ArrayDiff | src/Filter/Equal.php:43 | `array_diff` keeps only elements of its first argument, and never more of them |
| FilterRules.ArrayDiffEmptyIff | src/Filter/Equal.php:43 | `array_diff(a, b) === []` exactly when every element of `a` matches an element of `b` by string cast |
| FilterRules.EqualSameAs | src/Filter/Equal.php:32-47 | the result is false unless the other rule is an Equal with the same flag. For an array value it holds iff every element occurs in the other value cast to an array; otherwise the inherited comparison decides |
| FilterRules.EqualSameAsIgnoresOrder | src/Filter/Equal.php:42-44 | array values holding the same elements in any order or multiplicity compare alike |
| FilterRules.EqualSameAsIsOneWay | src/Filter/Equal.php:42-44 | the array comparison is containment, not equality: ['a'] is the same as ['a','b'] but not conversely |
| FilterRules.EqualSameAsNullOther | src/Filter/Equal.php:43 | against a null value, an array-valued Equal is the same only when its array is empty |
| PhpValues.ArrayCast | src/Filter/Equal.php:43 | `(array)` gives [] for null, the elements for an array, and a one-element array otherwise |
| FilterConditions.Condition.constructor | src/Filter/Condition.php:21-25 | column and value are set; the flag is off and there is no metadata |
| FilterConditions.Condition.SetColumn | src/Filter/Condition.php:44-49 | replaces the column only and returns the same object |
| FilterConditions.Condition.SetValue | src/Filter/Condition.php:68-73 | replaces the value only and returns the same object |
| FilterConditions.Condition.IgnoreCase | src/Filter/Equal.php:15-20 | sets the flag (Like and Unlike, src/Filter/Like.php:15-20, behave the same) and nothing else; a second call changes nothing |
| FilterConditions.Condition.MetaData | src/Filter/MetaData.php:12-19 | the first call installs a fresh empty Data; later calls return that same object with its entries |
| FilterConditions.Condition.Clone | src/Filter/Condition.php:30-35 | the copy has the same column, value and flag; it has its own fresh metadata with the same entries, or none when the original had none |
| FilterConditions.CloneKeepsMetaDataApart | src/Filter/Condition.php:30-35 | writing into a clone's metadata leaves the original's metadata unchanged |
| DataStore.Data.constructor | src/Data.php:8 | a fresh store is empty |
| DataStore.Data.IsEmpty | src/Data.php:15-18 | empty exactly when no name is present |
| DataStore.Data.Get | src/Data.php:40-47 | the stored value when the name is present (even when it is null), the default otherwise |
| DataStore.Data.Set | src/Data.php:57-62 | the name maps to the value afterwards; every other entry is unchanged; returns the same object |
| DataStore.Data.Merge | src/Data.php:71-76 | entries of the other store override or add; entries only this store has are unchanged |
| DataStore.Data.Clear | src/Data.php:83-88 | no name is present afterwards |
| DataStore.Data.Copy | src/Filter/Condition.php:33 | a fresh object with the same entries |
| DataStore.GetIgnoresDefaultIffPresent | src/Data.php:40-47 | `get` ignores its default exactly when the name is present |
| BaseFilters.BaseFilter.constructor | src/BaseFilter.php:10 | initially there is no base filter |
| BaseFilters.BaseFilter.HasBaseFilter | src/BaseFilter.php:17-20 | holds exactly when `getBaseFilter()` is not null |
| BaseFilters.BaseFilter.SetBaseFilter | src/BaseFilter.php:39-44 | stores the rule, or clears the slot when called with null; returns the same object |
| OrderIterators.FreeSlot | src/OrderIterator.php:37-39 | the probe ends on the smallest free key at or above the start, and every key it skipped is taken |
| OrderIterators.SortedKeys | src/OrderIterator.php:78 | the keys in strictly ascending order, with exactly the same members |
| OrderIterators.OrderIterator.constructor | src/OrderIterator.php:15 | a fresh iterator holds no values |
| OrderIterators.Taken | src/OrderIterator.php:37 | the keys `isset` reports: present and not holding null |
| OrderIterators.OrderIterator.Add | src/OrderIterator.php:27-44 | a non-integer order is refused and nothing changes. Otherwise the value goes under the first key from `order << 8` that `isset` does not report; at most that one key is added, only a null entry can be replaced there, and every non-null entry is kept |
| OrderIterators.InsertedKeepsTaken | src/OrderIterator.php:37-41 | `add` adds at most its slot as a key, replaces only a null entry, and keeps every entry `isset` sees |
| OrderIterators.OrderIterator.Extend | src/OrderIterator.php:55-72 | each (order, value) pair of each parameter is added in turn. It stops at the first non-iterable parameter (1-based position reported) or non-integer order, and keeps what was added before |
| OrderIterators.OrderIterator.GetIterator | src/OrderIterator.php:74-81 | the values listed by ascending internal key |
| OrderIteratorProperties.BandHasRoom | src/OrderIterator.php:36-39 | while fewer than 256 keys of an order's band are taken (as `isset` sees them), `add` stays within that band |
| OrderIteratorProperties.SameOrderKeepsInsertionOrder | src/OrderIterator.php:36-41 | a later value with the same order lands on a larger key than an earlier one that is still taken, so it is iterated after it |
| OrderIteratorProperties.SmallerOrderComesFirst | src/OrderIterator.php:36-39 | a value whose order is smaller (and has room in its band) lands on a smaller key than any value of a larger order |
| OrderIteratorProperties.SmallerKeyIteratedFirst | src/OrderIterator.php:78-80 | a smaller key comes earlier in iteration order |
| OrderIteratorProperties.SortedKeysUnique | src/OrderIterator.php:78 | any strictly increasing listing of the keys is the sorted one |
| OrderIteratorProperties.OrderReuseScenario | tests/OrderIteratorTest.php:74-86 | orders 4, 3, 3 iterate as bar, oof, foo |
| OrderIteratorProperties.SortScenario | tests/OrderIteratorTest.php:61-72 | orders 4, 3, 2 iterate from the smallest order up |
| OrderIteratorProperties.GeneratorScenario | tests/OrderIteratorTest.php:45-59 | extending by a generator yielding 42 => foo, 41 => bar iterates as bar, foo |
| OrderIteratorProperties.NullIsOverwrittenScenario | src/OrderIterator.php:37-41 | `add(null, 1)` then `add('x', 1)` leaves the single value 'x', because `isset` is false for the stored null |
| OrderIteratorProperties.NonIntegerOrderScenario | tests/OrderIteratorTest.php:10-16 | a string order is refused and the iterator stays empty |
| Backoff.NormalMin | src/ExponentialBackoff.php:54-63 | a positive minimum is kept; otherwise it is 100 |
| Backoff.NormalMax | src/ExponentialBackoff.php:83-89 | a positive maximum is kept; otherwise it is 10000 |
| Backoff.WaitStep | src/ExponentialBackoff.php:132-146 | a wait time never exceeds the maximum; the stored previous time is unchanged, the new wait, or forgotten on attempt 0 |
| Backoff.WaitTimes | src/ExponentialBackoff.php:132-146 | consecutive calls give one wait time each, none above the maximum |
| Backoff.RetryFrom | src/ExponentialBackoff.php:156-175 | the callback is called at least once more from any attempt on; only an `Exception` is caught, an `Error` ends the run at once |
| Backoff.ExponentialBackoff.Default | src/ExponentialBackoff.php:29-35 | `new ExponentialBackoff()` has one retry, minimum 100, maximum 10000 and no previous wait time |
| Backoff.ExponentialBackoff.constructor | src/ExponentialBackoff.php:29-35 | with only the retries given, the minimum is 100, the maximum 10000, and there is no previous wait time |
| Backoff.ExponentialBackoff.Create | src/ExponentialBackoff.php:29-35 | construction fails (LogicException) exactly when the normalised minimum exceeds the normalised maximum; otherwise the fields hold the normalised values |
| Backoff.ExponentialBackoff.SetMin | src/ExponentialBackoff.php:54-63 | stores the normalised minimum and nothing else |
| Backoff.ExponentialBackoff.SetMax | src/ExponentialBackoff.php:83-96 | stores the normalised maximum even when it then fails; it fails exactly when the minimum exceeds it |
| Backoff.ExponentialBackoff.SetRetries | src/ExponentialBackoff.php:115-120 | stores the retries and nothing else |
| Backoff.ExponentialBackoff.GetWaitTime | src/ExponentialBackoff.php:132-146 | returns and remembers one step of the doubling sequence (`WaitStep`) |
| Backoff.ExponentialBackoff.Retry | src/ExponentialBackoff.php:156-175 | the outcome and the number of calls are those of `RetryFrom`; the sleeps are exactly the wait times of `getWaitTime(0)`, `getWaitTime(1)`, … for every retry |
| Backoff.WaitStepInBand | src/ExponentialBackoff.php:138-145 | with 1 <= min <= max, every wait time lies in [min, max], and so does the remembered one |
| Backoff.DoublingStep | src/ExponentialBackoff.php:142 | after the k-th capped doubling, the next step returns min·2^k capped at max |
| Backoff.WaitTimesFrom | src/ExponentialBackoff.php:142 | from a previous time min·2^(k-1) (capped), the i-th wait is min·2^(k+i) capped at max |
| Backoff.WaitTimesDouble | src/ExponentialBackoff.php:132-146 | a run starting at attempt 0 waits min·2^i capped at max on its i-th call, whatever came before |
| Backoff.WaitTimesGrow | src/ExponentialBackoff.php:142 | each wait of such a run is twice the one before, capped at the maximum |
| Backoff.WaitTimeScenario | tests/ExponentialBackoffTest.php:42-50 | minimum 1000 with the default maximum gives 1000, 1000, 2000, 4000, 8000, 10000 |
| Backoff.RetryCallsBounded | src/ExponentialBackoff.php:165-174 | `retry` calls the callback at most retries+1 times, and once when retries is not positive |
| Backoff.RetryUntilSuccess | src/ExponentialBackoff.php:161-174 | a callback that throws fresh exceptions n <= retries times and then returns v yields v after n+1 calls |
| Backoff.RetrySucceedsOnFifthCall | tests/ExponentialBackoffTest.php:52-66 | with ten retries, four failures and then a success give "succeeded" after five calls |
| Backoff.RetryGivesUp | tests/ExponentialBackoffTest.php:68-77 | a callback that always throws fresh exceptions is called retries+1 times, and the last exception is rethrown |
| Backoff.RetryWithoutRetries | src/ExponentialBackoff.php:165 | with no retries the first outcome is final |
| Backoff.RetryPassesErrorOn | src/ExponentialBackoff.php:161-168 | an `Error` thrown after n <= retries fresh exceptions is passed on at once, after n+1 calls, with retries still left |
| Backoff.RetryStopsOnSameError | src/ExponentialBackoff.php:165 | an exception thrown again right after it was caught is rethrown immediately |
| Strings.ToLower | src/Str.php:27 | `strtolower` lowercases every ASCII letter and keeps the length |
| Strings.Ucwords | src/Str.php:27 | `ucwords` uppercases the first letter and every letter after a word delimiter |
| Strings.UcwordsAt | src/Str.php:27 | a character is uppercased at the start and after a word delimiter, and kept otherwise |
| Strings.LcFirst | src/Str.php:27 | `lcfirst` lowercases the first character only |
| Strings.ReplaceChars | src/Str.php:25 | `str_replace(['-', '_'], ' ', s)` replaces exactly those characters |
| Strings.RemoveChar | src/Str.php:27 | removing spaces leaves no space, adds nothing, and never lengthens |
| Strings.Camel | src/Str.php:19-28 | null gives ""; the result has no space, dash or underscore, and does not start with an uppercase letter |
| Strings.CamelKeepsLowerWord | tests/StrTest.php:9-12 | a lowercase word without delimiters, such as "noop", is returned unchanged |
| Strings.CamelTwoWords | tests/StrTest.php:14-28 | two lowercase words joined by '_', '-' or ' ' (the cases "snake_case", "kebab-case", "space delimited") give the first word followed by the second, capitalised |
| Strings.Head | src/Str.php:46 | `substr(s, 0, n)` is the first min(n, length) characters |
| Strings.StartsWithIsPrefix | src/Str.php:41-46 | case-sensitive: exactly when `start` is a prefix of the subject, null counting as "" |
| Strings.StrncasecmpZero | src/Str.php:43 | `strncasecmp(a, b, n) === 0` for n <= length of b exactly when a has n characters equal to b's ignoring case |
| Strings.StartsWithIgnoringCase | src/Str.php:42-43 | case-insensitive: exactly when the subject is long enough and its head equals `start` ignoring case |
| Strings.CaseSensitiveImpliesInsensitive | src/Str.php:39-47 | a case-sensitive match is also a case-insensitive one |
| Strings.StartsWithExamples | tests/StrTest.php:30-48 | the four test cases, plus the case-insensitive and null-subject cases |
| Strings.Find | src/Str.php:67 | the first occurrence of the delimiter at or after a position, or none |
| Strings.Split | src/Str.php:88 | `explode` without a limit always gives at least one piece |
| Strings.JoinSplit | src/Str.php:88 | `implode(d, explode(d, s)) == s` |
| Strings.SplitPiecesFree | src/Str.php:88 | no piece contains the delimiter |
| Strings.ExplodeLimit | src/Str.php:67 | with a positive limit k there are between 1 and k pieces |
| Strings.ExplodeLimitSplit | src/Str.php:67 | with limit k the pieces are those of the unlimited split, with the k-th and later ones joined back together |
| Strings.ArrayPad | src/Str.php:64-67 | `array_pad` reaches |size| elements, padding at the end for positive and at the front for negative sizes, and keeps the array |
| Strings.SymmetricSplitLength | src/Str.php:61-68 | a positive limit gives exactly `limit` elements: the `explode` pieces, then the default. Null or an empty delimiter ("" or "0") gives only defaults |
| Strings.SymmetricSplitPads | src/Str.php:61-68 | "a:b" with limit 3 is padded with the default to three elements |
| Strings.SymmetricSplitKeepsRest | src/Str.php:61-68 | "a:b:c" with limit 2 keeps "b:c" together as the last element |
| Strings.SymmetricSplitEmptyDelimiter | src/Str.php:61-63 | the delimiter "0" counts as empty and gives only the padding |
| Strings.TrimLeft | src/Str.php:91 | strips exactly the leading trim characters |
| Strings.TrimRight | src/Str.php:91 | strips exactly the trailing trim characters |
| Strings.Trim | src/Str.php:91 | `trim` is the slice left between a prefix and a suffix of trim characters, and neither of its ends is a trim character |
| Strings.TrimOfPadded | src/Str.php:91 | trimming whitespace-padded text gives back the text |
| Strings.TrimAll | src/Str.php:91 | `array_map('trim', …)` trims every piece |
| Strings.TrimSplit | src/Str.php:79-92 | null or an empty delimiter gives []; otherwise the `explode` pieces (with the limit when given), each trimmed |
| Strings.SplitExample | src/Str.php:88 | " a , b " split at "," gives " a " and " b " |
| StdFunctions.Arrayval | src/functions.php:43-62 | an array is returned unchanged; any other modelled value raises InvalidArgumentException |
| StdFunctions.IterableKeyFirst | src/functions.php:71-78 | the first key, or null for an empty iterable |
| StdFunctions.IterableValueFirst | src/functions.php:87-94 | the first value, or null for an empty iterable |
| StdFunctions.FirstKeyAndValue | src/functions.php:71-94 | the first key and first value come from the same first pair |
| StdFunctions.FirstExamples | tests/FunctionsTest.php:58-63 | the first key of a two-element iterable, null for an empty one, and `arrayval(null)` raises |
| StdFunctions.Put | src/functions.php:117-129 | `$group[k] = v` never leaves the group empty |
| StdFunctions.PutLookupSame | src/functions.php:129 | after `$group[k] = v`, k maps to v |
| StdFunctions.PutLookupOther | src/functions.php:129 | every other key keeps what it mapped to |
| StdFunctions.PutNewKey | src/functions.php:129 | a new key goes to the end of the group |
| StdFunctions.PutPresentKey | src/functions.php:129 | a present key keeps its place: the group does not grow |
| StdFunctions.Lookup | src/functions.php:129 | the value found is stored under the key; none found means the key is absent |
| StdFunctions.Unpack | src/functions.php:116-117 | the criterion is element 0 of the cast result. The value is element 1 and the key element 2, each falling back to the item's own when missing or null |
| StdFunctions.Entries | src/functions.php:116-121 | the callback is applied to every item as `groupBy(value, key)` |
| StdFunctions.Groups | src/functions.php:107-133 | groups exist exactly when there are items |
| StdFunctions.YieldGroups | src/functions.php:107-133 | the generator's loop yields exactly `Groups` of the entries |
| StdFunctions.Advance | src/functions.php:121-129 | one step of the loop: the closed groups followed by the current one become `AddEntry` of them and the item's entry |
| StdFunctions.GroupsWellFormed | src/functions.php:120-132 | no more groups than items; each group holds an item; neighbouring groups differ in criterion; the last group has the last item's criterion |
| StdFunctions.NoItemsNoGroups | src/functions.php:112-114 | an empty traversable yields nothing |
| StdFunctions.FlattenGroups | src/functions.php:107-133 | with distinct keys, the groups concatenated give back every item's key and value, in order |
| StdFunctions.RecurringCriterionExample | src/functions.php:122-127 | a criterion that comes back after another one starts a new group |
| StdFunctions.RepeatedKeyOverwrites | src/functions.php:129 | a repeated key within a group keeps its place and takes the later value |
| Messages.MessageContainer.constructor | src/MessageContainer.php:8 | a fresh container has no messages |
| Messages.MessageContainer.HasMessages | src/MessageContainer.php:15-18 | holds exactly when there is at least one message |
| Messages.MessageContainer.GetMessages | src/MessageContainer.php:25-28 | the messages in the order they were added |
| Messages.MessageContainer.AddMessage | src/MessageContainer.php:53-64 | appends the message and leaves earlier ones unchanged; returns the same object |
| Messages.MessageContainer.ClearMessages | src/MessageContainer.php:71-76 | no messages remain; returns the same object |
| Messages.MessageContainer.SetMessages | src/MessageContainer.php:36-44 | the container holds exactly the given messages, in order; returns the same object |
| Messages.AddThenClearScenario | tests/MessageContainerTest.php:14-34 | two added messages come back in order, and clearing leaves none |
| Options.NewOption | src/Option.php:42-46 | null stays null, a string becomes a one-element list, a list is kept; the required flag is stored |
| Options.MethodDefaultName | src/Option.php:67-75 | a name starting with "set" loses those three letters and has its next letter lowercased; any other name is kept |
| Options.Names | src/Option.php:51-75 | the given names if any, else the property name, else the derived method name |
| Options.FirstPresent | src/Option.php:102-103 | the position of the first listed name that is a key of the values, every earlier one being absent; none when no name is present |
| Options.ResolveOption | src/Option.php:48-115 | the loop over the names produces exactly `Resolve`: result and remaining values |
| Options.FirstNameWins | src/Option.php:52-57 | on success the applied name is the first listed name present, with its value. Only that key is removed and every other entry keeps its value |
| Options.AppliedExactly | src/Option.php:101-113 | a value is applied iff some name is present, a required option does not find null there, and applying succeeds; no missing-option error follows a success |
| Options.RequiredRefusesNull | src/Option.php:104-106 | a required option finding null under its first present name fails with that name and removes nothing |
| Options.RequiredMissing | src/Option.php:112-114 | a required option with no name present fails naming its first name ("" when it has none) |
| Options.OptionalMissingChangesNothing | src/Option.php:99-114 | an optional option with no name present applies nothing and keeps the values |
| Options.OnlyApplyConsumes | src/Option.php:53-60 | unless a value was applied, including when applying failed, the values are unchanged |
| Options.MethodDefaultNameExamples | src/Option.php:70-71 | "setFoo" gives "foo", "bar" stays, and "settle" gives "tle" |
| Options.MultipleNamesScenario | tests/OptionTest.php:94-106 | with names foo and bar both present, foo's value is applied and only bar remains |

## Left out

- The filter classes:
  - `Chain`, `All`, `Any`, `None`, `Unequal`, the `Filter` factory and `Condition`'s
    inherited `sameAs` are not part of this model.
  - The builder relies only on `add`, `insertBefore` and `isEmpty`. These are modelled
    with the behaviour the builder and its tests rely on.
  - The inherited comparison is a parameter of `EqualSameAs`.
- Aliasing of nested chains: children are rule values, so a chain object shared
  between two trees and mutated later is not captured.
- PHP array keys:
  - Arrays are modelled as lists and maps.
  - Numeric-string keys, renumbering by `array_merge`, and the order of entries in
    `Data` and in the option values map are not modelled.
  - Group keys in `yield_groups` are compared as values, without key coercion.
- `get_php_type`:
  - It depends on runtime type tags.
  - The `arrayval` branches for `stdClass` and `Traversable` objects are left out.
  - So are the type names inside error messages; errors carry the offending value.
- OrderIterators.Pad: `order << 8` is computed on unbounded integers. The 64-bit
  overflow the source's TODO mentions (src/OrderIterator.php:36) is not modelled.
- Backoff: `previousWaitTime * 2` is unbounded, so integer overflow to float is not
  modelled.
- Backoff.ExponentialBackoff.Retry: `usleep` is dropped, and the sleeps are returned
  instead.
- The `retry` callback:
  - It is a total function of the call number and the previously caught
    exception.
  - Exceptions are identified by number, so "the same exception object" is equality
    of numbers.
- `vsprintf` in `MessageContainer::addMessage` (src/MessageContainer.php:59-60): only
  the path without format arguments is modelled.
- `Str::limit` (src/Str.php:105-115): it depends on Unicode display width.
- Case mapping: `strtolower`, `ucwords`, `lcfirst` and `strncasecmp` are modelled for
  ASCII letters only.
- Options:
  - Reflection, attribute dispatch (`resolve_attribute`, src/functions.php:157-201)
    and PHP's type coercion of option values are left out.
  - Setting a property or invoking a method is the parameter `accepts`, which says
    whether applying a value succeeds.
- `CallbackFilterIterator`, `AutoloadingPluginLoader`, `PluginLoader` and the
  `Contract` interfaces: they are SPL wrappers, class loading, or interfaces without
  behaviour.
- `str_putcsv` and the `Properties` and `Messages` traits are not part of this model.
- Floating-point values are not part of `PhpValues.Value`.
