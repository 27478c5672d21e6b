# DateRecurringIndex in Dafny

A model of the core of Products.DateRecurringIndex, a Zope catalog index
that files each document under every occurrence of a recurring event, and
answers point and range queries over those occurrences.

Time is counted in whole minutes. An instant is a `Time.DateTime`: a UTC
minute count plus the offset its tzinfo carries (after an `adjust` step,
the offset of the instant one step after the previous UTC time, which near
a transition need not be the offset in force at the new instant);
`Time.Wall` is the local wall-clock reading. The time zone is a function `tz` from a UTC
minute to its offset, bounded by a day (`Time.ValidZone`).

- `wrappers.dfy`, `sets.dfy`, `time.dfy`, `strings.dfy`: an `Option` type,
  a witness lemma for non-empty sets, instants and DST policies, and the
  string operations the query parser uses (`find`, `lower`, `split`).
- `index.dfy`, module `DateIndex`: the class `DateRecurringIndex` with its
  forward map `unindex` (document to keys) and reverse map `index` (key to
  documents). Its invariant `Valid()` says the two maps hold the same
  pairs and neither has an empty row. (The Zope base index calls `index`
  its forward index, hence the names `InsertForwardIndexEntry` and
  `RemoveForwardIndexEntry`; the model names the maps from the document's
  side.) `IndexObject`, `UnindexObject` and `ApplyIndex` are methods that
  loop over key sets like the source; the two entry methods update one
  row. The recurrence generators of the event library and the
  datetime-to-integer conversion are parameters (`Environment`).
- `recurring.dfy`, module `Recurring`: the timedelta generator as a loop
  with its DST policy, the integer key sequence, the class `RRuleICal`, and
  the iCal rule-set builder. A rule set is a `RSet` of dates and rules;
  expanding an rrule is a parameter `expand`, and `Occurrences` is what the
  set yields: its inclusions minus its exclusions.

The model follows the code in these details:
- The default query operator is `"or"`, the default of the Zope base
  index.
- A range query with `min` or `max` and an empty key list computes `min()`
  or `max()` of an empty list, which raises. The model returns `EmptyKeys`
  rather than an empty result.
- In a point query, a key absent from the index is skipped. It does not
  contribute an empty set, even under `"and"`.
- Re-indexing a document whose new key set is empty removes its forward
  entry but returns 0.
- The upper bound is tested by truthiness (`if hi:`), so a maximum key of
  0 gives an unbounded range (`DateIndex.UpperBound`).
- `RRuleICal` always stores the DST policy `auto`, whatever it is given.

## Model

| member | source | states |
|---|---|---|
| DateIndex.DateRecurringIndex.constructor | src/Products/DateRecurringIndex/index.py:59-75 | a new index keeps its id, recurrence type and DST policy, starts with both maps empty and satisfies the invariant |
| DateIndex.WithEntry | src/Products/DateRecurringIndex/index.py:144-146 | the reverse map (key to documents) after an insertion holds exactly the old pairs plus the new one, and still has no empty row |
| DateIndex.WithoutEntry | src/Products/DateRecurringIndex/index.py:131-132 | the reverse map after a removal holds exactly the old pairs minus the removed one, and a row that becomes empty is dropped |
| DateIndex.DateRecurringIndex.InsertForwardIndexEntry | src/Products/DateRecurringIndex/index.py:144-146 | the reverse map `index` gains the pair (key, document) and nothing else |
| DateIndex.DateRecurringIndex.RemoveForwardIndexEntry | src/Products/DateRecurringIndex/index.py:131-132 | the reverse map `index` loses the pair (key, document) and nothing else |
| DateIndex.DateRecurringIndex.IndexObject | src/Products/DateRecurringIndex/index.py:93-150 | a document without a start is skipped with status 0; an unchanged key set returns 0 and changes nothing; otherwise the document is filed under exactly its new keys, its forward entry is replaced or deleted, the status is 1 iff the new set is non-empty, other documents are untouched, and the invariant holds |
| DateIndex.DateRecurringIndex.UnindexObject | src/Products/DateRecurringIndex/index.py:152-165 | the document's forward entry and all its pairs in the reverse map are gone, every other pair stays, an unknown document changes nothing, and the invariant holds |
| DateIndex.DateRecurringIndex.ApplyIndex | src/Products/DateRecurringIndex/index.py:173-243 | no keys gives no result; an unknown operator is an error; a range query returns the documents filed under a key within the requested bounds, or `EmptyKeys` when a bound is taken from no keys; a point query returns exactly the documents that match some found key ("or") or every found key ("and"), restricted by the result set |
| DateIndex.QueryMode | src/Products/DateRecurringIndex/index.py:193-208 | a non-empty usage directive alone decides the mode; otherwise a non-empty range directive selects a range whose lower and upper bounds are requested iff it contains "min" and "max" |
| DateIndex.SeqMin | src/Products/DateRecurringIndex/index.py:209-210 | the lower bound is a key of the query and no key is smaller |
| DateIndex.SeqMax | src/Products/DateRecurringIndex/index.py:214-215 | the upper bound is a key of the query and no key is larger |
| DateIndex.RangeUnion | src/Products/DateRecurringIndex/index.py:219-224 | the union of the rows a range selects holds exactly the documents filed under some key within the bounds |
| DateIndex.RangeQueryByForwardMap | src/Products/DateRecurringIndex/index.py:219-224 | under the index invariant, a document is in a range result iff one of its own occurrence keys lies in the range |
| DateIndex.IndexTwice | src/Products/DateRecurringIndex/index.py:121-128 | indexing the same document twice: the second call returns 0 and leaves both maps exactly as the first call left them, the document is filed under exactly its keys, and no other document's pairs change |
| DateIndex.SamePairsSameMap | src/Products/DateRecurringIndex/index.py:130-160 | two maps without empty rows that hold the same pairs are equal |
| DateIndex.ReverseDeterminedByForward | src/Products/DateRecurringIndex/index.py:130-160 | the reverse map is fully determined by the forward map it agrees with, so re-indexing can be judged on the forward map alone |
| Strings.Find | src/Products/DateRecurringIndex/index.py:198-201 | returns -1 iff the word does not occur, otherwise the position of its first occurrence |
| Strings.Split | src/Products/DateRecurringIndex/index.py:205-206 | splitting at ':' gives at least one part, no part contains ':', and joining the parts with ':' gives back the input |
| Recurring.ResolveDst | src/Products/DateRecurringIndex/recurring.py:141-145 | an explicit policy is kept; `auto` becomes `keep` for steps under a day and `adjust` otherwise |
| Recurring.Step | src/Products/DateRecurringIndex/recurring.py:152-156 | the next date carries the offset `tz` gives one step after the previous UTC time; under `adjust` the wall clock advances by the step, under `keep` the UTC time does |
| Recurring.RecurringSequenceTimeDelta | src/Products/DateRecurringIndex/recurring.py:130-160 | without a positive step or an end only the start is yielded; otherwise the start, then each step of the resolved policy, while the next date is not after the end |
| Recurring.KeepIsEvenlySpaced | src/Products/DateRecurringIndex/recurring.py:123-124 | under `keep` the i-th date lies exactly i steps after the start in real time |
| Recurring.AdjustKeepsWallClock | src/Products/DateRecurringIndex/recurring.py:118-122 | under `adjust` the i-th date's wall clock lies exactly i steps after the start's, across offset changes |
| Recurring.KeepIsAscending | src/Products/DateRecurringIndex/recurring.py:151-160 | under `keep` the dates strictly increase |
| Recurring.KeepCount | src/Products/DateRecurringIndex/recurring.py:149-160 | under `keep` the generator yields (end - start) div step + 1 dates |
| Recurring.IntSequencePreservesOrder | src/Products/DateRecurringIndex/recurring.py:165-170 | a monotone conversion maps an ascending date sequence to an ascending key sequence of the same length |
| Recurring.TimeDeltaKeysAscend | src/Products/DateRecurringIndex/recurring.py:165-170 | the keys of a `keep` timedelta sequence ascend |
| Recurring.RRuleICal.constructor | src/Products/DateRecurringIndex/recurring.py:53-64 | a single rule is wrapped in a one-element list, a list is kept, the exclusion flag is kept, and the DST policy is always `auto` |
| Recurring.Dispatch | src/Products/DateRecurringIndex/recurring.py:79-102 | a rule without a frequency becomes a date, one with a frequency an rrule; it excludes iff its `exclude` flag is set; missing `dtstart` and `until` default to the recurrence's start and end |
| Recurring.BuildSet | src/Products/DateRecurringIndex/recurring.py:72-102 | the rule set starts with the base date and holds one more entry per rule |
| Recurring.AddedInstants | src/Products/DateRecurringIndex/recurring.py:95-102 | adding an entry adds its instants to the inclusions or the exclusions, by its kind |
| Recurring.IncludedOfRuleSet | src/Products/DateRecurringIndex/recurring.py:72-102 | the included and the excluded instants of the set are those of the base date and of each rule |
| Recurring.OccurrencesOfRuleSet | src/Products/DateRecurringIndex/recurring.py:72-107 | an instant occurs iff it is the start or some rule adds it, and no rule excludes it |
| Recurring.BaseDateIncluded | src/Products/DateRecurringIndex/recurring.py:73-77 | the start occurs iff no rule excludes it |
| Recurring.Ordered | src/Products/DateRecurringIndex/recurring.py:104 | the listed rule set has one element per instant, exactly the instants of the set, in strictly increasing order |
| Recurring.RuleSetKeysAscend | src/Products/DateRecurringIndex/recurring.py:165-170 | the keys of an iCal sequence ascend and each is the key of some occurrence |
| Recurring.RecurringSequenceICal | src/Products/DateRecurringIndex/recurring.py:69-107 | builds the rule set of the recurrence and leaves each rule dictionary with its defaults filled in and its `exclude` key deleted |
| Recurring.ReexpansionLosesExclusions | src/Products/DateRecurringIndex/recurring.py:90-93 | a rule that excludes the start excludes it on the first expansion, but the start occurs on a second expansion of the dictionaries left behind |
| Recurring.RestartableBuildSet | src/Products/DateRecurringIndex/recurring.py:79-93 | rules stored with their defaults filled in and their `exclude` flag kept build the same set as the original rules |
| Recurring.RecurringSequenceICalRestartable | src/Products/DateRecurringIndex/recurring.py:69-107 | builds the same rule set as the code, and expanding the same recurrence again gives the same set |

## Left out

- The integer compaction of single-document rows in the Zope base index, and the branches that turn an integer row into a set (index.py:230-231, 237-238): rows are always sets here, so a point query always intersects a row with the result set.
- Query key normalisation (`dt2int(pydt(k))`, index.py:177) and request parsing (`parseIndexRequest`, index.py:173): a `Request` carries integer keys and its directives already parsed.
- `ConflictError` handling and logging in `index_object` and `unindex_object`: the model's maps cannot fail to hold the entry they are asked to delete.
- Reading attributes and calling them when callable (index.py:96-109): a `Document` holds the values already.
- DateIndex.DateRecurringIndex.IndexObject: a start attribute whose value is `None` is modelled as a missing attribute (status 0, nothing changes); the source returns early only on `AttributeError` (index.py:95-101) and passes a `None` start on to the recurrence generators (index.py:111-118), whose behaviour on it is not part of this model.
- The two recurrence generators of the event library that `index_object` calls, and `dt2int`: they are parameters of the model (`DateIndex.Environment`).
- Strings.Lower: lowers ASCII letters only; there is no Unicode case folding.
- `anydt` and `pydt` conversion of dates, and the `start`/`until` property setters of `RRule`: dates are already `DateTime` values.
- Python `eval` of rule strings in `RRuleICal.__init__` (recurring.py:57-63): rules arrive as `RuleDict` values.
- `RRuleICal` built with no rule at all (a list holding `None`), which fails in the source when expanded.
- The expansion of an `rrule` by dateutil: `expand` is a parameter returning a finite set of instants.
- Recurring.Step: the offset of the new instant is `tz` at the moved UTC time; pytz `normalize` behaviour in gaps and overlaps is not modelled.
- The lazy generators of the source are materialised as sequences.
- The statement at recurring.py:104-105, which has no effect.
- The adapter lookup of `recurringIntSequence` (recurring.py:168): the caller passes the date sequence.
- Getters, `manage_addDRIndex`, security declarations, management templates and the benchmark script.

## Findings

| source | as written | input that shows it | evidently intended | confidence | as-written member | corrected member |
|---|---|---|---|---|---|---|
| src/Products/DateRecurringIndex/recurring.py:90-93 | `recurringSequenceICal` deletes the `exclude` key from the caller's rule dictionaries | an `RRuleICal` with one rule `{'exclude': True}` and no frequency, expanded twice: the first expansion excludes the start, the second includes it | expanding the same recurrence again gives the same dates | medium, not executed | Recurring.ReexpansionLosesExclusions | Recurring.RecurringSequenceICalRestartable |
