/**
 * The date recurring index: an inverted index from documents to the integer
 * minute keys at which they occur (`unindex`, the forward map) and from keys
 * to the documents occurring there (`index`, the reverse map), with the
 * incremental re-indexing and the query evaluation of the catalog plug-in.
 */
module DateIndex {
  import opened Wrappers
  import opened Time
  import opened Sets
  import Strings

  type DocId = int
  type Key = int

  /** The operators a query may name, and the one used when it names none. */
  const Operators: set<string> := {"or", "and"}
  const UseOperator: string := "or"

  /** `m` holds `v` in the row of `k`. */
  predicate Has<K, V>(m: map<K, set<V>>, k: K, v: V)
  {
    k in m && v in m[k]
  }

  /** The forward and the reverse map hold the same (document, key) pairs. */
  ghost predicate Agree(fwd: map<DocId, set<Key>>, rev: map<Key, set<DocId>>)
  {
    forall d, k :: Has(fwd, d, k) <==> Has(rev, k, d)
  }

  /** No row is kept once it is empty. */
  ghost predicate NoEmptyRows<K, V>(m: map<K, set<V>>)
  {
    forall k :: k in m ==> m[k] != {}
  }

  /** The reverse map after filing `d` under `k`, creating the row if needed. */
  function WithEntry(rev: map<Key, set<DocId>>, k: Key, d: DocId): (r: map<Key, set<DocId>>)
    ensures forall k', d' :: Has(r, k', d') <==> Has(rev, k', d') || (k' == k && d' == d)
    ensures NoEmptyRows(rev) ==> NoEmptyRows(r)
  {
    if k in rev then rev[k := rev[k] + {d}] else rev[k := {d}]
  }

  /** The reverse map after taking `d` out of the row of `k`, dropping the row once it is empty. */
  function WithoutEntry(rev: map<Key, set<DocId>>, k: Key, d: DocId): (r: map<Key, set<DocId>>)
    ensures forall k', d' :: Has(r, k', d') <==> Has(rev, k', d') && !(k' == k && d' == d)
    ensures NoEmptyRows(rev) ==> NoEmptyRows(r)
  {
    if k !in rev then rev
    else if rev[k] <= {d} then rev - {k}
    else rev[k := rev[k] - {d}]
  }

  /**
   * A map without empty rows is determined by the pairs it holds: so the
   * reverse map is determined by the forward map, and the other way round.
   */
  lemma SamePairsSameMap(m1: map<int, set<int>>, m2: map<int, set<int>>)
    requires NoEmptyRows(m1) && NoEmptyRows(m2)
    requires forall k, v :: Has(m1, k, v) <==> Has(m2, k, v)
    ensures m1 == m2
  {
    forall k | k in m1
      ensures k in m2 && m1[k] == m2[k]
    {
      NonEmpty(m1[k]);
      var v :| v in m1[k];
      assert Has(m1, k, v);
      assert forall v' :: v' in m1[k] <==> Has(m2, k, v');
    }
    forall k | k in m2
      ensures k in m1
    {
      NonEmpty(m2[k]);
      var v :| v in m2[k];
      assert Has(m2, k, v);
    }
  }

  /** The reverse map is the one map without empty rows that agrees with the forward map. */
  lemma ReverseDeterminedByForward(fwd: map<DocId, set<Key>>, rev1: map<Key, set<DocId>>, rev2: map<Key, set<DocId>>)
    requires Agree(fwd, rev1) && NoEmptyRows(rev1)
    requires Agree(fwd, rev2) && NoEmptyRows(rev2)
    ensures rev1 == rev2
  {
    SamePairsSameMap(rev1, rev2);
  }

  /** A recurrence definition as a document offers it: absent, a number of minutes, or rule text. */
  datatype RecurDef = NoDef | Minutes(n: int) | RuleText(text: string)

  /** The attributes the index reads from a document; `start` is None when the document has none. */
  datatype Document = Document(start: Option<DateTime>, recurdef: RecurDef, until: Option<DateTime>)

  /**
   * The recurrence functions of the event library the index calls: the two
   * generators and the conversion of a datetime to its integer minute key.
   */
  datatype Environment = Environment(
    ical: (DateTime, RecurDef, Option<DateTime>, Dst) -> seq<DateTime>,
    timedelta: (DateTime, Option<int>, Option<DateTime>, Dst) -> seq<DateTime>,
    dt2int: DateTime -> Key)

  /** The occurrences of a document under the index's recurrence type and DST policy. */
  function Dates(recurrenceType: string, dst: Dst, start: DateTime, obj: Document, env: Environment): seq<DateTime>
  {
    if recurrenceType == "ical" then env.ical(start, obj.recurdef, obj.until, dst)
    else env.timedelta(start, if obj.recurdef.Minutes? then Some(obj.recurdef.n) else None, obj.until, dst)
  }

  /** The set of keys a document is to be filed under. */
  function NewValues(recurrenceType: string, dst: Dst, start: DateTime, obj: Document, env: Environment): set<Key>
  {
    var dates := Dates(recurrenceType, dst, start, obj, env);
    set i | 0 <= i < |dates| :: env.dt2int(dates[i])
  }

  /** A parsed query request; `keys` are already integer minute keys. */
  datatype Request = Request(keys: Option<seq<Key>>, operator: Option<string>, range: Option<string>, usage: Option<string>)

  /** What a query asks for: exact keys, or every key between optional bounds. */
  datatype Mode = Point | Range(useMin: bool, useMax: bool)

  /** What applying the index to a request gives. */
  datatype Outcome =
    | NotApplied                        // the request does not address this index
    | InvalidOperator(operator: string) // the operator is not one of `Operators`
    | EmptyKeys                         // a bounded range over no keys: `min`/`max` of an empty list raises
    | Applied(docs: set<DocId>, ids: seq<string>)

  function OperatorOf(request: Request): string
  {
    if request.operator.Some? then request.operator.value else UseOperator
  }

  /**
   * The mode a `usage` directive selects: lower-cased and split at ':', its
   * first part must be `range`, and the words `min`/`max` among the other
   * parts request the bounds.
   */
  function UsageMode(usage: string): (m: Mode)
  {
    var parts := Strings.Split(Strings.Lower(usage), ':');
    if parts[0] == "range" then Range("min" in parts[1..], "max" in parts[1..]) else Point
  }

  /**
   * The query mode a request selects. A non-empty `usage` directive decides
   * alone, whatever `range` says; otherwise a non-empty `range` directive
   * selects a range whose bounds are the words `min`/`max` it contains.
   */
  function QueryMode(range: Option<string>, usage: Option<string>): (m: Mode)
    ensures usage.Some? && usage.value != [] ==> m == UsageMode(usage.value)
    ensures (usage.None? || usage.value == []) ==>
      (m.Range? <==> range.Some? && range.value != []) &&
      (m.Range? ==> (m.useMin <==> exists i :: Strings.OccursAt(range.value, "min", i)) &&
                    (m.useMax <==> exists i :: Strings.OccursAt(range.value, "max", i)))
  {
    if usage.Some? && usage.value != [] then UsageMode(usage.value)
    else if range.Some? && range.value != [] then
      Range(Strings.Find(range.value, "min") > -1, Strings.Find(range.value, "max") > -1)
    else Point
  }

  /** `min` of a non-empty list. */
  function SeqMin(s: seq<Key>): (m: Key)
    requires s != []
    ensures m in s && forall i :: 0 <= i < |s| ==> m <= s[i]
  {
    if |s| == 1 then s[0] else var r := SeqMin(s[1..]); if s[0] <= r then s[0] else r
  }

  /** `max` of a non-empty list. */
  function SeqMax(s: seq<Key>): (m: Key)
    requires s != []
    ensures m in s && forall i :: 0 <= i < |s| ==> s[i] <= m
  {
    if |s| == 1 then s[0] else var r := SeqMax(s[1..]); if s[0] >= r then s[0] else r
  }

  /** `k` lies between the bounds that are present, both inclusive. */
  predicate Within(k: Key, lo: Option<Key>, hi: Option<Key>)
  {
    (lo.None? || lo.value <= k) && (hi.None? || k <= hi.value)
  }

  /** The union of the rows of all keys between the bounds. */
  function RangeUnion(rev: map<Key, set<DocId>>, lo: Option<Key>, hi: Option<Key>): (r: set<DocId>)
    ensures forall d :: d in r <==> exists k :: Within(k, lo, hi) && Has(rev, k, d)
  {
    set k, d | k in rev && d in rev[k] && Within(k, lo, hi) :: d
  }

  /** The upper bound actually applied: a bound that is 0 is falsy and leaves the range open. */
  function UpperBound(hi: Option<Key>): Option<Key>
  {
    if hi.Some? && hi.value != 0 then hi else None
  }

  /** The row of a key, cut down to the candidate result set when one is given. */
  function Row(rev: map<Key, set<DocId>>, k: Key, resultset: Option<set<DocId>>): set<DocId>
    requires k in rev
  {
    if resultset.Some? then rev[k] * resultset.value else rev[k]
  }

  /** One of the first `n` keys has a row. */
  predicate AnyFound(rev: map<Key, set<DocId>>, keys: seq<Key>, n: nat)
    requires n <= |keys|
  {
    exists i :: 0 <= i < n && keys[i] in rev
  }

  /** `d` is in the row of one of the first `n` keys. */
  ghost predicate InSome(rev: map<Key, set<DocId>>, keys: seq<Key>, n: nat, rs: Option<set<DocId>>, d: DocId)
    requires n <= |keys|
  {
    exists i :: 0 <= i < n && keys[i] in rev && d in Row(rev, keys[i], rs)
  }

  /** `d` is in the row of each of the first `n` keys that has a row. */
  ghost predicate InEvery(rev: map<Key, set<DocId>>, keys: seq<Key>, n: nat, rs: Option<set<DocId>>, d: DocId)
    requires n <= |keys|
  {
    forall i :: 0 <= i < n && keys[i] in rev ==> d in Row(rev, keys[i], rs)
  }

  /** Point-list semantics: `or` unions the rows found, `and` intersects them; keys without a row are skipped. */
  ghost predicate PointMatch(rev: map<Key, set<DocId>>, keys: seq<Key>, isOr: bool, rs: Option<set<DocId>>, d: DocId)
  {
    if isOr then InSome(rev, keys, |keys|, rs, d)
    else AnyFound(rev, keys, |keys|) && InEvery(rev, keys, |keys|, rs, d)
  }

  /** `union` or `intersection` of the running result with a row; a missing result is the identity. */
  function Combine(isOr: bool, acc: Option<set<DocId>>, s: set<DocId>): set<DocId>
  {
    match acc
    case None => s
    case Some(a) => if isOr then a + s else a * s
  }

  class DateRecurringIndex {
    const id: string
    const recurrenceType: string
    const dst: Dst
    /** document id -> keys it occurs at */
    var unindex: map<DocId, set<Key>>
    /** key -> documents occurring at it */
    var index: map<Key, set<DocId>>

    ghost predicate Valid()
      reads this
    {
      Agree(unindex, index) && NoEmptyRows(unindex) && NoEmptyRows(index)
    }

    constructor (id: string, recurrenceType: string, dst: Dst)
      ensures Valid()
      ensures this.id == id && this.recurrenceType == recurrenceType && this.dst == dst
      ensures unindex == map[] && index == map[]
    {
      this.id := id;
      this.recurrenceType := recurrenceType;
      this.dst := dst;
      unindex := map[];
      index := map[];
    }

    /** Files `documentId` under `entry`. */
    method InsertForwardIndexEntry(entry: Key, documentId: DocId)
      modifies this`index
      ensures index == WithEntry(old(index), entry, documentId)
    {
      index := WithEntry(index, entry, documentId);
    }

    /** Takes `documentId` out of the row of `entry`. */
    method RemoveForwardIndexEntry(entry: Key, documentId: DocId)
      modifies this`index
      ensures index == WithoutEntry(old(index), entry, documentId)
    {
      index := WithoutEntry(index, entry, documentId);
    }

    /**
     * Indexes a document at the keys of its occurrences. Returns 1 when the
     * document ends up filed under a new, non-empty key set, 0 otherwise.
     */
    method IndexObject(documentId: DocId, obj: Document, env: Environment) returns (status: int)
      requires Valid()
      modifies this
      ensures Valid()
      ensures obj.start.None? ==> status == 0 && unindex == old(unindex) && index == old(index)
      ensures obj.start.Some? ==>
        var newvalues := NewValues(recurrenceType, dst, obj.start.value, obj, env);
        if documentId in old(unindex) && old(unindex)[documentId] == newvalues then
          status == 0 && unindex == old(unindex) && index == old(index)
        else
          && status == (if newvalues == {} then 0 else 1)
          && unindex == (if newvalues == {} then old(unindex) - {documentId}
                         else old(unindex)[documentId := newvalues])
          && (forall k :: Has(index, k, documentId) <==> k in newvalues)
      ensures forall k, d :: d != documentId ==> (Has(index, k, d) <==> Has(old(index), k, d))
    {
      status := 0;
      if obj.start.None? {
        return;
      }
      var newvalues := NewValues(recurrenceType, dst, obj.start.value, obj, env);
      if documentId in unindex && unindex[documentId] == newvalues {
        return;
      }
      ghost var index0 := index;
      ghost var unindex0 := unindex;
      if documentId in unindex {
        var oldvalues := unindex[documentId];
        var rest := oldvalues;
        while rest != {}
          invariant rest <= oldvalues
          invariant unindex == unindex0
          invariant NoEmptyRows(index)
          invariant forall k, d :: Has(index, k, d) <==> Has(index0, k, d) && !(d == documentId && k in oldvalues - rest)
          decreases rest
        {
          NonEmpty(rest);
        var k :| k in rest;
          RemoveForwardIndexEntry(k, documentId);
          rest := rest - {k};
        }
        if newvalues == {} {
          unindex := unindex - {documentId};
        }
      }
      assert forall k, d :: Has(index, k, d) <==> Has(index0, k, d) && d != documentId;
      ghost var index1 := index;
      ghost var unindex1 := unindex;
      var inserted := false;
      var rest := newvalues;
      while rest != {}
        invariant rest <= newvalues
        invariant unindex == unindex1
        invariant inserted <==> rest != newvalues
        invariant NoEmptyRows(index)
        invariant forall k, d :: Has(index, k, d) <==> Has(index1, k, d) || (d == documentId && k in newvalues - rest)
        decreases rest
      {
        NonEmpty(rest);
        var k :| k in rest;
        InsertForwardIndexEntry(k, documentId);
        inserted := true;
        rest := rest - {k};
      }
      if inserted {
        unindex := unindex[documentId := newvalues];
        status := 1;
      }
    }

    /** Removes a document from both maps; a document that is not indexed is left alone. */
    method UnindexObject(documentId: DocId)
      requires Valid()
      modifies this
      ensures Valid()
      ensures unindex == old(unindex) - {documentId}
      ensures forall k, d :: Has(index, k, d) <==> Has(old(index), k, d) && d != documentId
      ensures documentId !in old(unindex) ==> index == old(index)
    {
      if documentId !in unindex {
        return;
      }
      var values := unindex[documentId];
      var rest := values;
      while rest != {}
        invariant rest <= values
        invariant unindex == old(unindex)
        invariant NoEmptyRows(index)
        invariant forall k, d :: Has(index, k, d) <==> Has(old(index), k, d) && !(d == documentId && k in values - rest)
        decreases rest
      {
        NonEmpty(rest);
        var k :| k in rest;
        RemoveForwardIndexEntry(k, documentId);
        rest := rest - {k};
      }
      unindex := unindex - {documentId};
    }

    /**
     * Evaluates a query against the reverse map: a range query takes the
     * union of the rows between its bounds, a point-list query combines the
     * rows of the given keys with `or` or `and`.
     */
    method ApplyIndex(request: Request, resultset: Option<set<DocId>>) returns (r: Outcome)
      ensures request.keys.None? ==> r == NotApplied
      ensures request.keys.Some? && OperatorOf(request) !in Operators ==> r == InvalidOperator(OperatorOf(request))
      ensures request.keys.Some? && OperatorOf(request) in Operators ==>
        var keys := request.keys.value;
        match QueryMode(request.range, request.usage)
        case Range(useMin, useMax) =>
          if (useMin || useMax) && keys == [] then r == EmptyKeys
          else r == Applied(RangeUnion(index, if useMin then Some(SeqMin(keys)) else None,
                                       UpperBound(if useMax then Some(SeqMax(keys)) else None)), [id])
        case Point =>
          r.Applied? && r.ids == [id] &&
          forall d :: d in r.docs <==> PointMatch(index, keys, OperatorOf(request) == "or", resultset, d)
    {
      if request.keys.None? {
        return NotApplied;
      }
      var keys := request.keys.value;
      var operator := OperatorOf(request);
      if operator !in Operators {
        return InvalidOperator(operator);
      }
      var isOr := operator == "or";
      var mode := QueryMode(request.range, request.usage);
      if mode.Range? {
        if (mode.useMin || mode.useMax) && keys == [] {
          return EmptyKeys;
        }
        var lo := if mode.useMin then Some(SeqMin(keys)) else None;
        var hi := if mode.useMax then Some(SeqMax(keys)) else None;
        return Applied(RangeUnion(index, lo, UpperBound(hi)), [id]);
      }
      var result: Option<set<DocId>> := None;
      for i := 0 to |keys|
        invariant result.None? <==> !AnyFound(index, keys, i)
        invariant result.Some? ==> forall d :: d in result.value <==>
          if isOr then InSome(index, keys, i, resultset, d) else InEvery(index, keys, i, resultset, d)
      {
        var key := keys[i];
        if key in index {
          var s := Row(index, key, resultset);
          result := Some(Combine(isOr, result, s));
        }
      }
      r := Applied(if result.None? then {} else result.value, [id]);
    }
  }

  /**
   * Under the invariant, a range query can be answered from the forward map
   * alone: a document is in the union of the rows between the bounds exactly
   * when one of its own keys lies between them.
   */
  lemma RangeQueryByForwardMap(fwd: map<DocId, set<Key>>, rev: map<Key, set<DocId>>,
                               lo: Option<Key>, hi: Option<Key>, d: DocId)
    requires Agree(fwd, rev)
    ensures d in RangeUnion(rev, lo, hi) <==> d in fwd && exists k :: k in fwd[d] && Within(k, lo, hi)
  {
    if d in RangeUnion(rev, lo, hi) {
      var k :| Within(k, lo, hi) && Has(rev, k, d);
      assert Has(fwd, d, k);
    }
    if d in fwd && exists k :: k in fwd[d] && Within(k, lo, hi) {
      var k :| k in fwd[d] && Within(k, lo, hi);
      assert Has(fwd, d, k);
    }
  }

  /**
   * Indexing the same document twice with unchanged data: the second call
   * reports no change and leaves both maps as the first call left them
   * (`unindex1`, `index1`), and neither call touches another document.
   */
  method IndexTwice(idx: DateRecurringIndex, documentId: DocId, obj: Document, env: Environment)
    returns (first: int, second: int, ghost unindex1: map<DocId, set<Key>>, ghost index1: map<Key, set<DocId>>)
    requires idx.Valid()
    modifies idx
    ensures idx.Valid()
    ensures second == 0
    ensures idx.unindex == unindex1 && idx.index == index1
    ensures obj.start.Some? ==>
      forall k :: Has(idx.index, k, documentId) <==> k in NewValues(idx.recurrenceType, idx.dst, obj.start.value, obj, env)
    ensures forall k, d :: d != documentId ==> (Has(idx.index, k, d) <==> Has(old(idx.index), k, d))
  {
    first := idx.IndexObject(documentId, obj, env);
    unindex1, index1 := idx.unindex, idx.index;
    second := idx.IndexObject(documentId, obj, env);
    assert idx.unindex == unindex1;
    ReverseDeterminedByForward(idx.unindex, idx.index, index1);
  }
}
