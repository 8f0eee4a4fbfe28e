/**
  How the worker turns a page of table rows into counter increments
  (packages/worker/src/counter/counter.utils.ts).

  A criteria such as ["tokenAddress", "from|to"] is a list of condition field sets; a counter key
  gives each condition field set one value. The source encodes a key as a sorted URL query string;
  here a key is the map itself, so the encoding is taken to be injective.
*/
module CounterUtils {
  import opened Basics

  datatype Value = Undefined | Null | Text(text: string)

  /** A condition field set "a|b", split at the bars. Splitting never gives an empty list. */
  type ConditionSet = fields: seq<string> | |fields| > 0 witness ["from", "to"]
  type Criteria = seq<ConditionSet>
  type Key = map<ConditionSet, Value>

  datatype Record = Record(number: int, blockNumber: int, fields: map<string, Value>)
  datatype Counter = Counter(tableName: string, key: Key, count: int)

  function FieldOf(record: Record, field: string): Value {
    if field in record.fields then record.fields[field] else Undefined
  }

  /** Some field of the condition set has this value in the record. */
  predicate HasValue(record: Record, fields: seq<string>, v: Value) {
    exists i :: 0 <= i < |fields| && FieldOf(record, fields[i]) == v
  }

  /** What a key asks of a record: every condition set has some field with the key's value. */
  predicate Matches(criteria: Criteria, record: Record, key: Key) {
    && (forall i :: 0 <= i < |criteria| ==> criteria[i] in key && HasValue(record, criteria[i], key[criteria[i]]))
    && (forall c :: c in key.Keys ==> c in criteria)
  }

  /** How often one record counts towards a key: once for the total, else once per criteria it matches. */
  function Weight(criteriaList: seq<Criteria>, record: Record, key: Key): nat {
    if key == map[] then 1 else CriteriaMatched(criteriaList, record, key)
  }

  function CriteriaMatched(criteriaList: seq<Criteria>, record: Record, key: Key): nat {
    if |criteriaList| == 0 then 0
    else
      var n := |criteriaList| - 1;
      CriteriaMatched(criteriaList[..n], record, key) + Hit(criteriaList[n], record, key)
  }

  function Hit(criteria: Criteria, record: Record, key: Key): nat {
    if key != map[] && Matches(criteria, record, key) then 1 else 0
  }

  /** The plain recount of a list of records. */
  function Recount(criteriaList: seq<Criteria>, records: seq<Record>, key: Key): nat {
    if |records| == 0 then 0
    else
      var n := |records| - 1;
      Recount(criteriaList, records[..n], key) + Weight(criteriaList, records[n], key)
  }

  /** The records that one criteria alone contributes to a key. */
  function Tally(criteria: Criteria, records: seq<Record>, key: Key): nat {
    if |records| == 0 then 0
    else
      var n := |records| - 1;
      Tally(criteria, records[..n], key) + Hit(criteria, records[n], key)
  }

  function TallyAll(criteriaList: seq<Criteria>, records: seq<Record>, key: Key): nat {
    if |criteriaList| == 0 then 0
    else
      var n := |criteriaList| - 1;
      TallyAll(criteriaList[..n], records, key) + Tally(criteriaList[n], records, key)
  }

  ghost predicate WellFormed(criteriaList: seq<Criteria>) {
    forall i :: 0 <= i < |criteriaList| ==> Distinct(criteriaList[i])
  }

  // ---------------------------------------------------------------- the recount

  /** The total counts every record, whatever the criteria. */
  lemma {:induction false} RecountTotal(criteriaList: seq<Criteria>, records: seq<Record>)
    ensures Recount(criteriaList, records, map[]) == |records|
  {
    if |records| > 0 {
      RecountTotal(criteriaList, records[..|records| - 1]);
    }
  }

  /** Counters of a concatenation are the sums of the counters. */
  lemma {:induction false} RecountConcat(criteriaList: seq<Criteria>, a: seq<Record>, b: seq<Record>, key: Key)
    ensures Recount(criteriaList, a + b, key) == Recount(criteriaList, a, key) + Recount(criteriaList, b, key)
    decreases |b|
  {
    if |b| == 0 {
      assert a + b == a;
    } else {
      var n := |b| - 1;
      assert (a + b)[..|a| + n] == a + b[..n];
      RecountConcat(criteriaList, a, b[..n], key);
    }
  }

  /** Summing criteria by criteria or record by record gives the same counter. */
  lemma {:induction false} TallyAllIsRecount(criteriaList: seq<Criteria>, records: seq<Record>, key: Key)
    requires key != map[]
    ensures TallyAll(criteriaList, records, key) == Recount(criteriaList, records, key)
    decreases |records|
  {
    if |records| == 0 {
      TallyNone(criteriaList, records, key);
    } else {
      TallyLast(criteriaList, records, key);
      TallyAllIsRecount(criteriaList, records[..|records| - 1], key);
    }
  }

  lemma {:induction false} TallyNone(criteriaList: seq<Criteria>, records: seq<Record>, key: Key)
    requires |records| == 0
    ensures TallyAll(criteriaList, records, key) == 0
  {
    if |criteriaList| > 0 {
      TallyNone(criteriaList[..|criteriaList| - 1], records, key);
    }
  }

  lemma {:induction false} TallyLast(criteriaList: seq<Criteria>, records: seq<Record>, key: Key)
    requires |records| > 0
    ensures TallyAll(criteriaList, records, key)
         == TallyAll(criteriaList, records[..|records| - 1], key)
          + CriteriaMatched(criteriaList, records[|records| - 1], key)
  {
    if |criteriaList| > 0 {
      TallyLast(criteriaList[..|criteriaList| - 1], records, key);
    }
  }

  /** The records that match a key of one criteria, as a sublist of the table. */
  function Matching(criteria: Criteria, records: seq<Record>, key: Key): seq<Record> {
    if |records| == 0 then []
    else
      var n := |records| - 1;
      if Matches(criteria, records[n], key) then Matching(criteria, records[..n], key) + [records[n]]
      else Matching(criteria, records[..n], key)
  }

  /**
    A counter is the number of matching rows: when no other criteria of the list is over the same
    condition sets, the counter of a key of criteria `i` is how many records match it.
  */
  lemma {:induction false} RecountIsNumberOfMatches(criteriaList: seq<Criteria>, i: nat, records: seq<Record>, key: Key)
    requires i < |criteriaList| && key != map[]
    requires forall c :: c in key.Keys <==> c in criteriaList[i]
    requires forall j :: 0 <= j < |criteriaList| && j != i ==>
      !(forall c :: c in criteriaList[i] <==> c in criteriaList[j])
    ensures Recount(criteriaList, records, key) == |Matching(criteriaList[i], records, key)|
  {
    if |records| > 0 {
      var n := |records| - 1;
      RecountIsNumberOfMatches(criteriaList, i, records[..n], key);
      OnlyOneCriteriaMatches(criteriaList, i, records[n], key);
    }
  }

  lemma {:induction false} OnlyOneCriteriaMatches(criteriaList: seq<Criteria>, i: int, record: Record, key: Key)
    requires key != map[]
    requires 0 <= i < |criteriaList| ==> forall c :: c in key.Keys <==> c in criteriaList[i]
    requires forall j :: 0 <= j < |criteriaList| && j != i ==> !(forall c :: c in key.Keys <==> c in criteriaList[j])
    ensures CriteriaMatched(criteriaList, record, key)
         == if 0 <= i < |criteriaList| && Matches(criteriaList[i], record, key) then 1 else 0
  {
    if |criteriaList| > 0 {
      var n := |criteriaList| - 1;
      OnlyOneCriteriaMatches(criteriaList[..n], i, record, key);
      if n != i {
        assert !Matches(criteriaList[n], record, key);
      }
    }
  }

  // ---------------------------------------------------------------- calculateCounters

  /** The keys of one more condition set: every key so far, extended by one of the set's values. */
  ghost predicate Extends(k: Key, bases: seq<Key>, c: ConditionSet, record: Record, fields: seq<string>) {
    && c in k
    && HasValue(record, fields, k[c])
    && k - {c} in bases
  }

  /** One turn of the source's loop over condition field sets, with its two inner loops. */
  method ExtendCounters(countersToExtend: seq<Key>, c: ConditionSet, record: Record) returns (counters: seq<Key>)
    requires Distinct(countersToExtend)
    requires forall b :: b in countersToExtend ==> c !in b
    ensures Distinct(counters) && |counters| > 0
    ensures forall k :: k in counters <==>
      Extends(k, if countersToExtend == [] then [map[]] else countersToExtend, c, record, c)
  {
    counters := [];
    ghost var bases := if countersToExtend == [] then [map[]] else countersToExtend;
    var values: set<Value> := {};
    for i := 0 to |c|
      invariant forall v :: v in values <==> HasValue(record, c[..i], v)
      invariant forall k :: k in counters <==> Extends(k, bases, c, record, c[..i])
      invariant Distinct(counters)
      invariant i > 0 ==> |counters| > 0
    {
      var v := FieldOf(record, c[i]);
      OneMoreValue(record, c, i);
      if v in values {
        continue;
      }
      values := values + {v};
      ghost var before := counters;
      if |countersToExtend| == 0 {
        counters := counters + [map[c := v]];
        assert map[c := v] - {c} == map[];
      }
      for j := 0 to |countersToExtend|
        invariant |countersToExtend| > 0 ==> counters == before + ExtendAll(countersToExtend[..j], c, v)
        invariant |countersToExtend| == 0 ==> counters == before + [map[c := v]]
      {
        counters := counters + [countersToExtend[j][c := v]];
        assert countersToExtend[..j + 1][..j] == countersToExtend[..j];
      }
      assert countersToExtend[..|countersToExtend|] == countersToExtend;
      if |countersToExtend| == 0 {
        assert ExtendAll(bases, c, v) == [map[c := v]] by {
          assert bases[..0] == [];
          var none: Key := map[];
          assert none[c := v] == map[c := v];
        }
      }
      assert counters == before + ExtendAll(bases, c, v);
      ExtendAllIs(bases, c, v);
      DistinctConcat(before, ExtendAll(bases, c, v), bases, c, record, c[..i], v);
    }
    assert c[..|c|] == c;
  }

  lemma OneMoreValue(record: Record, fields: seq<string>, i: nat)
    requires i < |fields|
    ensures forall w :: HasValue(record, fields[..i + 1], w) <==>
      HasValue(record, fields[..i], w) || w == FieldOf(record, fields[i])
  {
    assert fields[..i + 1] == fields[..i] + [fields[i]];
    forall w ensures HasValue(record, fields[..i + 1], w) <==>
        HasValue(record, fields[..i], w) || w == FieldOf(record, fields[i]) {
      if w == FieldOf(record, fields[i]) {
        assert fields[..i + 1][i] == fields[i];
      }
      if HasValue(record, fields[..i], w) {
        var j :| 0 <= j < i && FieldOf(record, fields[..i][j]) == w;
        assert fields[..i + 1][j] == fields[..i][j];
      }
    }
  }

  function ExtendAll(bases: seq<Key>, c: ConditionSet, v: Value): (r: seq<Key>)
    ensures |r| == |bases|
  {
    if |bases| == 0 then []
    else
      var n := |bases| - 1;
      ExtendAll(bases[..n], c, v) + [bases[n][c := v]]
  }

  lemma {:induction false} ExtendAllIs(bases: seq<Key>, c: ConditionSet, v: Value)
    requires Distinct(bases)
    requires forall b :: b in bases ==> c !in b
    ensures Distinct(ExtendAll(bases, c, v))
    ensures forall k :: k in ExtendAll(bases, c, v) <==> c in k && k[c] == v && k - {c} in bases
  {
    if |bases| > 0 {
      var n := |bases| - 1;
      ExtendAllIs(bases[..n], c, v);
      var k := bases[n][c := v];
      assert k - {c} == bases[n];
      assert bases == bases[..n] + [bases[n]];
      assert k !in ExtendAll(bases[..n], c, v);
      forall k': Key | c in k' && k'[c] == v && k' - {c} == bases[n] ensures k' == k {
        assert k' == (k' - {c})[c := v];
      }
    }
  }

  lemma DistinctConcat(before: seq<Key>, added: seq<Key>, bases: seq<Key>, c: ConditionSet, record: Record,
                       fields: seq<string>, v: Value)
    requires Distinct(before) && Distinct(added)
    requires forall k :: k in before <==> Extends(k, bases, c, record, fields)
    requires forall k :: k in added <==> c in k && k[c] == v && k - {c} in bases
    requires !HasValue(record, fields, v)
    ensures Distinct(before + added)
  {
    forall i, j | 0 <= i < |before| && 0 <= j < |added| ensures before[i] != added[j] {
      assert before[i] in before && added[j] in added;
    }
  }

  /** The keys one record counts towards under one criteria, each exactly once. */
  method CountersOf(record: Record, criteria: Criteria) returns (counters: seq<Key>)
    requires Distinct(criteria)
    ensures Distinct(counters)
    ensures forall k :: k in counters <==> k != map[] && Matches(criteria, record, k)
  {
    counters := [];
    for i := 0 to |criteria|
      invariant Distinct(counters)
      invariant i == 0 <==> |counters| == 0
      invariant forall k :: k in counters <==> k != map[] && Matches(criteria[..i], record, k)
    {
      var countersToExtend := counters;
      counters := ExtendCounters(countersToExtend, criteria[i], record);
      forall k ensures k in counters <==> k != map[] && Matches(criteria[..i + 1], record, k) {
        MatchesOneMore(criteria, i, record, k);
        if criteria[i] in k && k - {criteria[i]} == map[] && i > 0 {
          assert !Matches(criteria[..i], record, map[]) by { assert criteria[..i][0] == criteria[0]; }
        }
      }
    }
    assert criteria[..|criteria|] == criteria;
  }

  lemma MatchesOneMore(criteria: Criteria, i: nat, record: Record, k: Key)
    requires i < |criteria| && Distinct(criteria)
    ensures Matches(criteria[..i + 1], record, k) <==>
      criteria[i] in k && HasValue(record, criteria[i], k[criteria[i]])
          && Matches(criteria[..i], record, k - {criteria[i]})
    ensures i == 0 ==> Matches(criteria[..i], record, map[])
    ensures i == 0 && Matches(criteria[..i], record, k) ==> k == map[]
  {
    var c := criteria[i];
    var prefix, longer := criteria[..i], criteria[..i + 1];
    assert longer == prefix + [c];
    if Matches(longer, record, k) {
      assert longer[i] == c;
      forall j | 0 <= j < i ensures prefix[j] in k - {c} && HasValue(record, prefix[j], (k - {c})[prefix[j]]) {
        assert longer[j] == prefix[j] != c;
      }
    }
    if i == 0 && Matches(prefix, record, k) {
      assert k.Keys == {};
    }
  }

  function Amount(counters: seq<Counter>, tableName: string, key: Key): int {
    if |counters| == 0 then 0
    else
      var n := |counters| - 1;
      Amount(counters[..n], tableName, key)
      + (if counters[n].tableName == tableName && counters[n].key == key then counters[n].count else 0)
  }

  function CountIn(m: map<Key, int>, key: Key): int {
    if key in m then m[key] else 0
  }

  /** The source's calculateCounters: its counters add up, key by key, to the plain recount of the records. */
  method CalculateCounters(tableName: string, records: seq<Record>, criteriaList: seq<Criteria>)
    returns (counters: seq<Counter>)
    requires WellFormed(criteriaList)
    ensures |counters| > 0 && counters[0].tableName == tableName
    ensures forall key :: Amount(counters, tableName, key) == Recount(criteriaList, records, key)
    ensures forall other, key :: other != tableName ==> Amount(counters, other, key) == 0
  {
    var countersMap: map<Key, int> := map[];
    for i := 0 to |criteriaList|
      invariant forall key :: CountIn(countersMap, key) == TallyAll(criteriaList[..i], records, key)
      invariant map[] !in countersMap
    {
      for j := 0 to |records|
        invariant forall key :: CountIn(countersMap, key)
                             == TallyAll(criteriaList[..i], records, key) + Tally(criteriaList[i], records[..j], key)
        invariant map[] !in countersMap
      {
        var keys := CountersOf(records[j], criteriaList[i]);
        countersMap := CountKeys(countersMap, keys);
        assert records[..j + 1][..j] == records[..j];
      }
      assert records[..|records|] == records;
      assert criteriaList[..i + 1][..i] == criteriaList[..i];
    }
    assert criteriaList[..|criteriaList|] == criteriaList;
    counters := CountersFrom(tableName, |records|, countersMap);
    forall key ensures Amount(counters, tableName, key) == Recount(criteriaList, records, key) {
      if key == map[] {
        RecountTotal(criteriaList, records);
      } else {
        TallyAllIsRecount(criteriaList, records, key);
      }
    }
  }

  /** Adds one to the count of each key. */
  method CountKeys(before: map<Key, int>, keys: seq<Key>) returns (countersMap: map<Key, int>)
    requires Distinct(keys)
    ensures forall key :: CountIn(countersMap, key) == CountIn(before, key) + (if key in keys then 1 else 0)
    ensures countersMap.Keys <= before.Keys + (set key | key in keys)
  {
    countersMap := before;
    for n := 0 to |keys|
      invariant forall key :: CountIn(countersMap, key) == CountIn(before, key) + (if key in keys[..n] then 1 else 0)
      invariant countersMap.Keys <= before.Keys + (set key | key in keys)
    {
      assert keys[..n + 1] == keys[..n] + [keys[n]];
      assert keys[n] !in keys[..n];
      if keys[n] !in countersMap || countersMap[keys[n]] == 0 {
        countersMap := countersMap[keys[n] := 1];
      } else {
        countersMap := countersMap[keys[n] := countersMap[keys[n]] + 1];
      }
    }
    assert keys[..|keys|] == keys;
  }

  /** The total, then one counter per counted key. */
  method CountersFrom(tableName: string, total: int, countersMap: map<Key, int>) returns (counters: seq<Counter>)
    requires map[] !in countersMap
    ensures |counters| > 0 && counters[0].tableName == tableName
    ensures forall key :: Amount(counters, tableName, key) == if key == map[] then total else CountIn(countersMap, key)
    ensures forall other, key :: other != tableName ==> Amount(counters, other, key) == 0
  {
    counters := [Counter(tableName, map[], total)];
    assert counters[..0] == [];
    var left := countersMap;
    while left.Keys != {}
      invariant |counters| > 0 && counters[0].tableName == tableName
      invariant left.Keys <= countersMap.Keys
      invariant forall key :: key in left ==> left[key] == countersMap[key]
      invariant forall key :: Amount(counters, tableName, key)
                           == (if key == map[] then total else CountIn(countersMap, key) - CountIn(left, key))
      invariant forall other, key :: other != tableName ==> Amount(counters, other, key) == 0
      decreases |left.Keys|
    {
      var key :| key in left.Keys;
      ghost var previous := counters;
      counters := counters + [Counter(tableName, key, countersMap[key])];
      assert counters[..|previous|] == previous;
      left := left - {key};
    }
  }
}
