/** The dictionary store of dictionary.py: an identity index (id to record, in
    insertion order), a name index (name to the records carrying it) built once
    from the loaded snapshot, and two mutation counters. Every operation is a pure
    function from the store (and its inputs) to its result or to the next store. */
module Dictionary {
  import opened Wrappers
  import opened JsonValues
  import opened OrderedMaps
  import opened Normalizer

  /** `index`: record id to record. */
  type IdIndex = Dict<Json, Record>

  /** `name_index`: record name to the records with that name. Like every Python
      `dict` key, each name hashes. */
  type NameIndex = m: map<Json, seq<Record>> | forall n | n in m :: Hashable(n) witness map[]

  datatype Store = Store(
    index: IdIndex,
    nameIndex: NameIndex,
    newRecordCount: nat,
    updatedRecordCount: nat)

  /** The persisted file: when it was last written and the records it holds. */
  datatype Snapshot = Snapshot(lastUpdate: string, data: seq<Record>)

  /** The file written when none exists yet. */
  const EmptySnapshot: Snapshot := Snapshot("", [])

  /** A similarity score on rapidfuzz's 0 to 100 scale. */
  type Percent = x: real | 0.0 <= x <= 100.0

  // ---------------------------------------------------------------------------
  // Reference definitions
  // ---------------------------------------------------------------------------

  /** The ids occurring in `data`. */
  ghost function Ids(data: seq<Record>): set<Json> {
    set r | r in data :: r.id
  }

  /** The names occurring in `data`. */
  ghost function Names(data: seq<Record>): set<Json> {
    set r | r in data :: r.name
  }

  /** Appending a record adds its id and its name to those of the sequence. */
  lemma IdsAndNamesOfSnoc(prefix: seq<Record>, last: Record)
    ensures Ids(prefix + [last]) == Ids(prefix) + {last.id}
    ensures Names(prefix + [last]) == Names(prefix) + {last.name}
  {
    var data := prefix + [last];
    assert forall r | r in data :: r in prefix || r == last;
    assert forall r | r in prefix :: r in data;
  }

  /** `data[i]` is the last record in `data` with its id. */
  ghost predicate LastWithItsId(data: seq<Record>, i: int)
    requires 0 <= i < |data|
  {
    forall j | i < j < |data| :: data[j].id != data[i].id
  }

  /** The records of `data` whose name is `n`, in `data` order. */
  function WithName(data: seq<Record>, n: Json): seq<Record> {
    if data == [] then []
    else
      var last := data[|data| - 1];
      WithName(data[..|data| - 1], n) + (if last.name == n then [last] else [])
  }

  /** `WithName` keeps exactly the records carrying the name. */
  lemma {:induction false} WithNameMembers(data: seq<Record>, n: Json)
    ensures forall r :: r in WithName(data, n) <==> r in data && r.name == n
  {
    if data != [] {
      var prefix := data[..|data| - 1];
      WithNameMembers(prefix, n);
      assert data == prefix + [data[|data| - 1]];
    }
  }

  /** A name that no record carries has an empty group. */
  lemma WithNameOfAbsentName(data: seq<Record>, n: Json)
    requires n !in Names(data)
    ensures WithName(data, n) == []
  {
    WithNameMembers(data, n);
  }

  /** Every stored record sits under its own id. */
  ghost predicate KeyedById(index: IdIndex) {
    forall k | k in index.entries :: index.entries[k].id == k
  }

  /** Every name group is non-empty and holds only records with that name. */
  ghost predicate GroupedByName(nameIndex: NameIndex) {
    forall n | n in nameIndex ::
      |nameIndex[n]| > 0 && forall i | 0 <= i < |nameIndex[n]| :: nameIndex[n][i].name == n
  }

  /** The invariant every store reachable from a snapshot keeps. */
  ghost predicate Valid(s: Store) {
    KeyedById(s.index) && GroupedByName(s.nameIndex)
  }

  // ---------------------------------------------------------------------------
  // Construction
  // ---------------------------------------------------------------------------

  /** `{record["id"]: record for record in data}`. */
  function BuildIndex(data: seq<Record>): IdIndex {
    if data == [] then Empty()
    else
      var last := data[|data| - 1];
      Put(BuildIndex(data[..|data| - 1]), last.id, last)
  }

  /** The comprehension keys each record by its id, has exactly the ids of `data`
      as keys, and keeps the last record of each id (last wins). */
  lemma {:induction false} BuildIndexKeepsLastRecord(data: seq<Record>)
    ensures KeyedById(BuildIndex(data))
    ensures BuildIndex(data).entries.Keys == Ids(data)
    ensures forall i | 0 <= i < |data| && LastWithItsId(data, i) ::
      BuildIndex(data).entries[data[i].id] == data[i]
  {
    if data != [] {
      var prefix := data[..|data| - 1];
      var last := data[|data| - 1];
      BuildIndexKeepsLastRecord(prefix);
      assert data == prefix + [last];
      BuildIndexStep(prefix, last, BuildIndex(prefix));
    }
  }

  /** Wherever the later of two keys of `index` occurs in `data`, the earlier
      key has already occurred. */
  ghost predicate FirstOccurrenceOrder(data: seq<Record>, keys: seq<Json>) {
    forall a, b, j | 0 <= a < b < |keys| && 0 <= j < |data| && data[j].id == keys[b] ::
      exists i | 0 <= i < j :: data[i].id == keys[a]
  }

  /** The comprehension orders the ids by their first occurrence in `data`. */
  lemma {:induction false} BuildIndexKeyOrder(data: seq<Record>)
    ensures FirstOccurrenceOrder(data, BuildIndex(data).keys)
  {
    if data != [] {
      var prefix := data[..|data| - 1];
      var last := data[|data| - 1];
      assert data == prefix + [last];
      BuildIndexKeyOrder(prefix);
      BuildIndexKeepsLastRecord(prefix);
      KeyOrderStep(prefix, last, BuildIndex(prefix));
    }
  }

  /** One assignment step of `BuildIndex` keeps the keys in first-occurrence order. */
  lemma KeyOrderStep(prefix: seq<Record>, last: Record, before: IdIndex)
    requires before.entries.Keys == Ids(prefix)
    requires FirstOccurrenceOrder(prefix, before.keys)
    ensures FirstOccurrenceOrder(prefix + [last], Put(before, last.id, last).keys)
  {
    var data := prefix + [last];
    var keys := Put(before, last.id, last).keys;
    forall a, b, j | 0 <= a < b < |keys| && 0 <= j < |data| && data[j].id == keys[b]
      ensures exists i | 0 <= i < j :: data[i].id == keys[a]
    {
      assert keys[a] == before.keys[a];
      if b < |before.keys| {
        OldKeyOrder(prefix, last, before, a, b, j);
      } else {
        NewKeyOrder(prefix, last, before, a, j);
      }
    }
  }

  /** Two keys already present keep their first-occurrence order after `last` is appended. */
  lemma OldKeyOrder(prefix: seq<Record>, last: Record, before: IdIndex, a: nat, b: nat, j: nat)
    requires before.entries.Keys == Ids(prefix)
    requires FirstOccurrenceOrder(prefix, before.keys)
    requires a < b < |before.keys| && j <= |prefix|
    requires (prefix + [last])[j].id == before.keys[b]
    ensures exists i | 0 <= i < j :: (prefix + [last])[i].id == before.keys[a]
  {
    var data := prefix + [last];
    var jb := j;
    if j == |prefix| {
      assert before.keys[b] in Ids(prefix);
      var rb :| rb in prefix && rb.id == before.keys[b];
      jb :| 0 <= jb < |prefix| && prefix[jb] == rb;
    } else {
      assert prefix[j] == data[j];
    }
    var i :| 0 <= i < jb && prefix[i].id == before.keys[a];
    assert data[i] == prefix[i];
  }

  /** A key appended by `last` comes after every earlier key, each of which occurs in `prefix`. */
  lemma NewKeyOrder(prefix: seq<Record>, last: Record, before: IdIndex, a: nat, j: nat)
    requires before.entries.Keys == Ids(prefix)
    requires last.id !in before.entries
    requires a < |before.keys| && j <= |prefix|
    requires (prefix + [last])[j].id == last.id
    ensures exists i | 0 <= i < j :: (prefix + [last])[i].id == before.keys[a]
  {
    var data := prefix + [last];
    assert before.keys[a] in Ids(prefix);
    var r :| r in prefix && r.id == before.keys[a];
    var i :| 0 <= i < |prefix| && prefix[i] == r;
    assert data[i] == prefix[i];
  }

  /** One assignment step of `BuildIndex` keeps the index keyed by id, with the
      ids seen so far as keys and the last record of each id as its value. */
  lemma BuildIndexStep(prefix: seq<Record>, last: Record, before: IdIndex)
    requires KeyedById(before)
    requires before.entries.Keys == Ids(prefix)
    requires forall i | 0 <= i < |prefix| && LastWithItsId(prefix, i) :: before.entries[prefix[i].id] == prefix[i]
    ensures var data := prefix + [last];
      var after := Put(before, last.id, last);
      && KeyedById(after)
      && after.entries.Keys == Ids(data)
      && forall i | 0 <= i < |data| && LastWithItsId(data, i) :: after.entries[data[i].id] == data[i]
  {
    var data := prefix + [last];
    var after := Put(before, last.id, last);
    assert after.entries.Keys == Ids(data) by {
      IdsAndNamesOfSnoc(prefix, last);
    }
    forall i | 0 <= i < |data| && LastWithItsId(data, i)
      ensures after.entries[data[i].id] == data[i]
    {
      if i < |prefix| {
        var j := |data| - 1;
        assert data[j] == last;
        assert data[i].id != last.id;
        assert LastWithItsId(prefix, i) by {
          forall j | i < j < |prefix| ensures prefix[j].id != prefix[i].id {
            assert prefix[j] == data[j];
          }
        }
      }
    }
  }

  /** Every name of `data` can be a `dict` key. */
  ghost predicate HashableNames(data: seq<Record>) {
    forall i | 0 <= i < |data| :: Hashable(data[i].name)
  }

  /** `name_index[record["name"]].append(record)` for each record of `data`; the
      grouping raises on an unhashable name, which `Open` reports. */
  function GroupByName(data: seq<Record>): NameIndex
    requires HashableNames(data)
  {
    if data == [] then map[]
    else
      var last := data[|data| - 1];
      var before := GroupByName(data[..|data| - 1]);
      var group := if last.name in before then before[last.name] else [];
      before[last.name := group + [last]]
  }

  /** The grouping has exactly the names of `data` as keys, and each group is the
      records of `data` with that name, in `data` order. */
  lemma {:induction false} GroupByNameFiltersByName(data: seq<Record>)
    requires HashableNames(data)
    ensures GroupByName(data).Keys == Names(data)
    ensures forall n | n in GroupByName(data) :: GroupByName(data)[n] == WithName(data, n)
  {
    if data != [] {
      var prefix := data[..|data| - 1];
      var last := data[|data| - 1];
      GroupByNameFiltersByName(prefix);
      assert data == prefix + [last];
      GroupByNameStep(prefix, last, GroupByName(prefix));
    }
  }

  /** One append step of `GroupByName` keeps each group equal to the filtered records. */
  lemma GroupByNameStep(prefix: seq<Record>, last: Record, before: NameIndex)
    requires Hashable(last.name)
    requires before.Keys == Names(prefix)
    requires forall n | n in before :: before[n] == WithName(prefix, n)
    ensures var group := if last.name in before then before[last.name] else [];
      var after := before[last.name := group + [last]];
      && after.Keys == Names(prefix + [last])
      && forall n | n in after :: after[n] == WithName(prefix + [last], n)
  {
    var data := prefix + [last];
    assert data[..|data| - 1] == prefix;
    IdsAndNamesOfSnoc(prefix, last);
    if last.name !in before {
      WithNameOfAbsentName(prefix, last.name);
    }
  }

  /** `Dictionary.__init__` after the file is read: both indices from the
      snapshot's records, both counters zero. */
  function Build(data: seq<Record>): (s: Store)
    requires HashableNames(data)
    ensures Valid(s)
    ensures s.newRecordCount == 0 && s.updatedRecordCount == 0
    ensures s.index.entries.Keys == Ids(data)
    ensures forall i | 0 <= i < |data| && LastWithItsId(data, i) :: s.index.entries[data[i].id] == data[i]
    ensures FirstOccurrenceOrder(data, s.index.keys)
    ensures s.nameIndex.Keys == Names(data)
    ensures forall n | n in s.nameIndex :: s.nameIndex[n] == WithName(data, n)
  {
    BuildIndexKeepsLastRecord(data);
    BuildIndexKeyOrder(data);
    GroupByNameFiltersByName(data);
    var nameIndex := GroupByName(data);
    assert GroupedByName(nameIndex) by {
      forall n | n in nameIndex
        ensures |nameIndex[n]| > 0
        ensures forall i | 0 <= i < |nameIndex[n]| :: nameIndex[n][i].name == n
      {
        WithNameMembers(data, n);
        var r :| r in data && r.name == n;
        assert r in nameIndex[n];
      }
    }
    Store(BuildIndex(data), nameIndex, 0, 0)
  }

  /** `key(data[i])` is the first key of `data` that Python cannot hash. */
  ghost predicate IsFirstUnhashable(data: seq<Record>, key: Record -> Json, i: int) {
    && 0 <= i < |data|
    && !Hashable(key(data[i]))
    && forall j | 0 <= j < i :: Hashable(key(data[j]))
  }

  /** The first key of `data` that Python cannot hash, if any. */
  function FirstUnhashable(data: seq<Record>, key: Record -> Json): (r: Option<Json>)
    ensures r.None? <==> forall i | 0 <= i < |data| :: Hashable(key(data[i]))
    ensures r.Some? ==> exists i | IsFirstUnhashable(data, key, i) :: r.value == key(data[i])
  {
    if data == [] then None
    else if !Hashable(key(data[0])) then
      assert IsFirstUnhashable(data, key, 0);
      Some(key(data[0]))
    else
      var r := FirstUnhashable(data[1..], key);
      FirstUnhashableOfTail(data, key, r);
      r
  }

  /** When the first key hashes, the first unhashable key of the tail is the first
      of the whole sequence, and there is none exactly when the tail has none. */
  lemma FirstUnhashableOfTail(data: seq<Record>, key: Record -> Json, r: Option<Json>)
    requires |data| > 0 && Hashable(key(data[0]))
    requires r.None? <==> forall i | 0 <= i < |data[1..]| :: Hashable(key(data[1..][i]))
    requires r.Some? ==> exists i | IsFirstUnhashable(data[1..], key, i) :: r.value == key(data[1..][i])
    ensures r.None? <==> forall i | 0 <= i < |data| :: Hashable(key(data[i]))
    ensures r.Some? ==> exists i | IsFirstUnhashable(data, key, i) :: r.value == key(data[i])
  {
  }

  /** Every id and every name of `data` can be a `dict` key. */
  ghost predicate HashableKeys(data: seq<Record>) {
    forall i | 0 <= i < |data| :: Hashable(data[i].id) && Hashable(data[i].name)
  }

  /** Why `Dictionary()` raised: a snapshot record's id or name is a list or dict,
      which `dict` refuses as a key with `TypeError`. */
  datatype OpenError = UnhashableKey(key: Json)

  /** `Dictionary()`: load the persisted snapshot, or the empty one written in its
      place when no file exists. The id comprehension runs over all the data before
      the name grouping, so an unhashable id is reported before any unhashable name. */
  function Open(file: Option<Snapshot>): (r: Result<Store, OpenError>)
    ensures var data := file.GetOr(EmptySnapshot).data;
      && (r.Success? <==> HashableKeys(data))
      && (r.Failure? && (exists i | 0 <= i < |data| :: !Hashable(data[i].id)) ==>
            exists i | IsFirstUnhashable(data, (rec: Record) => rec.id, i) :: r.error.key == data[i].id)
      && (r.Failure? && (forall i | 0 <= i < |data| :: Hashable(data[i].id)) ==>
            exists i | IsFirstUnhashable(data, (rec: Record) => rec.name, i) :: r.error.key == data[i].name)
    ensures r.Success? ==> Valid(r.value) && r.value.newRecordCount == 0 && r.value.updatedRecordCount == 0
    ensures file.None? ==> r.Success? && r.value.index.entries == map[] && r.value.nameIndex == map[]
    ensures file.Some? && r.Success? ==> r.value == Build(file.value.data)
  {
    var data := file.GetOr(EmptySnapshot).data;
    match FirstUnhashable(data, (rec: Record) => rec.id)
    case Some(k) => Failure(UnhashableKey(k))
    case None =>
      match FirstUnhashable(data, (rec: Record) => rec.name)
      case Some(k) => Failure(UnhashableKey(k))
      case None => Success(Build(data))
  }

  // ---------------------------------------------------------------------------
  // Queries
  // ---------------------------------------------------------------------------

  /** `records()`: the stored records, in index order. */
  function Records(s: Store): (rs: seq<Record>)
    ensures |rs| == |s.index.entries| == |s.index.keys|
    ensures forall r :: r in rs <==> r in s.index.entries.Values
    ensures forall i | 0 <= i < |rs| :: rs[i] == s.index.entries[s.index.keys[i]]
  {
    ValuesAreEntries(s.index);
    Values(s.index)
  }

  /** Why `lookup` raised: the query is a list or dict, which `dict.get` refuses
      with `TypeError`. */
  datatype QueryError = UnhashableQuery(query: Json)

  /** `lookup(name)`: the name group of `query`, or `None`. */
  function Lookup(s: Store, query: Json): (r: Result<Option<seq<Record>>, QueryError>)
    ensures r.Failure? <==> !Hashable(query)
    ensures r.Failure? ==> r.error == UnhashableQuery(query)
    ensures r.Success? ==> (r.value.None? <==> query !in s.nameIndex)
    ensures r.Success? && r.value.Some? ==> r.value.value == s.nameIndex[query]
    ensures r.Success? && r.value.Some? && GroupedByName(s.nameIndex) ==>
      |r.value.value| > 0 && forall i | 0 <= i < |r.value.value| :: r.value.value[i].name == query
  {
    if !Hashable(query) then Failure(UnhashableQuery(query))
    else if query in s.nameIndex then Success(Some(s.nameIndex[query]))
    else Success(None)
  }

  /** A best match and its score, as `process.extractOne` returns them. */
  datatype Match = Match(choice: Json, score: Percent)

  /** `best` is in `choices` and no choice scores higher against `query`. */
  ghost predicate IsBestChoice(query: string, choices: set<Json>, best: Json, score: (string, Json) -> Percent) {
    best in choices && forall k | k in choices :: score(query, k) <= score(query, best)
  }

  /** `process.extractOne(query, choices)`: scan the choices in set iteration
      order (unspecified) and keep the first one with the highest score; `None`
      when there are no choices. */
  method ExtractOne(query: string, choices: set<Json>, score: (string, Json) -> Percent)
    returns (m: Option<Match>)
    ensures m.None? <==> choices == {}
    ensures m.Some? ==> IsBestChoice(query, choices, m.value.choice, score)
    ensures m.Some? ==> m.value.score == score(query, m.value.choice)
  {
    m := None;
    var rest := choices;
    while rest != {}
      invariant rest <= choices
      invariant m.None? <==> rest == choices
      invariant m.Some? ==> m.value.choice in choices && m.value.score == score(query, m.value.choice)
      invariant m.Some? ==> forall k | k in choices - rest :: score(query, k) <= m.value.score
      decreases rest
    {
      var k :| k in rest;
      if m.None? || score(query, k) > m.value.score {
        m := Some(Match(k, score(query, k)));
      }
      rest := rest - {k};
    }
  }

  /** `fuzzy_lookup(query, threshold)`: the name group of the best-scoring name,
      if its score is strictly above `threshold`. */
  method FuzzyLookup(s: Store, query: string, threshold: int, score: (string, Json) -> Percent)
    returns (r: Option<seq<Record>>)
    ensures s.nameIndex == map[] ==> r.None?
    // Found exactly when some name scores above the threshold.
    ensures r.Some? <==> exists k | k in s.nameIndex :: score(query, k) > threshold as real
    // What is found is the group of a best-scoring name, never a union of groups.
    ensures r.Some? ==> exists best | IsBestChoice(query, s.nameIndex.Keys, best, score) ::
      score(query, best) > threshold as real && Lookup(s, best) == Success(r)
  {
    var m := ExtractOne(query, s.nameIndex.Keys, score);
    if m.None? {
      r := None;
    } else {
      r := if m.value.score > threshold as real then Lookup(s, m.value.choice).value else None;
    }
  }

  // ---------------------------------------------------------------------------
  // Updates
  // ---------------------------------------------------------------------------

  /** Why `add` raised: formatting failed, or the formatted id is a list or dict,
      which `self.index.get` refuses with `TypeError`. */
  datatype AddError = FormatFailed(cause: FormatError) | UnhashableId(id: Json)

  /** The part of `add` that can raise, all of it before any mutation: format the
      payload, then probe the identity index with its id. */
  function Prepare(env: Env, raw: Raw): (r: Result<Record, AddError>)
    ensures Format(env, raw).Failure? ==> r == Failure(FormatFailed(Format(env, raw).error))
    ensures Format(env, raw).Success? && !Hashable(Format(env, raw).value.id) ==>
      r == Failure(UnhashableId(Format(env, raw).value.id))
    ensures r.Success? <==> Format(env, raw).Success? && Hashable(Format(env, raw).value.id)
    ensures r.Success? ==> r.value == Format(env, raw).value
  {
    match Format(env, raw)
    case Failure(e) => Failure(FormatFailed(e))
    case Success(rec) => if Hashable(rec.id) then Success(rec) else Failure(UnhashableId(rec.id))
  }

  /** `add(raw)`: format the payload, then insert it under a new id, replace a
      differing record under a known id, or do nothing. The name index is never
      touched. When formatting or the id probe raises, nothing has changed yet. */
  function Add(env: Env, s: Store, raw: Raw): (r: Result<Store, AddError>)
    ensures Format(env, raw).Failure? ==> r == Failure(FormatFailed(Format(env, raw).error))
    ensures Format(env, raw).Success? && !Hashable(Format(env, raw).value.id) ==>
      r == Failure(UnhashableId(Format(env, raw).value.id))
    ensures Format(env, raw).Success? && Hashable(Format(env, raw).value.id) ==> r.Success?
    ensures r.Success? ==>
      var rec := Format(env, raw).value;
      var t := r.value;
      // Only the entry under the record's id changes, and it becomes the record.
      && t.index.entries == s.index.entries[rec.id := rec]
      && t.nameIndex == s.nameIndex
      // A new id: the record is appended and counted as new.
      && (rec.id !in s.index.entries ==>
            Records(t) == Records(s) + [rec]
            && t.newRecordCount == s.newRecordCount + 1
            && t.updatedRecordCount == s.updatedRecordCount)
      // A known id with different content: replaced in place, counted as updated.
      && (rec.id in s.index.entries && s.index.entries[rec.id] != rec ==>
            t.index.keys == s.index.keys
            && t.newRecordCount == s.newRecordCount
            && t.updatedRecordCount == s.updatedRecordCount + 1)
      // Identical content: nothing changes.
      && (rec.id in s.index.entries && s.index.entries[rec.id] == rec ==> t == s)
    ensures r.Success? && Valid(s) ==> Valid(r.value)
  {
    match Prepare(env, raw)
    case Failure(e) => Failure(e)
    case Success(rec) =>
      if rec.id !in s.index.entries then
        var t := s.(index := Put(s.index, rec.id, rec), newRecordCount := s.newRecordCount + 1);
        ValuesOfPutNewKey(s.index, rec.id, rec);
        Success(t)
      else if s.index.entries[rec.id] != rec then
        Success(s.(index := Put(s.index, rec.id, rec), updatedRecordCount := s.updatedRecordCount + 1))
      else
        assert s.index.entries[rec.id := rec] == s.index.entries;
        Success(s)
  }

  /** `raws[i]` is the first payload of `raws` that `add` rejects. */
  ghost predicate IsFirstFailure(env: Env, raws: seq<Raw>, i: int) {
    && 0 <= i < |raws|
    && Prepare(env, raws[i]).Failure?
    && forall j | 0 <= j < i :: Prepare(env, raws[j]).Success?
  }

  /** The driver loop `for record in payloads: dictionary.add(record)`: the first
      payload that `add` rejects aborts the run with its error. Whether `add`
      rejects a payload does not depend on the store. */
  function AddAll(env: Env, s: Store, raws: seq<Raw>): (r: Result<Store, AddError>)
    ensures r.Failure? <==> exists i | 0 <= i < |raws| :: Prepare(env, raws[i]).Failure?
    ensures r.Failure? ==> exists i | IsFirstFailure(env, raws, i) :: Prepare(env, raws[i]) == Failure(r.error)
    ensures r.Success? ==>
      && r.value.nameIndex == s.nameIndex
      && r.value.newRecordCount >= s.newRecordCount
      && r.value.updatedRecordCount >= s.updatedRecordCount
      && |r.value.index.entries| == |s.index.entries| + (r.value.newRecordCount - s.newRecordCount)
    decreases |raws|
  {
    if raws == [] then Success(s)
    else
      match Add(env, s, raws[0])
      case Failure(e) =>
        assert IsFirstFailure(env, raws, 0) && Prepare(env, raws[0]) == Failure(e);
        Failure(e)
      case Success(t) =>
        var r := AddAll(env, t, raws[1..]);
        TailFailures(env, raws);
        if r.Failure? then
          FirstFailureOfTail(env, raws, r.error);
          r
        else
          r
  }

  /** When `add` accepts the first payload, some payload is rejected exactly when
      some payload of the tail is. */
  lemma TailFailures(env: Env, raws: seq<Raw>)
    requires |raws| > 0 && Prepare(env, raws[0]).Success?
    ensures (exists i | 0 <= i < |raws| :: Prepare(env, raws[i]).Failure?) <==>
            (exists i | 0 <= i < |raws[1..]| :: Prepare(env, raws[1..][i]).Failure?)
  {
    if exists i | 0 <= i < |raws| :: Prepare(env, raws[i]).Failure? {
      var i :| 0 <= i < |raws| && Prepare(env, raws[i]).Failure?;
      assert raws[1..][i - 1] == raws[i];
    }
  }

  /** When `add` accepts the first payload, the first rejection in the tail is the
      first rejection of the whole run. */
  lemma FirstFailureOfTail(env: Env, raws: seq<Raw>, e: AddError)
    requires |raws| > 0 && Prepare(env, raws[0]).Success?
    requires exists i | IsFirstFailure(env, raws[1..], i) :: Prepare(env, raws[1..][i]) == Failure(e)
    ensures exists i | IsFirstFailure(env, raws, i) :: Prepare(env, raws[i]) == Failure(e)
  {
    var j :| IsFirstFailure(env, raws[1..], j) && Prepare(env, raws[1..][j]) == Failure(e);
    assert IsFirstFailure(env, raws, j + 1);
  }

  // ---------------------------------------------------------------------------
  // Persistence
  // ---------------------------------------------------------------------------

  /** `save()` at instant `now`: a fresh snapshot of every record when anything
      was added or updated, no output otherwise. The counters are left as they are. */
  function Save(s: Store, now: string): (r: Option<Snapshot>)
    ensures r.None? <==> s.newRecordCount == 0 && s.updatedRecordCount == 0
    ensures r.Some? ==> r.value.lastUpdate == now
    ensures r.Some? ==> |r.value.data| == |s.index.entries|
    ensures r.Some? ==> forall rec :: rec in r.value.data <==> rec in s.index.entries.Values
  {
    if s.newRecordCount > 0 || s.updatedRecordCount > 0 then
      Some(Snapshot(now, Records(s)))
    else
      None
  }

  // ---------------------------------------------------------------------------
  // Properties over several operations
  // ---------------------------------------------------------------------------

  /** Rebuilding the identity index from the first `n` stored records restores
      the first `n` keys, in order, with their records. */
  lemma {:induction false} BuildIndexOfValuesPrefix(index: IdIndex, n: nat)
    requires KeyedById(index)
    requires n <= |index.keys|
    ensures BuildIndex(Values(index)[..n]).keys == index.keys[..n]
    ensures forall i | 0 <= i < n :: BuildIndex(Values(index)[..n]).entries[index.keys[i]] == index.entries[index.keys[i]]
  {
    var vs := Values(index);
    if n == 0 {
      assert vs[..0] == [];
    } else {
      BuildIndexOfValuesPrefix(index, n - 1);
      var prefix := vs[..n];
      assert prefix[..|prefix| - 1] == vs[..n - 1];
      assert prefix[|prefix| - 1] == index.entries[index.keys[n - 1]];
      PutNextKey(index, n, BuildIndex(vs[..n - 1]));
    }
  }

  /** Putting the `n`-th stored record into the rebuilt first `n - 1` entries
      gives the rebuilt first `n` entries. */
  lemma PutNextKey(index: IdIndex, n: nat, before: IdIndex)
    requires KeyedById(index)
    requires 0 < n <= |index.keys|
    requires before.keys == index.keys[..n - 1]
    requires forall i | 0 <= i < n - 1 :: before.entries[index.keys[i]] == index.entries[index.keys[i]]
    ensures var k := index.keys[n - 1];
      var after := Put(before, index.entries[k].id, index.entries[k]);
      && after.keys == index.keys[..n]
      && forall i | 0 <= i < n :: after.entries[index.keys[i]] == index.entries[index.keys[i]]
  {
    var k := index.keys[n - 1];
    assert k !in before.entries by {
      KeysCoverEntries(before);
      assert forall i | 0 <= i < n - 1 :: before.keys[i] != k;
    }
    assert index.keys[..n] == index.keys[..n - 1] + [k];
  }

  /** Rebuilding the identity index from its own values gives it back. */
  lemma BuildIndexOfValues(index: IdIndex)
    requires KeyedById(index)
    ensures BuildIndex(Values(index)) == index
  {
    var n := |index.keys|;
    var vs := Values(index);
    BuildIndexOfValuesPrefix(index, n);
    assert vs[..n] == vs;
    assert index.keys[..n] == index.keys;
    SameKeysAndValuesAreEqual(BuildIndex(vs), index);
  }

  /** Saving and reopening the written snapshot gives back the same identity
      index, key order included, and a fresh store with nothing to save. */
  lemma SaveThenOpen(s: Store, now: string, later: string)
    requires Valid(s)
    requires Save(s, now).Some?
    ensures Open(Save(s, now)).Success? <==> HashableKeys(Records(s))
    ensures Open(Save(s, now)).Success? ==>
      var t := Open(Save(s, now)).value;
      && t.index == s.index
      && Records(t) == Records(s)
      && t.newRecordCount == 0 && t.updatedRecordCount == 0
      && Save(t, later).None?
  {
    assert Save(s, now).value.data == Values(s.index);
    BuildIndexOfValues(s.index);
  }

  /** `add` stores a new record whatever its name, but the snapshot `save` then
      writes cannot be reopened when that name is a list or dict: grouping by
      name raises `TypeError`. */
  lemma UnhashableNameBlocksReopen(env: Env, s: Store, raw: Raw, now: string)
    requires Valid(s)
    requires Add(env, s, raw).Success?
    requires Format(env, raw).value.id !in s.index.entries
    requires !Hashable(Format(env, raw).value.name)
    ensures Save(Add(env, s, raw).value, now).Some?
    ensures Open(Save(Add(env, s, raw).value, now)).Failure?
  {
  }

  /** Adding the same payload a second time in a row changes nothing: the second
      call finds the record it would store already stored. */
  lemma AddTwiceIsIdempotent(env: Env, s: Store, raw: Raw)
    requires Add(env, s, raw).Success?
    ensures Add(env, Add(env, s, raw).value, raw) == Add(env, s, raw)
  {
  }

  /** A run of adds keeps the store invariant, so every stored record still sits
      under its own id and every name group still holds only its own name. */
  lemma {:induction false} AddAllKeepsValid(env: Env, s: Store, raws: seq<Raw>)
    requires Valid(s)
    requires AddAll(env, s, raws).Success?
    ensures Valid(AddAll(env, s, raws).value)
    decreases |raws|
  {
    if raws != [] {
      var t := Add(env, s, raws[0]).value;
      AddAllKeepsValid(env, t, raws[1..]);
    }
  }

  /** A run of adds on a freshly opened store: the record count grows by exactly
      the number of adds counted as new, and lookups answer as they did at
      opening, since the name index is left as it was built. */
  lemma OpenThenAddAll(env: Env, file: Option<Snapshot>, raws: seq<Raw>, name: Json)
    requires Open(file).Success?
    requires AddAll(env, Open(file).value, raws).Success?
    ensures var s := Open(file).value;
      var t := AddAll(env, s, raws).value;
      && |Records(t)| == |Records(s)| + t.newRecordCount
      && Lookup(t, name) == Lookup(s, name)
  {
  }

  /** A record stored under a new id is among the records but is not found by
      looking up its name when that name was not in the snapshot: `add` does
      not maintain the name index. */
  lemma AddedRecordIsNotLookedUp(env: Env, s: Store, raw: Raw)
    requires Format(env, raw).Success? && Hashable(Format(env, raw).value.id)
    requires Format(env, raw).value.id !in s.index.entries
    requires Format(env, raw).value.name !in s.nameIndex
    ensures var rec := Format(env, raw).value;
      var t := Add(env, s, raw).value;
      && rec in Records(t)
      && (Hashable(rec.name) ==> Lookup(t, rec.name) == Success(None))
  {
  }

  /** Exact lookup on a freshly opened store: a name of the snapshot finds exactly
      its records, in snapshot order; any other hashable query finds nothing, and a
      list or dict query raises. */
  lemma LookupAfterBuild(data: seq<Record>, query: Json)
    requires HashableNames(data)
    ensures query in Names(data) ==> Lookup(Build(data), query) == Success(Some(WithName(data, query)))
    ensures query !in Names(data) && Hashable(query) ==> Lookup(Build(data), query) == Success(None)
    ensures !Hashable(query) ==> Lookup(Build(data), query) == Failure(UnhashableQuery(query))
  {
  }
}
