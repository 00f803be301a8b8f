# Alation column dictionary: a verified model of the dictionary store

This project models the `Dictionary` class of dictionary.py. The class keeps a local
dictionary of approved column definitions. The definitions come from the Alation data
catalog. The store holds:

- an identity index from record id to record, with Python `dict` insertion order;
- a name index from record name to the records with that name;
- two counters, one for new records and one for updated records.

The store is built from a snapshot file. `add` normalises and upserts one catalog
payload. `lookup` and `fuzzy_lookup` answer exact and approximate name queries. `save`
writes a new snapshot, but only when something changed.

Each module is a group of pure functions over immutable values:

- `Wrappers`: `Option` (Python's `None`-or-value) and `Result` (raise or return).
- `JsonValues`: the values a decoded JSON payload holds.
- `OrderedMaps`: a Python `dict` as a subset type `Dict<K, V>`. It has a key order and
  contents that agree. `Put` models `d[k] = v`: a new key goes last, and a present key
  keeps its place. `Values` models `list(d.values())`.
- `Normalizer`: the five-field `Record` and `Format`, which models `__format_record`.
  URL joining and HTML text extraction are parameters (`Env`).
- `Dictionary`: the `Store`, and construction (`Build`, `Open`). Also the queries
  (`Records`, `Lookup`, `ExtractOne`, `FuzzyLookup`), the updates (`Add`, `AddAll`)
  and persistence (`Save`), plus the lemmas relating them.

`add` changes only the identity index and the counters. The name index is built once,
when the store is opened, and `add` never touches it. So records added in the same
process are not found by `lookup` or `fuzzy_lookup`. A record renamed by an update also
stays under its old name, in its old form. The model keeps this behaviour.
`Dictionary.AddedRecordIsNotLookedUp` and `Dictionary.OpenThenAddAll` state it.

`__format_record` reads five keys: `id`, `url`, `name`, `description` and
`custom_fields`. It raises `KeyError` when any of them is absent, `custom_fields`
included (dictionary.py:70-76).

Python cannot use a list or a dict as a `dict` key. `add` raises `TypeError` when the
formatted id is one, because it probes the identity index with that id (dictionary.py:83).
Opening raises `TypeError` when a snapshot record's id or name is one (dictionary.py:24
and :28). `add` never checks the name, so it can store a record whose name is a list.
The next `save` writes that record, and the written file cannot be opened again.
`Dictionary.UnhashableNameBlocksReopen` states this.

## Model

| member | source | states |
|---|---|---|
| `Normalizer.Format` | dictionary.py:66-76 | Formatting succeeds exactly when all five keys `id`, `url`, `name`, `description` and `custom_fields` are present and both libraries accept their input. On success, `id`, `name` and `custom_fields` are copied verbatim. `source` is the URL library's join of the base `https://alation.medcity.net/` with `url`, and `description` is the extracted text. The first step to fail decides the error. A `KeyError` names an absent required key; every key read before it is present, and every library call made before it succeeded. A rejection names `url` or `description`; that library refused the value, and every earlier step succeeded. |
| `Normalizer.FormatIgnoresOtherKeys` | dictionary.py:70-76 | Two payloads that agree on the five required keys format identically, whatever other keys they carry. |
| `Dictionary.BuildIndexKeepsLastRecord` | dictionary.py:24 | The id comprehension stores each record under its own id. Its keys are exactly the ids of the snapshot data. Each id maps to the last record with that id (last wins). |
| `Dictionary.BuildIndexKeyOrder` | dictionary.py:24 | The comprehension orders the ids by first occurrence. Wherever the later of two keys occurs in the snapshot data, the earlier key has already occurred. |
| `Dictionary.GroupByNameFiltersByName` | dictionary.py:25-28 | The name index has exactly the snapshot's names as keys. Each group is the records with that name, in data order. |
| `Dictionary.WithNameMembers` | dictionary.py:27-28 | A name group holds a record exactly when the record is in the data and carries that name. |
| `Dictionary.LookupAfterBuild` | dictionary.py:39-47 | On a freshly built store, looking up a name of the snapshot returns exactly the records with that name, in snapshot order. Any other hashable query returns `None`. A list or dict query raises `TypeError`. |
| `Dictionary.Build` | dictionary.py:24-31 | Building needs every snapshot name to hash; `Open` reports the data that fails this. A store built from snapshot data satisfies the store invariant and has both counters at zero. Its identity index has the data's ids as keys, in order of first occurrence, each mapped to its last record. Its name index maps each of the data's names to the records with that name, in data order. |
| `Dictionary.FirstUnhashable` | dictionary.py:24-28 | The result is `None` exactly when every key hashes. Otherwise it is the first key that Python cannot hash. |
| `Dictionary.Open` | dictionary.py:17-31 | Opening succeeds exactly when every snapshot id and name hashes. Otherwise it raises with the first unhashable id, or, when every id hashes, with the first unhashable name. An opened store satisfies the invariant and has both counters at zero. With no file, both indices are empty. With a file, the store is built from the file's records. |
| `Dictionary.Records` | dictionary.py:33-37 | `records()` lists every stored record once. It has as many elements as the identity index has ids, contains exactly the index's values, and follows the index's key order. |
| `Dictionary.Lookup` | dictionary.py:39-47 | `lookup(q)` raises `TypeError` exactly when `q` is a list or dict. Otherwise it is `None` exactly when `q` is not a name-index key, and else it returns the whole group, which is non-empty and holds only records named `q`. |
| `Dictionary.ExtractOne` | dictionary.py:57-58 | Best-match search over the set of name keys. It returns `None` exactly when there are no keys. Otherwise it returns a key that no other key outscores, with that key's score. |
| `Dictionary.FuzzyLookup` | dictionary.py:49-64 | The result is `None` on an empty name index. It is found exactly when some name scores strictly above the threshold. A found result is what `lookup` returns for one best-scoring name key, never a union of groups. That lookup cannot raise, because every name-index key hashes. |
| `Dictionary.Prepare` | dictionary.py:82-83 | `add` raises before any mutation exactly when formatting fails or the formatted id is a list or dict. The error is the formatting error, or the unhashable id. Otherwise it yields the formatted record. |
| `Dictionary.Add` | dictionary.py:78-90 | A formatting failure, or a `TypeError` for a list or dict id, is returned before anything changes. A new id is appended to the records and counted as new. A known id whose record differs is replaced in place and counted as updated. An identical record leaves the store unchanged. Every other index entry and the whole name index are untouched. The store invariant is preserved. |
| `Dictionary.AddAll` | main.py:14-15 | A run of adds fails exactly when `add` rejects some payload (its formatting fails or its id is a list or dict). It then fails with the error of the first such payload. When the run succeeds, the name index is unchanged and the counters only grow. The number of stored ids grows by exactly the number of adds counted as new. |
| `Dictionary.AddTwiceIsIdempotent` | dictionary.py:82-90 | Adding the same payload twice in a row: the second add changes neither the records nor the counters. |
| `Dictionary.AddAllKeepsValid` | dictionary.py:83-90 | Every run of adds keeps each record under its own id, and keeps each name group holding only its own name. |
| `Dictionary.OpenThenAddAll` | dictionary.py:78-90 | After opening and a run of adds, the record count equals the opening count plus `new_record_count`. Every lookup answers as it did at opening. |
| `Dictionary.AddedRecordIsNotLookedUp` | dictionary.py:85-87 | Take a record added under a new id whose name was not in the snapshot. It is among the records, but `lookup` of its name returns `None` when the name hashes. |
| `Dictionary.Save` | dictionary.py:92-103 | There is no output exactly when both counters are zero. Otherwise the snapshot carries the given instant and holds exactly the stored records, one per id. `Save` returns only the snapshot, so the store and its counters stay as they were. |
| `Dictionary.BuildIndexOfValues` | dictionary.py:24 | Rebuilding the identity index from its own values gives back the same index, key order included. |
| `Dictionary.SaveThenOpen` | dictionary.py:96-100 | A saved snapshot can be reopened exactly when every stored id and name hashes. Reopening it then gives back the same identity index and the same records in the same order. The counters are zero, so an immediate save writes nothing. |
| `Dictionary.UnhashableNameBlocksReopen` | dictionary.py:82-87 | A record with a new id and a list or dict name is stored and counted. So `save` writes a snapshot, and opening that snapshot raises. |

## Left out

- File handling: the existence check, reading, writing, JSON encoding and its options (`ensure_ascii=False`, `indent=2`). `Open` takes the decoded file as `Option<Snapshot>`, and `Save` returns the snapshot it would write. I/O errors are not modelled.
- The class-level `PATH` constant: the file location only matters to I/O.
- `datetime.now(UTC).isoformat()`: the clock is the `now` parameter of `Save`.
- `urljoin` and BeautifulSoup's `get_text(strip=True)`: these are foreign libraries. They are the `Env` parameters of `Format`, and `None` stands for the library raising. Resolving URI references (section 5.2 of RFC 3986) and parsing HTML are not modelled.
- rapidfuzz's scorer (`WRatio` with its default processing): it is the `score` parameter, bounded to 0..100. `ExtractOne` keeps the first strictly better key in set iteration order, and that order is left unspecified.
- Dictionary.ExtractOne and Dictionary.FuzzyLookup: `score` is total over JSON values, so every name key is scored. rapidfuzz treats non-string choices differently (dictionary.py:58). It raises `TypeError` on an integer or boolean name, unless a perfect score has already ended the scan. It skips a `None` choice, such as a JSON `null` name. The model scores both kinds of key like any other, so on such a store it can return a group where the program raises or ignores the key.
- JSON floating-point numbers and Python's cross-type equality (`True == 1`, `1 == 1.0`): `Json` has integers only, and its values are equal only when structurally equal.
- Snapshot files whose records lack `id` or `name`, which makes `__init__` raise `KeyError`: snapshot data is typed as five-field records. A list or dict id or name is modelled; it makes `Open` fail.
- Aliasing of mutable Python objects: `records()` returns a live view of the identity index, which later `add` calls change. `lookup` and `fuzzy_lookup` return the list held in the name index itself, so a caller who mutates it changes the store (dictionary.py:37, 47, 64). `Records` and `Lookup` return immutable values, so the model has no such sharing.
- main.py: the catalog `Client`, its paging and token, and the final `print`. The driver loop over payloads is modelled as `AddAll`.
