# A read-only object mapper, modelled in Dafny

The system is a small read-only object mapper. Model classes declare typed fields (`StringField`,
`IntegerField`, `RelatedModelField`), and exactly one of those fields is the key. Constructing a model
validates and coerces every field value.

Each model class has a data accessor. The generic accessor contract offers `get(limit, offset)`,
`get_by_keys(*keys)` and `get_by_key(key)`. The reference accessor keeps the objects of a JSON file in
memory, indexed by key. A model fetch can also resolve relationship paths such as
`manager.department.superdepartment`. Those paths are validated first, and nothing is fetched when a path
is invalid. The resolver then copies each distinct input object once. It collects, per requested field,
the distinct foreign keys and the objects that hold each of them. It fetches each field's keys with a
single batched `get_by_keys` call, which resolves the deeper levels of the path recursively. Finally it
writes every fetched object into each copy that refers to it. Two view helpers read an int and a list
from the request's query parameters.

The Dafny modules follow the source files:

- `Values` (values.dfy): raw inputs, typed values, instances, the errors the mapper raises, `Result` and `Option`.
- `Numerals` (numerals.dfy): the `int(str)` / `str(int)` conversions that field coercion relies on.
- `Fields` (fields.dfy): models/fields.py.
- `Models` (models.dfy): construction, `key_field_name`, `key`, `__eq__` and `to_dict` from models/models.py.
- `Paths` (paths.dfy): splitting a relationship path at its first `.`.
- `Validation` (validation.dfy): `_get_validated_relationships`.
- `DataAccessor` (data_accessor.dfy): data_access/data_accesor.py.
- `Resolver` (resolver.dfy): `get_related_models`, `get`, `get_by_keys`, `get_by_key` and `get_related` of models/models.py.
- `ResolverFacts` (resolver_facts.dfy): what the resolver guarantees, stated against reference definitions.
- `InMemoryJsonFile` (in_memory.dfy): data_access/in_memory_json_file.py, as functions and as a class with the lazily built index.
- `QueryParams` (query_params.dfy): views/utils.py. The request arguments are a map from parameter name to its values.
- `Employees` (employees.dfy): the sample application's Office, Department and Employee models, and the behaviour the tests expect of them.

Instances are values, so the `deepcopy` of the resolver is implicit. A model class is a `Schema`: its
field names in declaration order and their descriptors. A `Registry` maps class names to schemas. Each
class's accessor is a pair of functions returning a `Result`. Every accessor call the resolver makes is
recorded in a call tree (`Resolver.Call`). That tree lets the lemmas state how many batched calls are
made, with which keys and in which order.

Where the repository's prose and its code disagree, the model follows the code:

- Relationships resolve depth-first. A field's batched call is made and its nested levels are resolved before the next field's call. It is not level by level.
- An unknown constructor argument raises `UndefinedField`, naming every unknown argument at once.
- The relationship paths are validated before the objects are checked for a mixed class. A bad path therefore wins over `IncorrectModelType`.
- Equality needs a truthy key, so instances with key `0` or `""` are never equal. Deduplication in the resolver uses the key itself, so several objects with key `None` collapse into one copy.
- When two records of the data file share a key, the later record's object is stored, at the position the key first took.
- An object returned by an accessor under a key nobody requested raises `KeyError` (`KeyNotFound`).

## Model

| member | source | states |
|---|---|---|
| Fields.ModelField | models/fields.py:14-37 | the descriptor keeps the field type, the key flag and the related model; a key field is nullable whatever `nullable` says; there is no length limit |
| Fields.StringField | models/fields.py:94-99 | a str field whose `max_length` is kept exactly when it is given and positive, and is no limit otherwise |
| Fields.IntegerField | models/fields.py:109-112 | an int field with the given key flag and related model, nullable when asked or when it is the key, without length limit |
| Fields.RelatedModelField | models/fields.py:115-126 | a field with the given related model, of type int unless another type is given, nullable when asked or when it is the key |
| Fields.GetValue | models/fields.py:39-55 | None is accepted exactly by a nullable field and otherwise raises the not-nullable error; any value returned is admissible for the field (its type, within `max_length`); a result of None comes only from None; every error names the field, and the error for a value other than None is the invalid-value error |
| Fields.MaxLengthEnforced | models/fields.py:101-106 | a str longer than a StringField's `max_length` is refused with `InvalidValue` naming the field |
| Fields.GetValueOfAdmissible | models/fields.py:39-55 | a value the field already admits passes through `get_value` unchanged |
| Fields.GetValueIdempotent | models/fields.py:39-55 | validating an already validated value yields it again |
| Fields.IntFieldParsesStrings | models/fields.py:50-55 | a str given to an int field is stored as the int it spells; a str that does not parse is the invalid-value error |
| Fields.StrFieldRendersInts | models/fields.py:50-51 | an int given to any str field is stored as its decimal numeral, or refused with the invalid-value error when the numeral is longer than `max_length` (the check of `StringField.get_value`); a stored numeral parses back to the int |
| Fields.KeyFieldsAcceptNone | models/fields.py:33-34 | a key field made by any of the four constructors accepts None |
| Fields.RelatedType | models/fields.py:57-79 | the related class is found exactly for a class or for `'self'` (which names the owner); a missing or empty related model raises `NoRelatedModel` naming model and field; any other name raises the lazy-reference error |
| Numerals.ParseIntToString | models/fields.py:50-51 | `int(str(n)) == n` for every int n |
| Models.FilterKeys | models/models.py:72 | the names kept are exactly the key fields among the given names, in order |
| Models.KeyFieldName | models/models.py:69-73 | a name is returned exactly when the schema has a key field; it is a key field; with one key field it is that one |
| Models.SetFieldsSucceeds | models/models.py:46-54 | assigning the fields succeeds exactly when every field's `get_value` of its argument does |
| Models.SetFieldsContents | models/models.py:46-54 | after a successful assignment each assigned field holds what `get_value` returned for it |
| Models.SetFieldsFirstError | models/models.py:46-54 | a failed assignment raises the error of the first failing field in declaration order; every earlier field succeeded |
| Models.SetFieldsKeepsError | models/models.py:46-54 | once a field has raised, assigning more fields keeps that error |
| Models.SetFieldsAll | models/models.py:46-54 | once all fields are assigned the instance has exactly the schema's fields, each holding its validated argument |
| Models.NewSpec | models/models.py:22-54 | construction raises `NoKey` without a key field and `MultipleKeys` with several; then `UndefinedField` listing every unknown argument; then it succeeds exactly when every field validates; on success the instance has the class, exactly the declared fields, each holding `get_value` of its argument (None when omitted); on failure the error is the first failing field's |
| Models.AssignFields | models/models.py:46-54 | the field loop returns the result of assigning every declared field in order, stopping at the first error |
| Models.Init | models/models.py:22-54 | `__init__` returns exactly what construction specifies (see Models.NewSpec) |
| Models.EqIgnoresNonKeyFields | models/models.py:62-63 | two instances of a class with the same key are equal exactly when that key is truthy; the other fields do not matter |
| Models.EqNeedsTruthyKey | models/models.py:62-63 | an instance whose key is None, 0 or `""` equals no instance, itself included |
| Models.EqSymmetric | models/models.py:62-63 | equality is symmetric |
| Models.EqTransitive | models/models.py:62-63 | equality is transitive |
| Models.ToDict | models/models.py:266-274 | the dictionary has every field, except those holding None when `exclude_none` is set |
| Models.NewOfCanonical | models/models.py:22-54 | arguments that need no coercion are stored as given, and omitted fields hold None |
| Models.ToDictOfScalars | models/models.py:272-274 | the dictionary of an instance holding scalars shows each scalar |
| Models.ToDictOfScalarsExcludingNone | models/models.py:272-274 | with `exclude_none` the dictionary of such an instance shows exactly the arguments that are not None |
| Models.ToDictOfNew | models/models.py:266-274 | constructing from arguments that need no coercion and then taking `to_dict` gives the arguments back, omitted fields as None or left out with `exclude_none` |
| Models.ToDictOfField | models/models.py:272-274 | a resolved relationship appears as the nested dictionary of the related object; an unresolved key appears as itself |
| Paths.SplitPath | models/models.py:158-162 | with a separator, the path is head + `.` + remainder and the head has no separator; without one, the head is the path and the remainder is empty |
| Paths.SplitJoin | models/models.py:158-162 | splitting a separator-free head joined by `.` to a remainder gives back head and remainder |
| Validation.Extend | models/models.py:175-178 | the remainder list gains the remainder when it is non-empty and not yet listed, and never holds a remainder twice |
| Validation.AddPathSucceeds | models/models.py:158-173 | one grouping step fails exactly when the path's head is not a field or has no usable related model, and raises that error |
| Validation.AddPathTargets | models/models.py:164-173 | a grouping step keeps every request naming a field of the class together with the class that field relates to |
| Validation.AddPathNoDuplicates | models/models.py:167-178 | a grouping step keeps one request per field and no remainder twice in a request |
| Validation.AddPathFromPaths | models/models.py:158-178 | after a grouping step every request and remainder comes from one of the paths seen |
| Validation.AddPathCovers | models/models.py:158-178 | after a grouping step every path seen has a request for its head holding its non-empty remainder |
| Validation.NormalizeGrouped | models/models.py:156-178 | the grouped requests correspond exactly to the paths: one per head field, its related class, its remainders without duplicates, nothing extra |
| Validation.NormalizeSucceeds | models/models.py:158-173 | the grouping succeeds exactly when every path's head is a field with a usable related model |
| Validation.NormalizeFirstError | models/models.py:158-173 | a failed grouping raises the error of the first path whose head fails |
| Validation.ValidatedBounds | models/models.py:154-184 | a successful validation returns the grouping of the paths, whose related classes are registered and whose remainders are shorter than the paths |
| Validation.CheckNestedPasses | models/models.py:180-182 | the nested check passes exactly when every group validates against its related class |
| Validation.ValidatedIffPathsValid | models/models.py:154-184 | validation succeeds exactly when every path is valid level by level: a field with a related class at each level, the remainder valid on that class |
| Validation.GroupPath | models/models.py:158-178 | one iteration of the grouping loop, equal to the grouping step whose properties are proved above |
| Validation.GroupPaths | models/models.py:156-178 | the grouping loop over all paths, equal to the grouping whose properties are proved above |
| Validation.ValidateGroups | models/models.py:180-182 | the recursive check of each group, equal to the nested check (Validation.CheckNestedPasses) |
| Validation.GetValidatedRelationships | models/models.py:154-184 | returns exactly the validation result characterised by Validation.ValidatedIffPathsValid |
| DataAccessor.GetByKey | data_access/data_accesor.py:31-41 | one `get_by_keys` with the single key: its error, None when it found nothing, its first object otherwise |
| DataAccessor.BaseNotImplemented | data_access/data_accesor.py:8-41 | every operation of the base accessor, `get_by_key` included, raises `NotImplementedError` |
| Resolver.AddOwner | models/models.py:234-237 | recording an owner only adds owners, and only the given one |
| Resolver.ScanAll | models/models.py:212-237 | the scan state is well formed (every listed key and owner is a copied object), and a non-empty input gives a non-empty result |
| Resolver.Resolved | models/models.py:186-253 | a successful resolution of a non-empty input returns a non-empty list |
| Resolver.IndexObject | models/models.py:221-237 | the per-field loop of one new object equals entering that object into every field's fan-in |
| Resolver.ScanObjects | models/models.py:212-237 | the loop over the input objects equals the scan whose meaning ResolverFacts.ScanAllDedup states |
| Resolver.SetOwners | models/models.py:250-251 | writing one fetched object into each of its owners equals the assignment of that object |
| Resolver.AssignFetched | models/models.py:244-251 | the loop over a field's fetched objects equals the assignment whose effect ResolverFacts.AssignAllEffect states |
| Resolver.FetchOne | models/models.py:243-251 | one field's batched fetch and assignment equals its specification |
| Resolver.FetchRelated | models/models.py:242-251 | the loop over the requested fields equals the fetch loop whose join and calls are stated in ResolverFacts |
| Resolver.CollectCopies | models/models.py:253 | the copies are listed in first-occurrence order of their keys |
| Resolver.GetRelatedModels | models/models.py:186-253 | the resolution returns exactly what `Resolved` specifies, with the same call log |
| Resolver.GetByKeys | models/models.py:115-133 | `Model.get_by_keys` returns exactly its specification, with the same call log |
| ResolverFacts.DedupDistinct | models/models.py:217-218 | the copies have pairwise different keys |
| ResolverFacts.DedupKeys | models/models.py:217-218 | a key appears among the copies exactly when it appears among the input objects |
| ResolverFacts.DedupFirst | models/models.py:217-218 | each copy is the first input object with its key |
| ResolverFacts.ScanAllDedup | models/models.py:212-237 | the scan yields the distinct input objects in first-occurrence order, keyed by their keys, and for each requested field the reference fan-in of those objects |
| ResolverFacts.FanInKeys | models/models.py:234-237 | the keys batched for a field are exactly the values of that field that some copy holds, neither None nor a resolved model; they are exactly the keys with owners |
| ResolverFacts.FanInDistinct | models/models.py:234-236 | no key is batched twice for a field |
| ResolverFacts.FanInOwners | models/models.py:236-237 | a copy owns a batched key exactly when the copy holds that key in the field |
| ResolverFacts.ScanAllFails | models/models.py:212-215 | the scan fails exactly when some input object is of another class, and then raises `IncorrectModelType` |
| ResolverFacts.AssignAllSucceeds | models/models.py:244-251 | assigning a field's fetched objects succeeds exactly when every fetched key was requested, and otherwise raises `KeyError` |
| ResolverFacts.AssignAllEffect | models/models.py:244-251 | after the assignment a copy holds the last fetched object with the key it refers to, or stays as it was |
| ResolverFacts.ResolvedSteps | models/models.py:186-253 | a successful resolution is validation, then the scan, then the fetch loop, then the copies in order |
| ResolverFacts.ResolvedDedup | models/models.py:212-218 | the resolution returns one object per distinct input key, in first-occurrence order, each of its input's class |
| ResolverFacts.ResolvedJoin | models/models.py:242-251 | each returned object's requested field holds the object fetched for its foreign key (the reference join), or keeps its value when nothing came back |
| ResolverFacts.ResolvedFrame | models/models.py:186-253 | fields that no path starts with are returned unchanged |
| ResolverFacts.FetchedByKeysCalls | models/models.py:127-133 | `Model.get_by_keys` makes no call for no keys and otherwise exactly one `get_by_keys` of its class with those keys |
| ResolverFacts.ResolvedCalls | models/models.py:239-247 | a resolution makes, in requested-field order, one batched `get_by_keys` per field that has keys, with the distinct foreign keys of that field, and nothing else |
| ResolverFacts.ResolvedValidatesFirst | models/models.py:200 | an invalid path raises its validation error before any accessor is called |
| ResolverFacts.ResolvedEarly | models/models.py:202-204 | with no paths, or with no objects and valid paths, the input is returned as given and nothing is called |
| ResolverFacts.ResolvedMixedTypes | models/models.py:212-215 | objects of another class raise `IncorrectModelType` before any accessor is called |
| ResolverFacts.GetRelatedSpec | models/models.py:255-264 | `get_related` returns the single object the resolution of `[obj]` returns, with the same calls and the same error; with no paths the object itself |
| ResolverFacts.FetchedByKeySpec | models/models.py:135-152 | `Model.get_by_key` makes one `get_by_keys` with the key; None when it found nothing; the object found when no paths are given; otherwise that object resolved, or its error |
| ResolverFacts.FetchedSpec | models/models.py:95-113 | `Model.get` makes one `get` with the limit and offset, returns its error, or the page resolved with the resolution's calls nested under it; with no paths the page itself |
| InMemoryJsonFile.Insert | data_access/in_memory_json_file.py:35 | inserting into the dict sets the key's object; a new key goes last, a known key keeps its place |
| InMemoryJsonFile.BuildIndexSucceeds | data_access/in_memory_json_file.py:35 | the index is built exactly when there are no records, or when the model has a key field and every record has that field and constructs |
| InMemoryJsonFile.BuildIndexContents | data_access/in_memory_json_file.py:35 | a key is indexed exactly when some record holds it, and its object is the one constructed from the last such record |
| InMemoryJsonFile.BuildIndexOrder | data_access/in_memory_json_file.py:35 | keys are listed in the order their first records appear |
| InMemoryJsonFile.PageWindow | data_access/in_memory_json_file.py:59-61 | with a positive limit a page is the run of objects from the offset, as many as the limit and the data allow; with no limit it runs to the end; a missing or non-positive offset is 0 |
| InMemoryJsonFile.PageAll | data_access/in_memory_json_file.py:59-61 | with no limit and no offset every object is returned in index order |
| InMemoryJsonFile.PageNegativeLimit | data_access/in_memory_json_file.py:59-61 | a negative limit -m drops the last m objects, as the Python slice does |
| InMemoryJsonFile.Lookup | data_access/in_memory_json_file.py:73 | a lookup returns at most as many objects as keys |
| InMemoryJsonFile.LookupMembers | data_access/in_memory_json_file.py:73 | an object is returned exactly when it is indexed under one of the requested keys |
| InMemoryJsonFile.LookupAllFound | data_access/in_memory_json_file.py:73 | when every key is indexed, the objects come back in request order, one per key |
| InMemoryJsonFile.LookupAppend | data_access/in_memory_json_file.py:73 | the lookup of two runs of keys is the lookup of the first followed by that of the second, so results keep request order and duplicates, with missing keys skipped |
| InMemoryJsonFile.LookupSingle | data_access/in_memory_json_file.py:73 | one key gives its object when indexed and nothing when missing |
| InMemoryJsonFile.FileAccessor | data_access/in_memory_json_file.py:49-73 | both operations of the file accessor first build the same index |
| InMemoryJsonFile.GetByKeyFound | data_access/in_memory_json_file.py:63-73 | `get_by_key` on the file accessor is the dict lookup: the object under the key, or None; a failed build is its error |
| InMemoryJsonFile.IndexedKeys | data_access/in_memory_json_file.py:63-73 | with keys stored as given, every object returned by `get_by_keys` has one of the requested keys |
| InMemoryJsonFile.InMemoryJsonFileAccessor.constructor | data_access/in_memory_json_file.py:12-23 | the accessor starts with the records raw and no index |
| InMemoryJsonFile.InMemoryJsonFileAccessor.GetData | data_access/in_memory_json_file.py:25-37 | returns the index the records build; the first successful access stores it and drops the raw records; later accesses change nothing |
| InMemoryJsonFile.InMemoryJsonFileAccessor.GetDataAsList | data_access/in_memory_json_file.py:39-47 | the objects in index order, or the build error; on the first successful build the index is stored and the raw records dropped; once built, or when the build fails, the accessor is unchanged |
| InMemoryJsonFile.InMemoryJsonFileAccessor.Get | data_access/in_memory_json_file.py:49-61 | the page of the built index (see PageWindow), or the build error; on the first successful build the index is stored and the raw records dropped; once built, or when the build fails, the accessor is unchanged |
| InMemoryJsonFile.InMemoryJsonFileAccessor.GetByKeys | data_access/in_memory_json_file.py:63-73 | the lookup of the keys in the built index (see LookupMembers), or the build error; on the first successful build the index is stored and the raw records dropped; once built, or when the build fails, the accessor is unchanged |
| InMemoryJsonFile.InMemoryJsonFileAccessor.GetByKey | data_access/data_accesor.py:31-41 | equals the generic `get_by_key` over the same records (see GetByKeyFound); on the first successful build the index is stored and the raw records dropped; once built, or when the build fails, the accessor is unchanged |
| QueryParams.First | views/utils.py:19 | the first value of the parameter, present exactly when the parameter has a value |
| QueryParams.ClampAsWrittenIgnoresMin | views/utils.py:33-39 | as written, a `min_value` without a `max_value` returns the value unchanged, even below the minimum |
| QueryParams.ClampAsWrittenNegativeOffset | views/utils.py:33-39 | as written, `offset=-3` with `min_value=0` stays -3 |
| QueryParams.Clamp | views/utils.py:33-39 | the result is at most `max_value`; it is at least `min_value` when the bounds do not cross; a value within the bounds is unchanged |
| QueryParams.ClampAgrees | views/utils.py:33-39 | the intended clamp and the written one agree except when `min_value` comes without `max_value` |
| QueryParams.ClampCrossedBounds | views/utils.py:33-39 | with `min_value` above `max_value` the result is `max_value` |
| QueryParams.ClampIdempotent | views/utils.py:33-39 | clamping twice is clamping once |
| QueryParams.GetIntQueryParam | views/utils.py:5-39 | with the intended clamp (see Findings): an error only on a failed parse with `raise_error`; a value read from the request is within the given bounds |
| QueryParams.GetIntQueryParamAsWritten | views/utils.py:5-39 | as written: an error only on a failed parse with `raise_error`; a value read from the request is at most `max_value`, and without `max_value` it is returned as parsed, whatever `min_value` is |
| QueryParams.GetIntQueryParamAgrees | views/utils.py:33-39 | the helper as written and as intended give the same result unless `min_value` is given without `max_value` |
| QueryParams.GetIntQueryParamNegativeOffset | views/utils.py:33-39 | `?offset=-3` read with `min_value=0` gives -3 as written and 0 as intended |
| QueryParams.GetIntQueryParamCases | views/utils.py:19-39 | an absent parameter gives the default unclamped; a parsed value is clamped; a failed parse raises or falls back to the clamped default |
| QueryParams.GetIntQueryParamOfInt | views/utils.py:23-24 | a parameter holding the numeral of n reads back as n, clamped |
| QueryParams.Unique | views/utils.py:57-58 | the same values, each once, at most as many |
| QueryParams.GetListQueryParam | views/utils.py:42-60 | None exactly when the parameter has no value; otherwise all its values in order, or with `remove_duplicates` each value once and nothing else |
| QueryParams.UniqueOfDistinct | views/utils.py:57-58 | deduplicating distinct values leaves them as they are |
| Employees.ClassesClosed | flaskr/employees/models.py:7-38 | every class the sample models relate to is one of Office, Department and Employee |
| Employees.FirstHasNoRelatedModel | tests/test_models.py:130-133 | `Employee.get(with_related=['first'])` raises `NoRelatedModel` |
| Employees.UnknownRelatedField | tests/test_models.py:125-128 | a path whose head is not an Employee field raises `UndefinedField` naming Employee and the head |
| Employees.OfficePages | tests/test_models.py:11-53 | of five offices in file order, `get()` returns five and `get(limit=2, offset=2)` the third and the fourth |

## Left out

- Reading the JSON file and parsing it are I/O. The accessor takes the records as already parsed maps from field name to raw value.
- Raw values are None, ints and strings. Floats, booleans, lists and nested objects in the data are not modelled. A field type other than int or str is not modelled either.
- `Fields.Coerce` models `int(str)` as an optional sign followed by ASCII digits. Python also accepts surrounding whitespace, `_` digit separators and non-ASCII decimal digits (so `int("٣") == 3`). Such a str given to an int field is refused here with the invalid-value error, where Python stores the int.
- QueryParams.GetIntQueryParam and QueryParams.GetIntQueryParamAsWritten read the parameter with the same ASCII-only `int(str)`. A parameter such as `?limit=%2010` (the str `" 10"`) or one written in non-ASCII digits is read by Python as 10. Here it is a failed parse, so it raises with `raise_error` and otherwise falls back to the default.
- QueryParams.GetIntQueryParam models the intended clamp, not the one the helper writes (see Findings). The code as written is QueryParams.GetIntQueryParamAsWritten, and QueryParams.GetIntQueryParamAgrees gives the one case where they differ.
- The exception message texts are not modelled, only which exception is raised. `ValueError` from a non-nullable field is `NotNullable`. Every coercion failure is `InvalidValue`.
- The check that a key or related field has a hashable type (`WrongFieldType`) is left out, because both modelled field types are hashable.
- `_check_data_accessor_is_assigned` (`WrongDataAccessor`, `NoDataAccessor`) is replaced by the precondition that every registered class has an accessor.
- The `**kwargs` passed through to accessors are left out, because the accessors modelled take none.
- `__str__` and `__repr__` are left out, because they only format text.
- The model class an accessor serves is fixed when the accessor is built, rather than passed on every call. The in-memory accessor builds its index for that one class.
- Resolver.FetchedByKey: with paths it resolves the object as the class it was asked for. The source uses the object's own class, and the two differ only for an accessor that returns objects of another class.
- A related model given by name is only `'self'`. Any other name is the not-implemented error, as in the source; the source's lazy class registry does not exist.
- `JsonRestApiDataAccessor` is not part of this model. Any accessor is a parameter.
- Employees: the sample classes are modelled by their field declarations only. Their explicit `__init__` overrides (flaskr/employees/models.py:15-17, 27-29, 45-48) are not modelled. In Python, a missing required argument such as Office's `city`, or an unknown keyword, raises `TypeError` there. `Models.New` gives `NotNullable` or `UndefinedField` instead. No member here constructs these classes.
- The sample application's views and Flask request handling are left out. The view helpers take the request arguments as a map.
- QueryParams.GetListQueryParam: with `remove_duplicates` the source returns `list(set(values))`, whose order Python does not define. The model returns the values in first-occurrence order, and its contract states only the set of values and their distinctness.
- The `raise_error` argument of `get_list_query_param` is accepted by the source and never used, so the model has no such parameter.
- Its check that every value is hashable always holds for query strings, so it is left out.
- Resolver: the source fills `fetch_keys` when the first new object is seen. The model starts with an empty entry for every requested field. The two agree, because the fetch loop only runs for a non-empty input.
- Integers are unbounded, as Python's are.

## Findings

| source | as written | input that shows it | evidently intended | confidence | as-written member | corrected member |
|---|---|---|---|---|---|---|
| views/utils.py:33-39 | `min(max_value if given else value, max(min_value if given else value, value))`, so with `min_value` given and `max_value` absent the outer `min` compares the value with itself and the minimum is lost | `?offset=-3` read with `min_value=0` (the list view's offset, views/list.py:28) returns -3 | the value raised to `min_value` whenever one is given, so `0` | not executed | QueryParams.ClampAsWritten and QueryParams.GetIntQueryParamAsWritten (shown by QueryParams.ClampAsWrittenIgnoresMin, QueryParams.ClampAsWrittenNegativeOffset and QueryParams.GetIntQueryParamNegativeOffset) | QueryParams.Clamp (bounds proved in its contract; QueryParams.ClampAgrees shows it changes nothing else), used by QueryParams.GetIntQueryParam (QueryParams.GetIntQueryParamAgrees) |
