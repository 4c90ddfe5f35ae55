# A blog on asyncio: ORM, request handler, response middleware, configuration

This project models the core of a small asynchronous blog application
written in Python on top of aiohttp and aiomysql, and proves properties of
that model in Dafny.

The parts modelled are:

- **The ORM** (`orm.py`).
  - Field declarations.
  - The metaclass step that turns a class body into a schema descriptor: table name, primary key, non-key fields, and the four SQL templates.
  - `getValue` and `getValueOrDefault`, plus the statements that `save`, `update` and `remove` send.
  - `findAll`, `findNumber` and `findById`.
  - The `?` to `%s` placeholder rewrite applied before SQL reaches the driver.
  - The database appears only as an oracle: a function from driver SQL and arguments to rows, or to an affected-row count.
- **The request handler** (`webframe.py`).
  - The `@get` and `@post` route tags, and the registration of tagged handlers by `add_route` and `add_routes`.
  - The inspection of a handler's signature: whether it takes `request` (and where), keyword-only parameters, and `**kw`.
  - `RequestHandler.__call__`, which gathers keyword arguments from a JSON or form body, the query string or the route's match info. It then narrows them to the named keyword parameters, checks the required ones, and turns an `APIError` into a dictionary.
- **The application glue** (`app.py`).
  - The `response_factory` middleware, which maps whatever a handler returns to an HTTP response.
  - The `datetime` template filter.
- **The configuration** (`config.py`).
  - `merge` of override settings into defaults.
  - `toDict`.
  - The attribute-access dictionary `Dict`.
- **The entities** (`models.py`).
  - The `User`, `Blog` and `Comment` schemas.
  - The key generator `next_id`.

Python values are the datatype `PyValue.Value`. Wherever the source tests a
string for truthiness, the empty string stands for `None`. Clocks, uuids and
default factories are passed in as values or functions:
- `produce(key)` is what the field's default factory returns;
- `ms` and `hex` are the clock and the uuid of `next_id`;
- `delta` is the age the filter computes.

Modules:

| file | module | contents |
|---|---|---|
| wrappers.dfy | Wrappers | `Option`, `Result` |
| pyvalue.dfy | PyValue | Python values |
| text.dfy | Text | counting, joining, decimal digits, zero padding |
| http.dfy | Http | response bodies and responses |
| orm.dfy | Orm | schema descriptors, templates, statements, finders |
| models.dfy | Models | the three entities and `next_id` |
| webframe.dfy | Webframe | route tags, signature inspection, argument binding, route registration |
| app.dfy | App | response middleware, `datetime` filter |
| config.dfy | Config | `merge`, `toDict`, `Dict` |

## Model

| member | source | states |
|---|---|---|
| Orm.Mappings | orm.py:156-159 | `__mappings__` holds exactly the declared attribute names |
| Orm.MappingsLookup | orm.py:156-159 | a name declared once maps to its own field declaration |
| Orm.ScanFieldsSpec | orm.py:156-168 | the scan keeps the non-key fields in order; with no key yet, a second primary key raises "Duplicate primary key" naming it, and the first one found becomes the key |
| Orm.BuildSpec | orm.py:137-190 | no primary key raises "Primary key not found"; two or more raise the duplicate error for the second; exactly one yields a descriptor with that key, the non-key fields in order, the table name, all mappings and the update SQL as written |
| Orm.CreateArgsString | orm.py:86-90 | `num` question marks, alternating with `, ` separators, and nothing else |
| Orm.PlaceholderListShape | orm.py:86-90 | the joined list of `num` marks has length 3·num−2 and repeats the pattern `?, ` |
| Orm.TemplatePlaceholders | orm.py:185-189 | with plain names, select has no placeholder, insert has one per field plus the key, the update as written (and the corrected one) has one per field plus the key, and delete has one |
| Orm.UpdateTemplatesPlaceholders | orm.py:188 | the update template as written, and the corrected one, each have one placeholder per non-key field plus one for the key |
| Orm.DeletePlaceholder | orm.py:189 | the delete template has exactly one placeholder, for the key |
| Orm.SelectPlaceholders | orm.py:185 | the select template has no placeholder when its names have none |
| Orm.InsertPlaceholders | orm.py:187 | the insert template has one placeholder per non-key field plus one for the key |
| Orm.UpdatePlaceholders | orm.py:188 | the update frame, around any SET list, adds exactly one placeholder, for the key |
| Orm.SetItemsPlaceholders | orm.py:188 | the SET list as written, and the corrected one, each have exactly one placeholder per non-key field |
| Orm.SetItemQuoting | orm.py:188 | the corrected SET item opens and closes its column quote; the item as written has a single backtick |
| Orm.UpdateFrameQuoting | orm.py:188 | the update frame adds four backticks around its SET list |
| Orm.UpdateQuoting | orm.py:188 | the corrected update template has balanced quotes (4 + 2n backticks); as written it has 4 + n, which is odd for an odd number of fields |
| Orm.GetValueOrDefault | orm.py:210-218 | a set attribute is returned unchanged; otherwise the field's default is returned and stored; a `None` attribute that is not a field is a `KeyError` |
| Orm.ResolvedOnce | orm.py:210-218 | once a default has been stored, asking again returns it with no new factory call |
| Orm.ResolveAll | orm.py:278 | resolving every non-key field succeeds when all are fields, with one value per field |
| Orm.ResolveAllSpec | orm.py:278 | each argument is the field's value or default; each is stored on the instance; every other attribute is untouched |
| Orm.SettledResolution | orm.py:210-218 | a field that is set, or whose default is `None`, resolves to its current value without changing the instance |
| Orm.ResolveAllSettled | orm.py:278 | resolving settled fields reads `getValue` of each and changes nothing |
| Orm.NonKeyKeysDistinct | orm.py:156-168 | the non-key fields are distinct when the class body's names are, and each comes from a non-key declaration |
| Orm.PrimaryKeyOrigin | orm.py:161-165 | the primary key names a declaration marked `primary_key` |
| Orm.BuildWellFormed | orm.py:137-190 | a built descriptor has its key and fields in the mappings, the key outside the fields, and no field twice |
| Orm.BuiltTemplateCounts | orm.py:137-190 | a descriptor built from plain names is well formed, and its insert and update templates have one placeholder per field plus the key, its delete template one |
| Orm.StatementsAligned | orm.py:277-295 | the SQL of `save`, `update` and `remove` has exactly as many placeholders as arguments |
| Orm.SaveTwice | orm.py:277-282 | saving again an instance returned by `save` sends the same statement and changes nothing, whatever the factories return |
| Orm.UpdateIgnoresDefaults | orm.py:277-289 | for an unset field with a factory default, `update` sends `None` while `save` sends and stores the factory's value |
| Orm.ToDriverSql | orm.py:51 | the driver SQL has no `?` left, one character more per placeholder, and one `%` more per placeholder |
| Orm.DriverSqlRoundTrip | orm.py:51 | for SQL without `%`, the placeholder rewrite can be undone exactly |
| Orm.Select | orm.py:40-59 | `select` returns a prefix of the database's rows: all of them when the size is `None` or large enough, else exactly `size` |
| Orm.LimitClause | orm.py:235-247 | an `int` (or `bool`) limit gives `?` with the limit as argument; otherwise a pair gives `?, ?` with its two items; anything else is the `ValueError` naming the limit; the clause always has one placeholder per argument |
| Orm.FindAllQuery | orm.py:223-251 | fails exactly for a limit that is neither `None`, an `int`, nor a pair; fetches all rows; keeps the caller's arguments first |
| Orm.FindAllSql | orm.py:225-248 | the SQL is the select template, then ` where …`, ` order by …` and ` limit …` when given, with the limit's arguments after the caller's |
| Orm.FindAllAligned | orm.py:223-248 | when the where clause has one placeholder per caller argument, the whole query has one per argument |
| Orm.FindAllRows | orm.py:223-251 | `findAll` fails only on a bad limit and otherwise returns every row of its query |
| Orm.BaseClausesSql | orm.py:225-234 | joining the clause list with spaces gives `where` and `order by` each followed by its operand |
| Orm.FindById | orm.py:269-274 | `None` exactly when no row comes back, else the first row for the key |
| Orm.FindNumber | orm.py:254-266 | `None` exactly when no row comes back, the `_num_` column of the first row otherwise, and `KeyError` when that column is missing |
| Orm.FindNumberSql | orm.py:257-260 | the count query selects `<field> _num_` from the table, with the optional where clause |
| Models.NextId | models.py:14-18 | the id starts with the clock's milliseconds zero-padded to at least 15 digits, which read back as the clock, then the uuid hex, then `000` |
| Models.NextIdLength | models.py:14-18 | below 10^15 ms and with a 32-character hex, an id is 50 characters |
| Models.KeyedFirst | models.py:20-52 | a schema whose first declaration is its only key has that key, and every other declaration is a field |
| Models.NoPrimaryKeys | orm.py:156-168 | with no key declarations, the scan finds no key and keeps every declaration as a field |
| Models.SchemaShape | orm.py:137-190 | a schema declaring `id` first as its only key builds with key `id`, the later names as fields, the `id` declaration in the mappings, and the four templates over them, the update as written |
| Models.SaveAssignsId | models.py:14-52 | saving a new entity sends one argument per column, with a fresh `next_id()` value last; stores that value as `id`; gives every other field its value or default |
| Models.UserSchema | models.py:20-29 | `User` maps to `users`, key `id` with default `next_id`, fields email, passwd, admin, name, image, created_at |
| Models.BlogSchema | models.py:31-41 | `Blog` maps to `blogs`, key `id` with default `next_id`, seven fields in declaration order |
| Models.CommentSchema | models.py:43-52 | `Comment` maps to `comments`, key `id` with default `next_id`, six fields in declaration order |
| Models.UserWellShaped | models.py:20-29 | `User` declares `id` first as its only key, with distinct named fields |
| Models.BlogWellShaped | models.py:31-41 | `Blog` declares `id` first as its only key, with distinct named fields |
| Models.CommentWellShaped | models.py:43-52 | `Comment` declares `id` first as its only key, with distinct named fields |
| Models.BlogColumnsPlain | models.py:35-41 | no `Blog` column name contains a backtick |
| Models.BlogUpdateQuoting | orm.py:188 | the `Blog` update template as written has 11 backticks, so a quote is left open; the corrected one has 18 |
| Webframe.TaggedRegisters | webframe.py:16-209 | a handler tagged by `@get(path)` or `@post(path)` registers under `GET` or `POST` and that path, with its signature classified |
| Webframe.MisplacedCons | webframe.py:50-62 | a `request` parameter is misplaced when a positional parameter follows it; this is decided one parameter at a time |
| Webframe.OffendingCons | webframe.py:60 | a parameter may follow `request` only when it is `*args`, keyword-only or `**kw` |
| Webframe.NamesRequestCons | webframe.py:55-58 | a list names `request` when its head or its tail does |
| Webframe.ScanRequestSpec | webframe.py:54-62 | the scan raises exactly when a positional parameter follows `request`, and otherwise reports whether `request` was seen |
| Webframe.HasRequestArgSpec | webframe.py:50-62 | `has_request_arg` raises exactly for a misplaced `request`, and otherwise is true exactly when a parameter is named `request` |
| Webframe.HasKind | webframe.py:64-76 | true exactly when some parameter has the given kind |
| Webframe.NamedKwArgs | webframe.py:78-85 | exactly the keyword-only parameters' names, in declaration order (a subsequence of the parameter names) |
| Webframe.RequiredKwArgs | webframe.py:87-99 | exactly the names of the keyword-only parameters without a default, in declaration order (a subsequence of the parameter names) |
| Webframe.RequiredAreNamed | webframe.py:78-99 | the required keyword names are a subsequence of the named ones |
| Webframe.NamedIffAny | webframe.py:64-85 | `has_named_kw_args` holds exactly when the named list is non-empty |
| Webframe.Classify | webframe.py:105-114 | building a handler fails exactly for a misplaced `request`; otherwise `request` is detected and the required names lie among the named ones |
| Webframe.FirstValues | webframe.py:144-148 | the query dictionary has exactly the query's names |
| Webframe.FirstValuesSpec | webframe.py:144-148 | each name keeps the value of its first occurrence |
| Webframe.PostArgs | webframe.py:120-137 | a POST body is accepted exactly for a JSON object or a form or multipart body, by the lower-cased content type, giving the object's entries or the form's first values; otherwise a bad request, "Missing Content-Type." when there is no type |
| Webframe.FirstMissing | webframe.py:176-181 | reports no name exactly when all required names are present, and otherwise the first absent one |
| Webframe.MatchInfoOnly | webframe.py:118-154 | without keyword parameters, or for a GET with no query string, the keywords are the match info |
| Webframe.PostRejected | webframe.py:120-137 | a POST to a handler with keyword parameters is rejected with each of the three messages in its case |
| Webframe.GetQuery | webframe.py:139-171 | for a GET with a query string, the keywords hold the query names (only the named parameters' when there is no `**kw` but there are named ones) and the match info; a kept name has its first value, a match-info name its match-info value |
| Webframe.NarrowThenOverlay | webframe.py:156-171 | without `**kw`, only named parameters survive from the body, then the match info overrides |
| Webframe.CallOutcome | webframe.py:172-190 | a missing required name gives "Missing argument: " and the name; otherwise the handler's result, or an `APIError` turned into a dictionary with exactly its error, data and message |
| Webframe.RequestNeverMissing | webframe.py:172-181 | a handler that takes `request` is never refused as missing `request`, and a bound call passes the request under that name |
| Webframe.AddRoute | webframe.py:198-209 | registration raises exactly for a missing tag or a refused signature; otherwise the route has the tagged method, path and handler, with the handler's classification |
| Webframe.AddRoutesSpec | webframe.py:211-239 | scanning a module fails exactly when a public, callable, tagged attribute has a refused signature, never for a missing tag, and otherwise registers every such attribute and nothing else |
| Webframe.Selected | webframe.py:226-238 | the attributes scanned for registration are, in order, exactly the public, callable ones with both tags non-empty |
| Webframe.AddRoutesInOrder | webframe.py:226-239 | the routes are registered one per selected attribute, in `dir` order |
| App.StatusOfValue | app.py:94-136 | a plain value is answered with status 200 unless it is a status or a status pair, which set a status in 100–599; only the pair sets a reason; exactly these two have an empty body |
| App.RedirectIff | app.py:99-102 | a redirect is produced exactly for a `redirect:` string, to the rest of the string |
| App.OutOfRangeIsText | app.py:126-136 | booleans and integers or pairs outside 100–599 fall through to plain text |
| App.ContentTypeTellsShape | app.py:94-136 | the content type of a plain response identifies the return shape, except text/html, which a plain string and a template dictionary share |
| App.Bucket | app.py:139-148 | an age is under a minute, a count of minutes, hours or days below the next unit, or over a week, bounded by its count |
| App.LabelReadsBack | app.py:139-148 | every label for an age under a week reads back as a count and unit that bracket the age |
| App.BucketMonotone | app.py:139-148 | a later age never gets a smaller count in the same unit |
| Config.Member | config.py:37 | `k in override` answers membership for a dictionary and raises `TypeError` for a value that is not a container |
| Config.MergeSpec | config.py:34-45 | the merge has exactly the default keys; absent keys keep the default, scalars take the override, dictionaries merge recursively |
| Config.MergeFits | config.py:34-45 | merging succeeds when every overridden dictionary meets a dictionary |
| Config.MergeNotContainer | config.py:34-45 | merging non-empty defaults with a non-container raises `TypeError` |
| Config.MergeEmpty | config.py:34-45 | an empty override leaves the defaults unchanged |
| Config.MergeSelf | config.py:34-45 | merging the defaults with themselves gives the defaults |
| Config.ToDict | config.py:47-52 | the converted dictionary has exactly the original keys |
| Config.ToDictRoundTrip | config.py:47-52 | converting and flattening back gives the original dictionary, and every nested dictionary is converted |
| Config.PlainRoundTrip | config.py:47-52 | a fully converted `Dict` survives flattening and reconverting |
| Config.AssignSpec | config.py:21-22 | assignment adds the names; the last pair for a name wins; other keys are kept |
| Config.NewDictSpec | config.py:19-22 | `Dict(names, values, **kw)` has the keywords and the zipped names; a name's last value overrides a keyword |
| Config.GetAfterSet | config.py:24-31 | after setting an attribute, reading it gives the new entry and reading another gives what it gave before (names of `dict` methods aside, see below) |
| Text.DecimalRoundTrip | models.py:18 | the decimal digits of a number read back as the number |
| Text.ZeroPadValue | models.py:18 | zero padding keeps the value of a digit string |

## Left out

- The connection pool, transactions, autocommit and logging in `orm.py`. The database is an oracle from driver SQL and arguments to rows or to a row count. A row count other than 1 is only logged, so it is returned as-is.
- The metaclass's removal of field attributes from the class, and `Model.__getattr__`/`__setattr__`. An instance is its attribute dictionary.
- The `Field.__str__` text, which only feeds the log.
- Orm.UpdateTemplate, the corrected update SQL, is not what a descriptor carries. Descriptors carry Orm.UpdateTemplateAsWritten, as the source builds it.
- Orm.SetItem and Orm.SetItemAsWritten use the declaration's own field for the column name. The source looks it up in `__mappings__`, which holds the same field.
- Orm.Build: an attribute named `""` cannot occur in a Python class body, so the lemmas about it require non-empty names.
- Text.Lower folds ASCII letters only. Python's `str.lower` folds all of Unicode. The content types compared here are ASCII.
- Orm.SelectTemplate and Orm.InsertTemplate are kept as written for a class with no non-key fields. The text has a stray `, ` and the schemas here always have fields.
- Orm.FindAllQuery returns new arguments. The source appends the limit to the caller's own list in place.
- Orm.FindAll: the source builds instances with `cls(**row)`. Here a row is already an instance.
- The JSON decoding of a request body. `request.json()` raising on malformed JSON is not modelled; the decoded value is an input.
- The form and multipart parsing. The form fields arrive decoded, as a list of name/value pairs.
- `parse.parse_qs`. The query string arrives already split into pairs, and the model records only the first value per name, as the handler keeps `v[0]`.
- Webframe.Call: the `TypeError` Python raises when a handler receives a keyword it does not declare is outside the model. The handler is a function from arguments to a result.
- `add_static`, the `__import__` of the handler module, the wrapping of a plain function as a coroutine in `add_route`, the `logger_factory` middleware, and `init`. These are aiohttp wiring. `add_routes` takes the attributes as `dir` lists them, already sorted.
- Webframe.AddRoutes: when a later attribute is refused, the routes registered before it stay on the router in the source; the model returns only the error.
- The aiohttp response and exception constructors are modelled by their intended meaning. `web.Response(r)` is a response with status `r`, `web.Response(t, str(m))` one with status `t` and reason `m`, and `web.HTTPBadRequest(msg)` a 400 carrying `msg` (App.Respond, Webframe.Call). The source passes these arguments positionally, and how aiohttp binds positional arguments is not modelled.
- Jinja2 template rendering and `json.dumps`. A rendered or JSON body is recorded symbolically, by the template name and the dictionary.
- App.DatetimeFilter returns no label for ages of a week or more. The source formats the calendar date with `datetime.fromtimestamp`. The clock `time.time()` enters through `delta`.
- Orm.GetValue: a field named like a method of the model or of `dict`, such as `items`, `keys`, `get`, `update` or `save`, makes `getattr(self, key, None)` return the bound method. The model always reads the attribute dictionary. No schema here uses such a name.
- Config.GetAttr: a key that shadows a method of `dict`, such as `keys`, `get`, `items` or `update`, reads back as the bound method, because `__getattr__` only runs when normal lookup fails. The model always reads the entry.
- Config.Member: override values of other container types are not modelled as containers. Objects with their own `__contains__` and sets are examples.
- The loading of `config_default` and `config_override` modules at import time. Merge and toDict are modelled on their arguments.
- `apis.py`, where `APIError` lives, is not part of this model. Only its three attributes are used.
- `handlers.py`, `pymonitor.py` and `test.py` are not part of this model.
- Floating-point values are kept as their text (`Float(repr)`). No arithmetic is done on them.

## Findings

| source | as written | input that shows it | evidently intended | confidence | as-written member | corrected member |
|---|---|---|---|---|---|---|
| orm.py:188 | each SET item is the column name followed by a closing backtick and =?, with no opening backtick | the Blog schema: its seven SET items give an update template with 11 backticks, so one quoted identifier is left open | each item is the column name between two backticks, then =?, as the select and insert templates quote their columns | high; not executed | Orm.UpdateTemplateAsWritten, carried by every descriptor and shown by Models.BlogUpdateQuoting | Orm.UpdateTemplate, built from Orm.SetItem and proved balanced by Orm.UpdateQuoting |
