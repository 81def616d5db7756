# Bilingual content lookup of cv.wolfskaempf.de

The CV site keeps its translated UI strings in a small in-memory table.
The table is a Python `dict` named `element_db`. It maps a key such as
`switch_language` to an `Element`, which holds the element's name and a map
from `Language` (`en` or `de`) to the text in that language. Two independent
copies of the table exist: db.py has ten entries, and main.py has five.

The endpoint `GET /elements/{language}` (`get_element` in main.py) turns the
table into a *language kit*. It starts from an empty dict and walks the
table in insertion order, storing under each key that element's text in the
requested language.

The project has five modules:

- `Dicts` (dicts.dfy): an insertion-ordered Python dict, written as a key
  sequence beside a map.
  - `Empty` is `{}`, `Put` is `d[k] = v`, and `Assign` folds a sequence of
    assignments from `{}`.
  - `Put` and `Assign` carry no contract of their own, so that every literal
    table that uses them stays cheap to verify. The lemmas `PutKeepsValid`,
    `PutKeepsOrder`, `AssignValid`, `AssignLastWins` and `AssignDistinct` state what they do.
- `Elements` (elements.dfy): the enumeration `Language`, the record `Element`,
  and the content-table invariant `WellFormedTable`. The invariant requires
  every key to equal its element's name and every element to have a text in
  every language. `TableFromAssignments` is the general fact both tables
  instantiate: distinct name-keyed assignments with both texts give a
  well-formed table with one entry per assignment, in assignment order.
- `Db` (db.dfy): db.py's ten assignments. The imperative load
  `InitElementDb` performs them one at a time, and lemmas state the loaded
  table's invariant, key order, size and two of its entries.
- `Api` (api.dfy): main.py's five-entry table and the kit builder. Like
  main.py, it does not import db.py.
  - `BuildLanguageKit` is the loop of `get_element` over any table, proved
    against the specification `LanguageKit`.
  - `GetElement` is the handler on main.py's own table.
- `BothTables` (both_tables.dfy): relates the two tables. Its lemmas apply
  `LanguageKit`, the kit that `BuildLanguageKit` returns by its ensures, to
  db.py's table.

## Model

| member | source | states |
|---|---|---|
| Elements.Languages | db.py:6-9 | the enumeration has exactly two members; every `Language` value is one of them |
| Elements.FromValue | main.py:10-13 | `Language(s)` finds a member exactly for `"en"` and `"de"`: `"en"` names `en`, `"de"` names `de`, and any other string names none |
| Elements.Value | db.py:8-9 | `Language.l.value` is a string whose lookup gives `l` back |
| Elements.ValueRoundTrip | db.py:6-9 | members and their string values correspond one to one |
| Elements.TableFromAssignments | db.py:19-84 | filling `{}` with distinct keys, each holding an element named by its key with an `en` and a `de` text, yields a well-formed table; it lists the keys in assignment order and has one entry per assignment |
| Elements.WellFormedFromBothLanguages | db.py:12-15 | a table whose elements all have `en` and `de` texts has a text for every language in every element |
| Elements.WellFormedHasEveryLanguage | main.py:51 | in a well-formed table, `value.content[language]` is defined for every element and every language |
| Dicts.Empty | main.py:49 | `{}` has no keys and no entries |
| Dicts.PutKeepsValid | main.py:51 | `d[k] = v` keeps a dict a dict: `k` holds `v`, and every other key keeps its value |
| Dicts.PutKeepsOrder | main.py:51 | `d[k] = v` adds no key other than `k`; the old key order is kept; an existing `k` keeps its place, and a new `k` goes to the end |
| Dicts.AssignValid | db.py:19-84 | any run of assignments from `{}`, repeated keys included, builds a proper dict. Its keys are exactly the assigned keys, and there are at most as many keys as assignments |
| Dicts.AssignLastWins | db.py:19-84 | in any run of assignments from `{}`, every key holds the value of the last assignment to it |
| Dicts.AssignDistinct | db.py:19-84 | assigning distinct keys from `{}` lists them in assignment order, each holding the value assigned to it |
| Dicts.SizeIsKeyCount | main.py:49-53 | the number of entries of a dict equals the length of its key order |
| Db.InitElementDb | db.py:19-84 | the ten statements, run in order on `{}`, produce exactly `Assign(Assignments)` |
| Db.AssignmentsWellFormed | db.py:20-84 | every key is assigned once, under the element's own name, with an `en` and a `de` text |
| Db.ElementDbContents | db.py:19-84 | every entry's key equals its element's name and every element has a text for every language; the keys, in insertion order, are exactly the ten keys from powered_by to trivia_header; the table has exactly ten entries |
| Db.SwitchLanguageTexts | db.py:28-31 | `switch_language` holds "Wechsle zu Deutsch" for `en` and "Switch to English" for `de`, and no other language |
| Db.TriviaHeaderSameText | db.py:81-84 | `trivia_header` holds the same text, "Trivia", in both languages |
| Api.InitElementDb | main.py:23-43 | the five statements, run in order on `{}`, produce exactly `Assign(Assignments)` |
| Api.AssignmentsWellFormed | main.py:24-43 | every key is assigned once, under the element's own name, with an `en` and a `de` text |
| Api.ElementDbContents | main.py:23-43 | main.py's table satisfies the content-table invariant; its keys, in insertion order, are powered_by, image_alt, switch_language, application_as, trivia_header; it has exactly five entries |
| Api.LanguageKit | main.py:49-53 | the kit is a dict with the table's keys in the table's order, and under each key that element's text in the language |
| Api.BuildLanguageKit | main.py:49-53 | the loop returns the kit exactly when every element has a text in the language; otherwise it fails with `KeyError(language)` |
| Api.GetElement | main.py:46-53 | on main.py's table the handler never raises, and it returns that table's kit in the requested language |
| Api.KitsShareKeys | main.py:49-53 | on a well-formed table the `en` and `de` kits both exist and have the same keys in the same order |
| Api.MainKitKeys | main.py:23-53 | main.py's kit, in either language, has exactly its five keys in table order |
| Api.MainKitSwitchLanguage | main.py:32-35 | main.py's `en` kit maps switch_language to "Wechsle zu Deutsch", and its `de` kit to "Switch to English" |
| BothTables.DbKitKeys | db.py:19-84 | a kit built from db.py's table, in either language, has exactly its ten keys in table order |
| BothTables.DbKitSwitchLanguage | db.py:28-31 | a kit built from db.py's table labels the language switch the same way main.py's does |
| BothTables.MainAssignmentsFromDb | main.py:24-43 | main.py's five assignments are db.py's first four and its last, word for word |

## Left out

- FastAPI wiring (main.py:7, main.py:46-47, main.py:57): the application object, the route decorator, `async`, and the static-file fallback mount. These are framework and I/O plumbing.
- HTTP 422 rejection of a path segment that is not a language: the framework does this before `get_element` runs. `GetElement` takes a `Language`, so only `en` and `de` reach the loop. `Elements.FromValue` states which strings name a member.
- Pydantic validation (db.py:15, main.py:19): pydantic coerces the literal keys `"en"`/`"de"` into `Language` members. Here the content maps are typed by `Language` from the start.
- Db.GlanceCopy: the two long HTML introductions of `glance_copy` (db.py:40-68) are shortened to their opening words. No logic depends on their text.
- public/js/main.js is not part of this model. It is browser UI code: `fetch` calls, reactive state and a two-state language toggle.
- Object identity: the tables and the kit are values, not shared Python objects. `get_element` only reads `element_db` and writes a fresh local dict. `BuildLanguageKit` takes the table by value and has no `modifies` clause, so "the table is not changed" holds by construction rather than as a stated postcondition.
- `Language` and `Element` are declared identically in db.py:6-15 and main.py:10-19. They are declared once in `Elements`.
- A personal-data gate, experience/education collections and environment variables do not appear in db.py or main.py, so they are not modelled.
