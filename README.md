# Language repeater: the practice-session state machine

The application serves one practice sentence at a time, chosen by a language
code (`de`, `fr`, `en`) and a difficulty level (`leicht`, `mittel`,
`schwer`). It keeps a single session for all clients in four module globals:
the current language, the current level, the index into that entry's list
and the sentence on show. Every POST to `/` applies the submitted form
fields in a fixed order. A `language` field sets the language and resets the
index. A `level` field does the same for the level. A `next` field advances
the index modulo the list length. A `repeat` field does nothing. Then the
sentence is looked up again. An unknown code makes a dictionary lookup raise
a `KeyError` after some globals have already been written.

This project models that core in Dafny:

- `catalog.dfy`, module `Catalog`: the fixed nested dictionary of sentences
  (`Sentences`), its shape (three languages, three levels, three sentences
  per entry) and the two-level lookup `Entry`. `Entry` raises Python's
  `KeyError` for the outer key first.
- `session.dfy`, module `Repeater`:
  - `Step` is the value-level specification of one POST. It is built from
    the individual actions `SetLanguage`, `SetLevel`, `Next` and `Resolve`,
    and it is defined for any nested dictionary. A missing key gives a
    `KeyError`. An empty list gives a `ZeroDivisionError` at the `%`. An
    index past the end gives an `IndexError`.
  - The class `Session` holds the globals as fields. `Session.Post` updates
    them in the handler's order and is proved to match `Step`.
    `Session.Index` is the whole `/` handler: a GET leaves the session
    unchanged; a POST runs `Post`. On a reachable state, the handler keeps
    the session reachable.
  - Lemmas cover the reset, ordering, repeat and failure behaviour, and the
    wrap-around of `next`.
- `wrappers.dfy`: the `Result` type used for raised exceptions.

On the shipped catalog (`CatalogWellFormed`), a reachable state keeps its
index below 3. So `%` and list indexing never fail, and the only exception a
POST can raise is the `KeyError` of an unknown code (`FullEntriesStep`).

Some descriptions of this application mention a placeholder sentence for a
missing or empty entry, and a fallback to index 0 for an empty list. The
code in `main.py` has neither, and the model follows the code: a missing key
raises `KeyError`, and the request fails with no page.

## Model

| member | source | states |
|---|---|---|
| `Catalog.CatalogWellFormed` | main.py:12-64 | The catalog has exactly the languages de, fr, en. Each has exactly the levels leicht, mittel, schwer. Each entry holds 3 sentences, so no entry is empty. |
| `Catalog.LanguageShape` | main.py:12-64 | For each supported language, the catalog has exactly the three levels, each with 3 sentences. |
| `Catalog.EntryRaisesOuterFirst` | main.py:104 | The lookup `Entry`, which is `sentences[language][level]` at main.py:104 and 111, succeeds exactly when the language is a key and the level is a key of its entry. It then yields the stored list. Otherwise it raises `KeyError` of the language when the language is missing, even if the level is missing too, and else `KeyError` of the level. |
| `Catalog.WellFormedEntry` | main.py:104 | On a well-formed catalog, `sentences[language][level]` succeeds exactly for supported codes and then yields 3 sentences. Otherwise it raises `KeyError` naming the unknown language, or, when the language is known, the unknown level. |
| `Repeater.Initial` | main.py:67-70 | The process starts with language "de", level "leicht", index 0 and the sentence "Hallo, wie geht es dir?". |
| `Repeater.InitialValid` | main.py:67-70 | The start state is coherent: its sentence is the catalog's sentence at (de, leicht, 0). The shipped catalog has only full entries. |
| `Repeater.Session.constructor` | main.py:67-70 | The session starts in the initial state over the shipped catalog and satisfies the session invariant. |
| `Repeater.SetLanguage` | main.py:93-95 | A submitted language replaces the language and resets the index to 0. The level and the sentence are kept. |
| `Repeater.SetLevel` | main.py:98-100 | A submitted level replaces the level and resets the index to 0. The language and the sentence are kept. |
| `Repeater.Next` | main.py:103-104 | `next` succeeds exactly when the lookup succeeds and the list is non-empty. It then moves the index one place on, back to 0 after the last place, and keeps it within the list. Nothing else changes. It raises the lookup's `KeyError`, or `ZeroDivisionError` for an empty list. |
| `Repeater.Resolve` | main.py:111 | The sentence lookup succeeds exactly when the lookup succeeds and the index is within the list. It then makes the state coherent, changing only the sentence. It raises the lookup's `KeyError`, or `IndexError` of the index. |
| `Repeater.Step` | main.py:93-111 | After a POST, the language and level are the submitted ones, or else unchanged, even when the POST raises. A successful POST shows the catalog's sentence at the new cursor. A POST that raises keeps the old sentence. After a `KeyError`, the index is 0 if a code was submitted, else the old index, and the lookup of the final codes fails with that same error. |
| `Repeater.Session.Post` | main.py:93-111 | The field-by-field update leaves the fields and the outcome exactly as `Step` gives them for the old fields and the form. |
| `Repeater.Session.Index` | main.py:87-118 | A GET changes nothing and shows the current sentence, language and level. A POST updates the session as `Step` says. It shows the page when the lookup succeeded and returns the raised error otherwise. The audio call at main.py:112 is treated as succeeding. The session invariant is kept. |
| `Repeater.FullEntriesStep` | main.py:93-111 | Over full entries, from an index below 3, a POST keeps the index below 3 and raises only `KeyError`, exactly when the final codes are not in the catalog. On success, the index is (base + 1) mod 3 after `next`, else base. The base is 0 when a code was submitted and the old index otherwise. |
| `Repeater.ResolvesIffSupported` | main.py:104-111 | On a well-formed catalog, a POST succeeds if and only if the final language and level are supported codes. |
| `Repeater.StepPreservesValid` | main.py:93-111 | Every POST maps a reachable state to a reachable one. In a reachable state, the index is below 3, the sentence comes from the catalog, and the sentence is the one at the cursor whenever both codes are keys. |
| `Repeater.CodeChangeResetsIndex` | main.py:93-100 | A POST that submits a language or a level, without `next`, ends with index 0, whatever the prior state and the catalog, and whether or not the POST raises. |
| `Repeater.LanguageThenNext` | main.py:93-104 | Language and `next` in one POST reset the index to 0 and then advance it to 1. The result shows sentence 1 of the new language at the current level. |
| `Repeater.RepeatChangesNothing` | main.py:107-111 | A POST with only `repeat`, or with no action, leaves a reachable state unchanged. It succeeds exactly when the codes are catalog keys. |
| `Repeater.UnknownLanguageRaises` | main.py:93-111 | A submitted language that is not in the catalog raises `KeyError` of that code. The language and the index (0) are already overwritten, and the sentence is the old one. |
| `Repeater.UnknownLanguageSticks` | main.py:103-111 | While the current language is unknown, every POST that does not submit a language raises the same `KeyError` and keeps the sentence. |
| `Repeater.UnknownLevelRaises` | main.py:98-111 | With a known language, a submitted unknown level raises `KeyError` of that level. The level and index (0) are already overwritten, and the sentence is the old one. |
| `Repeater.NextTimes` | main.py:103-104 | Repeated `next` presses never change the language or the level. |
| `Repeater.NextOnce` | main.py:103-104 | From a coherent state, one `next` moves the index to (index + 1) mod 3 and shows the sentence there. |
| `Repeater.SameCursorSameState` | main.py:111 | Two coherent states with the same language, level and index are equal: the sentence is determined by the cursor. |
| `Repeater.NextTimesCoherent` | main.py:103-104 | From a coherent state, any number of `next` presses ends in a coherent state: the sentence on show is the catalog's sentence at the new index. |
| `Repeater.NextTimesAdvances` | main.py:103-104 | From a coherent state, k presses of `next` give index (index + k) mod 3. |
| `Repeater.NextCyclesBack` | main.py:103-104 | Pressing `next` as many times as the list is long returns to the starting state. |
| `Repeater.EnglishThenNextScenario` | main.py:93-111 | From the start state, a POST with language "en" and `next` shows "I love programming with Python." at index 1. |
| `Repeater.UnknownLanguageScenario` | main.py:93-111 | From the start state, a POST with language "it" raises `KeyError("it")`. It leaves language "it" and index 0, and the page still holds "Hallo, wie geht es dir?". |

## Left out

- Flask routing, `render_template` and the `time.time()` timestamp passed to the page (main.py:87-88, 114-118). A page is modelled as the sentence, language and level only.
- `generate_audio` (main.py:73-79, called at 112): a speech-synthesis network call plus deleting and writing a file. It runs after main.py:111 has written the sentence, so it cannot change the session state. The model treats the call as succeeding. If it fails, it raises after the state update, and no page is shown.
- `check_speech` (main.py:121-136): microphone capture and speech recognition, which are I/O and network calls. Its mapping of the two recognition errors to messages is not modelled.
- `similarity_score` (main.py:82-84) and the rounding at main.py:131: a wrapper over a library string-matching ratio whose source is not part of this model.
- Concurrent requests racing on the process-wide globals: the model treats requests one at a time.
- The form is a map from field name to one value. A multi-valued form field, of which Flask's `request.form[key]` takes the first value, is not modelled.
- HTTP methods other than GET and POST. HEAD runs the handler as a GET does and changes nothing. Flask answers OPTIONS itself. Every other method gets a 405 before the handler runs.
- `Repeater.Session.Post` has no precondition: it is stated for any state and any catalog. `Repeater.Session.Index` adds the session invariant `Valid()`.
- `Repeater.Session.Index`: a POST whose lookup succeeded is stated to return the page, because the audio call at main.py:112 is treated as succeeding. If that call raises, the real handler returns no page, although the session state is the same.
