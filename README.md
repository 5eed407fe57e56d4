# Citation formatting and the render pipeline, in Dafny

This project models two parts of the Distill article template's prerendering code, and proves properties of the model.

- **The citation component** (`components/citation.js`).
  - It has three formatters over the shared context (`data.citations`, `data.bibliography`):
    - the short inline citation `"[1, ?]"`;
    - the long inline citation `"Smith & Doe, 2020"`;
    - the full bibliography reference `"Smith, J., 2020. A Study. J. Things, Vol 5(2), pp. 10-20. "`.
  - Its renderer rewrites every `dt-cite` marker to the short citation of its comma-split `key`. It then appends an `<ol>` holding one `<li>` per cited key, in `citations` order, to the first `dt-bibliography` element.
- **The orchestrator** (`src/transforms.js`).
  - `render` runs the three extractors, then the ten transforms, each in registration order. It then sets `distill-prerendered` on the body.
  - `distillify` runs the three publishing transforms.
  - `usesTemplateV2` decides from the script `src`s which template version a page loads.

Files:

- `wrappers.dfy`: `Option` and `Result`.
- `jsstring.dfy`: the JavaScript string operations the code relies on, modelled exactly, with their laws proved:
  - `split` with a non-empty separator, and `join`;
  - `trim` over the ECMAScript white-space and line-terminator set;
  - `indexOf` and `includes` on strings, `indexOf` on arrays;
  - `"" + n` for a natural number.
- `page.dfy`:
  - the bibliographic record, as the `Entry` value;
  - the document and the shared context, as the classes `Dom` and `Data` that the stages update in place, each with a value snapshot.
- `citation.dfy`:
  - the formatters, as functions, with lemmas that tie them to independent reference definitions;
  - the renderer, as methods over `Dom` whose loops are proved against the specification function `Rendered`.
- `citation_examples.dfy`: worked examples, proved from the general lemmas.
- `transforms.dfy`:
  - the stage runner `RunStages`, with its fail-fast and composition laws;
  - `Render` and `Distillify`, as methods over `Dom` and `Data`;
  - the script probe `UsesTemplateV2`, as a method with a loop.

Modelling decisions:

- **Stages.** Each registered stage is an opaque stage function. It maps the snapshot to either `Completed(after)` or `Threw(partial, error)`.
  - A throwing stage keeps whatever it had already changed, because nothing is rolled back.
  - Every stage is handed the `verbose` flag, as in the source.
  - The function `impl` gives each registered name its behaviour.
- **Logging.** The `console.warn` stage announcements become a returned log. That makes the effect of `verbose` observable.
  - `distillify` passes two arguments to `console.warn`, so its lines read `"Running distillify:  " + name`, with two spaces.
- **Errors.** A thrown error is an `error` result (`Option<string>`, or `Result` with the `ProbeError` values). It stands for the exception propagating to the caller.
- **Markers without a key.** A `dt-cite` without a `key` attribute makes `getAttribute` return `null`, and the chained `.split` throws. The model throws at that marker:
  - earlier markers stay rewritten;
  - later markers are untouched;
  - no list is appended.

Points where the code does more, or less, than its loops suggest:

- **`verbose`.** Inside `render` and `distillify`, `verbose` only guards the `console.warn` lines, but it is also passed to every stage (`src/transforms.js:57,63,73`). So "`verbose` changes nothing but the log" is proved only for stages that ignore it (`Transforms.VerboseOnlyLogs`).
- **Keyless markers.** Not every `dt-cite` marker gets its short citation. The code throws at the first marker without a `key`, as described under "Modelling decisions".
- **Bibliography lookup.** `Page.Lookup` is the model of `data.bibliography[key]` (`components/citation.js:24`) as the list builder reads it: the key's record, or `None` for `undefined` when the key is absent.

## Model

| member | source | states |
|---|---|---|
| `JsString.TrimSpec` | components/citation.js:64 | `trim` removes a white-space prefix and a white-space suffix and nothing else, leaving no white space at either end |
| `JsString.TrimPadded` | components/citation.js:67 | trimming white space around a string whose ends are not white space gives back that string |
| `JsString.FindSpec` | src/transforms.js:83-87 | `indexOf` on strings gives the first index where the pattern occurs, or -1 exactly when it occurs nowhere |
| `JsString.ContainsPrefix` | src/transforms.js:83-87 | a string that includes a pattern also includes every prefix of that pattern |
| `JsString.SplitPartsClean` | components/citation.js:13 | no piece produced by `split` contains the separator |
| `JsString.JoinSplit` | components/citation.js:39 | joining the pieces of a split with the same separator gives back the original string |
| `JsString.SplitJoin` | components/citation.js:61 | splitting a join of separator-free, non-empty lists gives back the list |
| `JsString.IndexOf` | components/citation.js:33 | array `indexOf` is the first position holding the value, or -1 exactly when the value is absent |
| `JsString.Decimal` | components/citation.js:34 | `"" + n` is a non-empty string of digits with no leading zero |
| `JsString.DecimalRoundTrip` | components/citation.js:34 | the decimal text of `n` reads back as `n` |
| `JsString.DecimalInjective` | components/citation.js:34 | distinct numbers have distinct decimal texts |
| `Citation.CiteNumber` | components/citation.js:31-38 | a key missing from the bibliography shows "?"; a known key shows its first 1-based position in `citations`, or "0" when it was never cited |
| `Citation.InlineCiteShort` | components/citation.js:30-40 | the short citation is bracketed, is "[]" for no keys, and its inside splits on ", " back into exactly one number per key, in key order |
| `Citation.SurnameBeforeComma` | components/citation.js:47 | the long form's surname of a name is the trimmed text before its first comma, and the whole trimmed name when it has no comma |
| `Citation.LongCiteByAuthors` | components/citation.js:43-55 | one author gives "A, year"; two give "A & B, year"; more give "A, et al., year", using the surnames of the " and "-separated names (the last name may end in " and") |
| `Citation.InlineCiteLongSingle` | components/citation.js:52-56 | the long form of one key is its own text with no brackets, and "?" for a key missing from the bibliography |
| `Citation.InlineCiteLongCons` | components/citation.js:42-57 | the long form of several keys is the first key's text, then ", ", then the long form of the remaining keys, with no brackets |
| `Citation.FormatNameBare` | components/citation.js:63-71 | a name without a comma is shown as its trimmed self |
| `Citation.FormatNameGiven` | components/citation.js:63-69 | "Last, Given" is shown as the trimmed surname, ", " and the initials of the second comma-separated piece only |
| `Citation.InitialsOfWords` | components/citation.js:67-68 | given names that are space-separated words give one "X." per word, whatever white space surrounds them |
| `Citation.AuthorListNatural` | components/citation.js:72-77 | the author list is "A", "A and B", or "A, B and C", against an independent recursive definition |
| `Citation.BibliographyCite` | components/citation.js:59-94 | a missing record renders as "?" and only then; a record's reference always ends in ". " |
| `Citation.VolumeCases` | components/citation.js:81-85 | the volume part appears exactly when the record has a volume; its issue is a truthy `issue`, else a defined `number`, else nothing |
| `Citation.BibliographyCiteShape` | components/citation.js:59-90 | a record renders as its formatted names in natural-list form, then year, title, venue, volume and pages, in that order |
| `Citation.AuthorsOfJoin` | components/citation.js:61 | an author field written as names joined by " and ", each but the last separator-free and the last not containing " and ", splits back into those names |
| `Citation.FirstKeyless` | components/citation.js:13 | the first marker without a `key`: every earlier marker has one |
| `Citation.BuildBibliographyList` | components/citation.js:21-26 | the loop builds exactly the specified `<ol>`, one `<li>` per citation key in order |
| `Citation.RenderCitations` | components/citation.js:10-28 | the renderer leaves the document as `Rendered` specifies, and throws exactly when it says so |
| `Citation.RenderedMarkers` | components/citation.js:10-17 | the renderer throws exactly when some marker lacks a key; earlier markers show the short citation of their untrimmed comma-split key; later ones are untouched; keys never change |
| `Citation.RenderedBibliography` | components/citation.js:19-28 | after a run that does not throw, the first placeholder gets the list appended and the others do not; with no placeholder, or after a throw, no list is created |
| `Citation.BibliographyListItems` | components/citation.js:21-27 | the list has one item per citation key, in `citations` order; an item reads "?" exactly when its key has no record, and otherwise is that record's reference |
| `Citation.RenderedRemovesNothing` | components/citation.js:10-28 | no node is removed: every placeholder's previous children remain a prefix, and scripts, body attributes and the rest are unchanged |
| `Citation.RenderedTwice` | components/citation.js:19-28 | rendering its own output again leaves the markers as they were but appends a second copy of the list |
| `CitationExamples.ShortCiteExample` | components/citation.js:30-40 | citing the second cited key and a missing key gives "[2, ?]" |
| `CitationExamples.UncitedKeyIsZero` | components/citation.js:33 | a known but never-cited key shows "[0]" |
| `CitationExamples.KeysAreNotTrimmed` | components/citation.js:13 | `key="a, b"` looks up " b", which is not a bibliography key, giving "[1, ?]" |
| `CitationExamples.InitialsDoubleSpace` | components/citation.js:67-68 | "John  Paul" gives "J..P.": the empty token between two spaces gives an empty initial |
| `CitationExamples.SmithJohn` | components/citation.js:63-69 | "Smith, John" is shown as "Smith, J." |
| `CitationExamples.LongCiteTwoAuthors` | components/citation.js:50 | two authors give "Smith & Doe, 2020" |
| `CitationExamples.CommalessSurnames` | components/citation.js:47 | names written "Chris Olah" and "Shan Carter", without commas, keep their whole text as surnames |
| `CitationExamples.CommalessPart` | components/citation.js:43-50 | those two names give "Chris Olah & Shan Carter, 2016" |
| `CitationExamples.LongCiteThreeAuthors` | components/citation.js:51 | three authors give "Smith, et al., 2020" |
| `CitationExamples.StudyExample` | components/citation.js:59-90 | a journal article with volume, issue and pages gives "Smith, J., 2020. A Study. J. Things, Vol 5(2), pp. 10-20. " |
| `CitationExamples.IssueFallback` | components/citation.js:82-84 | an empty `issue` falls back to `number`; when that is absent, no parentheses follow the volume |
| `CitationExamples.EmptyNumberParens` | components/citation.js:82-84 | an empty but defined `number` still gives "()" |
| `CitationExamples.EmptyVenue` | components/citation.js:80 | without a truthy journal or booktitle the venue is empty |
| `Transforms.RunStages` | src/transforms.js:56-59 | the stages entered are a prefix of the registry; all of it when none threw, and up to the thrower otherwise |
| `Transforms.RunStagesAppend` | src/transforms.js:54-65 | running two lists of stages one after the other is running the first and, if it completed, the second from where the first stopped |
| `Transforms.FailFast` | src/transforms.js:56-65 | when a run fails, every earlier stage completed, the last one entered threw exactly that error, its partial state is the final state, and no later stage ran |
| `Transforms.VerboseIrrelevant` | src/transforms.js:57-64 | for stages that ignore the flag, `verbose` changes neither which stages run nor where they end |
| `Transforms.KeepsBodyRun` | src/transforms.js:70-76 | a run over stages that leave the body's attributes alone leaves them alone |
| `Transforms.RunPhase` | src/transforms.js:56-59 | one registry loop leaves exactly the state, error and announcements of `RunStages` |
| `Transforms.Render` | src/transforms.js:54-68 | `render` leaves the state, error and log of `RenderSpec` |
| `Transforms.Distillify` | src/transforms.js:70-76 | `distillify` leaves the state, error and log of running the three publishing transforms |
| `Transforms.RenderIsOneRun` | src/transforms.js:54-68 | `render` is a single run over the extractors followed by the transforms; the marker is added exactly when it completes; one log line per stage entered when verbose, none otherwise |
| `Transforms.RenderFailFast` | src/transforms.js:56-66 | when `render` throws, its state is exactly what the throwing stage left, after every earlier stage completed, and there is no marker and no rollback |
| `Transforms.RenderMarks` | src/transforms.js:66 | after `render` completes, the body has `distill-prerendered=""` |
| `Transforms.DistillifyLeavesBody` | src/transforms.js:70-76 | `distillify` adds no marker: over stages that leave the body alone, the body's attributes are unchanged |
| `Transforms.VerboseOnlyLogs` | src/transforms.js:54-76 | for stages that ignore the flag, `render` and `distillify` end in the same state with the same error whether or not `verbose` is set, and log nothing when it is off |
| `Transforms.KindTemplate` | src/transforms.js:83-89 | a script counts as a template script of any kind exactly when its `src` includes "template." |
| `Transforms.KindBoth` | src/transforms.js:83-86 | a `src` naming both versions counts as v1 |
| `Transforms.LastVersion` | src/transforms.js:80-90 | no version is found exactly when no script names v1 or v2; otherwise the answer is that of the last such script |
| `Transforms.UsesTemplateV2` | src/transforms.js:78-97 | the unknown-version error exactly when some `src` names the template but neither version; the no-template error exactly when no `src` includes "template."; otherwise whether the last script naming a version named v2 |

## Left out

- Console output:
  - `console.log` of the marker list and of each key list (`components/citation.js:11,14`) is not modelled;
  - the stage announcements are modelled as a returned log rather than as console output.
- The concrete extractors, transforms and publishing transforms are opaque stage functions. Their behaviour is the parameter `impl`.
- The real DOM is replaced by an abstract document:
  - a list of `dt-cite` records in document order;
  - the child lists of the `dt-bibliography` elements;
  - the script `src`s and the body attributes;
  - an opaque remainder.
- `innerHTML` and `textContent` are assigned as plain strings, with no HTML parsing.
- A missing `dom.body` is not modelled. In the source, `setAttribute` on it would throw.
- `get_URL` is not modelled: it returns nothing and calls an undefined `uris`.
- The commented-out sort of `citations` is not modelled, because it never runs.
- The re-exports `FrontMatter` and `testing` are left out. They have no behaviour.
- `key in data.bibliography`, and the `in` tests for `volume` and `pages`, are modelled as map membership and `Option`. This leaves out:
  - keys inherited from `Object.prototype`, such as "toString";
  - a key present with the value `undefined`.
- Record field types:
  - `author`, `year` and `title` are always strings;
  - a record without `author` would throw, and a missing `year` or `title` would print "undefined";
  - non-string field values are not modelled.
- `data.citations` is always a list. If it were undefined, the source would throw.
- Characters are Dafny characters, not UTF-16 code units, so `trim()[0]` on a surrogate pair is not modelled. `trim` uses the declared ECMAScript white-space set.
- Data fields: the data object holds only `citations` and `bibliography`. The other fields the extractors write, such as the front matter, are not modelled.
- A stage is a total function, so a stage that never returns cannot be expressed. In the source such a stage would block `render` or `distillify` forever.
- The default `verbose=true` of `render` and `distillify` (`src/transforms.js:54,70`) is not modelled: the flag is always passed explicitly.
- `Transforms.VerboseOnlyLogs`: assumes the stages ignore `verbose`, because each stage is handed the flag and the stages are not part of this model.
- `Transforms.VerboseIrrelevant`: same hypothesis, for the same reason.
- `Transforms.DistillifyLeavesBody`: assumes the publishing transforms leave the body's attributes alone, for the same reason.
