# NER_OCR_On_Safety: fusion and annotation core, in Dafny

The repository extracts fields from OCR'd Brazilian medical documents (medical
certificates, reports, declarations). Each field has its own spaCy named-entity model:
patient name, ICD diagnosis code (CID), date, document type, leave duration, medical
registration (CRM) and opening hours. This project models two parts of that system and
proves properties about them.

- **The post-processing engine of `app_OCR.py`.** It has four field normalisers:
  - `limpar_data` picks the first date-shaped substring.
  - `processar_cid` strips one `CID`/bracket marker and accepts a letter, digits and
    optional `.digits`.
  - `validar_tipo_documento` accepts a whole, case-insensitive document-type phrase.
  - `validar_nome_paciente` is a blacklist and shape filter for person names.

  It also has the fusion `extrair_entidades_multimodelo`. The fusion walks the models in
  registration order and routes each span by the model's key. It strips and normalises
  the span and appends it to one list per expected label (`ENTIDADES_ESPERADAS`), with a
  duplicate guard on every list except TIPO_DOC. After each model, it post-processes the
  patient names: it sorts them longest first, drops names contained in a kept name, and
  re-validates the rest.
- **The data-preparation helpers of the six training scripts.**
  - `extrair_texto` is shared by five of the scripts.
  - `Treinando_CID.py` has the CID annotator and its relabelling loop.
  - `Treinando_TEMPO_AFASTAMENTO.py` has `localizar_span`, the three-level fallback
    `corrigir_ou_inferir_tempo` and its entity loop.
  - `Treinando_Data.py` and `Treinando_TIPO_DOC.py` each have a regex annotator, an item
    loop and, in `Treinando_Data.py`, the entity pre-filter of `criar_docbin`.
  - `Treinando_horarios.py` normalises the annotation shape and filters by label.
  - `Treinando_NOME_PACIENTE.py` has `is_valid_span`, the integer counting of `avaliar`
    and the item filter of `carregar_dados`.

Modelling choices:

- **Regexes.** Every regex is compiled by hand into a matcher. A matcher gives the end of
  the match that Python's `re` engine reports at a start position. The date, CID and
  document-type matchers are proved equal to a declarative description of the pattern's
  language (the `...Iff` lemmas). The anchor `PADRAO_ANCORA` is proved sound and complete
  against a description of the match the engine reports, with its lazy window and the
  backtracking of `\s+` (`Tempo.AnchorMatchSound`, `Tempo.AnchorMatchComplete`). The
  period alternation `PADRAO_TEXTO` is characterised by the contract of `Tempo.PeriodFrom`.
  The number-and-unit pattern is proved sound only (`Tempo.NumUnitAtSound`).
  `Scan.Search` and `Scan.FindIter` give the leftmost-first scanning of `search`,
  `findall` and `finditer`. An ordered alternation means that the first alternative that
  matches at a position decides the match.
- **Recognizers.** The spaCy models are an input: a sequence of `ModelOutput(key, spans)`
  in the order of the `modelos` dict.
- **Parsed JSON.** The training data is the `Json` datatype of strings, integers, booleans,
  null, lists and dicts. A dict is the file's list of pairs; as `json.load` builds it, a
  repeated key is one entry, at its first position and with its last value. Python exceptions are `Err(TypeError | KeyError | IndexError)`.
- **Loops.** Each loop of the source is a `method` proved equal to a specification
  function, and the lemmas are stated about that function.

The model follows the code as written. In particular:
- TIPO_DOC is appended without a duplicate guard (`Fusion.TipoDocRepeats`).
- Names are not validated when collected, only after the post-processing
  (`Fusion.NamesCollectedUnvalidated`).
- `processar_cid` strips only `CID[:-]?\s*`, so a `CID-10` marker leaves `10` in front of the code
  (`Normalizers.CidTenMarkerRejected`).
- Equal-length names keep their collection order, because Python's `sorted` is stable
  (`NameLists.SortStable`).

Files:

| File | Contents |
|---|---|
| `wrappers.dfy` | `Option`, `Result` and the Python errors |
| `chars.dfy` | character classes, word boundary, `lower` |
| `text.dfy` | `strip`, `split()`, `lower`, `find`/`in`, `" ".join`, slicing |
| `scan.dfy` | leftmost search and `finditer` over a matcher |
| `json.dfy` | parsed JSON values and the Python operations on them |
| `dates.dfy`, `docphrases.dfy` | the date and document-phrase patterns |
| `normalizers.dfy`, `names.dfy`, `namelists.dfy`, `fusion.dfy` | `app_OCR.py` |
| `loader.dfy` | what the training scripts share: `extrair_texto`, the entities lookup, the item loop |
| `tempo.dfy`, `traincid.dfy`, `traindata.dfy`, `traintipodoc.dfy`, `trainhorarios.dfy`, `trainnome.dfy` | one per training script |

## Model

| member | source | states |
|---|---|---|
| Normalizers.LimparData | app_OCR.py:6-28 | a date returned is a non-empty substring of the input |
| Normalizers.LimparDataSome | app_OCR.py:18-26 | a returned date is the leftmost match of the six-way alternation or, when that matches nowhere, the leftmost mixed-separator numeric date of the fallback |
| Normalizers.LimparDataNone | app_OCR.py:18-28 | None exactly when neither the alternation nor the fallback matches anywhere in the input |
| Normalizers.LimparDataLeftmost | app_OCR.py:19-26 | conversely, the leftmost match of the alternation (else, of the fallback) is the one returned |
| Normalizers.LeftmostAppUnique | app_OCR.py:19-21 | the leftmost match of the alternation is unique, so "the first date" is well defined |
| Normalizers.LimparDataBySearch | app_OCR.py:19-28 | the result is the first `findall` hit, else the fallback `search` hit, else None |
| Normalizers.TwoDigitYearAccepted | app_OCR.py:9 | a whole `dd/mm/yy` text is returned whole: two-digit years are accepted |
| Dates.NumDateAtIff | app_OCR.py:9-12 | the compiled `\b\d{1,2}S\d{1,2}S\d{2,4}\b` matches from i to j exactly when [i, j) is such a date between word boundaries |
| Dates.TextDateAtIff | app_OCR.py:13 | the compiled spelled-out date "15 de setembro de 2025" matches exactly its language |
| Dates.MonthDayDateAtIff | app_OCR.py:14 | the compiled day/abbreviated-month/year date matches exactly its language |
| Dates.AppDateAtIff | app_OCR.py:8-16 | the alternation matches at i up to j exactly when the first alternative that matches at i ends at j |
| Dates.AppDateRepeatIsDead | app_OCR.py:12 | the fourth alternative, a copy of the first, never decides a match |
| Dates.MixedNumDateAtIff | app_OCR.py:24 | the fallback matches exactly the numeric dates with any of `/`, `-`, `.` as separators |
| Dates.MonthYearDateAtIff | Treinando_Data.py:41 | the compiled month/year date "Set-2025" matches exactly its language |
| Dates.DataDateAtIff | Treinando_Data.py:38-44 | the DATA annotator's four-way alternation matches exactly the first of its alternatives that matches |
| Normalizers.MarkerEndIff | app_OCR.py:32 | the part `re.sub` removes is `CID` in any case with an optional `:` or `-` and all white space after it, else one bracket, else nothing |
| Normalizers.MatchCidCodeIff | app_OCR.py:34 | the code check accepts exactly the language of `^[A-Z]\d+(\.\d+)?$` |
| Normalizers.ProcessarCid | app_OCR.py:31-36 | an accepted code has at least two characters and starts with an upper-case letter |
| Normalizers.ProcessarCidSpec | app_OCR.py:31-36 | the result is Some(t) exactly when t is the stripped rest after the marker and is a whole code; otherwise None |
| Normalizers.ProcessarCidIdempotent | app_OCR.py:32-35 | an accepted code is accepted unchanged when processed again |
| Normalizers.ProcessarCidInside | app_OCR.py:32-35 | the code returned occurs in the input |
| Normalizers.CidTenMarkerRejected | app_OCR.py:32-35 | "CID-10: M54.5" is rejected: only `CID-` is removed and the rest starts with "10" |
| Normalizers.ValidarTipoDocumento | app_OCR.py:39-54 | an accepted text is not blank |
| Normalizers.ValidarTipoDocumentoIff | app_OCR.py:39-54 | true exactly when the whole stripped text is one of the nine phrases, case-insensitively (a phrase followed by more text is rejected) |
| Normalizers.ValidarTipoDocumentoStrip | app_OCR.py:54 | the verdict on a text and on its stripped form agree |
| DocPhrases.PhraseEndsIff | app_OCR.py:42-50 | the compiled phrase matcher gives exactly the ends of the phrase's matches (`\s*` between the words, accented or plain letters) |
| DocPhrases.FullMatchAnyIff | app_OCR.py:40-54 | `^(?:...)$` holds exactly when some phrase ends where `$` holds |
| DocPhrases.BoundedEndIff | Treinando_TIPO_DOC.py:42-52 | a phrase followed by `\b` ends at j exactly when it matches up to j and j is a word boundary |
| DocPhrases.FirstBoundedIff | Treinando_TIPO_DOC.py:42-52 | the alternation picks the first phrase that matches before a word boundary |
| Names.ValidNameShape | app_OCR.py:57-106 | an accepted name has no digit, no listed special character, no stand-alone de/do/da/dos/das/e, at least two words, and every word is at least two characters long and starts upper-case |
| Names.TermRejects | app_OCR.py:63-74 | a name in whose lower-cased form a listed term occurs is rejected |
| Names.NameWithTermInsideRejected | app_OCR.py:63-74 | terms are matched as substrings: "CLAUDIA SOUZA" is rejected because "dia" occurs in it |
| Names.NameWithPrepositionRejected | app_OCR.py:80-86 | the preposition check ignores case: "FLAVIO AUGUSTO BERNASKI DA SILVA" is rejected |
| Names.CidTermIsDead | app_OCR.py:66-73 | the term "CID" never occurs in the lower-cased name, so it never rejects anything |
| Names.FullNameAccepted | app_OCR.py:57-106 | "Maria Silva Santos" passes every check and is accepted |
| NameLists.SortPerm | app_OCR.py:239 | sorting by length is a permutation |
| NameLists.SortSorted | app_OCR.py:239 | the sorted names come longest first |
| NameLists.SortStable | app_OCR.py:239 | names of equal length keep their order (Python's sort is stable) |
| NameLists.SortOfSorted | app_OCR.py:239 | names already longest first are left as they are |
| NameLists.KeepMaximalNoNested | app_OCR.py:238-242 | on longest-first distinct names, no kept name occurs inside another |
| NameLists.KeepMaximalOfNoNested | app_OCR.py:238-242 | names none of which occurs inside another are all kept |
| NameLists.KeepMaximalKeeps | app_OCR.py:238-242 | a name that occurs inside no other collected name is kept by the survivor loop, whatever the order |
| NameLists.FilterKeeps | app_OCR.py:245 | the comprehension keeps every name that passes its test |
| NameLists.RemoveNestedNames | app_OCR.py:238-242 | the loop builds exactly the greedy survivor list `KeepMaximal` |
| NameLists.PostProcessNames | app_OCR.py:238-247 | the block computes exactly sort, then survivors, then `validar_nome_paciente` filter |
| NameLists.PostProcessSpec | app_OCR.py:238-247 | on distinct names: every kept name is valid, none occurs inside another, no repeats, longest first, equal lengths in collection order, and every kept name was collected |
| NameLists.PostProcessKeeps | app_OCR.py:238-247 | the converse: a valid collected name that occurs inside no other collected name is kept |
| NameLists.ContainingNameKept | app_OCR.py:238-247 | when every other collected name occurs inside one valid name, and that name inside none of them, that name alone is kept |
| NameLists.LongerNameKept | app_OCR.py:238-247 | ["Maria Silva", "Maria Silva Santos"] gives ["Maria Silva Santos"] |
| NameLists.PostProcessIdempotent | app_OCR.py:238-247 | post-processing its own result changes nothing |
| Fusion.InitialEntities | app_OCR.py:185 | the map holds exactly the eight expected labels, each with an empty list |
| Fusion.Place | app_OCR.py:189-232 | a span's list is chosen by the model key for CID, DATA, TIPO_DOC and NOME_PACIENTE; the HORARIOS spans go to one of the two hours lists; the guard is on except for TIPO_DOC; a CID span is placed exactly when `processar_cid` accepts its stripped text, and the value is that code; a DATA span likewise with `limpar_data`, the value occurring in the stripped span; other values are the stripped span |
| Fusion.ApplyAppends | app_OCR.py:196-232 | a placement appends at most one value to the end of its list, changes no other list, and does nothing for a label outside the map |
| Fusion.RouteAppends | app_OCR.py:189-232 | a span changes at most one list, and only by appending one value |
| Fusion.RouteAllDuplicateFree | app_OCR.py:189-232 | a model's spans keep every list except TIPO_DOC's free of repeats |
| Fusion.RouteSpans | app_OCR.py:189-232 | the inner loop routes the model's spans in order |
| Fusion.ExtrairEntidadesMultimodelo | app_OCR.py:184-249 | the loops compute `Fuse`: the models in order, each model's spans, then the name post-processing inside the model loop |
| Fusion.ModelStepInvariant | app_OCR.py:187-247 | one model keeps the lists except TIPO_DOC repeat-free and leaves the names post-processed |
| Fusion.FuseInvariant | app_OCR.py:184-249 | after any models: exactly the expected labels, no repeats in any list but TIPO_DOC's, and the names valid, none inside another, distinct and longest first |
| Fusion.RouteAllNames | app_OCR.py:189-232 | a model's spans keep every earlier name; the names model adds each stripped span text; every name is an earlier one or the stripped text of a span |
| Fusion.ModelStepKeepsName | app_OCR.py:187-247 | a valid name collected earlier or by this names model is in the model's final names when no other earlier name or span text of the model contains it |
| Fusion.FuseNamesFromSpans | app_OCR.py:184-249 | every final name is the stripped text of a span some model found |
| Fusion.FuseKeepsName | app_OCR.py:184-249 | a valid name the names model found is in the final list when no other text any model found contains it |
| Fusion.PlaceCidOnlyFromCid | app_OCR.py:194-232 | only the CID model, or another model's span labelled "CID", reaches the CID list |
| Fusion.RouteCidCodes | app_OCR.py:189-232 | a span that does not bypass `processar_cid` keeps every CID entry a code |
| Fusion.ModelStepCidCodes | app_OCR.py:187-247 | one model that does not bypass `processar_cid` keeps every CID entry a code |
| Fusion.FuseCidCodes | app_OCR.py:184-249 | when no unnormalised model labels a span "CID", every entry of the final CID list is a code |
| Fusion.TipoDocRepeats | app_OCR.py:206-208 | a valid TIPO_DOC text is appended even when already in the list |
| Fusion.NamesCollectedUnvalidated | app_OCR.py:215-218 | any new stripped NOME_PACIENTE text is appended, valid or not |
| Fusion.HorariosAliases | app_OCR.py:221-227 | both spellings of each hours label go to the canonical list; any other label of that model is dropped |
| Fusion.RoutedByModelKey | app_OCR.py:194-218 | the four normalising models ignore the span's label |
| Fusion.OtherModelsByLabel | app_OCR.py:229-232 | any other model's span goes unnormalised to the list its label names when that label is expected, and is dropped otherwise |
| Loader.ExtrairTexto | Treinando_TEMPO_AFASTAMENTO.py:25-40 | the loop computes `TextOf`: `item[0]` when a string, its parts joined by single spaces when a list, `str(item[0])` otherwise, with the indexing errors |
| Loader.TextOfString | Treinando_TEMPO_AFASTAMENTO.py:27-29 | a string text comes back unchanged |
| Loader.TextOfParts | Treinando_TEMPO_AFASTAMENTO.py:30-39 | a list of strings and dicts with a string 'text' is joined with single spaces, in order, each string part itself |
| Loader.TextOfBadPart | Treinando_TEMPO_AFASTAMENTO.py:35-39 | a dict part whose 'text' is not a string makes the join raise TypeError |
| Loader.JoinParts | Treinando_TEMPO_AFASTAMENTO.py:39 | the join raises TypeError exactly when some part is not a string |
| Loader.FindEntities | Treinando_TEMPO_AFASTAMENTO.py:128-135 | the lookup gives the 'entities' of the first dict of a list annotation that has them, a dict's 'entities', else [] |
| Loader.FirstEntitiesDict | Treinando_CID.py:127-131 | the index found is the first dict holding 'entities', and none before it holds them |
| Loader.LoadAllKeeps | Treinando_TEMPO_AFASTAMENTO.py:120-160 | a load that succeeds keeps, in input order, exactly the pairs the items yield, and no item raised |
| Loader.LoadAllRaises | Treinando_TEMPO_AFASTAMENTO.py:121-158 | the load raises the error of the first item that raises |
| Json.DictKeysCount | Treinando_TEMPO_AFASTAMENTO.py:118-122 | a loaded dict has at most one key per pair of the file, and exactly one per pair when no key is repeated |
| Json.RepeatedKeyCountsOnce | Treinando_TEMPO_AFASTAMENTO.py:118-122 | a dict whose file repeats a key has one entry for it: `len` is 1 and iteration yields the key once |
| Tempo.NumUnitAtSound | Treinando_TEMPO_AFASTAMENTO.py:43-45 | a number-and-unit match has a word boundary at both ends, one to three digits not followed by a digit, and a unit after them |
| Tempo.AnchorMatchSound | Treinando_TEMPO_AFASTAMENTO.py:61-65 | a match at i is "afastamento", white space, "de", white space, then a window of 1 to 80 characters that the closing group ends; the window is the shortest such, and starts at the last place the white space allows a window |
| Tempo.AnchorMatchComplete | Treinando_TEMPO_AFASTAMENTO.py:61-65 | whenever the text at i has that shape with some closing window, the matcher matches at i |
| Tempo.AnchorMatchSomeIff | Treinando_TEMPO_AFASTAMENTO.py:61-65 | the matcher matches at i exactly when the text at i has that shape |
| Tempo.WindowNoneIff | Treinando_TEMPO_AFASTAMENTO.py:61-82 | `search` finds no anchor exactly when no position has that shape |
| Tempo.WindowSound | Treinando_TEMPO_AFASTAMENTO.py:61-82 | the window found belongs to an anchor at a position before which no anchor occurs |
| Tempo.CorrigirNoAnchor | Treinando_TEMPO_AFASTAMENTO.py:80-82 | with no anchor anywhere in the text, no span is produced |
| Tempo.LocalizarSpan | Treinando_TEMPO_AFASTAMENTO.py:69-74 | None exactly when the snippet occurs nowhere; otherwise (s, s + len) at its first occurrence, and that slice is the snippet |
| Tempo.Fallback | Treinando_TEMPO_AFASTAMENTO.py:103-106 | the raw window is used only stripped and only when 1 to 60 characters long |
| Tempo.CorrigirOuInferirTempo | Treinando_TEMPO_AFASTAMENTO.py:76-110 | [] without the anchor; at most one span, labelled TEMPO_AFASTAMENTO, inside the text |
| Tempo.CorrigirPrecedence | Treinando_TEMPO_AFASTAMENTO.py:88-109 | number and unit wins over a textual period, which wins over the stripped window; the span is the first occurrence of the chosen snippet in the text |
| Tempo.CorrigirEmptyIff | Treinando_TEMPO_AFASTAMENTO.py:82-110 | with the anchor, [] exactly when the window has no number and unit, no period, and its stripped text is empty or over 60 characters |
| Tempo.FilterTempoEnts | Treinando_TEMPO_AFASTAMENTO.py:137-150 | the entity loop keeps TEMPO entities that look like a duration, replaces the others by the inferred span, ignores other labels, and raises on non-integer bounds |
| Tempo.TempoItem | Treinando_TEMPO_AFASTAMENTO.py:121-158 | a stored item never has an empty entity list |
| Tempo.TempoItemLabelled | Treinando_TEMPO_AFASTAMENTO.py:137-158 | every stored entity is a TEMPO_AFASTAMENTO list |
| Tempo.TempoItemInfers | Treinando_TEMPO_AFASTAMENTO.py:152-158 | when no entity survives, the item gets the inferred span, and is dropped when there is none |
| Tempo.CarregarItem | Treinando_TEMPO_AFASTAMENTO.py:121-158 | one iteration computes `TempoItem`: short items skipped, text, entities, repair, inference |
| Tempo.CarregarDados | Treinando_TEMPO_AFASTAMENTO.py:112-160 | the item loop computes `LoadAll` over `TempoItem` |
| TrainCid.CidTrainAtIff | Treinando_CID.py:38 | the compiled `CID[:\-]?\s*([A-Z][\d_.-]*)` under IGNORECASE matches exactly its language, with the code group where it is |
| TrainCid.CidAnnot | Treinando_CID.py:46-47 | `start + len(full) - len(code)` is where the code group starts, and the span ends with the match |
| TrainCid.AjustarAnotacoesCid | Treinando_CID.py:35-49 | the annotator computes `CidSpans(texto)`: its `entities` argument is never read |
| TrainCid.CidSpansExact | Treinando_CID.py:41-47 | every span is labelled CID and covers exactly a code group: one letter of either case and the code characters after it |
| TrainCid.CidSpansOrdered | Treinando_CID.py:41-49 | spans are non-empty, inside the text, ascending and non-overlapping |
| TrainCid.CidSpansEmptyIff | Treinando_CID.py:41-49 | no span exactly when the pattern matches nowhere |
| TrainCid.CidNeedsLetter | Treinando_CID.py:38 | "CID 10" yields no span |
| TrainCid.CidEntsProvenance | Treinando_CID.py:135-144 | every kept entity is a CID entity, from the item or from the annotator |
| TrainCid.CidEntsKeepsCodes | Treinando_CID.py:135-144 | when every CID entity's text starts with an ASCII capital and a digit (what `[A-Z]\d+` needs at the start), exactly the CID entities are kept, in order |
| TrainCid.AjustarEntidades | Treinando_CID.py:135-144 | the loop computes `CidEnts`: bad-looking CID entities are replaced by all annotator spans when there are any, else kept |
| TrainCid.CidItem | Treinando_CID.py:118-147 | a stored item never has an empty entity list |
| TrainCid.CidItemLabelled | Treinando_CID.py:118-147 | every stored entity is a CID entity |
| TrainCid.CarregarItem | Treinando_CID.py:118-147 | one iteration computes `CidItem` |
| TrainCid.CarregarDados | Treinando_CID.py:111-147 | the item loop computes `LoadAll` over `CidItem` |
| TrainData.AjustarAnotacoesData | Treinando_Data.py:47-52 | the annotator computes one DATA span per `finditer` match |
| TrainData.DataSpansExact | Treinando_Data.py:38-52 | every span is labelled DATA and covers a match of one of the four date alternatives |
| TrainData.DataSpansOrdered | Treinando_Data.py:47-52 | spans are non-empty, inside the text, ascending and non-overlapping |
| TrainData.DataSpansCover | Treinando_Data.py:47-52 | every position where a date starts lies inside some span |
| TrainData.DataSpansEmptyIff | Treinando_Data.py:47-52 | [] exactly when no date starts anywhere |
| TrainData.DataItemStores | Treinando_Data.py:108-116 | a stored item holds the spans recomputed from its text, and that text has a date |
| TrainData.DataItemIgnoresAnnotations | Treinando_Data.py:112-113 | the existing annotation of an item is never read |
| TrainData.CarregarDadosData | Treinando_Data.py:102-119 | the item loop computes `LoadAll` over `DataItem` |
| TrainData.Candidate | Treinando_Data.py:130-134 | an entity reaches alignment only with a listed label |
| TrainData.CandidatesSound | Treinando_Data.py:130-134 | every candidate has a listed label and is the first three elements of some entity |
| TrainData.CandidatesComplete | Treinando_Data.py:130-134 | every list entity of three or more elements with a listed label reaches alignment |
| TrainData.CandidateSkips | Treinando_Data.py:131-134 | entities shorter than 3, or with a label not listed, are skipped |
| TrainData.EntitiesField | Treinando_Data.py:130 | `anotacao["entities"]` raises KeyError on a dict without the key and TypeError on a non-dict |
| TrainData.FilterCandidates | Treinando_Data.py:130-137 | the entity loop computes `Candidates` |
| TrainData.CriarDocbin | Treinando_Data.py:122-137 | the outer loop skips non-string texts and hands each document's candidates to alignment |
| TrainData.LoadedSpansAreCandidates | Treinando_Data.py:102-137 | every span the loader stores reaches alignment for the label list ["DATA"] |
| TrainTipoDoc.DocAtIff | Treinando_TIPO_DOC.py:42-52 | the compiled `\b(?:...)\b` matches exactly the first phrase that matches between word boundaries |
| TrainTipoDoc.AjustarAnotacoesDocumento | Treinando_TIPO_DOC.py:93-98 | the annotator computes one TIPO_DOC span per `finditer` match |
| TrainTipoDoc.DocSpansExact | Treinando_TIPO_DOC.py:42-52 | every span is labelled TIPO_DOC and is a word-bounded match of the alternation |
| TrainTipoDoc.DocSpansOrdered | Treinando_TIPO_DOC.py:95-97 | spans are non-empty, inside the text, ascending and non-overlapping |
| TrainTipoDoc.DocSpansCover | Treinando_TIPO_DOC.py:95-97 | every position where the pattern matches lies inside some span |
| TrainTipoDoc.DocSpansEmptyIff | Treinando_TIPO_DOC.py:93-98 | [] exactly when the pattern matches nowhere |
| TrainTipoDoc.NoPhraseStartNoSpans | Treinando_TIPO_DOC.py:42-52 | a text with no word starting with r, d or a (any case) yields [] |
| TrainTipoDoc.LaudoMedicoNoSpans | Treinando_TIPO_DOC.py:42-52 | "LAUDO MÉDICO" yields []: there is no LAUDO alternative |
| TrainTipoDoc.BareRelatorioNoSpans | Treinando_TIPO_DOC.py:42-52 | a bare RELATÓRIO/RELATORIO yields []: RELATÓRIO needs MÉDICO |
| TrainTipoDoc.DocItemStores | Treinando_TIPO_DOC.py:108-116 | a stored item holds the spans recomputed from its text, and the pattern matches there |
| TrainTipoDoc.DocItemIgnoresAnnotations | Treinando_TIPO_DOC.py:112-113 | the existing annotation of an item is never read |
| TrainTipoDoc.CarregarDadosDocumento | Treinando_TIPO_DOC.py:102-119 | the item loop computes `LoadAll` over `DocItem` |
| TrainHorarios.FindHorEntities | Treinando_horarios.py:146-159 | the scanning loop with `break` computes `HorEntitiesOf` |
| TrainHorarios.DictWinsOverLists | Treinando_horarios.py:147-151 | the first dict with 'entities' wins and stops the scan, whatever lists precede it |
| TrainHorarios.LastListWins | Treinando_horarios.py:152-154 | without such a dict, the last list element is used |
| TrainHorarios.LastList | Treinando_horarios.py:152-154 | the index found is a list element with no list after it |
| TrainHorarios.ValidEntsSound | Treinando_horarios.py:161-170 | every kept entity is a hours-labelled triple, taken from a list entity or converted from a dict entity |
| TrainHorarios.ValidEntsComplete | Treinando_horarios.py:161-170 | every list or dict entity with an hours label is kept |
| TrainHorarios.ValidEntsKeepsTriples | Treinando_horarios.py:163-166 | labelled triples come out unchanged |
| TrainHorarios.FilterEntities | Treinando_horarios.py:161-170 | the loop computes `ValidEnts` |
| TrainHorarios.HorItem | Treinando_horarios.py:137-175 | non-lists and lists shorter than 2 are skipped; a stored item never has an empty entity list |
| TrainHorarios.HorItemLabelled | Treinando_horarios.py:161-173 | every stored entity is a hours-labelled triple |
| TrainHorarios.CarregarItem | Treinando_horarios.py:137-175 | one iteration computes `HorItem` |
| TrainHorarios.CarregarDadosHorarios | Treinando_horarios.py:135-178 | the item loop computes `LoadAll` over `HorItem`, keeping items in input order |
| TrainNome.SpanPassesIff | Treinando_NOME_PACIENTE.py:470-482 | a span passes exactly when it has no digit, no lower-cased term occurs in the lower-cased span, and it splits into at least two words |
| TrainNome.DigitRejects | Treinando_NOME_PACIENTE.py:472-474 | a span with a digit is rejected |
| TrainNome.TermRejects | Treinando_NOME_PACIENTE.py:476-478 | a span in which a listed term occurs, in any case, is rejected |
| TrainNome.IsValidSpanIgnoresCase | Treinando_NOME_PACIENTE.py:470-482 | the verdict does not depend on the case of the text |
| TrainNome.ClinicAccepted | Treinando_NOME_PACIENTE.py:476-477 | as written, the span "Clínica Sul" is accepted |
| TrainNome.ClinicRejectedIntended | Treinando_NOME_PACIENTE.py:476-477 | with the terms spelt as intended, any span in which "clínica" occurs is rejected |
| TrainNome.ClinicRejected | Treinando_NOME_PACIENTE.py:476-477 | with the terms spelt as intended, "Clínica Sul" is rejected |
| TrainNome.Avaliar | Treinando_NOME_PACIENTE.py:533-546 | the counting loops compute the true positives, false positives and false negatives over all documents |
| TrainNome.PositivesArePredictions | Treinando_NOME_PACIENTE.py:538-543 | tp + fp is the number of predicted triples |
| TrainNome.FalseNegativesZero | Treinando_NOME_PACIENTE.py:544-546 | fn counts gold triples absent from the predictions: at most the gold total, and 0 exactly when every gold triple was predicted |
| TrainNome.NomeItem | Treinando_NOME_PACIENTE.py:425-435 | an item is kept exactly when it is a list of two or more whose text is a string and annotation a dict; the entities are the dict's "entities" when it has them, [] otherwise |
| TrainNome.CarregarDados | Treinando_NOME_PACIENTE.py:420-438 | the item loop computes `LoadAll` over `NomeItem` and never raises |
| TrainNome.NomeLoadKeeps | Treinando_NOME_PACIENTE.py:425-435 | the kept items are, in input order, exactly those that pass the filter |

## Left out

- spaCy: model loading (`modelos`, app_OCR.py:111-121) and inference (`nlp_model(texto)`, `doc.ents`). Their output is the input sequence of `Fusion.ModelOutput`, and the `avaliar` predictions are an input too. So are the gold triples of `avaliar`: their construction from `annotations.get("entities", [])` (Treinando_NOME_PACIENTE.py:537), with its IndexError on a short entity and TypeError on a non-sequence one, is not modelled.
- spaCy helpers: `Doc.char_span` alignment, `DocBin`, `EntityRuler` patterns, `Example`, `nlp.update`, training, early stopping, `subprocess` calls, configs and `to_disk`. `criar_docbin` is modelled up to the `char_span` call.
- File I/O and JSON parsing: each loader is modelled on the already-parsed items. JSON floats are not modelled.
- The random and Faker-driven synthetic data generators, which are nondeterministic.
- The float precision, recall and F1 of `avaliar`; only the integer counts are modelled.
- `print`, `locale` and module-level training code. The commented-out earlier versions (Treinando_NOME_PACIENTE.py:1-405, app_OCR.py:131-182) are not part of this model.
- Python's `str()` of a non-string JSON value, used by `extrair_texto`, is the parameter `pyStr`.
- Unicode: character classes (`\d`, `\w`, `\s`, `\b`, `isupper`, `lower`) are exact for the Latin-1 range U+0000 to U+00FF. Characters above it are treated as uncased, and as neither word, space nor digit characters. Non-ASCII digits and letters that Python's Unicode-aware classes accept are therefore not matched.
- Python equality of `True` with `1` and of `1` with `1.0` in the `in` tests: JSON values compare structurally.
- Tempo.NumUnitAtSound: only soundness is proved for the number-and-unit pattern; that its hand-compiled matcher finds every match the engine reports is by construction, not proved.
- Tempo.LocalizarSpan, Tempo.CorrigirOuInferirTempo: an index position of Python's `str.find` is a code point; the model's indices are characters of `seq<char>`, and a Dafny `char` is a Unicode scalar value, so the two agree for every string without lone surrogates.

## Findings

| source | as written | input that shows it | evidently intended | confidence | as-written member | corrected member |
|---|---|---|---|---|---|---|
| Treinando_NOME_PACIENTE.py:476-477 | the terms "clínica" and "laboratório" are stored as `cl√≠nica` and `laborat√≥rio` (their UTF-8 bytes decoded as Mac Roman), which no span of normal text contains | `is_valid_span("Clínica Sul", 0, 11)` returns True | spans containing "clínica" or "laboratório" are rejected | not executed | TrainNome.ClinicAccepted | TrainNome.ClinicRejected |
