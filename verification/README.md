# JSON-to-spreadsheet placeholder pipeline, in Dafny

This project models the data path of a PDF-to-Excel extraction tool. A language model returns
nested JSON for a PDF. The tool flattens that JSON into `path -> scalar` entries. Each path key
gets a display name, from a mapping file, a wildcard, an automatic rule or an operator dialog.
The name is encoded as a `{{TOKEN}}` placeholder, with collisions kept apart. The placeholders
are then substituted into the cells of an Excel template. The extraction schema decides which
blocks are requested, and in how many partitions.

The repository holds two divergent copies of this pipeline:

- `processar.py`, the current version. It is modelled in the modules `Flattener`, `KeyMapper`,
  `Placeholder`, `Specificity`, `Suggestions`, `TemplateFill` and `Schema`.
- `testedeprocessar.py`, the older version. It is modelled in the `Legacy*` modules:
  `LegacyFlattener`, `LegacyKeyMapper`, `LegacySuggestions`, `LegacyFill` and `LegacyMerge`.

Several modules are shared by both versions:

- `Wrappers` holds the `Option` type.
- `Json` holds JSON values and Python's `str()` of a scalar.
- `Text` holds the string operations. Whitespace is Python's full `isspace()` set; case mapping
  and digits cover ASCII only.
- `Assoc` models Python dicts as ordered association lists. `Put` is `d[k] = v` and `Update` is
  `d.update(e)`; an existing key keeps its position.
- `Wildcard` is a hand-written matcher for the anchored wildcard regular expressions.
- `Collision` holds the `_DUPLICADO_<n>` counter.
- `Template` is the `{{name}}` token scanner, parameterised by the name charset.
- `Sheet` holds the sheet loop of both fillers.

Code that works by changing state is modelled as methods with loops. Each method is proved equal
to a specification function, and the lemmas state what the source promises about that function.
Examples are the key normaliser, the encoder's `while "__"` loop, the collision counter, the
right-to-left splice, the sheet loop over an `array2`, the schema validation loop and the
partition merge loop. The extraction schema and its partitions are module-level globals of
`processar.py`. They are fields of the class `Schema.SchemaStore`.

Inputs the code reads from outside become parameters:

- the operator's dialog answers, the mapping file's state and whether a save succeeds, as
  `KeyMapper.Prompt` values;
- the flag that enables `N/A` for missing placeholders, as `na`;
- the model's reply for each partition, whether a window is open, and the operator's
  "continue?" answer, as fields of `LegacyMerge.Env`.

## Behaviour worth noting

- The fallback key for a name that encodes to nothing is `CHAVE_INVALIDA_GERADA_<n>`, with `n`
  the number of entries stored so far (processar.py:1053-1054). The repository's
  `processar copy.py` uses `CHAVE_INVALIDA_<n>` instead (line 994). The older version has no
  fallback and stores the empty token.
- `formatar_nome_sugerido` replaces `Src` by `SCR` (processar.py:1085). The older `nome_legivel`
  gives `SRC` (testedeprocessar.py:838).
- The partition merge with an operator choice per failed partition exists only in
  `testedeprocessar.py` (lines 884-915). No warning is given when two partitions return the
  same key: `dict.update` silently keeps the later value in the earlier position (line 901).
- A truthy reply that is not a JSON object reaches `dict.update` at testedeprocessar.py:901,
  which raises; nothing inside the loop catches it.
- When a cell holds several tokens, a token that is neither in the document nor filled with
  `N/A` is kept as it is and not counted (processar.py:610-619).

## Model

| member | source | states |
|---|---|---|
| Assoc.GetUpdate | processar.py:873 | after `d.update(e)` a key has `e`'s value when `e` has the key, and keeps `d`'s value otherwise |
| Assoc.UpdateKeys | processar.py:873 | after `d.update(e)` the keys are exactly `d`'s keys in place, followed by `e`'s keys that `d` lacks, in `e`'s order, each once |
| Text.TrimLeft | processar.py:1051 | `lstrip`: the result is a suffix, starts with a kept character, and only droppable characters were removed |
| Text.TrimRight | processar.py:1051 | `rstrip`: the result is a prefix, ends with a kept character, and only droppable characters were removed |
| Flattener.FlattenKeysUnder | processar.py:866-889 | the flattened result has distinct non-empty keys, and below a non-empty path every key extends that path after a `_` |
| Flattener.FlattenItemsAppend | processar.py:883-885 | list items never overwrite each other: item `n`'s entries are appended after those of the items before it |
| Flattener.FlattenItemsBefore | processar.py:883-885 | no key built from the first `m` items lies under the path of a later item |
| Flattener.ItemsApart | processar.py:884 | the paths `prefix_<a+1>` and `prefix_<b+1>` of two different items never share a key |
| Flattener.FlatObjectUnchanged | processar.py:869-873 | a root object of scalar fields with distinct non-empty keys flattens to the same entries in the same order |
| Flattener.OneFieldObject | processar.py:872 | a one-field object below path `p` flattens to the single key `p_key` |
| Flattener.TwoFieldObject | processar.py:869-873 | two scalar fields below path `p` flatten to `p_k1` and `p_k2`, in order |
| Flattener.ScalarThenObjectList | processar.py:877-885 | a list holding any container numbers its items from 1: a scalar at `p_1`, an object's field at `p_2_key` |
| Flattener.TwoEntryRootFresh | processar.py:870-873 | when the two entries' keys are disjoint, the result is the first entries followed by the second |
| Flattener.NestedShape | test_processar.py:101-113 | an object of two scalars plus a list of a scalar and a one-field object flattens to four path keys in document order |
| Flattener.FlattenNestedExample | test_processar.py:101-113 | the unit test's document flattens to `key1_subkey1`, `key1_subkey2`, `key2_1`, `key2_2_subitem1` |
| Flattener.FlattenScalarListExample | processar.py:877-879 | a list of scalars becomes one entry, the items' `str()` joined with `", "` |
| Flattener.FlattenRootListExample | processar.py:883-885 | a root list of containers still numbers its items, as `_1_a` and `_2` |
| Flattener.FlattenCollisionExample | processar.py:872-873 | two paths that join to the same key collide, and the later value overwrites the earlier one in place |
| LegacyFlattener.FlattenKeysUnder | testedeprocessar.py:681-699 | the older flattener also gives distinct non-empty keys, each under its path |
| LegacyFlattener.FlattenItemsAppend | testedeprocessar.py:692-694 | items numbered from 0 never overwrite each other; each item's entries are appended in order |
| LegacyFlattener.FlattenItemsBefore | testedeprocessar.py:692-694 | no key built from the first `m` items lies under the path of a later item |
| LegacyFlattener.AgreesWithoutLists | testedeprocessar.py:681-699 | on values with no list, the two flatteners give the same dict |
| LegacyFlattener.EmptyListKept | testedeprocessar.py:688-689 | an empty list is stored as the text `"[]"` at its path, where the current version adds nothing |
| LegacyFlattener.ItemNumberingExample | testedeprocessar.py:693 | the same one-item list of objects is numbered `_0` here and `_1` in the current version |
| Placeholder.SubRuns | processar.py:1049 | the result of `re.sub(r'[^A-Z0-9_]+', '_', s)` holds only `A-Z`, `0-9` and `_` |
| Placeholder.EncodeName | processar.py:1048-1051 | the encoding steps, with the `while "__"` loop, give the token of `Placeholder.Encode` |
| Placeholder.ReplaceKeepsCollapse | processar.py:1050 | one `replace("__", "_")` pass does not change what collapsing the underscores gives |
| Placeholder.ContainsDouble | processar.py:1050 | the loop test `"__" in s` holds exactly when two underscores are adjacent |
| Placeholder.ReplaceShrinks | processar.py:1050 | a pass never lengthens the text and shortens it while `__` is present, so the loop ends |
| Placeholder.EncodeCanonical | processar.py:1048-1051 | every token holds only `A-Z`, `0-9`, `_`, has no `__` and no `_` at either end |
| Placeholder.EncodeFixes | processar.py:1048-1051 | a canonical token encodes to itself |
| Placeholder.EncodeIdempotent | processar.py:1048-1051 | encoding a token again returns it unchanged |
| Placeholder.InvalidKey | processar.py:1053-1054 | the fallback `CHAVE_INVALIDA_GERADA_<n>` is a non-empty canonical token |
| Placeholder.DupCanonical | processar.py:1064 | a `_DUPLICADO_<n>` key built on a canonical token is canonical too |
| Collision.FirstFree | processar.py:1063-1066 | the suffix chosen is at least 1, free, and every smaller suffix is taken |
| Collision.FindFree | processar.py:1063-1066 | the counting loop returns the first free suffix |
| Collision.TakenBound | processar.py:1065-1066 | when the first `n` candidates are taken there are at least `n` keys, so the counter loop ends |
| Collision.SecondCopy | processar.py:1063-1064 | the second copy of a token is stored as `<token>_DUPLICADO_1` |
| Collision.FirstFreeUnique | processar.py:1063-1066 | only one suffix is free with every smaller suffix taken |
| Wildcard.MatchSound | processar.py:1001 | a match gives one digit run per `*`, and putting them back into the pattern rebuilds the key |
| Wildcard.MatchComplete | processar.py:1001 | every reading of the key as the pattern with digit runs for the stars is found |
| Wildcard.FirstCaptureLongest | processar.py:1015-1020 | for any pattern with a star, literal text before it included, `match.group(1)` is the longest digit run with which the rest of the key still matches |
| Wildcard.MatchExample | processar.py:1001 | `item_*_valor` captures `3` from `item_3_valor` |
| Wildcard.ReplaceOneStar | processar.py:1020 | in a name with one `*`, `replace("*", digits)` puts the digits in its place |
| Wildcard.ReplaceAbsent | processar.py:1019-1021 | a name without `*` is unchanged by the replacement, so both branches agree |
| Specificity.SortedBySpecificity | processar.py:996-999 | the wildcards are tried highest (underscores, length) first, and the order is a permutation of the keys |
| Specificity.SortIsStable | processar.py:996-999 | keys of equal rank keep their mapping order |
| Specificity.InsertPermutes | processar.py:996-999 | one insertion step adds exactly the inserted key |
| Specificity.InsertSorted | processar.py:996-999 | one insertion step keeps the keys sorted by rank |
| KeyMapper.Save | processar.py:955-975 | the decision keeps the name and the automatic flag and never skips; it counts as saved exactly when the name is non-empty and the file held it or the save succeeded; memory learns the name exactly when it is non-empty, the file did not already hold it and the save succeeded |
| KeyMapper.AskOutcomes | processar.py:917-976 | cancel keeps the key; skip-all saves nothing; option 3 uses the derived name; other names are typed, stripped and non-empty; a typed or derived name is written into memory exactly when the file did not already hold it and the save succeeded |
| KeyMapper.AskCases | processar.py:925-953 | the dialog's outcome has one of four shapes: keep the key, skip all, derived automatic name, typed name |
| KeyMapper.StarKeys | processar.py:997 | a key is a wildcard key exactly when it is a mapping key holding `*` |
| KeyMapper.FirstMatchFrom | processar.py:1014-1016 | the index found is the first wildcard at or after `i` that matches the key, and none before it matches |
| KeyMapper.Resolve | processar.py:1006-1045 | choosing a display name never touches the output |
| KeyMapper.Unresolved | processar.py:1026-1042 | the automatic name or the dialog never touches the output |
| KeyMapper.AfterDialog | processar.py:1037-1042 | a dialog leaves the output alone and counts one more dialog |
| KeyMapper.ResolveFacts | processar.py:1009-1045 | skipping uses the raw key and changes nothing; a mapped key uses its mapped name; an unmapped key that a wildcard matches uses the wildcard's name and changes nothing; an unresolved key takes, in automatic mode, the derived name, which the mapping appends, and otherwise the dialog's name, flags and remembered entry; the mapping at most appends this key; the flags never switch off; a dialog opens only for an unresolved key |
| KeyMapper.PlacedKey | processar.py:1048-1067 | the key a name is stored under is non-empty, canonical and not yet in the output |
| KeyMapper.PlacedKeyCases | processar.py:1048-1067 | a name is stored under its encoding when free, else under the encoding's first free `_DUPLICADO_<n>`; a name that encodes to nothing is stored under `CHAVE_INVALIDA_GERADA_<n>` with `n` the number of stored entries, or that key's first free `_DUPLICADO_<n>` |
| KeyMapper.Normalize | processar.py:978-1070 | the loop over the flattened entries returns the output, the mapping and the skip flag of `KeyMapper.NormalizeSpec` |
| KeyMapper.FindWildcard | processar.py:1014-1024 | the loop gives the name of the first matching wildcard in specificity order, or the empty name |
| KeyMapper.Choose | processar.py:1007-1045 | the name and session of `KeyMapper.Resolve` |
| KeyMapper.PlaceEntry | processar.py:1048-1067 | storing one value appends it under the key of `KeyMapper.PlacedKey` |
| KeyMapper.PlaceAppends | processar.py:1060-1067 | placing a value appends exactly one entry with that value under a fresh token |
| KeyMapper.PlaceKeepsValid | processar.py:1048-1067 | placing keeps the output a dict of non-empty canonical tokens |
| KeyMapper.StepOut | processar.py:1006-1067 | one entry appends its value to the output and keeps it valid |
| KeyMapper.RunOut | processar.py:1006-1068 | over a run of entries the output stays valid and only grows at its end |
| KeyMapper.RunValues | processar.py:1006-1068 | over a run of entries every value is kept, in order, one output entry per input entry |
| KeyMapper.RunState | processar.py:1006-1068 | the mapping only grows at its end, the flags never switch off, and at most one dialog opens per entry |
| KeyMapper.NormalizeKeeps | processar.py:978-1070 | every value is kept in order under a distinct canonical token, the output has as many entries as the input, the mapping extends the caller's, and skipping stays on |
| KeyMapper.SkipUsesRawKeys | processar.py:1009-1010 | while skipping, each raw key is encoded as it is, no dialog opens and the mapping is untouched |
| KeyMapper.MostSpecificWildcard | processar.py:996-1024 | no other matching wildcard has more underscores, or as many and more characters, than the one used |
| KeyMapper.WildcardNameUsed | processar.py:1014-1021 | an unmapped key matched by the only wildcard is stored under that wildcard's name with `*` replaced by the first capture |
| KeyMapper.WildcardExample | processar.py:1001-1020 | `item_3_valor` is stored under `ITEM_3_VALOR` given the wildcard `item_*_valor` |
| KeyMapper.StepMapped | processar.py:1011-1012 | a mapped key is stored under its mapped name, and nothing else changes |
| KeyMapper.PlaceToken | processar.py:1060-1061 | a name that is already a free token is stored under itself |
| KeyMapper.PlaceTaken | processar.py:1062-1067 | a name whose token is taken is stored under the first free `_DUPLICADO_<n>` |
| LegacyKeyMapper.SubstitutionsShape | testedeprocessar.py:819 | every fixed replacement pattern is one character outside the token set |
| LegacyKeyMapper.KeepTokenChars | testedeprocessar.py:822 | the result holds only `A-Z`, `0-9`, `_`, is no longer than the input, and a text of those characters is kept as it is |
| LegacyKeyMapper.Encode | testedeprocessar.py:818-822 | the older token holds only `A-Z`, `0-9` and `_` |
| LegacyKeyMapper.EncodeName | testedeprocessar.py:818-822 | the replacement loop and the `__` loop give the token of `LegacyKeyMapper.Encode` |
| LegacyKeyMapper.EncodeFixes | testedeprocessar.py:818-822 | a token over `A-Z`, `0-9`, `_` without `__` encodes to itself |
| LegacyKeyMapper.DoubleUnderscoreExample | testedeprocessar.py:818-822 | `_#_` encodes to `__` here and to the empty token in the current version, so deletion can bring `__` back |
| LegacyKeyMapper.EmptyNameExample | testedeprocessar.py:818-824 | the empty name gives the empty token, which is stored as it is |
| LegacyKeyMapper.Save | testedeprocessar.py:749-759 | the answer keeps the name and the automatic flag and never skips; it counts as saved exactly when the name is non-empty and the file held it or the save succeeded |
| LegacyKeyMapper.AskCases | testedeprocessar.py:718-748 | the older dialog's outcome has one of four shapes |
| LegacyKeyMapper.AskOutcomes | testedeprocessar.py:718-760 | cancel keeps the key; skip-all saves nothing; option 3 or an empty option uses the derived name; a name is saved only when non-empty and on file or saved |
| LegacyKeyMapper.EmptyOptionDiffers | testedeprocessar.py:738 | an empty option starts automatic mode here, while the current dialog keeps the key |
| LegacyKeyMapper.AfterAnswer | testedeprocessar.py:811-816 | the caller's bookkeeping leaves the output alone and counts one more dialog |
| LegacyKeyMapper.Unresolved | testedeprocessar.py:807-816 | the dialog for an unresolved key never touches the output |
| LegacyKeyMapper.Resolve | testedeprocessar.py:777-817 | choosing a display name in the older order never touches the output |
| LegacyKeyMapper.ResolveFacts | testedeprocessar.py:779-817 | a mapped key keeps its name even while skipping, except in automatic mode; outside automatic mode an unmapped key that a wildcard matches takes the wildcard's name, even while skipping, and changes nothing; in automatic mode a key the mapping lacks takes the derived name, which the mapping appends; otherwise an unresolved key keeps its raw name while skipping, or takes the dialog's name, flags and mirrored entry; the mapping at most appends this key; the flags stay on; at most one dialog opens |
| LegacyKeyMapper.PlacedKey | testedeprocessar.py:823-828 | the key holds only `A-Z`, `0-9`, `_` and is not yet in the output |
| LegacyKeyMapper.PlacedKeyCases | testedeprocessar.py:818-828 | a name is stored under its encoding when free, even when empty, else under the encoding's first free `_DUPLICADO_<n>` |
| LegacyKeyMapper.Normalize | testedeprocessar.py:762-830 | the loop returns the output, the mapping and the skip flag of `LegacyKeyMapper.NormalizeSpec` |
| LegacyKeyMapper.Choose | testedeprocessar.py:777-817 | the name and session of `LegacyKeyMapper.Resolve` |
| LegacyKeyMapper.PlaceEntry | testedeprocessar.py:818-828 | storing one value appends it under the key of `LegacyKeyMapper.PlacedKey` |
| LegacyKeyMapper.StepOut | testedeprocessar.py:777-829 | one entry appends its value under a fresh token-character key |
| LegacyKeyMapper.RunOut | testedeprocessar.py:777-829 | over a run, every value is kept in order under distinct token-character keys |
| LegacyKeyMapper.RunState | testedeprocessar.py:777-829 | over a run, the mapping only grows at its end and the flags stay on |
| LegacyKeyMapper.NormalizeKeeps | testedeprocessar.py:762-830 | every value is kept in order under distinct keys over `A-Z`, `0-9`, `_`; the mapping extends the caller's; skipping stays on |
| LegacyKeyMapper.UnsavedNameMirrored | testedeprocessar.py:813-815 | a typed name that differs from the key enters the mapping even when the save fails |
| LegacyKeyMapper.MappedKeyWhileSkipping | testedeprocessar.py:779-780 | while skipping, a mapped key keeps its mapped name here, where the current version uses the raw key |
| Suggestions.SplitIndexedSpec | processar.py:1088-1094 | the regex splits at the leftmost `_<digits>` followed by the end or `_`, and fails only when no such split exists |
| Suggestions.PatternNotKey | processar.py:1096 | a key's wildcard is never the key itself |
| Suggestions.FormatNoUnderscore | processar.py:1083-1086 | a suggested name holds no underscore |
| Suggestions.Label | processar.py:1103-1109 | a wildcard's name ends with ` (Item *)` |
| Suggestions.WithPattern | processar.py:1091-1099 | the keys listed for a wildcard are input keys that have that wildcard, and there are no more of them than input keys |
| Suggestions.GroupsSpec | processar.py:1091-1099 | each wildcard's list holds exactly the keys with that wildcard, in key order |
| Suggestions.GroupsDict | processar.py:1097-1098 | no wildcard is listed twice |
| Suggestions.CollectGroups | processar.py:1091-1099 | the grouping loop gives `Suggestions.Groups` |
| Suggestions.ProposalsSpec | processar.py:1101-1110 | exactly the wildcards with two or more keys are proposed, each named after its first key with ` (Item *)` |
| Suggestions.ProposeAll | processar.py:1101-1110 | the proposal loop gives `Suggestions.Proposals` |
| Suggestions.AddUncoveredSpec | processar.py:1112-1120 | the coverage loop keeps the proposals as a prefix, appends only input keys with their names, and leaves every key suggested or matched by a wildcard |
| Suggestions.IsCovered | processar.py:1114-1118 | the inner loop reports whether some suggested wildcard fully matches the key |
| Suggestions.AddUncoveredKeys | processar.py:1112-1120 | the coverage loop gives `Suggestions.AddUncovered` |
| Suggestions.SuggestMapping | processar.py:1072-1129 | the method returns `Suggestions.Suggest`, which is empty for an empty document |
| Suggestions.WildcardsProposed | processar.py:1088-1110 | the wildcards proposed are exactly those two or more keys share, each named `... (Item *)` |
| Suggestions.SuggestShape | processar.py:1072-1129 | proposed wildcards come first; then only input keys with their formatted names; no key twice; every input key is suggested or matched |
| Suggestions.LoneIndexedKey | processar.py:1101-1102 | a key whose wildcard no other key shares gets only its own name |
| LegacySuggestions.Pattern | testedeprocessar.py:843 | the older wildcard always holds a `*` |
| LegacySuggestions.StripKeepsStar | testedeprocessar.py:843 | stripping `_` from both ends never removes a `*` |
| LegacySuggestions.Label | testedeprocessar.py:844 | the older wildcard name ends with ` (Item *)` |
| LegacySuggestions.ProposalsGet | testedeprocessar.py:839-845 | a wildcard is proposed exactly when some key has it, named after the first such key |
| LegacySuggestions.ProposalsSpec | testedeprocessar.py:839-845 | every proposal is the wildcard of some key, named `... (Item *)` |
| LegacySuggestions.ProposeAll | testedeprocessar.py:839-845 | the first loop gives `LegacySuggestions.Proposals` |
| LegacySuggestions.SuggestMapping | testedeprocessar.py:832-855 | the method returns `LegacySuggestions.Suggest`, empty for an empty document |
| LegacySuggestions.SuggestShape | testedeprocessar.py:832-855 | one wildcard for each wildcard some key has, first; then only input keys with legible names; no key twice; every key suggested or matched |
| LegacySuggestions.LoneIndexedKey | testedeprocessar.py:839-845 | a lone indexed key gets a wildcard here and none from the current version |
| Template.NameRun | processar.py:581 | the run of name characters at `i` is maximal |
| Template.TokenEnd | processar.py:581 | a token found at `i` lies inside the text and is `{{name}}` with a non-empty name of allowed characters |
| Template.TokenEndComplete | processar.py:581 | every token starting at `i` is the one found, since a name cannot contain `}` |
| Template.ScanFromSpec | processar.py:596 | the scan finds tokens, in order, without overlap, and no token starts where no found token covers |
| Template.ScanSpec | testedeprocessar.py:467 | over the whole text the scan finds tokens in order and leaves none out |
| Template.WholeToken | processar.py:600 | the cell is exactly one match exactly when the whole text is a token |
| Template.NoBraces | processar.py:596-598 | a text without `{{` has no token |
| Template.RebuildKeeps | processar.py:623 | with nothing to replace, the rebuild is the text itself |
| TemplateFill.Wrap | processar.py:1137 | each key `k` becomes `{{k}}`, values and order kept |
| TemplateFill.WrapGet | processar.py:1137 | looking up `{{k}}` in the wrapped document finds what `k` holds |
| TemplateFill.WrapDict | processar.py:1137 | wrapping keeps keys distinct |
| TemplateFill.PlaceholderDocSpec | processar.py:1131-1137 | no document for an empty one; otherwise the wrapped document |
| TemplateFill.Replacements | processar.py:611-622 | there is one replacement per span found, each decided by that span's token text alone |
| TemplateFill.Splice | processar.py:611-623 | the right-to-left splice builds the left-to-right rebuild of the original spans and counts one per token replaced |
| TemplateFill.SubstituteCell | processar.py:592-623 | the loop body gives the cell and count of `TemplateFill.FillCell` |
| TemplateFill.FillWhole | processar.py:600-609 | a one-token cell takes the value itself, type kept, or `N/A` (count 1), or is left as it is (count 0) |
| TemplateFill.FillUntouched | processar.py:592-598 | non-string cells, empty cells and cells without `{{` are left as they are, with count 0 |
| TemplateFill.FillCount | processar.py:610-623 | a mixed cell's count is the number of tokens replaced, every token with `N/A` on, and a zero count leaves the cell as it is |
| TemplateFill.WrappedWholeCell | processar.py:1137 | a normalised key alone in a cell as `{{key}}` brings back its value |
| LegacyFill.Names | testedeprocessar.py:467 | `re.findall` gives one name per token found |
| LegacyFill.NameBraced | testedeprocessar.py:474-476 | each token's text is the braced name `findall` returns |
| LegacyFill.SubstituteCell | testedeprocessar.py:459-511 | the loop body gives the cell and count of `LegacyFill.FillCell` |
| LegacyFill.ReplaceLoop | testedeprocessar.py:479-507 | the loop over the names gives the text and count of `LegacyFill.ReplaceNames` |
| LegacyFill.FillWhole | testedeprocessar.py:472-504 | a one-token cell takes the value itself or `N/A` (count 1), or is left as it is (count 0) |
| LegacyFill.CountNames | testedeprocessar.py:479-507 | each name found counts at most once, and exactly once with `N/A` on, repeats included |
| LegacyFill.NothingFound | testedeprocessar.py:479-507 | with `N/A` off and no name in the document, the text is kept and nothing counted |
| LegacyFill.ZeroCountKeepsText | testedeprocessar.py:509-511 | a loop that counts nothing leaves the working text as it was |
| LegacyFill.NoCountNoChange | testedeprocessar.py:459-511 | a cell counted as not substituted is left as it was |
| LegacyFill.ResubstitutesInserted | testedeprocessar.py:496 | text inserted for one name is replaced again for a later name: `{{A}}{{B}}` becomes `bb` |
| LegacyFill.WrappedWholeCell | testedeprocessar.py:860 | a key of the wrapped document alone in a cell as `{{key}}` brings back its value |
| LegacyFill.SpacedName | testedeprocessar.py:467 | `{{A B}}` is filled by the older version and left as it is by the current one |
| LegacyFill.NoCurrentToken | processar.py:581 | `{{A B}}` holds no token for the current charset |
| Sheet.NoCountNoChange | processar.py:592-623 | in both versions, a cell counted as not substituted is left as it was |
| Sheet.ZeroRow | processar.py:625 | a row that counts nothing is left as it was |
| Sheet.ZeroGrid | processar.py:625-627 | a sheet that counts nothing is left as it was |
| Sheet.SubstituteCell | testedeprocessar.py:459-511 | the version's loop body gives the version's cell substitution |
| Sheet.FillAt | processar.py:591-623 | one cell becomes its substitution, its count is returned, and no other cell changes |
| Sheet.FillRow | processar.py:591-623 | each cell of row `i` becomes its substitution, the row's count is returned, and other rows are unchanged |
| Sheet.FillRows | processar.py:583-623 | every cell becomes its substitution and the total is the sheet's count |
| Sheet.FillSheet | processar.py:549-627 | an empty document leaves the sheet and counts 0; otherwise every cell is substituted and the total is the sheet's count; a zero total means the sheet is unchanged |
| Schema.ValidatedGet | processar.py:204-257 | with distinct block names, a block is kept exactly when valid, and kept unchanged |
| Schema.ValidatedValid | processar.py:204-257 | every kept block is valid and named in the schema |
| Schema.ValidatedDict | processar.py:255 | the kept blocks have distinct names |
| Schema.OptionalKeysIgnored | processar.py:226-252 | keys other than `json_chave` and `particao` never decide whether a block is kept |
| Schema.AllValidIff | processar.py:202-257 | `schema_geral_valido` ends true exactly when every block is valid |
| Schema.ValidateBlocks | processar.py:201-257 | the loop gives the kept blocks and whether every block was kept |
| Schema.MaxPart | processar.py:302-307 | the result bounds every block's positive `particao` |
| Schema.MaxPartWitness | processar.py:302-307 | a positive maximum is some block's `particao` |
| Schema.GroupSpec | processar.py:323-328 | a name is in group `p` exactly when its block's `particao` is `p` |
| Schema.CollectSpec | processar.py:320-334 | the groups kept are exactly the non-empty ones for 1 to the maximum, each once, in increasing order |
| Schema.PartitionsSpec | processar.py:294-343 | a non-empty configuration yields groups, so the failure branch cannot be taken; groups are non-empty; no positive `particao` gives one group; every block with one is grouped |
| Schema.ValidatedGrouped | processar.py:323-328 | in a validated configuration every block is grouped |
| Schema.LargestPart | processar.py:302-307 | the loop returns `Schema.MaxPart` |
| Schema.GroupNames | processar.py:320-328 | the loop builds one list per `particao` from 1 to the maximum, list `q` holding the names with `particao` `q + 1` |
| Schema.DropEmpty | processar.py:334 | dropping the empty lists gives the non-empty groups in increasing order of `particao` |
| Schema.SchemaStore.constructor | processar.py:184 | the configuration and the partitions start empty |
| Schema.SchemaStore.Load | processar.py:186-275 | a non-dict root fails and keeps the old configuration; otherwise the valid blocks are kept, and the load fails only when a non-empty schema has none |
| Schema.SchemaStore.GeneratePartitions | processar.py:294-343 | it always succeeds and sets the partitions of `Schema.Partitions` |
| LegacyMerge.PartialGet | testedeprocessar.py:885 | unknown names are dropped; known ones keep their configured block |
| LegacyMerge.PartialEmpty | testedeprocessar.py:885-888 | a partition is skipped exactly when none of its names is configured |
| LegacyMerge.KindOf | testedeprocessar.py:885-909 | a merged reply is a non-empty object |
| LegacyMerge.KindSpec | testedeprocessar.py:885-909 | a partition with a configured block is merged exactly when its reply is a non-empty object, fails exactly when its reply is missing or falsy, and raises exactly when its reply is truthy but not an object; it is skipped exactly when none of its names is configured |
| LegacyMerge.MergePartitions | testedeprocessar.py:884-915 | the loop and the two checks after it give `LegacyMerge.Merge` |
| LegacyMerge.StoppedIff | testedeprocessar.py:901-909 | the run ends in the loop exactly when some partition raises, or fails and the run may not go on |
| LegacyMerge.StoppedStays | testedeprocessar.py:901-909 | a run that has ended stays as it was |
| LegacyMerge.RaisedIff | testedeprocessar.py:897-909 | the run raises exactly when the first partition that ends it is one whose merge raises |
| LegacyMerge.RaisedStops | testedeprocessar.py:901 | a run that raised has ended |
| LegacyMerge.OkIff | testedeprocessar.py:904 | `sucesso_geral_api` says that no partition so far has failed |
| LegacyMerge.MergeGet | testedeprocessar.py:901 | last write wins: each key holds the value of the last merged reply that has it |
| LegacyMerge.CombinedEmptyIff | testedeprocessar.py:901 | the combined result is empty exactly when no reply has been merged |
| LegacyMerge.MergeSpec | testedeprocessar.py:884-915 | the run raises exactly when the first partition ending it raises; it goes on exactly when nothing ends it and some reply is merged, and then each key holds its last merged value |

## Left out

- Unicode case mapping and digits: `upper()` and `title()` are modelled on ASCII letters and `\d` as ASCII digits. Whitespace for `strip()` is Python's full `isspace()` set.
- Regex `$` also matches before a trailing newline, and `.` does not match a newline. Keys are taken to hold no line break, so neither case arises.
- Float formatting: a float carries the text `str()` gives for it, and that text is not computed.
- `str()` of a mapping value that is not a string: mapping values are modelled as strings.
- File I/O: reading and writing the mapping, schema and data files and the workbooks. A save's outcome is an input of `KeyMapper.Prompt`. The automatic mode's save at processar.py:1030-1034 changes nothing the code reads back, so it is not modelled.
- The GUI, progress bar, `log_to_gui`, message boxes and the log-only checks, such as the long-text sentinel at processar.py:1057 and the optional-key warnings of the schema. They have no effect on the data.
- The model call, its prompt and its retry with backoff. The decoded reply for each partition, or its absence, is an input of `LegacyMerge.Env`.
- LegacyMerge.KindOf: a truthy reply that is not an object is taken to make `dict.update` raise. That holds for every scalar and for most lists, but a list whose items are all two-item lists with a hashable first item is merged by Python as key/value pairs. The model does not merge such a list.
- PDF text extraction.
- openpyxl's sheet selection and active-sheet fallback. The model fills one given sheet, a two-dimensional array of scalars.
- The interactive dialog's mechanics. Its answers and the mapping file's state are inputs.
- The rest of `processar_pdf_e_gerar_saidas` after the merge, and the current version's driver. Each step it calls is modelled on its own.
- JSON objects with duplicate keys: `json.load` keeps the last value and `Assoc.Get` finds the first. The schema's and the replies' entries are taken to have distinct keys, which is what `json.load` produces.
- Dead branches: the `re.error` handler at processar.py:1003, the `IndexError` handler at processar.py:1022, the `TypeError` handler at processar.py:880-881, and the older version's `except` at testedeprocessar.py:792-794. A wildcard key always compiles, always has a first group, and `str()` of a scalar never raises.
- The sort of the suggestions at processar.py:1122 and testedeprocessar.py:850 only orders log lines, and the returned dict keeps insertion order.
