# Requirements-export migration, modelled in Dafny

This project models the two scripts that move an exported requirements project
into a new requirements tool.

`Transformation_Script.py` rewrites each exported *module* document:
- it drops, skips and renames module keys;
- it recodes the module type and status, and adds the target `space_id`;
- it rewrites every *artifact* of the module's tree (`transform_artifact`):
  - renames and recodes keys;
  - cleans the rich text with `clean_primary_html` and merges it with the old description;
  - rewrites link edges (`transform_linked_artifact`) and children;
  - appends one *attachment record* per saved resource file.

`count_artifacts` counts the work items of the tree.
`tx.py` is the older pass: it cleans the rich-text fields of a loaded document in place with `clean_html`.

The model works on JSON values (`JsonValues.Json`). A Python `dict` is a `map<string, Json>`.

## How the pieces fit

**Cleaners.** Each `re.sub` is a *matcher*: a function saying what the pattern matches at the start of a string, and what replaces it.
- `HtmlPatterns` holds one matcher per pattern.
- `Rewrite.Sub` scans the string from the left as `re.sub` does.
- `PrimaryCleaner.CleanPrimaryHtml` and `LegacyCleaner.CleanHtml` chain the substitutions in the source's order.
- `CleanerStages` holds the stretches the two cleaners share.

**Key loops.** The key loops (`for key, value in d.items(): new[...] = ...`) share one description, `Rekey`:
- each input key yields the entries a *rule* gives for it;
- `RekeyedBy` states what the loop builds for every order of iteration.

Python's insertion order is not modelled. So where two input keys write the same output key, the contracts say the output holds one of the two values.

**Imperative parts.** The loops of the source are methods with loop invariants, proved against these descriptions:
- `TransformJson`, `TransformArtifact`, `TransformLinkedArtifact` and their helpers;
- `CollectAttachments` and `AppendRecords`;
- `CountArtifacts`.

The in-place update of `tx.py` is the class `JsonDocument`, whose method `CleanRichTextFields` changes its `data` field.

**Exceptions.** Where the source raises, the model says so.
- `transform_json` has no handler, so what it needs of its input is a precondition: `ModuleReadable`, `ArtifactReadable`, `LinkReadable`.
- `process_json_file` catches every exception, so `CleanRichTextFields` reports success as a result equal to `Cleanable` of the old document.

**Paths.** The source's paths are Windows paths (`D:/...`), so `os.path` is `ntpath`:
- `basename` drops a drive and cuts after the last `\` or `/`;
- `splitext` cuts at the last dot of the final component, unless only dots precede it there.

**Behaviours the proofs bring out.**
- In `clean_primary_html`, lines 48-49 substitute a pattern only when a search for the same pattern failed. The substitution therefore never changes the text (`PrimaryCleaner.EnsureClosedParagraph`).
- `clean_html` (tx.py line 24) replaces both `<html:` and `</html:` by `<`, so a namespaced closing tag becomes an opening tag (`LegacyCleaner.ClosingTagOpens`). The newer cleaner keeps it a closing tag (`PrimaryCleaner.ClosingTagStaysClosing`).
- The older cleaner deletes newlines where the newer one turns them into spaces (`LegacyCleaner.NewlineHandlingDiffers`). Only the newer one adds the `<div>` wrapper (`LegacyCleaner.OnlyPrimaryWraps`).
- A link holding both `identifier` and `legacyID` keeps whichever comes later in its key order (`LinkTransform.LegacyIdCollision`). A module with both a type and its own `space_id` behaves the same way (`ModuleFacts.SpaceIdCollision`).
- The transformation keeps the number of work items `count_artifacts` reports (`ArtifactCount.ModuleCountKept`).

## Model

| member | source | states |
|---|---|---|
| Text.CharIndex | Transformation_Script.py:16 | the first `>` (or the end) bounds what `[^>]*` takes: no `>` before the returned index, and a `>` at it when it is inside the string |
| Text.SpaceRun | Transformation_Script.py:23 | a greedy `\s*` takes exactly the leading whitespace: every character before the returned length is whitespace and the next one is not |
| Text.CharRun | Transformation_Script.py:30 | a greedy `\n+` takes exactly the leading run of newlines and stops at the first other character |
| Text.AlnumRun | Transformation_Script.py:19 | `[a-zA-Z0-9]+` takes exactly the leading ASCII letters and digits and stops at the first other character |
| Text.LStrip | Transformation_Script.py:51 | left strip keeps a suffix, removes only whitespace, and leaves no whitespace in front |
| Text.RStrip | Transformation_Script.py:51 | right strip keeps a prefix, removes only whitespace, and leaves no whitespace at the end |
| Text.Strip | Transformation_Script.py:51 | `.strip()` leaves no whitespace at either end |
| Text.StripSlice | Transformation_Script.py:51 | `.strip()` is a slice between blank ends, is the identity on trimmed text, and is empty exactly when the text is blank |
| Text.RStripKeeps | Transformation_Script.py:51 | right strip stops at the last character that is not whitespace |
| Text.StripKeepsPrefix | Transformation_Script.py:51 | a prefix that starts and ends with non-whitespace survives `.strip()` |
| Text.StripKeepsCharOut | Transformation_Script.py:51 | `.strip()` introduces no character the text did not have |
| Rewrite.SubIdentity | Transformation_Script.py:16 | `re.sub` returns its input when the pattern matches at no position |
| Rewrite.SubUntouched | Transformation_Script.py:23-24 | a pattern whose every match covers some character leaves text without that character alone |
| Rewrite.SubUntouchedOpens | Transformation_Script.py:16-20 | a pattern whose every match starts with `<` leaves text without `<` alone |
| Rewrite.SubDropsChar | Transformation_Script.py:30 | a character the pattern matches wherever it stands and never writes is gone from the result |
| Rewrite.SubSkipsPrefix | Transformation_Script.py:16 | scanning copies a prefix where the pattern never matches and goes on after it |
| Rewrite.SubAtMatch | Transformation_Script.py:20 | a match at the start is replaced and scanning resumes right after it |
| HtmlPatterns.PrimaryTextTag | Transformation_Script.py:16 | `</?ns0:primarytext[^>]*>` matches only at a `<`, inside the string, and is replaced by nothing |
| HtmlPatterns.NamespacedOpen | Transformation_Script.py:19 | `<html:NAME` matches only at a `<` and its replacement has no newline |
| HtmlPatterns.NamespacedClose | Transformation_Script.py:20 | `</html:NAME>` matches only at a `<` and its replacement has no newline |
| HtmlPatterns.NamespacePrefix | tx.py:24 | `</?html:` matches only at a `<` and is replaced by `<` |
| HtmlPatterns.QuotedAttribute | Transformation_Script.py:23-24 | a `dir`/`id` attribute match covers a quote and is replaced by nothing |
| HtmlPatterns.ImgTag | Transformation_Script.py:27 | `<img[^>]*>` matches only at a `<` and is replaced by nothing |
| HtmlPatterns.NewlineRun | Transformation_Script.py:30 | `\n+` matches wherever a newline stands, only there, and writes the given replacement |
| HtmlPatterns.SpaceRunToSpace | Transformation_Script.py:31 | `\s{2,}` matches only two or more whitespace characters and writes one space |
| HtmlPatterns.EmptyBlock | Transformation_Script.py:34-35 | an empty `<p>`/`<div>` match starts at `<` and is replaced by nothing |
| HtmlPatterns.ChainLink | Transformation_Script.py:38-39 | one close-and-reopen link starts at `<` and stays inside the string |
| HtmlPatterns.ChainRun | Transformation_Script.py:38-39 | the greedy chain of links starts at `<` and stays inside the string |
| HtmlPatterns.BlockChain | Transformation_Script.py:38-39 | a chain match starts at `<` and its replacement has no newline |
| HtmlPatterns.FirstDoubled | Transformation_Script.py:42-43 | a doubled inline tag match starts at `<` and its replacement has no newline |
| HtmlPatterns.FirstStrayClose | tx.py:50 | a stray closing tag match starts at `<` and is replaced by `</` |
| HtmlPatterns.FinalDivAt | Transformation_Script.py:48-49 | where `$` can match after `</div>`, a `</div>` stands |
| CleanerStages.DropAttributesAndImagesUntouched | Transformation_Script.py:23-27 | text without `<` or quotes passes the attribute and image steps unchanged |
| CleanerStages.TidyBlocksUntouched | Transformation_Script.py:34-43 | text without `<` passes the block steps unchanged |
| CleanerStages.TidyBlocksKeepsNoNewline | Transformation_Script.py:34-43 | the block steps never write a newline |
| CleanerStages.SpaceRunsUntouched | Transformation_Script.py:31 | text without two adjacent whitespace characters passes `\s{2,}` unchanged |
| PrimaryCleaner.EnsureClosedParagraph | Transformation_Script.py:48-49 | the substitution only runs when the same pattern was not found, so it never changes the text |
| PrimaryCleaner.WrapInDiv | Transformation_Script.py:46-47 | the result starts with `<div>`, and text already starting with it is unchanged |
| PrimaryCleaner.OneLineHasNoNewline | Transformation_Script.py:30-31 | no newline is left after step 5 |
| PrimaryCleaner.CleanPrimaryHtmlShape | Transformation_Script.py:9-51 | empty input gives `""`; any other input gives text starting with `<div>`; no output has a newline |
| PrimaryCleaner.DropNamespacesUntouched | Transformation_Script.py:16-20 | text without tags passes the namespace steps unchanged |
| PrimaryCleaner.OneLineUntouched | Transformation_Script.py:30-31 | text without newlines or whitespace runs passes step 5 unchanged |
| PrimaryCleaner.FinishWraps | Transformation_Script.py:46-51 | text not starting with `<div>` comes out of step 9 and the strip wrapped and otherwise unchanged |
| PrimaryCleaner.PrimaryWrapsPlainText | Transformation_Script.py:9-51 | plain text comes out as `<div>` + text + `</div>` |
| PrimaryCleaner.NewlineBecomesSpace | Transformation_Script.py:30 | a newline between two lines becomes a space |
| PrimaryCleaner.PrimaryTextTagSkipsClosingTag | Transformation_Script.py:16 | the wrapper-tag step leaves `</html:NAME>` alone |
| PrimaryCleaner.PrimaryTextTagSkipsAt | Transformation_Script.py:16 | the wrapper-tag pattern matches at no position of `</html:NAME>` |
| PrimaryCleaner.NamespacedOpenSkipsClosingTag | Transformation_Script.py:19 | the opening-tag step leaves `</html:NAME>` alone |
| PrimaryCleaner.NamespacedOpenSkipsAt | Transformation_Script.py:19 | the opening-tag pattern matches at no position of `</html:NAME>` |
| PrimaryCleaner.NamespacedCloseMatchesTag | Transformation_Script.py:20 | the closing-tag pattern matches all of `</html:NAME>` and writes `</NAME>` |
| PrimaryCleaner.ClosingTagStaysClosing | Transformation_Script.py:16-20 | steps 1-2 turn `</html:NAME>` into the closing tag `</NAME>` |
| LegacyCleaner.SquashHasNoNewline | tx.py:34-35 | no newline is left after lines 34-35 |
| LegacyCleaner.CleanHtmlShape | tx.py:14-52 | empty input gives `""`; no output has a newline or whitespace at either end |
| LegacyCleaner.SquashUntouched | tx.py:34-35 | text without newlines or whitespace runs passes lines 34-35 unchanged |
| LegacyCleaner.CleanHtmlKeepsPlainText | tx.py:14-52 | plain text comes back exactly as it went in (no wrapper) |
| LegacyCleaner.OnlyPrimaryWraps | tx.py:14-52 | on plain text the newer cleaner's result is the older one's wrapped in `<div>`, so the two differ |
| LegacyCleaner.NewlineDeleted | tx.py:34 | a newline between two lines is deleted, joining them |
| LegacyCleaner.LeadingNewlineDeleted | tx.py:34 | a leading newline is dropped |
| LegacyCleaner.NewlineHandlingDiffers | tx.py:34 | the older cleaner joins lines where the newer one puts a space |
| LegacyCleaner.ClosingTagOpens | tx.py:24 | `</html:REST` becomes `<REST`: a closing tag is turned into an opening one |
| MappingTables.Recode | Transformation_Script.py:177 | `table.get(v, v)`: a known string is recoded, anything else passes through |
| MappingTables.SpaceIdFor | Transformation_Script.py:244 | a known module type selects its space; anything else gets `_default`; the result is always a space of the table |
| MappingTables.ArtifactRenamesInjective | Transformation_Script.py:75-89 | no two artifact keys are renamed to the same name |
| MappingTables.ArtifactRenamesApart | Transformation_Script.py:75-89 | no new artifact name is renamed again or treated specially, and no special key is renamed |
| MappingTables.NewNamesNotRenamed | Transformation_Script.py:75-89 | no new artifact name is itself a renamed key |
| MappingTables.NewNamesNotSpecial | Transformation_Script.py:75-89 | no new artifact name is a key treated by another branch |
| MappingTables.SpecialKeysNotRenamed | Transformation_Script.py:75-89 | no key treated by another branch is renamed |
| MappingTables.ModuleRenamesInjective | Transformation_Script.py:62-68 | no two module keys are renamed to the same name |
| MappingTables.ModuleRenamesApart | Transformation_Script.py:62-74 | no new module name is renamed, dropped or special, and no dropped or special key is renamed |
| MappingTables.ModuleBranchesApart | Transformation_Script.py:229-250 | the module branches test disjoint keys, and only `module_status` is renamed to `status` |
| MappingTables.SpacesMatchModuleTypes | Transformation_Script.py:93-142 | the space table and the module type table have the same keys |
| MappingTables.StatusTablesAgree | Transformation_Script.py:117-130 | the module status table is the artifact status table without `Approved` and `Reviewed` |
| MappingTables.LookupExamples | Transformation_Script.py:93-142 | worked lookups: `Req` becomes `sthRS` in `01 Stakeholder`, `Approved` becomes `reviewed`, unknown values pass through |
| Rekey.Put | Transformation_Script.py:155-163 | successive `new[key] = value` leave exactly the old keys and the written ones, each holding the last value written or its old one |
| Rekey.PutKeepsAgreement | Transformation_Script.py:155-163 | the same insertions keep two dicts agreeing wherever they agreed |
| Rekey.RekeyStep | Transformation_Script.py:155-163 | one more iteration, whatever key it visits, keeps the loop's result described by the rule |
| Rekey.RekeyLoopStep | Transformation_Script.py:155-163 | the loop invariant over the keys still to visit is kept by every iteration |
| Rekey.RekeyedSole | Transformation_Script.py:155-163 | an output key written by one input key only holds the value that key writes |
| Rekey.RekeyedAbsent | Transformation_Script.py:155-163 | an output key no input key writes is absent |
| Rekey.RekeyedKeepsOwnKey | Transformation_Script.py:162-163 | a key only written by itself and unchanged passes through as it is |
| LinkTransform.InsertLinkItem | Transformation_Script.py:156-163 | one iteration inserts exactly what the link rule gives for the key |
| LinkTransform.TransformLinkedArtifact | Transformation_Script.py:153-164 | the new link holds exactly the keys the rule writes, each with a value the rule writes |
| LinkTransform.LinkDropsKeys | Transformation_Script.py:160 | `uri`, `title`, `link_role_uri`, `link_role_label`, `direction` and `identifier` are gone |
| LinkTransform.LinkGoneWriter | Transformation_Script.py:156-161 | no branch writes a dropped key or `identifier` |
| LinkTransform.LinkRenamesAndRecodes | Transformation_Script.py:156-159 | `identifier` reappears as `legacyID`; `link_role` is recoded with the role table |
| LinkTransform.LinkCopiesTheRest | Transformation_Script.py:162-163 | every other key keeps its value, and no key appears besides `legacyID` that the link lacked |
| LinkTransform.LegacyIdCollision | Transformation_Script.py:156-163 | with both `identifier` and `legacyID`, `legacyID` holds one of the two values |
| Attachments.LastOccurrence | Transformation_Script.py:203 | the result is -1 or an index at most the bound where the folder name occurs |
| Attachments.NotAfterLast | Transformation_Script.py:203 | the folder name occurs nowhere after its last occurrence |
| Attachments.RelativePathFacts | Transformation_Script.py:203 | the relative path ends the full path; it is all of it exactly when the folder is absent; otherwise what precedes it ends with the folder; it never holds the folder |
| Attachments.AfterLastFacts | Transformation_Script.py:203 | `split(sep)[-1]` ends the string, is all of it exactly when `sep` is absent, follows `sep` otherwise, and holds no `sep` |
| Attachments.AfterFound | Transformation_Script.py:203 | when `sep` occurs the last piece is what follows its last occurrence and is shorter |
| Attachments.LastOccurrenceIs | Transformation_Script.py:203 | an occurrence with none after it is the last one |
| Attachments.AnchorDoesNotOverlap | Transformation_Script.py:203 | two occurrences of the folder name cannot overlap, so `split` cuts at each |
| Attachments.NoLaterOccurrence | Transformation_Script.py:203 | after the folder name the folder occurs only where the rest has it |
| Attachments.RelativePathBelowAnchor | Transformation_Script.py:203 | a path `root + folder + rest` with no folder in `rest` has relative path `rest` |
| Attachments.AfterLastIs | Transformation_Script.py:203 | the last occurrence decides where the last piece starts |
| Attachments.BaseStart | Transformation_Script.py:204 | the base name starts inside the path |
| Attachments.BaseNameFacts | Transformation_Script.py:204 | the base name ends the path and holds no separator |
| Attachments.BaseNameInFolder | Transformation_Script.py:204 | `folder\name` has base name `name` |
| Attachments.LastIndex | Transformation_Script.py:204 | the last index of a character class is -1 or inside the string |
| Attachments.LastIndexIs | Transformation_Script.py:204 | the last index is the class position with no class character after it |
| Attachments.LastIndexFacts | Transformation_Script.py:204 | the character at the last index is in the class and none after it is |
| Attachments.StemFacts | Transformation_Script.py:204 | the stem is the name or the name cut before its last dot |
| Attachments.StemDropsExtension | Transformation_Script.py:204 | `stem.ext` loses `.ext` when the stem is not only dots |
| Attachments.StemKeepsDotName | Transformation_Script.py:204 | a name like `.profile` has no extension |
| Attachments.AttachmentFields | Transformation_Script.py:205-209 | a record holds `file_path` (the relative path) and the file name as both `file_name_in_polarion` and `title` |
| Attachments.Records | Transformation_Script.py:212-219 | one record per path |
| Attachments.RecordsAt | Transformation_Script.py:212-219 | record `i` is the record of path `i` |
| Attachments.RecordsAppend | Transformation_Script.py:215 | appending a path appends its record |
| Attachments.RecordsConcat | Transformation_Script.py:199-219 | the records of two runs of paths are the first run's then the second's |
| Attachments.EmbeddedPaths | Transformation_Script.py:212 | iterating a list yields its strings and iterating a string yields its characters, in order |
| Attachments.NoResourcesExactly | Transformation_Script.py:199-221 | nothing is collected exactly when both resource fields are absent or falsy |
| Attachments.WrappedComesFirst | Transformation_Script.py:199-219 | the wrapped resource's path comes first, then the embedded ones in list order |
| Attachments.AppendRecords | Transformation_Script.py:212-219 | the loop appends one record per path, in order, after the records already there |
| Attachments.CollectAttachments | Transformation_Script.py:199-219 | the collected list is the records of the artifact's resource paths |
| Attachments.AppendAttachments | Transformation_Script.py:199-224 | the records are appended to the existing attachments, created empty when missing, and nothing happens when there are none |
| ArtifactTransform.InsertArtifactItem | Transformation_Script.py:170-189 | one iteration inserts exactly what the artifact rule gives for the key |
| ArtifactTransform.ReworkedOnlyFromThemselves | Transformation_Script.py:169-189 | only `linked_artifacts`, `children` and `attachments` themselves write those keys, unchanged |
| ArtifactTransform.ReworkedCopied | Transformation_Script.py:188-189 | the key loop copies `linked_artifacts`, `children` and `attachments` |
| ArtifactTransform.KeyLoopKeepsReworked | Transformation_Script.py:169-189 | after the key loop those keys are present exactly when the artifact has them, with its values |
| ArtifactTransform.ArtifactKeyLoop | Transformation_Script.py:167-189 | the key loop's dict holds exactly the keys the rule writes, each with a value the rule writes |
| ArtifactTransform.TransformLinks | Transformation_Script.py:191-194 | each link is rewritten, in order |
| ArtifactTransform.ForestGrows | Transformation_Script.py:197 | one more rewritten child extends the rewritten prefix |
| ArtifactTransform.TransformArtifactList | Transformation_Script.py:197 | each artifact of a list is rewritten, in order |
| ArtifactTransform.RewriteComplete | Transformation_Script.py:166-225 | the key loop followed by the three reworkings gives the rewritten artifact |
| ArtifactTransform.RewriteLinks | Transformation_Script.py:191-194 | a list of links is replaced by its rewrite and nothing else changes |
| ArtifactTransform.RewriteChildren | Transformation_Script.py:196-197 | a list of children is replaced by its recursive rewrite and nothing else changes |
| ArtifactTransform.AppendTouchesOnlyAttachments | Transformation_Script.py:221-224 | appending the records changes no key but `attachments` |
| ArtifactTransform.TransformArtifact | Transformation_Script.py:166-225 | the result is the artifact rewritten: renamed, recoded, cleaned and copied keys, rewritten links and children, attachment records appended |
| ArtifactFacts.RewrittenKeyLoopPart | Transformation_Script.py:169-189 | apart from `attachments`, the keys and values are those of the key loop |
| ArtifactFacts.DescriptionWriter | Transformation_Script.py:178-183 | only `primary_text_html` writes `description`, with the merged description |
| ArtifactFacts.DescriptionPresent | Transformation_Script.py:178-183 | with rich text, `description` is the merged description |
| ArtifactFacts.DescriptionAbsent | Transformation_Script.py:186-187 | without rich text there is no `description` |
| ArtifactFacts.DescriptionFromPrimaryText | Transformation_Script.py:178-187 | `description` exists exactly when `primary_text_html` does: the cleaned text, plus separator and old description when that is not blank |
| ArtifactFacts.RenamedKeyWriter | Transformation_Script.py:170-189 | no branch writes a renamed key or `primary_text_html` |
| ArtifactFacts.RenamedKeysGone | Transformation_Script.py:170-183 | renamed keys and `primary_text_html` are gone |
| ArtifactFacts.RenamedKeyAbsent | Transformation_Script.py:170-183 | a renamed key or `primary_text_html` is absent after the key loop |
| ArtifactFacts.RenameTargetWriter | Transformation_Script.py:170-175 | a new name is written by its renamed key or by an input key of that name |
| ArtifactFacts.RenamedKeyMoved | Transformation_Script.py:170-175 | a renamed key's value moves to its new name, a known status recoded under `status` |
| ArtifactFacts.RecodedKeyWriter | Transformation_Script.py:176-185 | only `artifact_type` and `primary_text_html_local` write themselves, recoded and cleaned |
| ArtifactFacts.RecodedInLoop | Transformation_Script.py:176-185 | after the key loop those keys are present as in the input, recoded and cleaned |
| ArtifactFacts.ArtifactTypeRecoded | Transformation_Script.py:176-177 | `artifact_type` is recoded with the type table |
| ArtifactFacts.LocalTextCleaned | Transformation_Script.py:184-185 | `primary_text_html_local` is cleaned in place |
| ArtifactFacts.PlainKeyWriter | Transformation_Script.py:188-189 | a plain key is written only by itself, unchanged, or by a key renamed to it |
| ArtifactFacts.OtherKeysCopied | Transformation_Script.py:188-189 | any other key is copied with its value unless a renamed key lands on it |
| ArtifactFacts.PlainKeyWritten | Transformation_Script.py:188-189 | the key loop copies a plain key |
| ArtifactFacts.AttachmentsTarget | Transformation_Script.py:188-189 | the key loop writes `attachments` exactly when the artifact has it |
| ArtifactFacts.AttachmentsAppended | Transformation_Script.py:221-224 | with resources, `attachments` is the old list, then the wrapped record, then the embedded records |
| ArtifactFacts.AttachmentsOnlyWhenCollected | Transformation_Script.py:199-224 | `attachments` exists exactly when it did or there are resources; without resources it is unchanged |
| ModuleTransform.ArtifactsOnlyFromThemselves | Transformation_Script.py:247-250 | only the key `artifacts` writes `artifacts` |
| ModuleTransform.InsertRuleItem | Transformation_Script.py:230-250 | each non-list branch inserts exactly what the module rule gives |
| ModuleTransform.InsertModuleItem | Transformation_Script.py:229-250 | one iteration inserts the rule's entries, or the rewritten artifact list |
| ModuleTransform.ShadowStep | Transformation_Script.py:229-250 | an iteration keeps the loop's dict agreeing with the rule's everywhere but `artifacts` |
| ModuleTransform.ArtifactsStep | Transformation_Script.py:247-250 | an iteration keeps an `artifacts` already there rewritten |
| ModuleTransform.ModuleLoopStep | Transformation_Script.py:229-250 | each iteration keeps the key loop's invariant |
| ModuleTransform.ModuleLoopEnd | Transformation_Script.py:251 | after the loop the dict is the module rewritten |
| ModuleTransform.TransformJson | Transformation_Script.py:227-251 | the result is the module rewritten: rule keys and values, the artifact list rewritten artifact by artifact |
| ModuleFacts.ModuleSole | Transformation_Script.py:229-250 | an output key written by one input key holds that key's value |
| ModuleFacts.ModuleAbsent | Transformation_Script.py:229-250 | an output key no input key writes is absent |
| ModuleFacts.GoneKeyWriter | Transformation_Script.py:230-239 | no branch writes a dropped, skipped or renamed key |
| ModuleFacts.ModuleDropsKeys | Transformation_Script.py:230-235 | dropped, skipped and renamed keys are gone from the module |
| ModuleFacts.ModuleTypeWriter | Transformation_Script.py:240-242 | only `module_type` writes `module_type`, recoded |
| ModuleFacts.ModuleTypeRecoded | Transformation_Script.py:240-242 | `module_type` is present as in the input and recoded with the type table |
| ModuleFacts.SpaceIdWriter | Transformation_Script.py:243-250 | only `module_type` (with its space) and `space_id` itself write `space_id` |
| ModuleFacts.SpaceIdFromModuleType | Transformation_Script.py:243-244 | without its own `space_id`, a module has one exactly when it has a type, the type's space |
| ModuleFacts.SpaceIdCollision | Transformation_Script.py:243-250 | with a type and its own `space_id`, the module ends with one of the two spaces |
| ModuleFacts.SpaceIdTargeted | Transformation_Script.py:244 | a module with a type gets a `space_id` |
| ModuleFacts.ModuleWriter | Transformation_Script.py:229-250 | every output key but `artifacts` has an input key that wrote its value |
| ModuleFacts.RenameTargetWriter | Transformation_Script.py:234-239 | a new name is written by its renamed key or by an input key of that name |
| ModuleFacts.ModuleRenamedKeyMoved | Transformation_Script.py:234-239 | a renamed key moves to its new name, a known status recoded under `status` |
| ModuleFacts.PlainKeyWriter | Transformation_Script.py:249-250 | a plain key is written only by itself, unchanged |
| ModuleFacts.ModuleOtherKeysCopied | Transformation_Script.py:245-250 | other keys, the title included, are copied unless a renamed key lands on them |
| ModuleFacts.ModuleKeysFrom | Transformation_Script.py:228-251 | no key appears besides the input's, the new names and `space_id` |
| ModuleFacts.ModuleArtifactsRewritten | Transformation_Script.py:247-250 | `artifacts` stays exactly when present: a list rewritten to the same length, anything else copied |
| ArtifactCount.CountArtifacts | Transformation_Script.py:253-259 | the count is the work items of the tree: each element and, for a dict with a list of children, its children's count |
| ArtifactCount.ForestCountAtLeastLength | Transformation_Script.py:255-256 | a list counts at least as many work items as it has elements |
| ArtifactCount.ChildrenStay | Transformation_Script.py:196-197 | a rewritten artifact has `children` exactly when the original has |
| ArtifactCount.ForestCountsAlike | Transformation_Script.py:255-258 | lists whose elements count alike count alike |
| ArtifactCount.ArtifactCountKept | Transformation_Script.py:253-259 | a rewritten artifact counts as many work items as the original |
| ArtifactCount.ForestCountKept | Transformation_Script.py:253-259 | a rewritten list counts as many work items as the original |
| ArtifactCount.ArtifactCountable | Transformation_Script.py:257 | a rewritten artifact can be counted without an exception |
| ArtifactCount.ForestCountable | Transformation_Script.py:255-258 | every element of a rewritten list can be counted |
| ArtifactCount.ModuleCountKept | Transformation_Script.py:284 | the reported work items of a transformed module equal the original tree's and are at least its top-level artifacts |
| LegacyDocument.JsonDocument.constructor | tx.py:59 | the document holds the loaded value |
| LegacyDocument.JsonDocument.CleanRichTextFields | tx.py:62-74 | succeeds exactly when no exception is raised, and then the document is the cleaned document |
| LegacyDocument.RichTextCleaned | tx.py:65-68 | cleaning keeps the keys and other values; each rich-text field becomes a trimmed one-line string, empty when falsy |
| LegacyDocument.ListDocumentCleaned | tx.py:62-68 | with an artifact list only the artifacts' rich-text fields change; order, length and non-dicts stay |
| LegacyDocument.PlainDocumentCleaned | tx.py:69-74 | without an artifact list only the top-level rich-text fields change |
| LegacyDocument.NothingToClean | tx.py:62-74 | a document with no rich text where the pass looks comes back unchanged |

## Left out

- File and folder handling (`os.listdir`, `open`, `json.load`, `json.dump`, `os.makedirs`, `Path.mkdir`), the main loops and `print` are not modelled. The modelled functions take the loaded value and return the value that would be written.
- The timing of the main loop (`time.time`, `round`) and its running totals are not modelled.
- JSON numbers are integers: floating point is not modelled.
- The order of a `dict`'s keys is not modelled. A key collision (two input keys writing the same output key) is stated as "one of the two values", not as the one the iteration order picks.
- `re.IGNORECASE` is modelled for ASCII letters only. Python also lets a few non-ASCII letters match the patterns' `i` and `s` (the dotless `ı`, the dotted `İ`, the long `ſ`); the model does not.
- `ntpath.basename` is modelled for drive letters (`X:`). UNC shares (`\\server\share`) are not modelled.
- An `embedded_wrapped_resources_saved` value that is a dict is not modelled. Python would iterate its keys; `ResourcesReadable` excludes it.
- The aliasing of `.extend` on a list shared with the input artifact is not modelled. The model builds a new list; the returned artifact is the same, but the input's own list would also grow in Python.
- LegacyDocument.JsonDocument.CleanRichTextFields: when it fails, the state of `data` is left unspecified. Python may already have cleaned some artifacts before the exception, but since nothing is then written, that state is never observed.
- ArtifactCount.ModuleCountKept: covers a module whose `artifacts` is a list. The main loop's `count_artifacts(transformed.get("artifacts", []))` on a non-list value is not modelled.
- LinkTransform.LegacyIdCollision: states that `legacyID` holds one of the two values. It does not say which, because the key order is not modelled.
- ModuleFacts.SpaceIdCollision: states that `space_id` holds one of the two values. It does not say which, because the key order is not modelled.
