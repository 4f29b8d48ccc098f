# SuiSense core, modelled in Dafny

SuiSense explains Sui transactions and Move errors in plain language. The
backend fetches a transaction block from a full node. It reduces the block to
a record of facts: the sender, the called Move functions, the involved
modules, the object inputs, the balance changes split into incoming and
outgoing, the transfers and the shared objects. Priority rules then label the
block's intent and risk. Raw Move error output goes through a keyword
classifier and three regular expressions. These produce a structured summary
with a category, a likely cause, fix steps, a confidence level, the abort
code, the stack frames and the module paths. When no language model answers,
a deterministic explainer turns either record into a few sentences.

This project models those three pure layers:

- `common.dfy` (module `Common`):
  - optional JSON fields and JavaScript truthiness
  - the low/medium/high scale
  - the order-preserving list operations the code builds its lists with:
    filter-and-map, append-if-absent, `Array.from(new Set(..))`, and a
    left-to-right first-hit search
- `text.dfy` (module `Text`):
  - ASCII lower-casing, `includes` and `join`
  - the default string order of `sort`, and sorted deduplication
  - `replace` of one character
  - decimal numbers in both directions
- `sui_rpc.dfy` (module `SuiRpc`):
  - `formatOwner`, `extractMoveCalls` and `extractFacts`, with one method per
    loop of `extractFacts`
  - `inferIntent` and `inferRisk`
- `movelens.dfy` (module `MoveLens`):
  - `detectCategory` and `causeAndFixes`
  - the three regular expressions, written as character scanners
  - `parseMoveError`
- `explainers.dfy` (module `Explainers`): `explainTxFallback` and
  `explainErrorFallback`.

Loops that push into arrays are methods with loop invariants. Each is proved
equal to a specification function, and the promised properties are lemmas
about that function. A list is folded from its back end, so one more loop
iteration is one more element at the end: `FilterMap(f, xs[..i+1]) ==
FilterMap(f, xs[..i]) + ...`.

An owner descriptor is either a plain string or a JSON object read through
its four tags. It is modelled as a record of four optional tags, not as one
variant per tag, because a JSON object may carry several tags at once.
`formatOwner` then decides by its priority order. The record form also lets
that order be proved.

The model follows the code, including these behaviours a reader might not
expect:

- Duplicates in `shared_objects` are suppressed only for ids found in the
  object-change pass (`backend/src/suiRpc.ts:161-168`). Two declared shared
  inputs with the same id are both listed.
- A block without a command list can still get the intent "Transfers
  objects" or "Moves assets" (`backend/src/suiRpc.ts:236-241`).
- `inferIntent` has no "unknown" outcome besides "Intent unknown
  (insufficient data)".

There is one exception. The `to` field of a transfer
(`backend/src/suiRpc.ts:205`) is stored in its corrected form,
`formatOwner(change.recipient || change.owner)`. The code as written is
modelled beside it, and the difference is listed under "## Findings". So
`SuiRpc.Facts`, `SuiRpc.CollectTransfers` and `SuiRpc.ExtractFacts` describe
the corrected record.

## Model

| member | source | states |
|---|---|---|
| Common.FilterMap | backend/src/suiRpc.ts:113-121 | a push loop that pushes at most one value per element never yields more values than elements |
| Common.FilterMapMembers | backend/src/suiRpc.ts:113-121 | a value is in the list a push loop builds exactly when some input element maps to it |
| Common.FilterMapAllDefined | backend/src/suiRpc.ts:113-121 | when every element maps to something, the pushed list follows the input one for one, in order |
| Common.FilterMapPartition | backend/src/suiRpc.ts:191-195 | when each element goes to exactly one of two lists, the two lengths add up to the input length |
| Common.FilterMapAppend | backend/src/suiRpc.ts:113-121 | running a push loop over two lists one after the other pushes the concatenation of what each run pushes |
| Common.FilterMapPrefix | backend/src/suiRpc.ts:113-121 | what the first iterations push is a prefix of the final list |
| Common.FilterMapKeepsOrder | backend/src/suiRpc.ts:113-121 | of two elements that push something, the earlier one's value sits at an earlier position, whatever was skipped between them |
| Common.AppendNew | backend/src/suiRpc.ts:161-168 | append-if-absent keeps the original list as a prefix and ends up holding exactly the old and the new elements |
| Common.AppendNewAddsNoDuplicate | backend/src/suiRpc.ts:164 | every element appended differs from all elements before it, the original ones included |
| Common.AppendNewKeepsNoDuplicates | backend/src/suiRpc.ts:164 | append-if-absent on a list without duplicates leaves a list without duplicates |
| Common.Dedup | backend/src/movelens.ts:104-105 | `Array.from(new Set(xs))` holds exactly the elements of `xs` |
| Common.DedupFirstOccurrenceOrder | backend/src/movelens.ts:104-105 | the deduplicated list has no duplicates and lists elements in the order of their first occurrences |
| Common.FirstFromNone | backend/src/movelens.ts:101 | the left-to-right search for the first match finds nothing exactly when no position matches |
| Common.FirstFromLeftmost | backend/src/movelens.ts:101 | what the search finds is the result at the least matching position, with no match before it |
| Text.ToLower | backend/src/movelens.ts:6 | lower-casing keeps the length and lower-cases each ASCII capital, leaving other characters alone |
| Text.ContainsAt | backend/src/movelens.ts:7 | `includes(w)` holds exactly when `w` starts at some position of the text |
| Text.ReplaceChar | backend/src/movelens.ts:112 | replacing `_` by a space keeps the length and changes exactly the underscores |
| Text.JoinOpensWithFirst | backend/src/explainers.ts:72 | a joined text opens with its first part, followed by the separator when more parts follow |
| Text.BelowIrreflexive | backend/src/suiRpc.ts:213 | no string sorts before itself |
| Text.BelowTransitive | backend/src/suiRpc.ts:213 | the default sort order is transitive |
| Text.BelowAsymmetric | backend/src/suiRpc.ts:213 | the default sort order is asymmetric |
| Text.BelowTotal | backend/src/suiRpc.ts:213 | any two distinct strings are ordered one way or the other |
| Text.InsertSorted | backend/src/suiRpc.ts:213 | inserting into a strictly sorted list keeps it strictly sorted and adds exactly the new string |
| Text.SortedSet | backend/src/suiRpc.ts:213 | `Array.from(new Set(xs)).sort()` is strictly ascending and holds exactly the strings of `xs` |
| Text.StrictlySortedUnique | backend/src/suiRpc.ts:213 | two strictly sorted lists with the same elements are equal |
| Text.SortedSetIgnoresOrder | backend/src/suiRpc.ts:213 | the sorted module list does not depend on the order in which the calls were found |
| Text.NatToString | backend/src/explainers.ts:61 | a printed count is a non-empty string of decimal digits without a leading zero |
| Text.ParseAmount | backend/src/suiRpc.ts:180-182 | an amount parses exactly when it is one or more digits, optionally after a `+` or `-`; its value is the digits' decimal value, negated after `-` |
| Text.NatToStringValue | backend/src/explainers.ts:61 | the digits of a printed count have that count as their value |
| Text.NatToStringRoundTrip | backend/src/suiRpc.ts:181 | parsing a printed natural number, or its negation, gives the number back |
| SuiRpc.FormatOwner | backend/src/suiRpc.ts:76-84 | the display string is never empty; an absent or falsy owner gives "unknown", a string owner is returned unchanged, and an object none of whose four tags is truthy gives "unknown" |
| SuiRpc.FormatOwnerTagPriority | backend/src/suiRpc.ts:79-83 | an address owner wins over everything; then `object:` plus the parent id, then "shared", then "immutable", and with no truthy tag "unknown" |
| SuiRpc.ExtractMoveCalls | backend/src/suiRpc.ts:86-101 | the loop collects the `MoveCall` entries of the command list, or else the inlined call |
| SuiRpc.MoveCallsFromCommandList | backend/src/suiRpc.ts:90-95 | with a command list, a call is collected exactly when some command carries it, and the inlined shape is ignored |
| SuiRpc.MoveCallsWithoutCommandList | backend/src/suiRpc.ts:96-98 | without a command list there is at most one call, and none exactly when there is no inlined call |
| SuiRpc.TypeIndexLastWins | backend/src/suiRpc.ts:123-131 | an id is in the type dictionary exactly when some change records a type for it; its entry is the type from the last such change |
| SuiRpc.InputObject | backend/src/suiRpc.ts:136-158 | an input yields a fact only with a non-empty id; the type comes from the dictionary or is "unknown"; the kind is imm_or_owned exactly when that tag is present, and otherwise the id is the shared object's id |
| SuiRpc.InputObjectRecorded | backend/src/suiRpc.ts:136-158 | conversely, an owned input yields a fact exactly when its id is non-empty; otherwise a shared input yields one exactly when its id is non-empty; an input with neither tag yields none |
| SuiRpc.RecipientName | backend/src/suiRpc.ts:205 | the corrected `to` is never empty and is the formatted recipient whenever one is present |
| SuiRpc.RecipientObjectNotFormatted | backend/src/suiRpc.ts:205 | for an address-owner recipient, the code as written stores the object itself in `to`; the corrected value is the address |
| SuiRpc.RecipientNameAgreesOnStrings | backend/src/suiRpc.ts:205 | wherever the code as written stores a string in `to`, it is the corrected value |
| SuiRpc.CollectCallNames | backend/src/suiRpc.ts:113-121 | the call loop pushes `pkg::module::fn` and `pkg::module` for each call with all three parts present |
| SuiRpc.IndexObjectTypes | backend/src/suiRpc.ts:123-131 | the dictionary loop builds the type index of the object changes |
| SuiRpc.CollectInputs | backend/src/suiRpc.ts:133-159 | the input loop pushes one object input per input with an id and collects the ids of the shared inputs |
| SuiRpc.AddSharedChanges | backend/src/suiRpc.ts:161-168 | the object-change pass appends each shared-owned id that is not yet listed |
| SuiRpc.SplitBalances | backend/src/suiRpc.ts:170-196 | the balance loop pushes each change's entry to `out` or to `in` by the sign test |
| SuiRpc.CollectTransfers | backend/src/suiRpc.ts:198-208 | the transfer loop pushes one transfer per change of type "transferred", with the corrected recipient in `to` |
| SuiRpc.Facts | backend/src/suiRpc.ts:103-226 | the sender is the data's sender when truthy, else the block's sender when truthy, else "unknown", and never empty; the record carries no intent yet |
| SuiRpc.ExtractFacts | backend/src/suiRpc.ts:103-226 | the loops, run in the source's order, produce the fact record of the block, with the corrected transfer recipient |
| SuiRpc.CalledFunctionsRecorded | backend/src/suiRpc.ts:113-121 | a name is recorded exactly when some call with all three parts has it as its qualified name; of two complete calls, the earlier one's name is recorded at an earlier position, even when incomplete calls are skipped; when all calls are complete, the list follows them one for one |
| SuiRpc.InvolvedModulesSortedPrefixes | backend/src/suiRpc.ts:213 | `involved_modules` is strictly ascending, has no duplicates, and holds exactly the `pkg::module` prefixes of the complete calls |
| SuiRpc.ObjectInputsTyped | backend/src/suiRpc.ts:133-158 | a fact is an object input exactly when some declared input yields it; every object input has a non-empty id and carries the type looked up for its id |
| SuiRpc.SharedObjectsAppendOnlyNew | backend/src/suiRpc.ts:146-168 | `shared_objects` opens with the declared shared ids in order; the object-change pass adds no duplicate; the list holds exactly the ids of both sources |
| SuiRpc.EntrySideFromRecordedAmount | backend/src/suiRpc.ts:180-195 | an entry records the coin type or "unknown", the amount string or "unknown" when it is missing, and the formatted owner; its side can be read back from the recorded amount |
| SuiRpc.BalanceSplitExact | backend/src/suiRpc.ts:174-196 | `out` holds exactly the entries of the changes with a missing, unparsable or negative amount, and `in` exactly the entries of the rest; together they are as long as the list of changes |
| SuiRpc.TransfersFromTransferredChanges | backend/src/suiRpc.ts:198-208 | a transfer is listed exactly when a change of type "transferred" produced it; `from`, `to` and the type are never empty |
| SuiRpc.InferIntent | backend/src/suiRpc.ts:228-243 | one call gives "Calls f"; several give "Calls Move functions: " and at most four names; otherwise transfers give "Transfers objects", then balances give "Moves assets", else "Intent unknown (insufficient data)"; each label holds exactly when its rule fires |
| SuiRpc.InferRisk | backend/src/suiRpc.ts:245-260 | risk is high exactly when shared objects and outgoing value (out or transfers) coexist, and low exactly without outgoing value; confidence is low exactly without calls, and high exactly with calls and some value moving |
| SuiRpc.NoOperationsNoCalls | backend/src/suiRpc.ts:86-101 | a block with neither command list nor inlined call records no calls and no modules, and has low confidence; with no balances and no transfers either, its intent is unknown |
| SuiRpc.SingleCallIntent | backend/src/suiRpc.ts:228-232 | a block with one complete call records that call and its module, and its intent names the call |
| MoveLens.DetectCategory | backend/src/movelens.ts:5-32 | the category returned has a rule that fires on the lower-cased text, and no rule earlier in the list fires |
| MoveLens.MoveAbortWins | backend/src/movelens.ts:7-9 | any text with "moveabort", "move abort" or "abort code", in any case, is a move abort, whatever else it contains |
| MoveLens.ConjunctiveRulesNeedBoth | backend/src/movelens.ts:19-24 | ability_constraint needs both "ability" and "constraint", and borrow_error both "borrow" and "error" |
| MoveLens.ToLowerIdempotent | backend/src/movelens.ts:6 | lower-casing twice is lower-casing once |
| MoveLens.DetectCategoryIgnoresCase | backend/src/movelens.ts:6 | a text and its lower-cased form get the same category |
| MoveLens.NameInjective | backend/src/movelens.ts:8-31 | the nine category names are pairwise distinct |
| MoveLens.CauseAndFixes | backend/src/movelens.ts:34-95 | every name gets a non-empty cause and at least two fix steps |
| MoveLens.CauseAndFixesFallback | backend/src/movelens.ts:91-94 | a name that no category carries gets the advice for unknown errors |
| MoveLens.RunEnd | backend/src/movelens.ts:1-3 | a character-class run `[..]+` or `\s*` ends where the class first fails |
| MoveLens.RunEndUnique | backend/src/movelens.ts:1-3 | a run that stops where the class fails is the longest run |
| MoveLens.SegmentsEnd | backend/src/movelens.ts:1-2 | the `(::[A-Za-z0-9_]+){n}` scanner, when it matches, ends within the text and not before where it started |
| MoveLens.PathMatchAt | backend/src/movelens.ts:1-2 | a match of `0x[0-9a-fA-F]+` and its segments at a position is more than two characters long and ends within the text |
| MoveLens.SegmentsEndShape | backend/src/movelens.ts:1-2 | what the segment scanner consumes is exactly `n` times `::` and an identifier |
| MoveLens.PathMatchAtShape | backend/src/movelens.ts:1-2 | every match of the path scanner has the shape `0x`, hex digits, `n` segments |
| MoveLens.SegmentsEndComplete | backend/src/movelens.ts:1-2 | conversely, segments that end where identifier characters end are what the scanner consumes |
| MoveLens.PathMatchAtComplete | backend/src/movelens.ts:1-2 | a string of the path shape that ends where identifier characters end is exactly what the scanner matches there |
| MoveLens.SegmentsEndMaximal | backend/src/movelens.ts:1-2 | a match is never followed by an identifier character, as for the greedy expression |
| MoveLens.PathMatches | backend/src/movelens.ts:104-105 | the global match list holds at most one match per three characters of the text |
| MoveLens.PathMatchesShape | backend/src/movelens.ts:104-105 | every element of the global match list has the frame or module shape |
| MoveLens.PathMatchesEmpty | backend/src/movelens.ts:104-105 | the global match list is empty exactly when the expression matches at no position |
| MoveLens.AbortPrefixEnd | backend/src/movelens.ts:3 | the matched `abort\s*code\s*[:=]\s*` part is non-empty and within the text |
| MoveLens.CodeEnd | backend/src/movelens.ts:3 | the captured group has the `0x<hex>` or decimal shape |
| MoveLens.AbortCodeAt | backend/src/movelens.ts:3 | a capture at a position has the abort-code shape |
| MoveLens.FirstAbortCode | backend/src/movelens.ts:101-102 | the first match's capture has the abort-code shape |
| MoveLens.WordStartsWithLetter | backend/src/movelens.ts:3 | a case-insensitive match of a word that starts with a letter does not start with white space |
| MoveLens.AbortPrefixEndSteps | backend/src/movelens.ts:3 | the prefix scanner ends where the word "abort", a white-space run, "code", a white-space run, the separator and a white-space run end |
| MoveLens.AbortPrefixEndComplete | backend/src/movelens.ts:3 | every way of matching `abort\s*code\s*[:=]\s*` at a position that uses all the white space after the separator is what the scanner finds |
| MoveLens.AbortPrefixEndMatches | backend/src/movelens.ts:3 | the prefix scanner ends at `k` exactly when `abort\s*code\s*[:=]\s*` matches from the position to `k` and no white space follows `k`, as for the greedy `\s*` |
| MoveLens.CodeEndFound | backend/src/movelens.ts:3 | the group `(0x[0-9a-fA-F]+\|\d+)` matches at a position exactly when a decimal digit is there |
| MoveLens.CodeEndCaptures | backend/src/movelens.ts:3 | the group captures `s[j..e]` exactly when it is the longest `0x` hex run where one starts, and otherwise the longest decimal run: the hex alternative wins whenever it applies |
| MoveLens.AbortCodeAtMatchesAt | backend/src/movelens.ts:3 | the scanner reports a capture at a position exactly when the whole expression matches there |
| MoveLens.AbortCodeAtCaptures | backend/src/movelens.ts:3 | the capture at a position is exactly the greedy group capture after some match of the prefix |
| MoveLens.AbortHitsAreMatches | backend/src/movelens.ts:3 | the search sees nothing at a position exactly when the expression does not match there |
| MoveLens.FirstAbortCodeNone | backend/src/movelens.ts:101-102 | `match` returns null exactly when the expression matches at no position |
| MoveLens.FirstAbortCodeIsFirstMatch | backend/src/movelens.ts:101-102 | the code found comes from a match at a position before which the expression matches nowhere, and is that match's greedy group capture |
| MoveLens.HexAbortCodeExample | backend/src/movelens.ts:3 | "Abort Code: 0x1F" captures "0x1F": keywords ignore case, and the hex alternative is tried first |
| MoveLens.DecimalAbortCodeExample | backend/src/movelens.ts:3 | "ABORT  CODE=7" captures "7": any white space between the words, and `=` for `:` |
| MoveLens.MissingSeparatorExample | backend/src/movelens.ts:3 | "abortcode 5" has no match, because the `:` or `=` separator is required |
| MoveLens.AbortCodeText | backend/src/movelens.ts:120 | `abort_code` is "unknown" exactly when there is no match, and otherwise is the first match's capture |
| MoveLens.Confidence | backend/src/movelens.ts:107-110 | confidence is low exactly for unknown errors, and medium exactly for a move abort without stack frames |
| MoveLens.SummaryText | backend/src/movelens.ts:112 | the summary is "Parsed Move error output" for an unknown error, and otherwise "Detected " plus the category name with spaces for underscores; it has no underscore and is never empty |
| MoveLens.ParseMoveError | backend/src/movelens.ts:97-124 | the record carries the detected category, that category's advice, the confidence rule, the summary ("Parsed Move error output" for an unknown error), the first abort code or "unknown", and the deduplicated match lists |
| MoveLens.StackAndModulesFromPaths | backend/src/movelens.ts:104-105 | `move_stack` and `modules` have no duplicates, hold exactly the frame and module matches, and every element has its shape |
| MoveLens.StackInFirstOccurrenceOrder | backend/src/movelens.ts:104-105 | `move_stack` and `modules` list their paths in the order of first occurrence in the text |
| MoveLens.NoHexPrefixNoPaths | backend/src/movelens.ts:1-2 | a text without `0x` has neither frames nor modules |
| MoveLens.AbortCodeWithoutMoveAbortCategory | backend/src/movelens.ts:3-9 | "abortcode=7" has abort code "7", yet its category is unknown and its confidence low |
| MoveLens.RuleSilent | backend/src/movelens.ts:5-32 | a text made only of the letters of "abortcode", `=` and `7` fires no keyword rule |
| MoveLens.NoCategoryKeyword | backend/src/movelens.ts:5-32 | "abortcode=7" triggers none of the keyword rules |
| Explainers.TxSentencesDistinct | backend/src/explainers.ts:49-71 | the opening, functions, balance, transfers and shared-object sentences are pairwise distinct, and the insufficient-data sentence is none of them |
| Explainers.ExplainTxFallback | backend/src/explainers.ts:48-73 | the sentences, pushed in the source's order, are joined with single spaces |
| Explainers.TxFallbackOpensWithIntent | backend/src/explainers.ts:49-56 | the explanation opens with "Intent: " plus the intent or "Intent unknown", and a period, followed by a space when more sentences follow |
| Explainers.TxFallbackPartCount | backend/src/explainers.ts:56-71 | one sentence per non-empty list, plus the opening one, plus the insufficient-data one |
| Explainers.TxFallbackOptionalParts | backend/src/explainers.ts:57-71 | each optional sentence is present exactly when its list is non-empty; "Insufficient data ..." is present exactly with no calls, no balances and no transfers, and is then last |
| Explainers.TxFallbackOrder | backend/src/explainers.ts:57-68 | the present optional sentences come in the fixed order functions, balances, transfers, shared objects, each right after the opening and the present sentences before it |
| Explainers.TxFallbackOnExtractedFacts | backend/src/index.ts:51-60 | on extracted facts with the inferred intent, the explanation reports insufficient data exactly when the intent is unknown, and opens with that intent |
| Explainers.ExplainErrorFallback | backend/src/explainers.ts:75-87 | the sentences, pushed in the source's order, are joined with single spaces |
| Explainers.ErrorFallbackShape | backend/src/explainers.ts:76-85 | the explanation opens with the summary (or "Move error detected") and a period; one sentence per truthy field; the abort-code sentence comes last when present |
| Explainers.ReportOpening | backend/src/explainers.ts:76-80 | with a summary and a likely cause, the first sentence is the summary and a period, and the second is the cause |
| Explainers.CauseTextOpenings | backend/src/movelens.ts:34-95 | the second character of each likely-cause text is a space or one of `a`, `n`, `h` |
| Explainers.CauseOpening | backend/src/movelens.ts:34-95 | the likely cause for any name has a second character that is not that of the stack or abort-code sentence |
| Explainers.SummaryOpening | backend/src/movelens.ts:112 | the summary for any category has a second character that is not that of the stack or abort-code sentence |
| Explainers.TaggedSentences | backend/src/explainers.ts:76-85 | when summary and cause cannot be mistaken for them, an abort-code sentence for `c` appears exactly when `c` is the report's truthy abort code, a stack sentence for `n` frames appears exactly when the report has `n` frames, and the stack sentence is third |
| Explainers.ParsedReportOpenings | backend/src/movelens.ts:97-124 | a parsed error's summary and likely cause cannot be mistaken for the stack or abort-code sentence |
| Explainers.ErrorFallbackOpensWithSummary | backend/src/index.ts:111-114 | on a parsed error the first sentence is the summary, and the second is the category's likely cause |
| Explainers.ErrorFallbackReportsAbortCode | backend/src/index.ts:111-114 | on a parsed error the sentence for code `c` appears exactly when the text's first abort-code match captures `c`; the abort-code sentence is then the last sentence |
| Explainers.ErrorFallbackReportsStack | backend/src/index.ts:111-114 | on a parsed error a stack sentence appears exactly when the text held a function path, counts exactly the distinct frames, and is the third sentence |

## Left out

- Network, environment and plumbing are not modelled:
  - `rpcCall`, `fetchTransactionBlock` and its retry: network I/O.
  - `resolveRpcUrl`: reads the process environment.
  - `backend/src/anchor.ts`: hashing, blob storage and on-chain signing, all through foreign SDK calls.
  - `backend/src/index.ts`: HTTP routing and payload validation. Only its composition of the core functions appears, in the lemmas citing it.
  - The language-model calls in `backend/src/explainers.ts:5-46`: network I/O.
  - The frontend and `backend/scripts/deploy-move-devnet.ts`: UI, processes and files.
- Text.ParseAmount: models `Number()` on decimal integers with an optional sign only. The JavaScript rules for white space, fractions, exponents, hex literals, "Infinity" and the empty string (which is 0, so incoming) are not modelled. A JSON number as the amount is not modelled either.
- Text.ToLower: folds ASCII letters only, where `toLowerCase` folds all of Unicode. The abort-code expression is case-insensitive without the unicode flag, and folds exactly the ASCII letters.
- Text.Below: compares Unicode code points. `sort` compares UTF-16 code units, so the two orders differ for characters outside the Basic Multilingual Plane.
- SuiRpc.IndexObjectTypes: models the dictionary as a map from string keys. Keys that collide with the prototype properties of a JavaScript object are not modelled.
- Error paths of `extractFacts` on malformed JSON are not modelled; the model keeps only the shapes the code reads, and takes each list as a list:
  - A truthy `objectChanges` or `balanceChanges` that is not iterable throws a TypeError at `backend/src/suiRpc.ts:125` or `backend/src/suiRpc.ts:174`; the same holds for `inputs` at `backend/src/suiRpc.ts:136`. A command list that is not an array counts as absent, by the `Array.isArray` test at `backend/src/suiRpc.ts:90`.
  - A string in those places is iterated character by character.
  - A null element throws when its field is read: `change.objectId` at `backend/src/suiRpc.ts:126`, `change.amount` at `backend/src/suiRpc.ts:175`.
  - A number where a string is expected is read as absent.
- MoveLens.CauseAndFixes: states that every entry has a non-empty cause and at least two fixes. Its ensures does not prove that different categories have different causes; the texts are the table's constants.

## Findings

| source | as written | input that shows it | evidently intended | confidence | as-written member | corrected member |
|---|---|---|---|---|---|---|
| backend/src/suiRpc.ts:205 | `to: change.recipient \|\| formatOwner(change.owner)` stores the raw recipient whenever it is truthy | an object change of type "transferred" whose `recipient` is `{ AddressOwner: "0xb" }`: `to` is that object, not a string, yet the frontend declares `to: string` (frontend/app/page.tsx:14) and renders it as text (frontend/app/page.tsx:190) | `to: formatOwner(change.recipient \|\| change.owner)`, giving "0xb" | not executed | SuiRpc.RecipientObjectNotFormatted | SuiRpc.RecipientName |
