# DrugBank table extraction, modelled in Dafny

`my_lib.py` turns a parsed DrugBank XML document into pandas tables. This
project models the library's logic on an already-parsed element tree:

- the record extractors (drugs, synonyms, products, pathways, targets, approval
  status, interactions and prices), each walking the document in order;
- the pathway membership tables: `append_pathway_drugs`, `extract_pathway_ids`
  and `explode_pathways`;
- the approval summary, `summarise_drug_approval_status`;
- the price filter, `filter_prices`, with its number extractor
  `return_the_only_number`, the `\d*\.*\d+` tokenizer and `float()` on a token;
- `int_to_db_string`.

A table is a sequence of row datatypes. A cell that can be null is an `Option`.
An element is `Tree.Element(tag, text, attrib, children)`. The ElementTree
queries the source uses are modelled as functions:

- `find` is `Tree.Find`, with `Text` and `Items` on top of it;
- `iter` is `Tree.Iter`;
- `findall('.//tag')` is `Tree.FindAll`.

Where the source dereferences a child it assumes is present, the model has a
`requires`: the source does not handle a missing child, so the whole run fails
(`AttributeError`, `TypeError` or `IndexError`). `filter_prices` also fails on
data the tables can hold: a null description, or a single number with two or
more dots. The model returns that failure as a `Result`.

Modules, one file each:

| module | file | what it holds |
|---|---|---|
| `Wrappers` | wrappers.dfy | `Option` and `Result` |
| `Seqs` | seqs.dfy | map, filter and flatten on sequences, with their algebra |
| `Strings` | strings.dfy | `str.strip`, `str.lower` and substring search |
| `Decimal` | decimal.dfy | decimal digit strings, `str(n)` and their values |
| `Tree` | tree.dfy | the element tree and the ElementTree queries |
| `Records` | records.dfy | the extractors other than targets |
| `Targets` | targets.dfy | `extract_targets` and the GenAtlas identifier search |
| `Pathways` | pathways.dfy | the pathway membership tables |
| `Approval` | approval.dfy | `summarise_drug_approval_status` |
| `Tokens` | tokens.dfy | `re.findall(r"\d*\.*\d+", s)` and `float()` of a token |
| `Prices` | prices.dfy | `filter_prices` |
| `DbId` | dbid.dfy | `int_to_db_string` and its inverse |

In four places the code does not match what the library is usually taken to do.
The model follows the code each time:

- `extract_targets` emits a row for every target, whether or not it has a
  polypeptide.
- `set_index('id')` in `extract_drugs` and `extract_synonyms` does not reject
  duplicate ids.
- The "unit" filter of `filter_prices` tests the description, not the `unit`
  column.
- The membership lists of `append_pathway_drugs` and `extract_pathway_ids` come
  from `iter()`, which visits every descendant of the pathway's `drugs` element,
  including that element itself.

## Model

| member | source | states |
|---|---|---|
| `Tree.FirstWithTag` | my_lib.py:147 | the position found holds a child with the tag and no earlier child has it; nothing is found exactly when no child has the tag |
| `Tree.Find` | my_lib.py:12-22 | `find(tag)` returns a direct child carrying that tag, or nothing; that it is the first such child is `FindIsFirst` |
| `Tree.FindIsFirst` | my_lib.py:12-22 | what `find(tag)` returns is the first direct child carrying the tag: no earlier child carries it |
| `Tree.FindNoneIff` | my_lib.py:22 | `find(tag)` returns nothing exactly when no direct child carries the tag |
| `Tree.Get` | my_lib.py:149-150 | `get(key)` returns nothing exactly when the attribute is absent, and otherwise the attribute's value |
| `Tree.Iter` | my_lib.py:94 | `iter()` yields the element itself first |
| `Tree.IterMembers` | my_lib.py:94 | `iter()` visits exactly the element itself and the elements below it |
| `Tree.IterAllMembers` | my_lib.py:94 | the walk of a child list visits exactly those children and the elements below them |
| `Tree.FindAll` | my_lib.py:83 | `findall('.//tag')` yields only elements with that tag, in document order; each is a descendant of the root, and every descendant with that tag is among them; there are as many results as tagged elements in the walk, so repeated identical elements are all returned |
| `Tree.FindAllKeepsCopies` | my_lib.py:83 | two identical pathway elements under the root are both returned |
| `Tree.IterAllAppend` | my_lib.py:94 | the preorder walk of two child lists is the two walks one after the other |
| `Strings.Strip` | my_lib.py:19-21 | the stripped text starts and ends with a non-whitespace character and is no longer than the input |
| `Strings.StripShape` | my_lib.py:19-21 | stripping removes only whitespace, only from the two ends, and leaves a contiguous infix |
| `Strings.StripEmptyIff` | my_lib.py:21 | stripping leaves nothing exactly when the text is all whitespace |
| `Strings.StripIdempotent` | my_lib.py:19 | stripping twice is stripping once |
| `Strings.Lower` | my_lib.py:180 | lower-casing keeps the length and maps each character on its own |
| `Strings.LowerEqualsIff` | my_lib.py:180 | a text lower-cases to a label without capitals exactly when it is that label with any of its letters possibly capitalised |
| `Strings.Contains` | my_lib.py:242-245 | `sub in s` holds exactly when `sub` occurs at some position of `s` |
| `Decimal.ToDecimal` | my_lib.py:260 | `str(n)` for a natural `n` is a non-empty digit string with no leading zero unless `n` is 0 |
| `Decimal.FromToDecimal` | my_lib.py:260 | reading back the digits of `str(n)` gives `n` |
| `Decimal.ToDecimalLength` | my_lib.py:260 | `str(n)` has at most `k` digits exactly when `n < 10^k` |
| `Decimal.FromDecimalLeadingZeros` | my_lib.py:260 | the zeros `zfill` inserts do not change the number's value |
| `Decimal.FromDecimalPositive` | my_lib.py:241 | a digit string has a positive value exactly when one of its digits is not 0 |
| `Records.CleanTexts` | my_lib.py:18-22 | a cleaned list has one entry per child with a non-blank text; that each entry is non-empty and stripped is `CleanTextsStripped` |
| `Records.CleanTextsStripped` | my_lib.py:18-22 | every entry of a cleaned list is non-empty, with no whitespace at either end |
| `Records.CleanTextStrippedAt` | my_lib.py:18-22 | the entry at any position of a cleaned list is non-empty and stripped |
| `Records.HasContentIff` | my_lib.py:21 | an entry is dropped exactly when its text is missing or all whitespace |
| `Records.CleanTextsInOrder` | my_lib.py:37-41 | the kept entries are a subsequence of all the stripped texts, so document order is kept |
| `Records.CleanTextsFilterMap` | my_lib.py:37-41 | the cleaned list equals the independent definition "filter the non-blank entries, then strip each" |
| `Records.ExtractDrugs` | my_lib.py:9-29 | a document without drugs gives no table, because `set_index('id')` raises on a frame without columns; otherwise one row per drug in document order; each scalar column is that child's text; food interactions are null exactly when the list element is missing, and otherwise are its cleaned list |
| `Records.ExtractSynonyms` | my_lib.py:32-48 | a document without drugs gives no table, because `set_index('id')` raises; otherwise one row per drug with id, name and the cleaned synonym list |
| `Records.ProductsOf` | my_lib.py:64-65 | a drug contributes one row per product, in order, and each row carries the drug's id |
| `Records.ExtractProducts` | my_lib.py:51-69 | the table has one row per (drug, product) pair, so its length is the sum of the product counts; drug `i`'s rows form one contiguous block, after the blocks of the drugs before it |
| `Records.ExtractPathways` | my_lib.py:72-87 | one row per pathway element anywhere in the document, whose fields are the texts of its first three children, taken by position |
| `Records.GroupLabelsIff` | my_lib.py:180 | a label is in the drug's label set exactly when some group's lower-cased text equals it |
| `Records.ApprovalRowOf` | my_lib.py:170-180 | the id and name of the drug; each status flag is set exactly when some group label, lower-cased, is that status |
| `Records.FlagsFromLabels` | my_lib.py:173-180 | a row whose flags are read off the lower-cased label set sets a flag exactly when some group reads as that status |
| `Records.ExtractDrugApprovalStatus` | my_lib.py:168-183 | one row per drug in document order; flag `s` of row `i` is set exactly when drug `i` is listed in group `s` |
| `Records.InteractionsOf` | my_lib.py:206-207 | a drug contributes one row per listed interaction, in order |
| `Records.ExtractDrugInteractions` | my_lib.py:197-210 | one row per (drug, interaction) pair; drug `i`'s rows form the `i`-th contiguous block, and the total is the sum of the list sizes |
| `Records.ExtractPrices` | my_lib.py:213-225 | a document without price elements gives no table, because the frame has no `cost` column to convert; otherwise one row per price element anywhere in the document, in order, carrying its description, cost and unit texts |
| `Targets.GenAtlasIndex` | my_lib.py:155-158 | the scan stops at the first identifier whose first child reads "GenAtlas", or finds none exactly when no identifier qualifies |
| `Targets.GenAtlasId` | my_lib.py:155-158 | the GenAtlas ID is absent when no identifier qualifies; otherwise it is the second child's text of the first one that does |
| `Targets.GenAtlasIndexIsFirst` | my_lib.py:155-158 | the scan agrees with the reference "the first element of the GenAtlas-filtered list" |
| `Targets.GenAtlasScanBreaks` | my_lib.py:158 | because of `break`, identifiers after the first match are never read and cannot change the result |
| `Targets.PolypeptideOf` | my_lib.py:149-161 | the polypeptide columns are its `source` and `id` attributes and the texts of its name, gene-name and location children, plus the GenAtlas ID |
| `Targets.TargetRowOf` | my_lib.py:143-163 | the row carries the drug id and target id; the polypeptide columns are absent exactly when the target has no polypeptide |
| `Targets.TargetsOf` | my_lib.py:142-163 | a drug contributes one row per target, in order |
| `Targets.ExtractTargets` | my_lib.py:138-165 | one row per (drug, target) pair, including targets without a polypeptide, in contiguous per-drug blocks |
| `Pathways.MemberValues` | my_lib.py:92-96 | a membership list never has more entries than the elements visited |
| `Pathways.MemberValuesFilterMap` | my_lib.py:92-96 | the membership list equals the independent definition "keep the visited elements that have the field, then take each one's field text" |
| `Pathways.MemberValuesAppend` | my_lib.py:94-95 | membership values of two walks are the values of each, concatenated |
| `Pathways.IterAllLeaves` | my_lib.py:94 | walking childless elements visits exactly those elements |
| `Pathways.MemberValuesLeaves` | my_lib.py:95 | childless elements contribute no members |
| `Pathways.MemberValuesOfRecords` | my_lib.py:92-96 | on flat drug records that all carry the field, there is one member per record and each is its field's text |
| `Pathways.MemberFieldsOfStandardList` | my_lib.py:92-96 | on the usual shape of a `drugs` list, a pathway's members are exactly its drug records' texts, in order |
| `Pathways.AppendPathwayDrugs` | my_lib.py:90-103 | the table keeps its rows and gains, in row `k`, the member names of the `k`-th pathway element |
| `Pathways.ExplodeCell` | my_lib.py:133 | a cell always explodes into at least one row |
| `Pathways.Explode` | my_lib.py:118 | an exploded column holds each cell's entries as one contiguous block, in order, with a single null for an empty list |
| `Pathways.ExplodeCons` | my_lib.py:133 | exploding a column is exploding its first cell, then the rest |
| `Pathways.ExplodeWithoutEmptyLists` | my_lib.py:133 | without empty lists, exploding is plain concatenation |
| `Pathways.ExplodePathways` | my_lib.py:132-135 | a table without pathways gives no result, because `drop` raises on the missing columns; otherwise one entry per (pathway, member) pair, the pathway's own columns dropped; a pathway with no members gives one null entry |
| `Pathways.Occurrences` | my_lib.py:120 | a value has a positive count exactly when it occurs |
| `Pathways.OccurrencesAppend` | my_lib.py:120 | counts add up over concatenation |
| `Pathways.ExplodeOccurrences` | my_lib.py:118-120 | the nulls that `explode` adds for empty lists change no count |
| `Pathways.ValueCounts` | my_lib.py:120 | the keys are exactly the non-null values, and each maps to its number of occurrences |
| `Pathways.PathwayIdLists` | my_lib.py:107-114 | one id list per pathway element, being its members' drugbank-id texts |
| `Pathways.ExplodedValueCounts` | my_lib.py:116-120 | counting the exploded id column gives the counts of the concatenated id lists |
| `Pathways.OuterJoin` | my_lib.py:126-128 | the join's keys are the union of both sides, and a missing count is filled with 0 |
| `Pathways.ExtractPathwayIds` | my_lib.py:106-129 | every id of the drug table or of any pathway is a key, and nothing else is; the value is the number of pathway memberships naming it, so a drug no pathway references has count 0 |
| `Approval.FlagCount` | my_lib.py:188-191 | a column sum never exceeds the number of rows |
| `Approval.Summarise` | my_lib.py:186-194 | an empty table summarises to no rows; otherwise five rows in column order, each with its column's name and the number of rows setting that flag |
| `Approval.FlagCountAppend` | my_lib.py:191 | a column sum over a split table is the sum of the parts |
| `Approval.FlagCountOfRows` | my_lib.py:186-191 | on rows whose flags match their drugs' groups, the column sum equals the independent count of drugs in the group |
| `Approval.SummaryCountsGroupMembers` | my_lib.py:168-194 | extracting and then summarising a document without drugs gives no rows; otherwise it gives, for each status, the number of drugs listed in that group |
| `Approval.FlagsOverlap` | my_lib.py:173-177 | a drug both approved and withdrawn is counted under both, so the counts can add up to more than the drugs |
| `Tokens.DigitRunSpan` | my_lib.py:231 | the leading `\d*` takes every digit in a row and cannot be extended |
| `Tokens.DotRunSpan` | my_lib.py:231 | the `\.*` takes every dot in a row and cannot be extended |
| `Tokens.MatchLength` | my_lib.py:231 | the match at a position stays within the text; `MatchIsLongest` and `MatchInPattern` state what it matches |
| `Tokens.MatchInPattern` | my_lib.py:231 | the match at a position is a string of the pattern: digits, dots, then at least one digit |
| `Tokens.SplitWithinMatch` | my_lib.py:231 | no split of the text from a position into digits, dots and digits ends after the match there |
| `Tokens.MatchIsLongest` | my_lib.py:231 | the match at a position is the longest prefix from there that is in the pattern |
| `Tokens.MatchIsToken` | my_lib.py:231 | a match, read on its own, is matched whole |
| `Tokens.Scan` | my_lib.py:231 | every match found from a position on is a whole token |
| `Tokens.FindNumbers` | my_lib.py:231 | every string `findall` returns is a whole token |
| `Tokens.MatchStartsOrdered` | my_lib.py:231 | the scan takes its matches at positions where a match begins, in increasing order, none overlapping a later one |
| `Tokens.ScanLength` | my_lib.py:231 | the scan returns one string per match position |
| `Tokens.ScanAt` | my_lib.py:231 | the scan's `k`-th string is the text of the match at the `k`-th match position |
| `Tokens.ScanAtStarts` | my_lib.py:231 | the scan's strings are exactly the texts of the matches at those positions, in order |
| `Tokens.CoveredAt` | my_lib.py:231 | a position at which a match could begin lies inside one of the matches taken |
| `Tokens.CoveredPastNoMatch` | my_lib.py:231 | with no match at a position, the scan goes on from the next one |
| `Tokens.CoveredByFirst` | my_lib.py:231 | every position inside the match at the scan's start is covered |
| `Tokens.CoveredPastMatch` | my_lib.py:231 | after a match, the scan goes on from the match's end |
| `Tokens.ScanLeftmost` | my_lib.py:231 | no position at which a match could begin is skipped: each lies inside a match taken |
| `Tokens.DigitStartsMatch` | my_lib.py:231 | a match can begin at every digit |
| `Tokens.MatchHasDigit` | my_lib.py:231 | every match holds a digit |
| `Tokens.DigitCovered` | my_lib.py:231 | a digit lies inside one of the matches taken from the start |
| `Tokens.FindNumbersCoversDigits` | my_lib.py:231 | every digit of the text lies inside one of the strings `findall` returns |
| `Tokens.FindNumbersEmptyIff` | my_lib.py:231 | `findall` returns nothing exactly when the text has no digit |
| `Tokens.VersionNumberTokens` | my_lib.py:231 | "1.2.3" splits into "1.2" and ".3" |
| `Tokens.DoubleDotToken` | my_lib.py:231 | "1..5 mg" gives the single token "1..5" |
| `Tokens.UndottedToken` | my_lib.py:234 | a token without a dot is all digits |
| `Tokens.DottedToken` | my_lib.py:234 | a token with dots is digits, then dots, then at least one digit |
| `Tokens.DottedTokenRuns` | my_lib.py:234 | the same, position by position: digits before the first dot, a dot there, and digits after the dot run to the end |
| `Tokens.TokenValue` | my_lib.py:234 | `float()` of a token is non-negative, and fails exactly when the token has two or more dots |
| `Tokens.TokenValuePositive` | my_lib.py:234 | a token's value is positive exactly when one of its digits is not 0 |
| `Tokens.TokenValueExamples` | my_lib.py:234 | "0.25" reads as 0.25 and "12" as 12, while "1..2" does not read |
| `Prices.OnlyNumber` | my_lib.py:229-236 | zero unless there is exactly one number; for a single number, a failure exactly when `float()` rejects it, and otherwise that number's value |
| `Prices.OnlyNumberPositive` | my_lib.py:229-241 | the amount is positive exactly when there is a single, well-formed number with a non-zero digit |
| `Prices.Amount` | my_lib.py:239 | the amount fails with the null-description error exactly when the description is null |
| `Prices.Amounts` | my_lib.py:239 | `apply` succeeds exactly when every row's amount does, and gives them in order; otherwise it fails with the first failing row's error |
| `Prices.ScaleMcg` | my_lib.py:242 | the mcg step divides the amount by 1000 exactly when the description mentions " mcg", and leaves the row otherwise |
| `Prices.Priced` | my_lib.py:239 | the amount column is added row by row |
| `Prices.FilterPrices` | my_lib.py:228-247 | the filter fails exactly when some row's amount cannot be read, with the error of the first such row |
| `Prices.FilterPricesOnePass` | my_lib.py:241-245 | the three stages equal a single filter by both conditions, followed by the mcg scaling |
| `Prices.FilterPricesKept` | my_lib.py:228-247 | every kept row has a positive amount, a unit other than box or kit, and a description without "unit"; its amount is the description's number, divided by 1000 for mcg |
| `Prices.FilterPricesInOrder` | my_lib.py:241-245 | the kept rows are input rows, in input order |
| `Prices.FilterPricesComplete` | my_lib.py:241-245 | every input row meeting both conditions is kept |
| `DbId.Str` | my_lib.py:260 | `str(n)` is the digits of `n` with no leading zero, after a minus sign when `n` is negative, and reads back as `n` |
| `DbId.ZFill` | my_lib.py:260 | `zfill(width)` keeps a text at least `width` long and otherwise pads it to exactly `width` |
| `DbId.ZFillPads` | my_lib.py:260 | the padding is zeros, placed after a leading sign, and the rest of the text follows unchanged |
| `DbId.IntToDbString` | my_lib.py:250-260 | the result starts with "DB"; for 0 to 99999 it is seven characters with digits after "DB"; larger numbers are written out unpadded |
| `DbId.IntToDbStringNatural` | my_lib.py:250-260 | for a natural number: "DB", then zeros up to five characters in all, then all of its digits, never truncated |
| `DbId.ParsePaddedNatural` | my_lib.py:260 | the zero-padded text of a natural number reads back as that number |
| `DbId.ParsePaddedNegative` | my_lib.py:260 | the padded text of a negative number, zeros after the minus sign, reads back as that number |
| `DbId.ParseIntToDbString` | my_lib.py:250-260 | every integer's identifier reads back as that integer (a round trip against the inverse `ParseDbString`) |
| `DbId.IntToDbStringInjective` | my_lib.py:250-260 | distinct integers get distinct identifiers |
| `DbId.IntToDbStringSmallExamples` | my_lib_test.py:19-21 | 0, 1 and 2 give "DB00000", "DB00001" and "DB00002" |
| `DbId.IntToDbStringExample123` | my_lib_test.py:18 | 123 gives "DB00123" |
| `DbId.IntToDbStringExample20000` | my_lib_test.py:22 | 20000 gives "DB20000" |

## Left out

- XML parsing, namespace prefixes and file I/O are not modelled. The model starts from a parsed tree whose tags are local names.
- pandas plumbing is left out: DataFrame construction, `convert_dtypes`, `reset_index`, column renames, and the order of the merged index. Tables are sequences of rows, or a map for the joined counts.
- Floating point is not modelled. Amounts are exact reals, so `float()` rounding and the rounding of the division by 1000 are left out.
- `generate_random` is not part of this model, because it depends on randomness. The plotting helpers are not part of it either.
- Records.ExtractPrices: `cost` stays the element's text, because `astype(float)` on it is a floating-point conversion. A cost that does not parse would abort the run in the source; here it does not.
- Records.ExtractDrugs: `set_index('id')` is modelled as keeping the rows in order. Lookups by id, which return every row with a duplicated id, are left out.
- Strings.Lower: only the ASCII letters A-Z are lower-cased. `str.lower` also lower-cases other Unicode letters; this makes no difference for the five status labels, which are plain ASCII.
- Tokens.FindNumbers: `\d` is the ASCII digits 0-9. Python's `\d` also accepts other Unicode decimal digits.
- Tokens.TokenValue: `float()` also accepts strings that are not tokens (signs, exponents, "inf"). Only tokens are ever passed to it, so only tokens are modelled.
- Pathways.ExtractPathwayIds: the join is a map from id to count. Two things are left out: a null drug id, which pandas would index as a missing label, and the duplicate rows that an outer merge gives for a duplicated drug id.
- Pathways.AppendPathwayDrugs: the table must have one row per pathway element. A table of another length makes pandas raise, unless it has no rows, in which case pandas re-indexes it to the list's length and the pathway columns are null. Both cases are a `requires`, not modelled.
- Records.ExtractPathways: fewer than three children makes `pathway[k]` raise. That case is a `requires`.
- Records.ExtractDrugs, Records.ExtractSynonyms, Records.ExtractPrices and Pathways.ExplodePathways: on a document with nothing to extract, pandas raises a `KeyError`. The model returns `None` there; which exception it is, is not modelled.
- The extractors require every child the source dereferences without a check. A document missing one makes the source raise, and no row is produced.
- Approval.Summarise: the column dtypes of the summary are not modelled. A count is a `nat`.
