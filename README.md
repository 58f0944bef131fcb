# Portfolio content builder: frontmatter decoder and loaders

A Dafny model of the content side of `admin/build_data.js`, which is a static-site data builder. The model covers the following parts.

- **`parseFrontmatter`** (module `Frontmatter`) takes a document and does two things:
  - It splits the document at its `---` delimiter lines. The model is the backtracking search that the pattern `/^---\s*\n([\s\S]*?)\n---\s*\n/` performs. The opening whitespace is greedy. The header is lazy: the first closing line wins. The closing whitespace is greedy but backs off to a newline.
  - It decodes the header line by line, using a small state machine over three pieces of state: the current key, the block-scalar buffer and the block-scalar flag. The decoded data is a flat map from keys to scalars, numbers and lists.

  The `forEach` and its callback are the methods `DecodeLines` and `VisitLine`. Each is proved against the pure fold `Step`/`ScanFrom`/`Decode`, and all the properties are proved about that fold (module `FrontmatterFacts`).
- **The loaders** (module `Loaders`):
  - `parseProjects` and `parseExperiences` take the directory listing as a parameter. Each is a method with a loop that builds one record per `.md` file. The method is proved equal to a record function followed by the sort.
  - The two sort comparators are modelled with JavaScript's truthiness, `-` on mixed operands and NaN. The sort reads NaN as 0.
  - `parseBio` and `parseSkills` are modelled with their fallbacks.
- **`Array.prototype.sort`** (module `Sorting`) is modelled as a stable insertion sort. When a comparator orders the elements consistently by an integer key, every stable sort returns the same sequence. For such comparators the model proves that the result is a permutation, is sorted and is stable (`Sorting.SortWithSpec`).
- **Loader properties** (module `LoaderFacts`) covers:
  - ids and their distinctness;
  - record contents;
  - the comparators' antisymmetry;
  - a concrete set of three projects on which the projects comparator is inconsistent;
  - the sorted order in the cases where the comparators are consistent.

Two behaviours of the code are easy to miss:
- `true` and `false` decode to the numbers 1 and 0, not to booleans. The numeric test on line 66 of `admin/build_data.js` turns the booleans into numbers (`FrontmatterFacts.BooleansBecomeNumbers`).
- A record's id can be empty. A file named exactly `.md` gets the id `""` (`LoaderFacts.EmptyIdOnlyForBareSuffix`).

## Model

| member | source | states |
|---|---|---|
| Text.Trim | admin/build_data.js:92 | `trim()` leaves nothing exactly when the text is all whitespace; otherwise the result neither starts nor ends with whitespace |
| Text.SplitLines | admin/build_data.js:17 | `split('\n')` returns at least one piece; no piece holds a newline; joining the pieces with newlines gives the text back |
| Text.StripQuotes | admin/build_data.js:72 | the quote-stripping replacement removes at most one character at each end; the four lemmas below say exactly which characters it removes in each case |
| Text.StripQuotesUnwraps | admin/build_data.js:72 | a value with a quote at each end loses exactly those two quotes, whichever quote characters they are |
| Text.StripQuotesLeading | admin/build_data.js:72 | a leading quote with no trailing quote is removed alone, and a lone quote character becomes empty text |
| Text.StripQuotesTrailing | admin/build_data.js:72 | a trailing quote with no leading quote is removed alone |
| Text.StripQuotesKeepsUnquoted | admin/build_data.js:72 | a value with no quote at either end is left unchanged |
| Text.NumeralRoundTrip | admin/build_data.js:66-67 | every integer written in decimal is a numeral, and `Number()` reads it back as the same integer |
| Frontmatter.Split | admin/build_data.js:6-7 | a match has an opening delimiter line, then a header with no closing line inside it, then a closing line; which opening line it is, is stated by `SplitIsFirstMatch` |
| Frontmatter.OpenSearchLongestFirst | admin/build_data.js:6 | the greedy opening whitespace: no opening line longer than the one found has a closing line after it |
| Frontmatter.SplitIsFirstMatch | admin/build_data.js:6-7 | a match is the one a backtracking engine reports: the longest opening line that has a closing line after it, then the first closing line after that opening |
| Frontmatter.FirstMatchUnique | admin/build_data.js:6-7 | only one match has that property, so header and body are determined by the text |
| Frontmatter.SplitFindsDelimiters | admin/build_data.js:6-11 | the pattern matches if and only if the text opens with a `---` line and a later `\n---` line ends in a newline |
| Frontmatter.CloseSearch | admin/build_data.js:6 | the lazy header group stops at the first closing delimiter line, and there is none before it |
| Frontmatter.OpenSearch | admin/build_data.js:6 | a match found from an opening line at most `p` has no closing line inside its header; no match means no opening line up to `p` has a closing line after it |
| Frontmatter.ParseFrontmatter | admin/build_data.js:5-93 | the decoder returns exactly the data and body of `FrontmatterOf` |
| Frontmatter.DecodeLines | admin/build_data.js:16-90 | the loop over the header lines, with the final block-scalar save, computes `Decode(lines)` |
| Frontmatter.VisitLine | admin/build_data.js:23-85 | the `forEach` callback moves the scan state exactly as `Step` does for one line |
| FrontmatterFacts.NoDelimitersNoData | admin/build_data.js:9-11 | with no opening/closing delimiter pair, the data is empty and the text comes back as it is, untrimmed |
| FrontmatterFacts.ClosingDashesNeedNewline | admin/build_data.js:6-11 | a `\n---` only at the very end of the text, with no newline after it, gives no header |
| FrontmatterFacts.BodyFollowsClosingDashes | admin/build_data.js:14 | on a match, the body is the text after the closing `---`, trimmed at both ends |
| FrontmatterFacts.KeyLineOf | admin/build_data.js:34 | `word:` followed by a value with no line terminator is a key line with that key and the value's leading spaces removed |
| FrontmatterFacts.KeyLineShape | admin/build_data.js:34 | every key line starts at column 0 with a word key and a colon |
| FrontmatterFacts.StepKeyLine | admin/build_data.js:25-35 | a key line is never taken for a list item |
| FrontmatterFacts.BooleansBecomeNumbers | admin/build_data.js:62-67 | `true` decodes to 1 and `false` to 0 |
| FrontmatterFacts.IntegerScalar | admin/build_data.js:66-67 | a decimal integer decodes to that number |
| FrontmatterFacts.QuotedIntegerStaysText | admin/build_data.js:66-72 | a quoted numeral is not a number; it decodes to the numeral's text, quotes removed |
| FrontmatterFacts.TextScalar | admin/build_data.js:71-73 | any other value is text with one leading and one trailing quote removed, each independently of the other |
| FrontmatterFacts.LastAssignmentWins | admin/build_data.js:34-75 | a key line that sets a key to a scalar decides that key's value, whatever lines come before it and whatever lines follow it, as long as none of them is a key line for the same key |
| FrontmatterFacts.StepItemLine | admin/build_data.js:25-27 | an item line under a key that holds a list appends its item |
| FrontmatterFacts.ItemsAppend | admin/build_data.js:25-30 | successive item lines append their items in order and change nothing else |
| FrontmatterFacts.ListAfterEmptyKey | admin/build_data.js:25-59 | `key:` followed by item lines decodes to that key holding exactly those items, in order |
| FrontmatterFacts.EmptyKeyCollectsItems | admin/build_data.js:25-59 | anywhere in the header, `key:` followed by item lines, then another key line or the end of the header, leaves that key holding exactly those items, as long as no later key line is for the same key |
| FrontmatterFacts.ItemsNeedAList | admin/build_data.js:26-30 | an item line is dropped when there is no current key or the key does not hold a list |
| FrontmatterFacts.ItemsWithoutKeyDropped | admin/build_data.js:25-30 | item lines before any key line leave the data empty |
| FrontmatterFacts.StepInBlock | admin/build_data.js:81-84 | inside a block scalar, a non-blank line that is not an item is appended to the buffer, and nothing else changes but the placeholder list |
| FrontmatterFacts.BlockBody | admin/build_data.js:81-84 | across a run of non-key lines, the buffer gains the kept lines joined by newlines |
| FrontmatterFacts.BlockStart | admin/build_data.js:44-51 | a key line whose value is the pipe character opens a block with an empty buffer and a placeholder empty list |
| FrontmatterFacts.BlockScalarAtEnd | admin/build_data.js:44-90 | a block scalar at the end of the header decodes to its non-blank, non-item lines, leading whitespace removed, joined by newlines and trimmed |
| FrontmatterFacts.BlockScalarEndsAtKey | admin/build_data.js:36-51 | a block scalar ends at the next column-0 key line, which stores the block's text before setting its own key |
| FrontmatterFacts.BlockScalarThenRest | admin/build_data.js:34-90 | a block scalar followed by another key line and any further lines decodes to its non-blank, non-item lines, leading whitespace removed, joined by newlines and trimmed, as long as no later key line is for the block's key |
| FrontmatterFacts.SetKeyStoresBlock | admin/build_data.js:36-41 | a key line inside a block stores the trimmed buffer under the block's key |
| FrontmatterFacts.DecodedKeysAreKeyLines | admin/build_data.js:34-75 | the decoded keys are exactly the keys of the column-0 key lines |
| FrontmatterFacts.OtherLinesIgnored | admin/build_data.js:81-84 | outside a block, a line that is neither an item nor a key line changes nothing |
| FrontmatterFacts.IndentedKeyIgnored | admin/build_data.js:34 | an indented `key: value` line outside a block is ignored |
| Sorting.SortWith | admin/build_data.js:119 | the sorted sequence is a permutation of its input |
| Sorting.SortWithSpec | admin/build_data.js:119-124 | under a comparator consistent with a key (positive, negative or zero exactly as the first key is greater, smaller or equal), the result is a permutation, sorted by the key, and elements with equal keys keep their input order |
| Sorting.SortWithAllEqual | admin/build_data.js:123 | a comparator that returns 0 for every two elements leaves the order unchanged |
| Loaders.IdOf | admin/build_data.js:112 | the id followed by `.md` is the file name |
| Loaders.LoadProjects | admin/build_data.js:96-128 | no directory gives no projects; otherwise the records of the `.md` files, in listing order, are sorted by the projects comparator |
| Loaders.LoadExperiences | admin/build_data.js:131-161 | no directory gives no experiences; otherwise the records of the `.md` files, with the body backfilled, are sorted by the experiences comparator |
| Loaders.Bio | admin/build_data.js:164-177 | no bio file gives exactly empty `about` and `tagline` |
| Loaders.Skills | admin/build_data.js:180-193 | no skills file gives an empty `skills` list; the parsed document is returned, unchanged, exactly when it has a non-null `skills`, and otherwise reading its length throws |
| LoaderFacts.EmptyIdOnlyForBareSuffix | admin/build_data.js:112 | the id is empty exactly for the file named `.md` |
| LoaderFacts.IdOfInjective | admin/build_data.js:112 | different file names give different ids |
| LoaderFacts.MarkdownNamesDistinct | admin/build_data.js:105-106 | the `.md` names of a listing without repeats have no repeats |
| LoaderFacts.ProjectIds | admin/build_data.js:105-116 | there is one project record per `.md` file, in listing order, and each record's id comes from its file name, overriding any header `id` |
| LoaderFacts.ExperienceIds | admin/build_data.js:140-154 | there is one experience record per `.md` file, in listing order, and each record's id comes from its file name |
| LoaderFacts.ProjectIdsDistinct | admin/build_data.js:105-116 | project ids are pairwise distinct |
| LoaderFacts.ProjectRecordFields | admin/build_data.js:109-114 | a project record is the header data plus `id`, with nothing else changed |
| LoaderFacts.ExperienceRecordFields | admin/build_data.js:144-151 | `description` is replaced by the body exactly when it is falsy and the body is non-empty; only `id` and `description` can differ from the header |
| LoaderFacts.EmptyListDescriptionKept | admin/build_data.js:147-149 | an empty-list `description` is truthy and is kept |
| LoaderFacts.ExperienceWithoutHeader | admin/build_data.js:144-151 | a file with no header becomes its whole, untrimmed text as `description`, plus `id` |
| LoaderFacts.BioWithoutHeader | admin/build_data.js:172-176 | an existing bio file with no header gives empty data, not the fallback |
| LoaderFacts.ProjectOrderAntisymmetric | admin/build_data.js:119-124 | swapping the operands negates the projects comparator |
| LoaderFacts.ExperienceOrderAntisymmetric | admin/build_data.js:157 | swapping the operands negates the experiences comparator |
| LoaderFacts.ListOperand | admin/build_data.js:120 | an empty list `order` reads as 0; a list with two or more items reads as NaN |
| LoaderFacts.FalsyOrderIs999 | admin/build_data.js:157 | a missing, empty or zero `order` counts as 999 |
| LoaderFacts.ProjectComparatorCycle | admin/build_data.js:119-124 | three concrete projects: b comes before a, a comes before c, and b ties with c |
| LoaderFacts.ProjectComparatorInconsistent | admin/build_data.js:119-124 | no integer key orders those three as the comparator does, not even in the weaker sense that the comparator is positive exactly when the first key is greater, so their order depends on the sort algorithm |
| LoaderFacts.ProjectsByOrder | admin/build_data.js:119-120 | when every project has a truthy numeric `order`, the projects come out sorted by `order` as a permutation, with ties in listing order |
| LoaderFacts.ProjectsFeaturedFirst | admin/build_data.js:121-123 | when no project has a truthy `order`, featured projects come first, and each group keeps listing order |
| LoaderFacts.ExperiencesByOrder | admin/build_data.js:157 | when every `order`-or-999 value is numeric, the experiences come out sorted by it as a permutation, with ties in listing order |

## Left out

- File system access (`existsSync`, `readdirSync`, `readFileSync`) is replaced by parameters: whether the directory or file exists, and the listing as (name, text) pairs in listing order.
  - A read that fails is not modelled, for example an entry `x.md` that is a directory.
- `JSON.parse` of the skills file is a parameter: the parsed document. A malformed file, which makes the parse throw, is not modelled.
- Not modelled at all:
  - console output and `process.exit`;
  - the `buildData` assembly with its ISO timestamp;
  - `mkdirSync`/`writeFileSync` and the `JSON.stringify` output.
- The `inList` flag is not modelled: it is written but never read.
- Frontmatter.Coerce: only optionally signed decimal integers become numbers. The model keeps other forms that `Number()` accepts as text: fractions, exponents, hexadecimal `0x…`, binary `0b…`, octal `0o…`, `Infinity`. Numbers are unbounded integers, so rounding beyond 2^53 is not modelled.
- Loaders.StringToNumber: reads only blank text and optionally signed decimal integers. Every other string is NaN, including those that `Number()` reads as non-integers.
- Keys such as `__proto__`, which JavaScript objects treat specially, are ordinary map keys here.
- Strings are sequences of Unicode scalar values, while JavaScript strings are sequences of UTF-16 code units. Text outside the Basic Multilingual Plane is therefore one character here and two code units there. This changes no result: every index the code takes lands on an ASCII `-`, space, newline or quote, and `slice`, `split` and `replace` at such characters cut the same text either way. Whitespace is the full ECMAScript `\s` set.
- The decoded data is a map, so the key order of the JavaScript object is lost. JavaScript orders an object's keys by insertion, except that integer-like keys such as `2024` come first, in ascending order; `JSON.stringify` writes the keys in that order.
- Loaders.LoadProjects: the sort is modelled as a value function, not as the in-place `Array.prototype.sort`.
  - The sort result is proved only where the comparator is consistent: every project has a truthy numeric `order`, or no project has a truthy `order`.
  - For mixed sets the engine decides the order. `LoaderFacts.ProjectComparatorInconsistent` shows why.
- Loaders.LoadExperiences: the sort is likewise a value function. Its result is proved only when every `order || 999` is numeric; a NaN order makes the comparator inconsistent.
- Loaders.Skills: of `JSON.parse`'s document it keeps only what the log line reads. Numbers are integers, and the document is otherwise passed through unchanged.
