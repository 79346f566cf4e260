# FluidFill document service: placeholder detection and render substitution

This project models two parts of FluidFill's document microservice in Dafny and proves
properties of them.

1. **Placeholder detection and preview** (`apps/doc-service/app/main.py`):
   - the placeholder pattern `\[([^\]]+)\]|(_{3,})`, written out as a left-to-right scanner;
   - snake-case key derivation;
   - the highlighted HTML preview of a paragraph and of the whole block tree (paragraphs, and
     tables whose cells hold blocks again), with its placeholder and paragraph totals;
   - `/parse`'s ordered tally of placeholder keys, labels and occurrence counts;
   - removal of a Markdown code fence from the model's schema reply;
   - normalisation of the `placeholders` list that `/schema` receives.
2. **Render substitution** (`apps/doc-service/app/render_docx.py`):
   - expansion of a mapping key into literal tokens;
   - preparation of case-insensitive literal patterns, where the first entry to claim a token
     wins;
   - sequential find/replace with counting;
   - collapsing a changed paragraph's runs into its first run, in place;
   - the walk over tables, nested tables, section headers and footers;
   - the 5 MiB size guard and the `_filled.docx` output name.

Each module corresponds to one function or group of functions of the source:

| module | file | models |
|---|---|---|
| `Text` | text.dfy | ASCII `str.isspace`, `\w`, `strip`, `split()`, `join`, `lower`, `find` |
| `Html` | html.dfy | `html.escape` (five characters) and the `\n` → `<br />` replacement |
| `PlaceholderScan` | placeholder_scan.dfy | `PLACEHOLDER_PATTERN.finditer` |
| `SnakeCase` | snake_case.dfy | `_to_snake_case` |
| `Highlight` | highlight.dfy | `_highlight_placeholders` |
| `Docx` | docx.dfy | the block tree and `_iter_all_paragraphs` |
| `Preview` | preview.dfy | `_render_paragraph`, `_render_table`, `_render_blocks` |
| `Extract` | extract.dfy | `extract_placeholders` |
| `StripMarkdown` | strip_markdown.dfy | `_strip_md`, `str.split(sep, maxsplit)` |
| `SchemaPayload` | schema_payload.dfy | the item loop of `schema_endpoint`, `int(...)` |
| `Variants` | variants.dfy | `_expand_placeholder_variants` |
| `Patterns`, `PatternOrder` | patterns.dfy, pattern_order.dfy | `_prepare_patterns` |
| `Substitute` | substitute.dfy | `pattern.subn`, `_replace_in_text` |
| `ReplaceDocx` | replace_docx.dfy | `_replace_in_paragraph`, `_replace_in_table` |
| `RenderDocx` | render_docx.dfy | `render_docx_from_b64` |

The loops of the source are methods with loop invariants. Each method is proved equal to a
specification function, and the lemmas state the properties of that function.
- `_replace_in_paragraph` overwrites run texts in place, so a paragraph is a class
  `ReplaceDocx.Paragraph` with a `runs` field.
- `_render_blocks` appends to a caller's list, modelled as the class `Preview.HtmlParts`.
- Everything else works on values.

How `_expand_placeholder_variants` treats some keys:
- A key with a label and a blank, such as `Signature ____`, yields only `[Signature]`.
- A bracketed key such as `[DATE____]` yields only itself. The inner text is added only when
  it consists entirely of underscores.
- A key's tokens are not unioned across several rules. The first rule that applies returns.

## Model

| member | source | states |
|---|---|---|
| PlaceholderScan.MatchAt | apps/doc-service/app/main.py:90 | a match tried at position i starts at i, is at least three characters long and stays inside the text; the bracket alternative is tried first |
| PlaceholderScan.ScanFrom | apps/doc-service/app/main.py:90 | `finditer` yields matches left to right, each starting at or after the previous one's end and at least three long |
| PlaceholderScan.ScanWellFormed | apps/doc-service/app/main.py:90 | every match is either `[`, non-empty inner text without `]`, `]`; or a run of at least three `_` not followed by `_` |
| PlaceholderScan.ScanDisjoint | apps/doc-service/app/main.py:136 | matches are in increasing order and no text position lies in two of them, so underscores inside a bracket match never form a blank |
| PlaceholderScan.ScanLeftmost | apps/doc-service/app/main.py:136 | a position not covered by any reported match is one where the pattern does not match |
| PlaceholderScan.ScanBlanksMaximal | apps/doc-service/app/main.py:90 | every reported blank is a maximal run of underscores: preceded and followed by something other than `_` |
| PlaceholderScan.ReassembleIsText | apps/doc-service/app/main.py:136-161 | the gaps between matches and the matches themselves put back together give the text exactly |
| SnakeCase.SnakeCaseChars | apps/doc-service/app/main.py:105-108 | the key contains only lower-case word characters and `_`: no whitespace, no upper case |
| SnakeCase.SnakeCaseEmpty | apps/doc-service/app/main.py:105-108 | the key is empty exactly when the input has no word character |
| SnakeCase.SnakeCaseOfSnake | apps/doc-service/app/main.py:105-108 | a string of lower-case word characters is its own key |
| SnakeCase.SnakeCaseIdempotent | apps/doc-service/app/main.py:105-108 | deriving a key from a key changes nothing |
| Html.UnescapeEscape | apps/doc-service/app/main.py:137 | HTML escaping is lossless: decoding the escaped text gives the text back |
| Html.BrNewlinesRemovesAll | apps/doc-service/app/main.py:162 | after the `<br />` substitution no line break is left |
| Highlight.MatchHtml | apps/doc-service/app/main.py:138-158 | one match's HTML: a blank is wrapped under key `blank`, a bracket with a non-empty key is wrapped under that key, one with an empty key is emitted escaped and unwrapped; only the wrapped ones count |
| Highlight.HighlightPlaceholders | apps/doc-service/app/main.py:127-163 | the loop's result equals the gaps (escaped) and matches (as above) joined in order with newlines as `<br />`, and the count of counted matches; empty text gives `("", 0)` |
| Highlight.HighlightedNoNewline | apps/doc-service/app/main.py:162 | the highlighted text contains no line break |
| Highlight.HighlightedBlank | apps/doc-service/app/main.py:161-162 | the highlighted text is all whitespace exactly when the paragraph text is whitespace without line breaks |
| Highlight.HighlightedWithoutPlaceholders | apps/doc-service/app/main.py:137-143 | with nothing counted, the preview is the whole text escaped, with `<br />` for line breaks: uncounted brackets are escaped verbatim and unwrapped |
| Preview.RenderParagraph | apps/doc-service/app/main.py:166-174 | returns the paragraph HTML of the joined run texts and passes through the highlight count |
| Preview.ParagraphHtmlBlank | apps/doc-service/app/main.py:169-174 | the paragraph is the `empty-line` paragraph exactly when its text is whitespace without line breaks; otherwise it is `<p>` + highlighted text + `</p>` |
| Preview.ParagraphHtmlNoNewline | apps/doc-service/app/main.py:162-174 | a rendered paragraph is one line |
| Preview.CellContentNotBlank | apps/doc-service/app/main.py:189 | a table cell's content is never blank and has no surrounding whitespace (`&nbsp;` stands in) |
| Preview.RenderCell | apps/doc-service/app/main.py:184-190 | a cell renders its blocks into a fresh list and reports their placeholder sum and paragraph count |
| Preview.RenderRow | apps/doc-service/app/main.py:182-191 | a row's HTML is its cells' HTML in order; its totals are the sums over all paragraphs of its cells |
| Preview.RenderTable | apps/doc-service/app/main.py:177-194 | the placeholder total is the sum of the highlight counts of every paragraph in the table, nested ones included, and the paragraph total is their number |
| Preview.RenderBlock | apps/doc-service/app/main.py:201-211 | a paragraph contributes its count and one paragraph; a table contributes its totals |
| Preview.RenderBlocks | apps/doc-service/app/main.py:197-213 | appends one HTML string per block to the caller's list, keeping what was there, and returns the placeholder sum and the number of all paragraphs, including those in nested table cells |
| Docx.FlatParagraphs | apps/doc-service/app/main.py:216-223 | without tables, the paragraphs walked are exactly the blocks, in order |
| Extract.MatchKey | apps/doc-service/app/main.py:237-248 | a blank is filed as `blank`/`Blank`; a bracket under the snake key of its whitespace-normalised inner text, and skipped when that text or key is empty |
| Extract.Record | apps/doc-service/app/main.py:249-252 | `setdefault` then `+= 1`: a new key is appended with its label and count 1; a known key keeps its label and gains one |
| Extract.TallyParagraph | apps/doc-service/app/main.py:236-252 | the inner loop records every counted match of one paragraph in order |
| Extract.ExtractPlaceholders | apps/doc-service/app/main.py:226-257 | the result is the ordered tally of all counted matches of all non-empty paragraphs, nested ones included |
| Extract.TallyFacts | apps/doc-service/app/main.py:249-252 | after any sequence of occurrences the dictionary holds each key once, in first-appearance order, with its first label and its count, and the counts sum to the number of occurrences |
| Extract.ExtractedKeys | apps/doc-service/app/main.py:249-256 | the output keys are unique and are exactly the keys of the counted matches |
| Extract.ExtractedEntries | apps/doc-service/app/main.py:249-256 | each label is that of the key's first occurrence, and each count is the number of its occurrences, at least 1 |
| Extract.ExtractedOrder | apps/doc-service/app/main.py:227 | keys are listed in order of first appearance |
| Extract.ExtractedTotal | apps/doc-service/app/main.py:249-256 | the counts sum to the number of counted matches |
| Extract.OccurrenceIffCounted | apps/doc-service/app/main.py:237-244 | a match is tallied by `/parse` exactly when the preview counts it: the two skip conditions agree |
| Extract.OccurrenceKey | apps/doc-service/app/main.py:238-247 | every tallied key is a non-empty snake-case key, and every blank is `blank`/`Blank` |
| Extract.ParagraphOccurrencesCount | apps/doc-service/app/main.py:229-236 | a paragraph yields as many occurrences as its preview counts |
| Extract.ExtractTotalMatchesPreview | apps/doc-service/app/main.py:226-257 | the occurrence counts of `/parse` sum to the preview's placeholder total over the same paragraphs |
| StripMarkdown.SplitMaxJoin | apps/doc-service/app/main.py:312 | `split(sep, n)` loses nothing: the parts joined with the separator give the text back |
| StripMarkdown.SplitMaxParts | apps/doc-service/app/main.py:312 | no part but the last contains the separator, nor the last when fewer cuts than allowed were made |
| StripMarkdown.StripMdUnfenced | apps/doc-service/app/main.py:310-319 | a reply that does not start with a fence after trimming is returned trimmed |
| StripMarkdown.StripMdJsonFence | apps/doc-service/app/main.py:311-318 | a reply fenced as `` ```json `` newline, body, newline, `` ``` `` gives the body trimmed |
| StripMarkdown.StripMdTrimmed | apps/doc-service/app/main.py:309-319 | the result is always trimmed |
| StripMarkdown.StripMdFenced | apps/doc-service/app/main.py:312-318 | what is left of a fenced reply contains no fence |
| StripMarkdown.StripMdIdempotent | apps/doc-service/app/main.py:309-319 | stripping twice is stripping once |
| SchemaPayload.NameValue | apps/doc-service/app/main.py:421 | the chosen name is always truthy |
| SchemaPayload.Truncate | apps/doc-service/app/main.py:424 | `int` of a finite float truncates toward zero |
| SchemaPayload.IntOf | apps/doc-service/app/main.py:424 | `int` overflows exactly on an infinite float; every other failure is a `TypeError` or `ValueError` |
| SchemaPayload.Occurrences | apps/doc-service/app/main.py:422-426 | the occurrence count is at least 1, and the count fails exactly when the value is infinite |
| SchemaPayload.OccurrencesCases | apps/doc-service/app/main.py:422-426 | absent or unconvertible gives 1; a converted value is kept when at least 1 and raised to 1 otherwise |
| SchemaPayload.NonFiniteOccurrences | apps/doc-service/app/main.py:422-426 | `NaN` counts once; an infinite count fails its item, whatever its name, and the whole list |
| SchemaPayload.ParseIntDecimal | apps/doc-service/app/main.py:424 | `int` parses a decimal numeral of at most 4300 digits back to its value, whitespace around allowed |
| SchemaPayload.ParseIntTooLong | apps/doc-service/app/main.py:424-426 | a numeral of more than 4300 digits is refused with a caught `ValueError`, so the count is 1 |
| SchemaPayload.ParseIntRefuses | apps/doc-service/app/main.py:424-426 | a blank string, or one with a character outside whitespace, signs, digits and `_`, is refused (count falls back to 1) |
| SchemaPayload.NormalizeItemName | apps/doc-service/app/main.py:421-433 | a record's name is the first truthy of `name`, `key`, else `UNKNOWN`; its count is the normalised count |
| SchemaPayload.NormalizeObject | apps/doc-service/app/main.py:419-433 | the loop body builds the record for one object item, or fails on an infinite count or on its validation |
| SchemaPayload.NormalizeItems | apps/doc-service/app/main.py:417-433 | the loop's result is the list of normalised object items in order, or the first validation failure |
| SchemaPayload.NormalizedObjects | apps/doc-service/app/main.py:418-420 | on success there is one record per object item, in order, and non-objects are skipped |
| SchemaPayload.NormalizedFails | apps/doc-service/app/main.py:427-433 | the list fails exactly when some object item fails, and then with the first such failure |
| SchemaPayload.PayloadStringSkipped | apps/doc-service/app/main.py:416 | a string in place of the list iterates to characters, all skipped |
| Variants.Dedup | apps/doc-service/app/render_docx.py:27 | `dict.fromkeys` leaves no duplicates and never lengthens the list |
| Variants.DedupMembers | apps/doc-service/app/render_docx.py:27 | it keeps exactly the elements of the list |
| Variants.ExpandVariants | apps/doc-service/app/render_docx.py:14-39 | a key yields at most two tokens, without duplicates |
| Variants.ExpandBlank | apps/doc-service/app/render_docx.py:16-18 | an empty or whitespace-only key yields nothing |
| Variants.ExpandBareWord | apps/doc-service/app/render_docx.py:38-39 | a key with no brackets, no space and no underscore yields nothing |
| Variants.ExpandBracketed | apps/doc-service/app/render_docx.py:22-27 | a bracketed key yields itself first, and its trimmed inner text second exactly when that is a run of three or more underscores; nothing else |
| Variants.ExpandUnderscores | apps/doc-service/app/render_docx.py:29-30 | an underscore run yields exactly itself |
| Variants.ExpandDisplay | apps/doc-service/app/render_docx.py:32-36 | any other key with a space or underscore yields `[` + trimmed display text + `]`, or nothing when that is blank |
| Variants.ExpandTrimmed | apps/doc-service/app/render_docx.py:14-39 | every token is non-empty and has no surrounding whitespace |
| Variants.ExpandLabelWithBlank | apps/doc-service/app/render_docx.py:32-36 | `Signature ____` yields only `[Signature]` |
| Variants.ExpandSnakeKey | apps/doc-service/app/render_docx.py:32-36 | `COMPANY_NAME` yields `[COMPANY NAME]` |
| Patterns.SortTokensSorted | apps/doc-service/app/render_docx.py:50 | the stable sort orders tokens bracketed first and then longest first, and is a permutation |
| Patterns.SortVariants | apps/doc-service/app/render_docx.py:49-50 | a key's tokens already come in sort order |
| Patterns.AddTokens | apps/doc-service/app/render_docx.py:51-56 | the token loop appends a pattern for each stripped token that is non-empty and unseen, and keeps `seen` equal to the claimed tokens |
| Patterns.PreparePatterns | apps/doc-service/app/render_docx.py:42-57 | the loop builds the pattern list entry by entry, skipping entries whose value is null |
| Patterns.NoneSkipped | apps/doc-service/app/render_docx.py:46-47 | an entry whose value is null adds no pattern |
| Patterns.PreparedDistinct | apps/doc-service/app/render_docx.py:44-56 | no token appears in two patterns, and no token is empty |
| Patterns.PreparedTokens | apps/doc-service/app/render_docx.py:45-56 | the patterns claim exactly the non-empty stripped tokens of the entries with a value |
| PatternOrder.PreparedFirstWins | apps/doc-service/app/render_docx.py:53-56 | a token's pattern carries the value of the first entry that claims it |
| PatternOrder.EntryOrdered | apps/doc-service/app/render_docx.py:50-56 | within one entry, patterns come bracketed first, then longer before shorter |
| Substitute.ReplaceInText | apps/doc-service/app/render_docx.py:60-66 | the loop applies the patterns in order to the progressively updated text and adds up their counts |
| Substitute.SubNone | apps/doc-service/app/render_docx.py:64 | `subn` replaces nothing exactly when the token does not occur (ignoring case), and then the text is unchanged |
| Substitute.SubLength | apps/doc-service/app/render_docx.py:64 | each replacement swaps one token's length for the value's length |
| Substitute.ReplaceAllAppend | apps/doc-service/app/render_docx.py:63-65 | applying a list is applying its first part and then the rest to the result, and the totals add |
| Substitute.ReplaceAllNone | apps/doc-service/app/render_docx.py:60-66 | the total is 0 exactly when no token occurs in the original text, and then the text is unchanged |
| Substitute.ReplaceAllUntouched | apps/doc-service/app/render_docx.py:60-66 | text without any token passes through unchanged with count 0 |
| Substitute.ChainedReplacement | apps/doc-service/app/render_docx.py:63-64 | a later pattern matches text inserted by an earlier value |
| ReplaceDocx.ReplaceInParagraph | apps/doc-service/app/render_docx.py:69-80 | no runs or empty text: count 0 and nothing changes; a positive count with changed text: the first run holds the new text and the others are emptied; otherwise the runs are untouched |
| ReplaceDocx.ParagraphAfterText | apps/doc-service/app/render_docx.py:75-80 | afterwards the runs joined equal the replaced text, and the number of runs is kept |
| ReplaceDocx.ParagraphUntouched | apps/doc-service/app/render_docx.py:69-80 | a paragraph without any token occurrence is left as it was and counts 0 |
| ReplaceDocx.ParagraphCountZero | apps/doc-service/app/render_docx.py:69-80 | a paragraph reports 0 exactly when no token occurs in its text |
| ReplaceDocx.ParagraphCollapsed | apps/doc-service/app/render_docx.py:76-79 | when the runs change, the first holds the whole replaced text and every other run is empty |
| ReplaceDocx.ReplaceInParagraphs | apps/doc-service/app/render_docx.py:87-88 | each paragraph of a list is rewritten as above, and the counts add up |
| ReplaceDocx.ReplaceInContainer | apps/doc-service/app/render_docx.py:86-90 | a cell's own paragraphs and then its nested tables are rewritten, and the counts add up |
| ReplaceDocx.ReplaceInRow | apps/doc-service/app/render_docx.py:85-90 | each cell of a row, in order |
| ReplaceDocx.ReplaceInTables | apps/doc-service/app/render_docx.py:89-90 | each nested table, in order |
| ReplaceDocx.ReplaceInTable | apps/doc-service/app/render_docx.py:83-91 | every paragraph of the table, nested tables included, is rewritten once, and the total is the sum of their counts |
| RenderDocx.ReplaceInSection | apps/doc-service/app/render_docx.py:112-117 | a section's header paragraphs, then its footer paragraphs |
| RenderDocx.ReplaceInSections | apps/doc-service/app/render_docx.py:111-117 | every section in order |
| RenderDocx.FillDocument | apps/doc-service/app/render_docx.py:106-117 | every paragraph of body, tables, headers and footers ends as `_replace_in_paragraph` leaves it, and the total is the sum of their counts |
| RenderDocx.TotalCountZero | apps/doc-service/app/render_docx.py:106-117 | the total is 0 exactly when no token occurs in any paragraph |
| RenderDocx.Render | apps/doc-service/app/render_docx.py:94-124 | a decoded size above 5·1024·1024 fails with `file_too_large` and changes nothing; otherwise the document is filled with the prepared patterns and the total and filled name are returned |
| RenderDocx.BeforeLastDot | apps/doc-service/app/render_docx.py:122 | `rsplit(".", 1)[0]` is the text before the last dot, or the whole text when there is none |
| RenderDocx.FilledName | apps/doc-service/app/render_docx.py:122-123 | the output name always ends in `_filled.docx` |
| RenderDocx.FilledNameDefault | apps/doc-service/app/render_docx.py:122-123 | a missing or empty name gives `document_filled.docx` |
| RenderDocx.FilledNameExtension | apps/doc-service/app/render_docx.py:122-123 | `b.ext` gives `b_filled.docx`, whatever dots `b` holds |
| RenderDocx.FilledNameNoDot | apps/doc-service/app/render_docx.py:122-123 | a name without a dot keeps its whole text as the base |

## Left out

- The Gemini clients in `apps/doc-service/app/ai_studio.py` and the prompt built for them:
  network I/O. The model's reply is an input to `StripMarkdown.StripMd`.
- The FastAPI plumbing of `main.py` is not modelled. That covers routes, `HTTPException`
  mapping, `asyncio.to_thread`, environment-variable scrubbing and logging, `json.loads`,
  `model_validate`, the `HTML_STYLES` page wrapper and `/dev/ai-studio-ping`.
- The python-docx object model is abstracted.
  - Loading and saving a document and `_iter_block_items` are replaced by a block tree.
  - For the preview and `/parse`, the tree is a `Docx.Block` value.
  - For rendering, it is a tree of `ReplaceDocx.Paragraph` objects, with tables and
    sections on top.
  - Reading `section.header` or `section.footer` adds an empty header or footer part to a
    section that has none, so the saved file can gain empty parts. The model does not
    represent header and footer parts.
  - Mapping keys and values are modelled as strings, with a value possibly null, as the
    declared `Dict[str, str]` says. The `str(...)` conversion of other key or value types
    is not modelled.
- Merged table cells are not modelled. python-docx repeats a merged cell in `row.cells`, so
  its paragraphs would be visited more than once.
- Base64 decoding and encoding (RFC 4648, section 4) are left out. `RenderDocx.Render`
  receives the decoded length.
- RenderDocx.Render: requires every visited paragraph to be a distinct object. Headers and
  footers linked to a previous section share paragraphs in python-docx, and that aliasing is
  not modelled.
- Unicode is not modelled: `\w`, `str.isspace`, `str.lower` and `re.IGNORECASE` are modelled
  on ASCII only, and `html.escape` as the substitution of the five characters `& < > " '`.
- Substitute.Sub: the replacement value is inserted literally. Python's `subn` interprets
  backslash escapes in it, so values are assumed to contain no backslash.
- SchemaPayload.Truncate: a finite float is modelled as the exact real it denotes. The
  rounding of the decimal text to a binary double is not modelled, so a literal with more
  digits than a double holds can truncate to a different integer.
- Extract.ParagraphOccurrencesCount: hyperlink runs are not modelled. The model takes
  `paragraph.text` to be the join of `paragraph.runs`. In python-docx 1.x the text also holds
  the text of hyperlinks, which `runs` leaves out, so a placeholder inside a hyperlink is
  counted by the preview but not by `/parse`.
- Extract.ExtractTotalMatchesPreview: holds only for paragraphs without hyperlinks, for the
  same reason.
- SchemaPayload.NormalizeItem: `int` of a string accepts ASCII digits, signs, single
  underscores and ASCII whitespace only. Unicode digits, and the validation of other
  pydantic field types, are not modelled. The digit limit is the interpreter's default of
  4300; a limit changed through `sys.set_int_max_str_digits` is not modelled.
- SchemaPayload.IntOf: a JSON integer is taken as decoded. The decoder's own digit limit,
  which fails the request before the loop runs, belongs to the body parsing left out above.
- `apps/doc-service/app/models.py` only declares pydantic types, with no behaviour.
- The gateway's mapping resolver, schema and answer upsert, and persistence are not part of
  this model.
