# layer-harvester core in Dafny

layer-harvester reads WMS GetCapabilities documents that were saved as JSON. It finds the map layers tagged with a `hazardlookup` keyword, classifies each layer as global or regional from its bounding box, and reads an optional PDF V2 category from its keywords. It then writes the layers to an Excel sheet with row colouring, computed column widths and a Legend sheet. A companion fetcher finds credential files named `.<group>.<env>.env`, parses their `KEY=VALUE` lines and pulls a token out of a login response.

This project models that logic and proves its properties:

- **Scanner** (`find_hazard_layers`): an iterative walk with an explicit stack over a JSON tree.
  - It is proved against a recursive reference definition of what the walk collects, in the order it collects it.
  - Membership is characterised on its own: a node is collected exactly when it is a matching mapping reachable through lists and non-matching mappings only.
- **Bbox** (`is_global_bbox`): the 340°/120° span rule over `float()` conversions that may fail.
- **Extract** (`extract_row`): the record of one layer.
  - Missing pieces take the source's defaults.
  - The PDF tag comes from the first qualifying keyword.
  - The four inputs that make the Python code raise become error results.
- **Sheet** (`write_sheet`): a `Worksheet` class holding a cell map, a width map and a freeze position.
  - Header, rows and widths are written by loops.
  - The read-back property is proved: the sheet column equals the schema-selected field of every record, in row order.
- **Legend** (`write_legend_sheet`): the colour key and the column-description table. The optional extra description is spliced in after "Is Global".
- **Schema** and **Pdf** (`active_columns`, `sort_key`, `collect_pdf_data`):
  - the insertion of the PDF V2 column
  - the total `(bucket, text)` order of PDF types
  - the tally of types in first-occurrence order
- **Fetcher** (`_parse_env_filename`, `parse_env_file`, `_extract_token`, `scan_envs`): the filename parser with its round trip, the line rules of env files, the token priority, and the sorted listing.

Support modules:

- **Wrappers** holds `Option` and `Result`.
- **Text** holds the Python `str` operations used: `lower`, `strip`, `startswith`, `in`, `join`, `rfind`, `partition`, code-point comparison and `{:04d}`.
- **Json** holds the JSON value and `dict.get`, truthiness, `str()` and `float()`.
- **Config** holds the constants of `harvester/core.py`.

The model follows the code where the code and its documentation disagree:

- `extract_row` is documented to degrade gracefully on malformed input. The code still raises in five cases. The model returns an error result for these four:
  - a style `name` that is not a string
  - a `CRS` list element that is not a string
  - a truthy `keyword_list` that cannot be iterated
  - a truthy `abstract` that is not a string

  `Extract.ExtractRow` returns a `Result`, and its contract states which error arises when. The fifth case is a bound that is a JSON integer too large for a double. It is not modelled; see "Left out".
- The docstrings of `harvester/fetcher.py` name the credential file both `.<group>.<environment>.env` and `.<environment>.<group>.env`. The code splits at the last dot and takes the text after it as the environment, and the model does the same.

## Model

| member | source | states |
|---|---|---|
| Scanner.FindHazardLayers | harvester/core.py:89-101 | The result is the given list followed by exactly what the reference walk collects. Prior entries are kept unchanged. Every appended node is a matching mapping reachable from the root. The stack loop terminates, with the total size of the pending nodes as the measure. |
| Scanner.LayersMembership | harvester/core.py:91-101 | A node is collected iff it matches and is reachable through lists and non-matching mappings only, so nothing inside a match is visited. |
| Scanner.LayersAreHazard | harvester/core.py:94-97 | Every collected node is a mapping whose keyword list has an element whose lower-cased string contains "hazardlookup". |
| Scanner.MatchIsLeaf | harvester/core.py:94-99 | A matching mapping yields only itself, and no node is reachable through it. |
| Scanner.LayersItemsAppend | harvester/core.py:92-101 | Pushing more nodes onto the stack puts their layers ahead of the layers of the nodes already pending, because pops come from the end. |
| Scanner.LayersOfValues | harvester/core.py:99 | Pushing a mapping's values yields that mapping's layers in walk order. |
| Scanner.IsHazardLayer | harvester/core.py:94-96 | A node matches iff it is a mapping whose `keyword_list` is a list with an element whose lower-cased `str()` contains "hazardlookup". A missing, falsy or non-list value never matches. |
| Scanner.HasHazardKeyword | harvester/core.py:96 | `any(...)`: some keyword's lower-cased `str()` contains "hazardlookup". |
| Scanner.Layers | harvester/core.py:89-101 | This is the reference definition of the walk. A match yields itself. A non-matching mapping yields its values' layers, last value first, and a list its elements' layers, last element first. Other values yield nothing. |
| Scanner.Reaches | harvester/core.py:92-101 | A node is reached when it is the root, or is reached from an element of a list or from a value of a non-matching mapping. |
| Json.Get | harvester/core.py:95 | `dict.get` finds a value stored under the key, and gives nothing iff the key is absent. |
| Json.SizeItemsAppend | harvester/core.py:99-101 | The size of the stack contents is additive, so replacing a node by its children decreases it. |
| Json.GetOr | harvester/core.py:120-123 | `dict.get(key, default)`: the stored value, or the default when the key is absent. |
| Json.Truthy | harvester/core.py:116 | Python truthiness: `None`, `False`, zero, `""`, `[]` and `{}` are false, and every other value is true. |
| Json.Str | harvester/core.py:134 | `str()`: a string is itself, and every other value is its `repr()`. |
| Json.ToFloat | harvester/core.py:107-108 | `float()`: `True` and `False` give 1.0 and 0.0. A number's text or a string is parsed as a decimal literal after its surrounding whitespace is stripped. `None`, lists and dicts fail. |
| Json.ParseFloatDigits | harvester/core.py:107-108 | `float()` of a digit string is its integer value. |
| Json.ParseFloatNegatedDigits | harvester/core.py:107-108 | `float()` of a minus sign followed by digits is the negated value. |
| Json.ToFloatFailsOnContainers | harvester/core.py:106-111 | `float()` raises on None, lists and dicts. |
| Json.ToFloatFailsOnEmpty | harvester/core.py:107-123 | `float("")` raises, so a missing bound never converts. |
| Bbox.IsGlobalBbox | harvester/core.py:104-111 | The box is global iff all four bounds convert with `float()` and east−west ≥ 340 and north−south ≥ 120. A failed conversion gives false. |
| Bbox.GlobalIffSpans | harvester/core.py:104-109 | With converted bounds, the box is global iff east−west ≥ 340 and north−south ≥ 120. |
| Bbox.UnconvertibleIsNotGlobal | harvester/core.py:110-111 | Any bound that fails conversion makes the box non-global. |
| Bbox.InvertedIsNotGlobal | harvester/core.py:107-109 | West > east or south > north gives a negative span and so false. |
| Bbox.WiderStaysGlobal | harvester/core.py:107-109 | Widening a global box in any direction keeps it global. |
| Bbox.FloatOfInteger | harvester/core.py:107-108 | Integer bounds, as JSON numbers or as strings, convert to their value. |
| Bbox.FloatOfNegatedInteger | harvester/core.py:107-108 | Negated integer bounds, as JSON numbers or as strings, convert to minus their value. |
| Bbox.WorldIsGlobal | harvester/core.py:104-109 | The box (−180, 180, 90, −90) is global. |
| Bbox.SmallBoxIsNotGlobal | harvester/core.py:104-109 | The box ("-10", "10", "10", "-10") is not global. |
| Extract.ExtractRow | harvester/core.py:114-161 | Each of the four errors arises exactly when its field is malformed and no earlier-evaluated field is, in the order styles, CRS, keywords, abstract. A record results iff none is malformed. On success every field is stated: the bounds are the bbox values defaulting to "", `_global` is the bbox rule over them and `is_global` is "Yes" exactly when `_global` holds. `name`, `title` and `queryable` default to "". The abstract is the stripped, falsy-defaulted text. CRS and style names are the ", "-joins of the list's strings and dict styles' names; a non-list CRS is its `str()` and non-list styles give "". The keyword text and the PDF tag are taken from the falsy-defaulted keyword list. |
| Extract.RowError | harvester/core.py:125-149 | The error is the first malformed field in evaluation order, and there is none iff all four fields are well-formed. |
| Extract.BuildRecord | harvester/core.py:116-161 | For a well-formed layer, the bounds are the bbox dict's values defaulting to "", `_global` is the bbox rule over them and `is_global` is "Yes" iff `_global`. `name`, `title` and `queryable` default to "", the abstract is stripped, CRS and style names are the ", "-joins (or `str()` of a non-list CRS, "" for non-list styles), the keyword text is `KeywordText` of the keyword list and `pdf_v2` is the PDF tag of its iteration. |
| Extract.GetOrFalsy | harvester/core.py:116-149 | `layer.get(key) or default`, as used at lines 116, 125, 130, 133 and 149: the stored value when it is truthy, and the default when the key is absent or its value falsy. |
| Extract.BboxMembers | harvester/core.py:116-118 | The members of a truthy dict `ex_geographic_bounding_box`. A missing, falsy or non-dict value gives `{}`. |
| Extract.StyleNamesOf | harvester/core.py:125-128 | For a list `style`, the names of its dict styles; a non-list gives none. Its contract: there is no result iff a dict style's `name` is not a string. |
| Extract.CrsItemsOf | harvester/core.py:130-131 | For a list `CRS`, its strings; a non-list gives none. Its contract: there is no result iff some element is not a string. |
| Extract.KeywordItemsOf | harvester/core.py:133-141 | The items `for k in kw` visits in the falsy-defaulted `keyword_list`. Its contract: there is no result iff the value cannot be iterated. |
| Extract.Iterate | harvester/core.py:133-141 | `for k in kw`: a falsy value becomes `[]` and yields nothing. A list yields its elements, a string its characters and a dict its keys. A truthy number or `True` cannot be iterated. |
| Extract.KeywordText | harvester/core.py:134 | A list gives its elements' `str()` joined by ", ". Any other value gives its own `str()`. |
| Extract.PdfTag | harvester/core.py:140-144 | The result is the lower-cased text after the prefix, taken from the first string keyword whose lower-cased form starts with "pdf:hazardlookup:". With no such keyword it is "not attached to PDF V2". |
| Extract.PdfTagIsLowerCase | harvester/core.py:139-142 | When some keyword qualifies, the tag is lower-case whatever the keyword's casing: lower-casing it again changes nothing. |
| Extract.AsDict | harvester/core.py:146-161 | The dict has exactly the fourteen keys of the source. `is_global`, `_global` and `pdf_v2` hold the record's values. |
| Extract.StyleNames | harvester/core.py:125-128 | The style names are available iff every dict style's `name`, defaulting to "", is a string. |
| Extract.AllStrings | harvester/core.py:130-131 | Joining the CRS list succeeds iff every element is a string, and then gives those strings in order. |
| Extract.PdfTagFirstMatch | harvester/core.py:140-144 | The tag is the lower-cased suffix of the first string keyword whose lower-cased form starts with "pdf:hazardlookup:"; with none it is "not attached to PDF V2". |
| Extract.PdfTagIsLabelOnlyWithoutMatch | harvester/core.py:139-144 | The tag equals the "not attached" label iff no keyword qualifies. A derived tag is lower-case and can never equal it. |
| Extract.PdfTagOfPrefixed | harvester/core.py:141-142 | A keyword of the prefix in any letter case followed by a suffix gives that suffix lower-cased. |
| Extract.MissingBboxIsRegional | harvester/core.py:116-157 | Without a dict bounding box, all four bounds are "", `is_global` is "No" and `_global` is false. |
| Extract.ScannedLayerKeywordsIterate | harvester/core.py:133-142 | A layer the scanner matched always has iterable keywords. |
| Extract.ScannedLayerRecord | harvester/core.py:133-144 | For a scanned layer, the tag is read from the keyword list itself. The keyword text is the elements' `str()` joined by ", ". |
| Sheet.Worksheet.constructor | harvester/core.py:206 | A new sheet has the given title, no cells, no widths and no freeze position. |
| Sheet.WriteHeader | harvester/core.py:168-172 | Each column's label is at (1, c) with the header fill. All other cells and the widths are unchanged. |
| Sheet.WriteRow | harvester/core.py:174-183 | Each column's field, defaulting to "", is at (r, c), and every cell of the row has the row's fill. All other cells are unchanged. |
| Sheet.MeasureColumn | harvester/core.py:188-191 | The loop's maximum is the label length maximised over the text lengths of the column's data cells, with falsy cells counted as "". |
| Sheet.SetColumnWidth | harvester/core.py:186-192 | Column c's width becomes `min(max_len + 4, 60)` over its label and the records' values in that column. No other width changes. |
| Sheet.SetWidths | harvester/core.py:186-192 | The width map becomes the old one with every schema column set by the width rule over the records. Cells are not touched. |
| Sheet.WidthsAt | harvester/core.py:186-192 | The per-column width map covers exactly columns 1..n, each set by the width rule over that column's values. |
| Sheet.WriteRows | harvester/core.py:174-183 | Sheet rows 2 .. len(rows) + 1 hold each record's fields in schema order. Cells outside those rows are unchanged. |
| Sheet.WriteSheet | harvester/core.py:166-194 | The sheet holds the header and one row per record, in schema order, and cells outside the grid are unchanged. The widths are the old ones overridden, for every schema column, by the width rule. The freeze position is "A2" and the title is unchanged. |
| Sheet.FieldOf | harvester/core.py:182 | `row_data.get(key, "")`. |
| Sheet.RowFill | harvester/core.py:175-180 | A truthy `_global` gives the global fill. Otherwise even sheet rows get the "odd" fill and odd sheet rows the "even" fill. |
| Sheet.TextLen | harvester/core.py:190-191 | `len(str(value or ""))`: a falsy value counts as "", any other as the length of its `str()`. |
| Sheet.MaxLen | harvester/core.py:188-191 | The running maximum of the text lengths of the values, starting from the label's length. |
| Sheet.ColumnWidth | harvester/core.py:188-192 | `min(max_len + 4, 60)`, where `max_len` is the label length maximised over the text lengths of the column's values. |
| Sheet.RecordFill | harvester/core.py:157-176 | An extracted record's row gets the global fill, at any position, exactly when its `_global` flag holds. |
| Sheet.ReadBack | harvester/core.py:181-190 | Reading a column back from the written sheet gives that field of every record, in input order. |
| Sheet.RowFillByPosition | harvester/core.py:174-180 | A truthy `_global` gives the global fill whatever the parity. Otherwise the first, third, … data rows get the "odd" fill and the others the "even" fill. |
| Sheet.ColumnWidthBounds | harvester/core.py:186-192 | The width is at most 60 and at least `min(len(label) + 4, 60)`. It is 60 or exceeds every cell's text length by at least 4. |
| Sheet.ColumnWidthExample | harvester/core.py:188-192 | A 10-character label over values of at most 50 characters, one of exactly 50, gives width 54. |
| Sheet.MaxLenIsMaximum | harvester/core.py:188-191 | The running maximum is at least the label length and every cell length, and it equals one of them. |
| Schema.FirstKeyIndex | harvester/pdf.py:27 | The first position whose key matches, or nothing iff no entry matches. |
| Schema.InsertAt | harvester/pdf.py:28 | `list.insert`: the new entry sits at the index, earlier entries stay put and later ones shift by one. |
| Schema.Spliced | harvester/core.py:225-230 | The list with the entry inserted right after the first entry with the key, or appended when no entry has it. |
| Schema.SplicedShape | harvester/core.py:224-230 | The splice adds one entry. Put right after the first match, removing it gives the original back; with no match it is appended. |
| Schema.SplicedKeepsOrder | harvester/pdf.py:26-28 | Every original entry keeps its position, before the insertion point, or shifted by one after it. |
| Pdf.ActiveColumnsOf | harvester/pdf.py:24-29 | A copy of the schema with `("pdf_v2", "PDF V2")` right after `is_global`, appended when that key is absent (the len−1 default), one entry longer. |
| Pdf.ActiveColumns | harvester/pdf.py:13-29 | With the base columns, the PDF column becomes the eleventh, between "Is Global" and "Style Name(s)". |
| Pdf.IndexOf | harvester/pdf.py:41 | `list.index`: the first position of the tag, and failure iff the tag is absent. |
| Pdf.SortKey | harvester/pdf.py:32-43 | The key is (2, "") for the "not attached" label, (0, the index as four digits) for a known type and (1, t) for any other type. |
| Pdf.KeyLess | harvester/pdf.py:35 | Python's comparison of `(int, str)` tuples: by the number, then by the string. |
| Pdf.SortKeyInjective | harvester/pdf.py:32-43 | Different tags have different keys. |
| Pdf.KeyLessIsStrictTotal | harvester/pdf.py:35 | The comparison of `(int, str)` keys is irreflexive, transitive and total. |
| Pdf.TagOrderTotal | harvester/pdf.py:32-43 | Of two different tags, exactly one sorts first. |
| Pdf.KnownTypesInTableOrder | harvester/pdf.py:14-41 | The known types sort in table order (global:risk, global:additional, local), because zero-padded indices sort numerically. |
| Pdf.BucketsInOrder | harvester/pdf.py:33-43 | Known types precede unknown ones, and every type precedes "not attached to PDF V2". |
| Pdf.OtherTypesByName | harvester/pdf.py:43 | Unknown types are ordered by name. |
| Pdf.NoPdfLabelIsUnknown | harvester/pdf.py:14 | The "not attached" label is not a known type. |
| Pdf.CanonicalOrderExample | harvester/pdf.py:32-43 | global:risk, global:additional, local, an unknown tag and the label sort in that order. |
| Pdf.TagOf | harvester/pdf.py:55 | `r.get("pdf_v2", NO_PDF_LABEL)`. |
| Pdf.Tags | harvester/pdf.py:54-55 | The tag of every row, in row order. Its contract: one tag per row, each the row's `TagOf`. |
| Pdf.Dedup | harvester/pdf.py:57-58 | Each tag once, in order of first occurrence. Its contract states that it holds exactly the input's tags. |
| Pdf.Count | harvester/pdf.py:56 | The number of occurrences of a tag. |
| Pdf.CollectPdfData | harvester/pdf.py:46-59 | `all_types` lists each tag once, in first-occurrence order. `counts` has exactly the tags seen as keys, each mapped to its number of occurrences, which is at least 1. |
| Pdf.TallySummary | harvester/pdf.py:52-58 | The counts sum to the number of rows. `all_types` has no duplicates, holds exactly the keys of `counts` and is in first-occurrence order. |
| Pdf.DedupIsFirstOccurrences | harvester/pdf.py:57-58 | The distinct tags are duplicate-free and ordered by first occurrence. |
| Pdf.DedupCountsSum | harvester/pdf.py:54-56 | The per-tag counts over the distinct tags add up to the number of tags. |
| Pdf.MissingTagCountsAsUnattached | harvester/pdf.py:55 | A row without `pdf_v2` is counted under "not attached to PDF V2". |
| Pdf.RecordTag | harvester/pdf.py:55 | The tag collected from an extracted record is the record's own `pdf_v2`, never the missing-key default. |
| Pdf.ExtractedTag | harvester/core.py:140-158 | The tag collected from an extracted layer is the PDF tag of its iterated keyword list. |
| Pdf.PdfLegendEntry | harvester/pdf.py:16-21 | The PDF V2 description is spliced into the Legend right after the tenth base entry, "Is Global". |
| Pdf.TallyStep | harvester/pdf.py:54-58 | One loop step keeps both the first-occurrence list and the counts equal to their definitions over the rows seen so far. |
| Legend.DescriptionsFor | harvester/core.py:224-230 | `col_descs`: the base descriptions, with the extra entry spliced in after "Is Global" when one is given. |
| Legend.HighlightColours | harvester/core.py:55-84 | Each colour-key swatch shows the hex colour of its fill. The key lists the global, odd and even fills in that order. |
| Legend.ColumnDescriptions | harvester/core.py:224-230 | The description list has the base entries, plus one more when an extra entry is given. |
| Legend.DescriptionsPlacement | harvester/core.py:224-232 | Without an extra entry, the list is the base list. With one, the entry sits right after "Is Global", at index 10. The descriptions start at row `len(ROW_HIGHLIGHTS) + 7` = 10. |
| Legend.DescriptionsAnchor | harvester/core.py:63-78 | "Is Global" is found at index 9 of the base descriptions. |
| Legend.KeyRowsLayout | harvester/core.py:217-222 | The colour key fills exactly columns 1-3 of one row per highlight: the swatch with its fill, the caption, the meaning. |
| Legend.DescRowsLayout | harvester/core.py:238-240 | The descriptions fill exactly columns 1-2 of one row per entry, with the name and the text. |
| Legend.LegendCells | harvester/core.py:213-240 | The legend layout: the key heading, the key rows from row 3, the description heading at rows `len(hs) + 5` and `+ 6`, and the description rows from row `len(hs) + 7`. |
| Legend.LegendDomain | harvester/core.py:213-240 | The legend's cells are exactly the two headings, the key rows from row 3 and the description rows from row `len(ROW_HIGHLIGHTS) + 7`. |
| Legend.LegendKeyRows | harvester/core.py:217-222 | Highlight k is written in row k + 3. |
| Legend.LegendDescRows | harvester/core.py:234-240 | Description i is written in row `len(ROW_HIGHLIGHTS) + 7 + i`. |
| Legend.LegendHeadings | harvester/core.py:213-236 | The section titles and column headings sit in rows 1-2 and `len(ROW_HIGHLIGHTS) + 5`/`+ 6`. |
| Legend.WriteKeyRows | harvester/core.py:217-222 | The loop adds exactly the key rows to the sheet and changes nothing else. |
| Legend.WriteDescRows | harvester/core.py:238-240 | The loop adds exactly the description rows to the sheet and changes nothing else. |
| Legend.WriteLegendSheet | harvester/core.py:199-244 | A new sheet titled "Legend" holds exactly the legend layout for the chosen descriptions. Column widths are 22, 20 and 70, with no freeze position. |
| Text.Strip | harvester/fetcher.py:51-55 | `strip()` gives a slice of the input that neither starts nor ends with whitespace. |
| Text.StripBounds | harvester/fetcher.py:51-55 | The kept slice has only whitespace before and after it. When non-empty, its first and last characters are not whitespace. |
| Text.StripRemovesSpace | harvester/fetcher.py:51-55 | What `strip()` removes on either side of the result is whitespace only. |
| Text.StripIdempotent | harvester/fetcher.py:51-55 | Stripping twice equals stripping once. |
| Text.LastIndexOf | harvester/fetcher.py:75 | `rfind` gives the last occurrence, or fails iff the character is absent. |
| Text.IndexOf | harvester/fetcher.py:54 | `partition` splits at the first occurrence, or finds none iff the character is absent. |
| Text.ZeroPad4Ordered | harvester/pdf.py:36-41 | For indices below 10000, the four-digit zero-padded strings sort in numeric order. |
| Text.LessTotal | harvester/pdf.py:43 | Different strings are ordered one way or the other. |
| Text.LessTransitive | harvester/pdf.py:43 | String order is transitive. |
| Fetcher.ParseEnvFilename | harvester/fetcher.py:72-78 | A name that does not start with "." and end with ".env" is rejected. Otherwise the inner part splits at its last dot into (text after, text before). An inner part without a dot is rejected. |
| Fetcher.ParseEnvFilenameRejects | harvester/fetcher.py:72-77 | The name is rejected iff it does not start with "." and end with ".env", or its inner part has no ".". |
| Fetcher.ParseEnvFilenameParts | harvester/fetcher.py:74-78 | On success, `group + "." + env` is the inner part, `env` has no "." and the name is `.<group>.<env>.env`. |
| Fetcher.ParseEnvFilenameRoundTrip | harvester/fetcher.py:61-78 | Building `.<group>.<env>.env` from any group and a dot-free env parses back to `(env, group)`. |
| Fetcher.ParseEnvFilenameExample | harvester/fetcher.py:66-67 | ".quarticle.dev.env" gives ("dev", "quarticle"). |
| Fetcher.ParseEnvFilenameInjective | harvester/fetcher.py:72-78 | Two names that parse to the same pair are the same name. |
| Fetcher.ParseEnvFile | harvester/fetcher.py:46-56 | The loop builds exactly the env map the line rules define, with later lines overriding earlier ones. |
| Fetcher.SplitAssignment | harvester/fetcher.py:54-55 | `partition("=")` with both halves stripped. With no "=", the key is the stripped text and the value is "". |
| Fetcher.Entry | harvester/fetcher.py:51-55 | A line that is blank or starts with "#" once stripped contributes nothing. Any other line contributes its key and value. |
| Fetcher.EnvOf | harvester/fetcher.py:48-55 | The dict after reading the lines in order, with later lines overriding earlier ones. |
| Fetcher.EnvOfKeys | harvester/fetcher.py:50-55 | A key is in the env iff some line defines it. |
| Fetcher.EnvOfLastWins | harvester/fetcher.py:55 | A key takes the value from its last defining line. |
| Fetcher.SkippedLines | harvester/fetcher.py:51-53 | A line is skipped iff it is blank or starts with "#" once stripped. |
| Fetcher.AssignmentSplit | harvester/fetcher.py:54-55 | The key never contains "=". A line without "=" defines its stripped text with value "". |
| Fetcher.ExtractToken | harvester/fetcher.py:125-134 | When a token is found, it is a non-empty string held by the first candidate field, and no earlier candidate holds one. Nothing is found iff no candidate holds a non-empty string. |
| Fetcher.EntryOrder | harvester/fetcher.py:101 | The (group, env) order is transitive and total. |
| Fetcher.Accepted | harvester/fetcher.py:95-100 | The filter loop: each name that parses contributes its `(group, env)` pair, in order, and the others are skipped. |
| Fetcher.InsertSorted | harvester/fetcher.py:101 | Inserting into a sorted listing keeps it sorted and adds exactly the new entry. |
| Fetcher.InsertKeepsSorted | harvester/fetcher.py:101 | Inserting at the first position not ordered before the entry keeps the listing sorted. |
| Fetcher.ScanEnvs | harvester/fetcher.py:95-101 | The listing is sorted by (group, env) and is a permutation of the parsed names; names that do not parse are dropped. |
| Fetcher.AcceptedFrom | harvester/fetcher.py:95-99 | Every listed entry comes from a filename that parses to it. |
| Fetcher.AcceptedDistinct | harvester/fetcher.py:95-100 | Distinct filenames give distinct entries. |
| Fetcher.ScanEnvsStrict | harvester/fetcher.py:95-101 | With distinct filenames, the sorted listing is strictly increasing. |

## Left out

- `harvester/__main__.py`: command-line parsing, progress display, output paths and the "open" prompt. This is orchestration and UI around the core.
- `fetch_capabilities` and `url_slug`: HTTP login, JWT and capabilities requests, and file writes. These are I/O, or a wrapper over `urllib.parse`.
- Filesystem access: `collect_groups`, `iterdir`/`is_file` and the `is_dir` check in `scan_envs`, `open()` in `parse_env_file`, `env_entry_from_path`, and the `_ROOT`/`frozen` path resolution.
  - `scan_envs` is modelled over a given list of file names.
  - `parse_env_file` is modelled over a given list of lines.
- Fetcher.ScanEnvs: the per-file env dict of each result is not carried. Only the `(group, env)` pairs are listed, because the dict comes from reading the file.
- Fetcher.ExtractToken: a login body that is not a dict is out of its domain, as the type annotation requires a dict.
- openpyxl fonts, alignment, `get_column_letter` and workbook serialisation. A cell is its value and its fill; a column is addressed by its index.
- Sheet.WriteSheet: openpyxl's own rejection of list or dict cell values is not modelled. Such values are stored and measured like any other.
- `float()` beyond a decimal parser: "inf", "nan", underscores and IEEE rounding are not modelled. Spans are compared as exact reals.
- `str.lower()` folds ASCII letters only. `strip()` uses Python's whitespace set without Unicode normalisation.
- `str()` of a JSON value renders lists and dicts in Python's repr style, but `repr()` escaping is not modelled. Quotes, backslashes, control characters and non-printable characters inside strings are copied unescaped. A number's text is taken as given.
- Extract.ExtractRow: a bound that is a JSON integer too large for a double (about 309 digits or more) makes `float()` raise OverflowError. `is_global_bbox` catches only TypeError and ValueError, so `extract_row` raises. The model converts the integer to its exact value and classifies the box as usual.
- Sheet.WriteSheet: openpyxl's `ws.cell(row, column, value=None)` leaves a cell's existing value in place, while the model stores JSON null. The two differ only on a sheet that already holds cells. The program always writes to a freshly created sheet.
- Legend.WriteLegendSheet: openpyxl's `create_sheet(title="Legend")` renames the new sheet, for example to "Legend1", when the workbook already has a sheet named "Legend". The model always titles it "Legend".
- Sheet.WriteSheet: openpyxl truncates a string cell value to 32767 characters. The model stores and measures the full string.
- Sheet.WriteSheet: openpyxl raises IllegalCharacterError for control characters in a string cell value. The model accepts them.
- A dict is a sequence of members in insertion order. Duplicate keys are not excluded, and lookups take the first member.
- Pdf.CollectPdfData: tags are compared as JSON values. Python's hash equality across types (`1 == True`) is not modelled; `pdf_v2` values are strings in practice.
