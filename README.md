# go-org parser core in Dafny

This project models the Org-mode parser of go-org (package `org`): the line lexer, the block parser over the token list, the inline scanner, the table engine with its formula targets and cell iterators, and a few bookkeeping rules of the Org and HTML writers. Each module follows one source file; the model states what each operation computes and proves the properties the code relies on.

- `lexer.dfy` (Lexer): one token per line, from the first recogniser in the fixed priority list that accepts it. Every regular expression of the lexers is written out as a recogniser that returns the capture groups the code reads.
- `document.dfy` (Documents): the `Document` class with its token list, base level, buffer settings, links, macros, named nodes, outline and tables, and every parse method. Each parse method states how many tokens it consumes, what node it builds, and what it may change of the document: tokens are only rewritten lighter from where it starts, the base level comes back, and drawers, headlines and tables only grow.
- `parser.dfy` (Parser): the functions those methods are specified with. The stop closures are values of `Stop`, each asking its parent first. `ScanEnd` says where a scan over the tokens stops, the `Scan*` loops compute the line runs, and `Follows` says what a parse method may change.
- `inline.dfy` (Inline): the inline scanner. It is a left-to-right scan over a text that dispatches on the current character and partitions the text into nodes. It covers emphasis with its border rules, links, footnote references, statistic cookies, macros, LaTeX fragments, inline blocks, auto-links and line breaks.
- `headlines.dfy`, `lists.dfy`, `blocks.dfy`, `drawers.dfy`, `keywords.dfy`, `nodes.dfy`, `util.dfy`, `settings.dfy`: the value-level parts of headline.go, list.go, block.go, drawer.go, keyword.go, the node types and their `GetEnd`, util.go and the settings of document.go.
  - The headline module covers status, priority and tags, the TODO keywords with their fast-access keys, and the section outline.
  - The list module covers list kinds and item prefixes, and the block module the raw-text blocks, indent trimming and parameters.
  - The drawer module covers the property drawer, updated in place, and the keyword module the keyword, attribute, LINK, MACRO and INCLUDE values.
- `table.dfy` (OrgTable), `roman.dfy`, `tablerefs.dfy`, `tableiter.dfy`, `tableformulas.dfy`: the table engine of table.go.
  - `table.dfy` holds column layout, logical-to-physical rows and in-place cell updates.
  - `roman.dfy` holds roman numerals.
  - `tablerefs.dfy` holds `@row$col` references, targets and ranges.
  - `tableiter.dfy` holds the counters and cell iterators; each hands out one value per call and then signals the end.
  - `tableformulas.dfy` splits `#+TBLFM` values into formulas.
- `orgwriter.dfy`, `htmlwriter.dfy`: two sets of writer rules. From the Org writer: table cell padding and separator rows, the headline prefix and tag column, keyword and property drawer lines, and the line-break state. From the HTML writer: footnote numbering, footnote ids, attribute merging and the table header decision. What the writers make of nested nodes is a parameter `render`.
- `strs.dfy` (Strs) and `wrappers.dfy`: the parts of Go's strings, strconv and unicode packages the code uses, and `Option`.

Strings are sequences of code points, so a rune count is a length. Where the code reads a single byte as a rune (`rune(s[i])` in inline.go, headline.go:61, block.go:132 and list.go:60), the model reads the first UTF-8 byte of the code point at that position (Strs.FirstByteRune), or its last byte when the code looks at the byte just before a position (Strs.LastByteRune); for ASCII text both are the character itself.

## Model

| member | source | states |
|---|---|---|
| Blocks.IndentFrom | org/block.go:129-136 | the count of leading white-space bytes from i that trimIndentUpTo removes: at most max, all white space, and it stops at the first non-space byte or at max |
| Blocks.TrimIndentUpTo | org/block.go:129-136 | the line with at most max leading white-space characters removed; what it removes is all white space, and it stops early only at a non-space character |
| Blocks.EscapeComma | org/block.go:32 | the position of the comma the escape pattern removes from a line, if any, and when none is found no position matches the pattern |
| Blocks.EscapeLine | org/block.go:78-80 | a line with its escape comma removed, one character shorter, or the line unchanged when it has no escape |
| Blocks.EscapedLength | org/block.go:78-80 | unescaping removes at most one character per line of the raw text and never adds any |
| Blocks.EscapedUnchanged | org/block.go:78-80 | raw text with no escaped line is left as it is |
| Blocks.PairOf | org/block.go:144-147 | one " :"-separated piece gives a ":key" entry without spaces and its value: two entries |
| Blocks.Pairs | org/block.go:144-147 | two parameters per piece after the language |
| Blocks.AppendPairs | org/block.go:144-147 | the loop over the pieces after the language builds exactly their key/value pairs in order |
| Blocks.SplitParameters | org/block.go:138-149 | splitParameters: the trimmed language, if non-empty, then ":key", value for each piece of Split(s, " :") after the first |
| Blocks.PairsKeys | org/block.go:144-147 | entry 2j of the pairs starts with ':' and entries 2j, 2j+1 are the pair of piece j |
| Blocks.ParameterMap | org/block.go:151-160 | ParameterMap: nil exactly for no parameters; otherwise ":lang" maps to the first and each odd entry to the one after it |
| Blocks.AssignedLastWins | org/block.go:156-158 | a key written at an odd place and never again later maps to the entry after its last place |
| Blocks.AssignedKeeps | org/block.go:156-158 | a key written at no odd place keeps its earlier value, or stays absent |
| Documents.Document.constructor | org/document.go:224-234 | a fresh document: no tokens, the root section only, empty settings, links, macros and named nodes |
| Documents.Document.Tokenize | org/document.go:258-265 | one token per input line, token k lexed from line k on row k |
| Documents.Document.Rewrite | org/document.go:353 | token i replaced and every other token kept |
| Documents.Document.InlineContext | org/inline.go:167-187 | inline parsing reads the position of token ni, or of the last token when ni is past it, and the document's autolink, emphasis and timestamp configuration |
| Documents.Document.InlineAt | org/inline.go:129-190 | parseInline at token ni: the nodes spell the input, non-empty input gives nodes, only the last headline's timestamp may change, the pending keywords stay or are taken |
| Documents.Document.RawInlineAt | org/inline.go:192-215 | parseRawInline at token ni: text and line-break nodes that give back the input, none exactly for empty input |
| Documents.Document.ParseOne | org/document.go:314-355 | parseOne always consumes at least one token; its node is the one the switch builds for the token's kind (ParsedAs: a headline node for a headline, a paragraph at the token for text, a list at the token of the list's kind, a table, a block or drawer with the token's name, a result, a footnote definition with the label, the exact rule and comment nodes), or else token i is now a text token and the node is a paragraph at it; text, headline, rule, comment and planning tokens never fall back, and an END line is rewritten as AsText of itself, nothing else changing, and becomes a paragraph at its position |
| Documents.Document.ParseMany | org/document.go:357-365 | parseMany stops where the stop holds (or at the end); every node took at least one token and the spans add up to what it consumed |
| Documents.Document.Dispatch | org/document.go:315-346 | the switch of parseOne: text, headline, rule, comment and planning tokens always consume, text leaving the tokens as they are; END lines consume nothing and change nothing; whatever consumes gives the node ParsedAs names for the token's kind |
| Documents.Document.DispatchBlocks | org/document.go:320-325 | the block, result, drawer and footnote-definition cases: whenever they consume, a block with the token's name and position, a result at the token, a property drawer for PROPERTIES or else a drawer with the upper-cased name, or a footnote definition with the label |
| Documents.Document.DispatchLines | org/document.go:326-343 | the paragraph, example, rule, comment and planning-line cases: a text token always consumes and leaves the tokens as they are, the rule and comment nodes are exact, a planning line consumes one token, and the node of a consuming call is the one ParsedAs names |
| Documents.Document.DispatchMore | org/document.go:316-319 | the list, table, keyword and headline cases: a list token gives a list, a table token a table, a headline a headline node, a consuming keyword a named, affiliated, keyword or include node; other kinds consume nothing |
| Documents.Document.DispatchKeyword | org/document.go:334-335 | the keyword case: a consuming call gives a named, affiliated, keyword or include node |
| Documents.Document.ParseParagraph | org/paragraph.go:34-45 | the text lines up to a blank line, another kind or the stop, joined with newlines (later lines indented above the base level) and parsed inline; the node starts at token i |
| Documents.Document.ParseExample | org/block.go:110-119 | the example lines up to the stop, each a raw text node of its content at its position |
| Documents.Document.ParseSDC | org/headline.go:105-128 | one line: the parsed planning entry of its kind set on the last headline and returned as a node; the outline is otherwise kept |
| Documents.Document.ParseBlock | org/block.go:65-97 | without an END line of the same name nothing is consumed; otherwise the block runs to that line, a non-SRC block consumes exactly up to it and a SRC block may take a result after it |
| Documents.Document.BlockResult | org/block.go:91-95 | the result after the END line of a SRC block, with the END line kept |
| Documents.Document.BlockBody | org/block.go:73-86 | the body up to the END line of the same name: raw text for a raw text block, otherwise parseMany |
| Documents.Document.RawBlockBody | org/block.go:74-81 | a raw block's children spell its lines with the indent trimmed, unescaped for EXAMPLE and org SRC blocks |
| Documents.Document.ParseSrcBlockResult | org/block.go:99-108 | blank lines up to the stop, then a result line; nothing is consumed without one |
| Documents.Document.ResultAfterBlanks | org/block.go:100-103 | the first line past the blank run before the stop; found exactly when that line is a result line the stop does not hold at |
| Documents.Document.ParseResult | org/block.go:121-127 | nothing exactly when the result line is the last one; else the node after it, at least two tokens, at the result's position |
| Documents.Document.ParseDrawer | org/drawer.go:36-82 | a PROPERTIES drawer is a property drawer; any other drawer runs to its END line, the next drawer start or a headline, nested starts become paragraphs |
| Documents.Document.DrawerBody | org/drawer.go:58-76 | the loop of parseDrawer ends where the drawer's stop holds at a line that is no drawer start |
| Documents.Document.DrawerPart | org/drawer.go:59-72 | one round of that loop: it moves forward when a nested drawer start is met; otherwise it stops where the stop holds at a line that is no drawer start |
| Documents.Document.ParsePropertyDrawer | org/drawer.go:84-105 | a property drawer exactly when every line to the stop is a property line and an END line follows; its properties are the lines' pairs; otherwise nothing is consumed |
| Documents.Document.ParseFootnoteDefinition | org/footnote.go:24-35 | token i re-lexed from the text after the label, then parseMany up to a second blank line, a headline or the next definition; the definition keeps the label |
| Documents.Document.StartHeadline | org/headline.go:50-78 | a new section for the headline with the next index; status, priority, tags and title from its text with the buffer's TODO keywords |
| Documents.Document.ParseHeadline | org/headline.go:50-93 | the children run to a headline of the same or a higher level or the parent's stop; a leading property drawer becomes its properties; it becomes the current headline |
| Documents.Document.HeadlineRest | org/headline.go:80-93 | the children of the new section's headline, then the headline as the current one, its start kept |
| Documents.Document.HeadlineChildren | org/headline.go:80-83 | parseMany from the line after the headline up to its stop |
| Documents.Document.FinishHeadline | org/headline.go:84-91 | only the properties and children of the headline change, and it becomes the current one |
| Documents.Document.ParseList | org/list.go:71-88 | the items of one list while the next token is an item of the same level and main kind; the list's kind is listKind of the first token |
| Documents.Document.ListItems | org/list.go:82-86 | the loop of parseList: it ends where the list's stop holds, and every item is of the list's kind |
| Documents.Document.ListStep | org/list.go:83-85 | one item of parseList's loop |
| Documents.Document.ParseListItem | org/list.go:90-135 | the head cut off, the line re-lexed as the body one column to the right, children up to the item's stop or a second blank line; the base level is restored |
| Documents.Document.ItemChildren | org/list.go:93-94 | the item's children are parsed with the base level set for its body, and the old base level comes back |
| Documents.Document.RelexItem | org/list.go:115-117 | the item line re-lexed from its body indented to the minimal indent, one column to the right |
| Documents.Document.ItemNode | org/list.go:131-134 | a descriptive item with its term parsed inline, or a plain item with bullet, status and value |
| Documents.Document.ItemBody | org/list.go:118-129 | parseOne up to the item's stop or a second blank line after its first two lines |
| Documents.Document.ParseKeyword | org/keyword.go:67-104 | NAME names the next node; SETUPFILE, INCLUDE, LINK and MACRO stand alone; affiliated keywords fall through to TBLFM; others are buffer settings |
| Documents.Document.KeywordOnOwnLine | org/keyword.go:72-103 | SETUPFILE, INCLUDE, LINK, MACRO and any other keyword consume one line, the tokens staying as they are |
| Documents.Document.ParseAffiliatedOrFormat | org/keyword.go:86-93 | an affiliated keyword that no node takes extends the current table's formulas |
| Documents.Document.KeywordLine | org/keyword.go:72-103 | one line: INCLUDE gives its include node; LINK and MACRO record their definition; SETUPFILE merges the setup file's settings; any other key joins or sets a buffer setting and is kept as pending |
| Documents.Document.LoadSetupFile | org/keyword.go:232-251 | one line; the buffer settings become the old ones merged with the setup file's, which win |
| Documents.Document.CurrentTable | org/keyword.go:115-116 | the table #+TBLFM lines extend is one the document built |
| Documents.Document.ParseTableFormat | org/keyword.go:114-125 | the keyword starts the formulas of the current table or is appended to them; one token |
| Documents.Document.ParseNodeWithName | org/keyword.go:127-137 | nothing when the stop holds after the keyword; else the next node, recorded under the keyword's value |
| Documents.Document.ParseAffiliated | org/keyword.go:139-197 | the affiliated keyword lines and the node after them, which takes their metadata; nothing when a line has another key or the stop holds after them |
| Documents.Document.AffiliatedLines | org/keyword.go:142-187 | the loop of parseAffiliated: the metadata of the lines up to the stop or a non-keyword line, failure at another key |
| Documents.Document.AffiliatedTest | org/keyword.go:142-143 | the loop test at line j: continue, or end here |
| Documents.Document.AffiliatedLine | org/keyword.go:143-186 | CAPTION adds a caption, ATTR_HTML and ATTR_LATEX an attribute list, ENV sets the environment |
| Documents.Document.ParseTable | org/table.go:59-132 | the rows and separators up to the stop or another kind make a table at the first line, one layout per column, appended to the current headline's tables |
| Documents.Document.NewTable | org/table.go:93-126 | the table of rows i to j: one row per line, separators recorded by index, layouts from getColumnInfos |
| Documents.Document.AttachTable | org/table.go:127-131 | the table joins the current headline's tables, if there is one |
| Documents.Document.BuildRows | org/table.go:96-126 | row r built from its cells and positions, the last row positions carried over to separators |
| Documents.Document.BuildRow | org/table.go:97-124 | no columns for a row without cells, else one column per layout, each with its start and end position and its cell parsed inline |
| Documents.Parse | org/document.go:224-250 | Parse tokenizes the input one token per line and parseMany consumes every token from 0 |
| Drawers.PropertyDrawer.constructor | org/drawer.go:15-19 | a property drawer with the given position, end and pairs |
| Drawers.FirstIndexFrom | org/drawer.go:111-115 | the loop of Get from pair k on: -1 or an index at or after k |
| Drawers.FirstIndexFromFacts | org/drawer.go:111-115 | the index found holds the key and no pair between k and it does, and -1 means no pair from k on has the key |
| Drawers.FirstIndex | org/drawer.go:111-115 | the first pair with the key, or -1 exactly when no pair has it |
| Drawers.Get | org/drawer.go:107-117 | ("", false) on a nil drawer; otherwise the value of the first pair with the key, or ("", false) when there is none |
| Drawers.HasFromExists | org/drawer.go:138-142 | the loop of Has from k finds the key exactly when some pair from k on has it |
| Drawers.HasAgreesWithGet | org/drawer.go:134-144 | Has agrees with the found flag of Get, nil drawer included |
| Drawers.GetFindsFirst | org/drawer.go:111-115 | a pair i with the key and none before it: Get returns its value |
| Drawers.Overwritten | org/drawer.go:124-128 | the pairs with the same length, the values under the key replaced |
| Drawers.Extended | org/drawer.go:151-155 | the pairs with the same length, the values under the key extended by val |
| Drawers.Set | org/drawer.go:119-132 | no effect on a nil drawer; otherwise every pair with the key gets val and (key, val) is appended in any case; the positions stay |
| Drawers.Append | org/drawer.go:146-159 | no effect on a nil drawer; otherwise every pair with the key has val appended and (key, val) is appended in any case |
| Drawers.GetAfterSet | org/drawer.go:119-132 | after Set, Get under the key finds val |
| Drawers.GetOtherAfterSet | org/drawer.go:119-132 | Set leaves Get unchanged for every other key |
| Drawers.GetAfterAppend | org/drawer.go:146-159 | after Append, Get gives the old value with val appended, or val when the key was new |
| Drawers.PropertyLineParts | org/drawer.go:23 | a line built as lead, ':', key, ':', blanks, value has each part at its own position |
| Drawers.PropertyLineJoin | org/drawer.go:23 | a property line is its parts put back together |
| Drawers.MatchPropertySound | org/drawer.go:23 | what the property recogniser returns has the pattern's shape: leading blanks, ':', a key without white space, ':', then blanks and the value, or the end |
| Drawers.MatchPropertyAt | org/drawer.go:23 | cut points that bound the runs of the pattern are the ones the recogniser finds |
| Drawers.MatchPropertyComplete | org/drawer.go:23 | every line of the pattern is recognised with exactly its parts, so the decomposition is unique |
| Headlines.TrimFastTag | org/headline.go:133-140 | corrected trimFastTags entry: an entry ending in `(x)`, whose last '(' is two characters before the end, loses those three characters; any other entry is kept |
| Headlines.LastIndexChar | org/headline.go:133-134 | the LastIndex of one character is k exactly when s[k] is that character and none follows it |
| Headlines.TrimFastTagAgrees | org/headline.go:133-140 | the written comparison fails (slice panic) exactly for two-character entries ending in ')' without '('; everywhere else it gives the corrected result |
| Headlines.FastTagPanics | org/headline.go:136-137 | the TODO keyword `a)` makes the written slice t[:end-2] panic |
| Headlines.TrimFastTags | org/headline.go:130-143 | one output per entry, in order, each the corrected trim of its entry |
| Headlines.TrimFastTagIsPrefix | org/headline.go:136-140 | a trimmed keyword is its entry, or its entry less `(` + key + `)` |
| Headlines.StatusIndex | org/headline.go:60-66 | the first keyword from j on that the text starts with (followed by white space), -1 exactly when there is none |
| Headlines.ParseStatus | org/headline.go:60-66 | the first such keyword becomes the status and is cut from the text with the one character after it; with none, empty status and the text kept |
| Headlines.StatusSeparator | org/headline.go:61-63 | exactly one ASCII white-space character separates the status from the rest |
| Headlines.PriorityLetters | org/headline.go:68-71 | a priority is set exactly for `[#A]`, `[#B]` or `[#C]` at the start, and then the text after the cookie is trimmed; otherwise the text is kept |
| Headlines.MatchTagsSound | org/headline.go:41 | what the tag recogniser returns is a match of `(.*?)\s+(:[A-Za-z0-9_@#%:]+:\s*$)` with the shortest title |
| Headlines.MatchTagsAt | org/headline.go:41 | the recogniser cuts the text at the runs it measures |
| Headlines.SplitIsTagSplit | org/headline.go:41 | cut points bounding a title, blanks, a tag cluster and trailing blanks form a match |
| Headlines.MatchTagsComplete | org/headline.go:41 | every match of the pattern is the one the recogniser returns, so the match is unique |
| Headlines.MatchTagsOfIndices | org/headline.go:41 | the match read off its cut points |
| Headlines.TagSplitIndices | org/headline.go:41 | a match read as positions in the text: the cluster ends at the last non-blank character |
| Headlines.TagsOf | org/headline.go:75 | the tags are non-empty and contain no ':' |
| Headlines.TagsKeepText | org/headline.go:73-76 | the tags hold exactly the characters of group 2 other than ':', in order |
| Headlines.TagsExample | org/headline.go:73-76 | `title :a:b:` parses into the title and the tag cluster `:a:b:` |
| Headlines.AnyExcluded | org/headline.go:169-176 | true exactly when some excluded entry is one of the tags |
| Headlines.IsExcluded | org/headline.go:168-177 | true exactly when some field of EXCLUDE_TAGS is a tag of the headline |
| Headlines.ID | org/headline.go:145-150 | the CUSTOM_ID property when the drawer has one, else "headline-" and the index |
| Headlines.IDsDistinct | org/headline.go:145-150 | headlines without CUSTOM_ID have the same id exactly when they have the same index |
| Headlines.Ancestors | org/headline.go:179-186 | the path that add walks up from p: it starts at p, follows the parents and ends at the root |
| Headlines.AttachPoint | org/headline.go:179-186 | the section add attaches a level-lvl section to is in the tree and is the root or of a smaller level |
| Headlines.AttachPointOnPath | org/headline.go:179-186 | the attach point is the first section on the path up from p that is the root or has a smaller level |
| Headlines.AttachPointIsFirst | org/headline.go:179-186 | any such first section on the path is the attach point |
| Headlines.AttachPointPrefix | org/headline.go:179-186 | the attach point depends only on the sections already in the tree |
| Headlines.Outline.constructor | org/document.go:225-228 | a fresh outline: the root only, also the last section, count 0 |
| Headlines.Outline.LastHeadline | org/headline.go:10-14 | the headline of the last section, present exactly when that is not the root |
| Headlines.Outline.Add | org/headline.go:179-186 | Section.add: the new section joins the children of its attach point, which becomes its parent; nothing else changes |
| Headlines.Outline.AddHeadline | org/document.go:367-373 | a new section with the headline, attached by level below the last section; the count goes up by one and is returned; the new section is the last; the tree stays valid |
| Headlines.Outline.SetHeadline | org/headline.go:54 | replaces the headline of a section the outline points to (Go's shared pointer) and nothing else |
| Keywords.ParseKeyword | org/keyword.go:199-203 | the key is group 2 upper-cased (no lower-case letter left), the value group 4 trimmed, the end just after the token's content |
| Keywords.Last | org/keyword.go:106-112 | the last element, or nothing exactly for an empty sequence |
| Keywords.LinkDefinition | org/keyword.go:77-79 | a definition exactly when the value has a space: the name before the first space and everything after it |
| Keywords.MacroDefinition | org/keyword.go:82-84 | a definition exactly when the value has a space: the first space-separated word and only the second one |
| Keywords.RunEndFacts | org/keyword.go:51 | a run of the pattern's character class is maximal |
| Keywords.AttrMatchAt | org/keyword.go:51 | an attribute match tried at p starts at p, and its value is shorter than the text after p |
| Keywords.FindAttrFrom | org/keyword.go:51 | the leftmost attribute match at or after p, inside the text |
| Keywords.FindAttrFromFacts | org/keyword.go:149-152 | FindStringSubmatch: the match found is at the least position that has one, and none means no position has one |
| Keywords.AttributesStep | org/keyword.go:148-162 | one round of the ATTR loop: the key, then the text up to the next match, or the trimmed rest when there is none |
| Keywords.AttrMatchKey | org/keyword.go:51 | every key found is ':' and a non-empty run of `[-\w]` |
| Keywords.AttributesShape | org/keyword.go:147-163 | an ATTR value becomes an alternating [":key", value, ...] list |
| Keywords.KeyValuePairsEven | org/keyword.go:147-163 | such a list has even length |
| Keywords.AttributesNone | org/keyword.go:159-161 | a value with no ":key " part gives no attributes |
| Keywords.SplitAttributes | org/keyword.go:147-163 | the loop of parseAffiliated for ATTR_HTML and ATTR_LATEX computes exactly the attribute list of the value |
| Keywords.RunEndAt | org/keyword.go:50 | a run known to stop at e ends there |
| Keywords.IncludeTail | org/keyword.go:50 | the kind is src, example or export in any case, followed by one space and the language |
| Keywords.IncludeTarget | org/keyword.go:212-213 | what the include recogniser returns has the pattern's shape: a quoted path without quotes, a kind, a `\w+` language |
| Keywords.KindHasNoSpace | org/keyword.go:50 | no accepted kind contains a space |
| Keywords.IncludeTargetComplete | org/keyword.go:212-213 | every value of the include shape is recognised with exactly its parts |
| Keywords.IncludeTargetExact | org/keyword.go:212-213 | the recogniser finds a target exactly when the value has the include shape |
| Keywords.ParseIncludeAsWritten | org/keyword.go:206-230 | as written: it panics (None) exactly when the value is not of the include shape, because len(m[0]) indexes a nil match; else the end column adds the value's length |
| Keywords.IncludeAsWrittenPanics | org/keyword.go:228-229 | `#+INCLUDE: notes.org`, a path without quotes, panics as written |
| Keywords.ParseInclude | org/keyword.go:206-230 | corrected parseInclude: the end column adds the value's length in every case; a file target exactly for values of the include shape; agrees with the written code wherever that does not panic |
| Lists.MainKind | org/list.go:55-64 | "*", "+" and "-" give unordered, a bullet whose first byte read as a rune is a letter or digit ordered, anything else the panic case |
| Lists.MainKindOfToken | org/list.go:38-64 | no list token the lexer builds has a bullet that makes listKind panic |
| Lists.ListMainKind | org/list.go:55-64 | an unorderedList token is "unordered", an orderedList token "ordered" |
| Lists.DescriptiveFrom | org/list.go:34 | a found separator (white space, "::", white space or the end) starts at or after k and ends after the following blank or at the end |
| Lists.DescriptiveFromIsFirst | org/list.go:34 | the separator found is the leftmost one, and none found means there is none |
| Lists.DescriptiveMatch | org/list.go:101-106 | FindStringIndex: a non-empty span inside the content starting with the separator |
| Lists.ListKind | org/list.go:55-69 | the second kind is "descriptive" exactly when the first item's content holds the separator somewhere, else the main kind |
| Lists.DigitsAt | org/list.go:35 | the maximal run of digits from k |
| Lists.ValueAtDigits | org/list.go:35 | a `[@N]` followed by white space at k has exactly the maximal digit run as N |
| Lists.ValueFrom | org/list.go:95-97 | a found value is a `[@N]` followed by white space at or after k, and its digits are N |
| Lists.ValueFromIsFirst | org/list.go:95-97 | the value found is the leftmost one; none found means no position holds one |
| Lists.StatusFrom | org/list.go:98-100 | a found status box `[ ]`, `[X]` or `[-]` followed by white space starts at or after k |
| Lists.StatusFromIsFirst | org/list.go:98-100 | the box found is the leftmost one; none found means there is none |
| Lists.CutValue | org/list.go:95-97 | a value only for an ordered list with a `[@N]` anywhere; then the content loses a fixed 4 + len(N) characters from its front, else it is kept |
| Lists.CutStatus | org/list.go:98-100 | a status only when a box occurs; its letter is the box's, and a fixed 4 characters go from the front |
| Lists.Head | org/list.go:92-106 | value cut, then status cut, then for a descriptive list the term before the first separator and the body after it; the body is a suffix of the content |
| Nodes.NewHeadline | org/headline.go:51-52 | a new headline has only its position and level set: no status, priority, tags, children or timestamps |
| Nodes.GetEnd | org/paragraph.go:56-58 | the end of a block node: none for headlines and SDC nodes, which declare no GetEnd, and none exactly for a paragraph without children, where the source indexes an empty slice |
| Nodes.GetEndOwn | org/list.go:143-160 | rules, comments, blocks and drawers end at their own end, and childless lists, items, footnote definitions and examples at their own position |
| Settings.New | org/document.go:187-199 | the default configuration: auto links on, one emphasis newline, and exactly the TODO, EXCLUDE_TAGS and OPTIONS defaults |
| Settings.Get | org/document.go:272-280 | a buffer setting wins over a default, and a key in neither gives "" |
| Settings.OptionInFirst | org/document.go:295-302 | the first OPTIONS field with the key prefix answers, and later ones are ignored |
| Settings.OptionInNone | org/document.go:295-302 | no field with the prefix gives "" |
| Settings.GetOption | org/document.go:294-312 | the buffer's option, else the default's, else "nil"; never empty |
| Settings.GetOptionFromDefaults | org/document.go:303-306 | a buffer without OPTIONS leaves every option to the defaults |
| Util.IsSecondBlankLine | org/util.go:5-14 | true exactly when i >= 2 and tokens i-1 and i are both text lines of white space only |
| Util.Prepend | org/util.go:23-25 | the new elements first, then the old slice unchanged |
| Lexer.MatchHeadline | org/headline.go:40 | a headline line is exactly one with a leading run of stars followed by something else; the match is the whole line with the stars and the title as groups |
| Lexer.MatchEndDrawer | org/drawer.go:22 | a match of the end-drawer pattern spans the whole line and its groups lie inside it |
| Lexer.MatchBeginDrawer | org/drawer.go:21 | a match spans the whole line and names a non-empty drawer |
| Lexer.MatchBeginBlock | org/block.go:29 | a match spans the whole line and names a non-empty block kind |
| Lexer.MatchEndBlock | org/block.go:30 | a match is a prefix of the line ending after the block name |
| Lexer.MatchResult | org/block.go:31 | a match is a prefix of the line ending after the colon |
| Lexer.MatchUnorderedList | org/list.go:32 | a match spans the line: indentation, a one-character bullet + * or -, and a tail whose text is shorter than it |
| Lexer.MatchOrderedList | org/list.go:33 | a match spans the line: indentation, a bullet of a digit run or a letter plus . or ), and the tail |
| Lexer.MatchTableSeparator | org/table.go:43 | a match spans the whole line with its groups inside it |
| Lexer.MatchTableRow | org/table.go:44 | a match spans the whole line with its groups inside it |
| Lexer.MatchHorizontalRule | org/paragraph.go:17 | a match spans the whole line |
| Lexer.MatchKeyword | org/keyword.go:47 | a match spans the whole line and has the five groups the keyword parser reads |
| Lexer.MatchComment | org/keyword.go:48 | a match spans the whole line with its groups inside it |
| Lexer.MatchFootnoteDefinition | org/footnote.go:14 | a match spans the line, and the text after the label is a suffix of it at least six characters shorter |
| Lexer.MatchExample | org/block.go:28 | a match spans the whole line with its groups inside it |
| Lexer.MatchText | org/paragraph.go:18 | every line matches: leading white space, then the rest starting with a non-space character |
| Lexer.LexHeadline | org/headline.go:43-48 | a headline token of level 0, well formed, on the given row, of the line |
| Lexer.LexDrawer | org/drawer.go:25-34 | an end-drawer or begin-drawer token, well formed, on the given row |
| Lexer.LexBlock | org/block.go:34-43 | a begin-block or end-block token, well formed, on the given row |
| Lexer.LexResult | org/block.go:45-51 | a result token, well formed, on the given row |
| Lexer.LexList | org/list.go:38-49 | a list token for the whole line whose level is its indentation |
| Lexer.LexTable | org/table.go:48-57 | a separator or row token, well formed, on the given row |
| Lexer.LexHorizontalRule | org/paragraph.go:27-32 | a horizontal rule token, well formed, on the given row |
| Lexer.LexKeywordOrComment | org/keyword.go:53-60 | a keyword or comment token, well formed, on the given row |
| Lexer.LexFootnoteDefinition | org/footnote.go:16-22 | a footnote definition token of level 0, well formed, on the given row |
| Lexer.LexExample | org/block.go:53-59 | an example line token, well formed, on the given row |
| Lexer.LexText | org/paragraph.go:20-25 | always a text token: the level is the width of the leading white space and the content the rest of the line |
| Lexer.LexDateLine | org/date.go:354-373 | a date line token of the requested kind whose content is the line |
| Lexer.Tokenize | org/document.go:375-383 | the loop returns the first lexer's token in lexFns order; it is well formed, on the row, never a date line, and a blank line becomes text |
| Lexer.LexSound | org/document.go:166-177 | every lexer up to lexText builds well-formed tokens of no date kind whose match lies in the line, and lexText always accepts |
| Lexer.FirstMatchSound | org/document.go:376-381 | trying lexers that include lexText and no date lexer always gives a well-formed token |
| Lexer.FirstMatchPrefix | org/document.go:376-381 | once a prefix of the lexers accepts, the rest are never consulted |
| Lexer.LexNeverReachesDates | org/document.go:375-383 | tokenize never panics and the scheduled, deadline and closed lexers after lexText are never reached |
| Lexer.LexLevel | org/document.go:166-177 | every token's level is the width of the line's leading white space, except headlines and footnote definitions, which start at column 0 |
| Lexer.BlankLineIsText | org/document.go:375-383 | a line of white space only becomes a text token of the whole line |
| Inline.CountRune | org/inline.go:11-19 | a count no larger than the string, zero exactly when the character does not occur |
| Inline.CountRuneAppend | org/inline.go:11-19 | the count over a concatenation is the sum of the counts |
| Inline.SplitCount | org/inline.go:505 | splitting at a character gives one more piece than it has occurrences |
| Inline.SplitLast | org/inline.go:505-506 | the last piece of the split is the text after the last occurrence |
| Inline.ComputeTextEnd | org/inline.go:504-508 | the row moves down by the line breaks of the content without its trailing ones; the column is the length of its last line |
| Inline.TextEndOnOneLine | org/inline.go:504-508 | content without a line break ends on the same row at its length |
| Inline.GetEndAsWritten | org/inline.go:519-521 | as written, defined only where no LatexFragment without children is reached; it agrees with GetEnd on every other node |
| Inline.GetEnd | org/inline.go:513-531 | text, statistic, timestamp, emphasis, inline block and link nodes end at their end, footnote links, explicit breaks and macros at their position, a line break count rows down at column 0 |
| Inline.GetEndAgrees | org/inline.go:519-521 | wherever the written LatexFragment.GetEnd is defined, the corrected one gives the same position |
| Inline.MatchSubSup | org/inline.go:110 | a match is `_{` or `^{`, a non-empty run without braces, and a closing brace |
| Inline.MatchFootnoteReference | org/inline.go:112 | a match starts with `[fn:`, a label of word characters and dashes, an optional definition without ']' or line break, and ends with ']' at the given length |
| Inline.MatchStatistic | org/inline.go:113 | a match is a bracketed text starting with a digit |
| Inline.FindFrom | org/inline.go:277 | strings.Index from a position: the leftmost occurrence, or none anywhere after it |
| Inline.LatexOpening | org/inline.go:122-127 | the opening pair at the position is a key of the pair table, of the same length as its closing pair |
| Inline.LastEndTagBelow | org/inline.go:114 | the last `\end{...}` before n, as the greedy `.*` of the environment pattern takes it |
| Inline.BeginTagName | org/inline.go:114 | a found name is non-empty and the text starts with `\begin{name}` |
| Inline.MatchLatexEnvironment | org/inline.go:114 | a match starts with `\begin{name}` and runs to the last `\end{...}` after it |
| Inline.MatchSrcAt | org/inline.go:115 | a match starts with `src_`, names a non-empty language and ends with '}' |
| Inline.MatchExportAt | org/inline.go:116 | a match starts with `@@`, a non-empty backend and ':', and ends at the next `@@` |
| Inline.MatchMacroAt | org/inline.go:117 | a match starts with `{{{` and ends with `)}}}`, with name and arguments on one line |
| Inline.SearchSrc | org/inline.go:115 | FindStringSubmatch of the unanchored inline-block pattern: a match inside the text |
| Inline.SearchExport | org/inline.go:116 | FindStringSubmatch of the unanchored export-block pattern: a match inside the text |
| Inline.SearchMacro | org/inline.go:117 | FindStringSubmatch of the unanchored macro pattern: a match inside the text |
| Inline.ProtocolStartAsWritten | org/inline.go:357-362 | as written: the scan never examines index 0, so it stops at 0 whenever every character after index 0 is a letter |
| Inline.ProtocolStart | org/inline.go:357-362 | corrected: the start of the maximal run of letters that ends just before start |
| Inline.ProtocolStartDiffers | org/inline.go:357-362 | the two scans differ exactly when index 0 is not a letter and every character after it is |
| Inline.AutolinkAtIndexOneMissed | org/inline.go:357-366 | in "(http://x" the written scan yields "(http", which is no protocol, while the corrected one yields "http" |
| Inline.Ext | org/inline.go:465-476 | path.Ext: "" or a suffix of the path starting with '.' and without '/' |
| Inline.Kind | org/inline.go:461-480 | image or video by the description's extension when it is a file or web link, by the URL's otherwise, else regular |
| Inline.ImageOrVideoOnlyLinks | org/util.go:16-21 | isImageOrVideoLink holds exactly for regular links of kind image or video |
| Inline.ParseLineBreak | org/inline.go:217-224 | the run of line breaks at start is consumed whole, and the node counts them |
| Inline.RawText | org/inline.go:207-211 | a raw text node holding exactly the given content |
| Inline.ParseRawInline | org/inline.go:192-215 | the nodes spell out the input exactly, are only raw text and line breaks, and are empty only for empty input |
| Inline.InlineStep | org/inline.go:169-182 | one turn after a sub-parser consumed: pending text is flushed and the node appended, and the scan moves forward; the flushed text holds no construct start |
| Inline.ParseInline | org/inline.go:129-190 | the input is covered exactly by text slices and the constructs the sub-parsers consumed, a non-empty input gives nodes, and no position inside a text slice is one where the switch would consume |
| Inline.Dispatch | org/inline.go:134-167 | the switch on the current character consumes exactly when a construct of that character starts there (`ConstructAt`: sub/superscript at `^`, inline block, sub/superscript or emphasis at `_`, export snippet at `@`, emphasis at `*/+=~`, link, footnote or statistic at `[`, macro at `{`, line break, fragment or environment at `\`, fragment at `$`, always at a line break, auto link at `:`, never at `<` or elsewhere), and the node built is of that character's kind |
| Inline.DispatchMore | org/inline.go:148-161 | the `{`, `<`, `\`, `$`, line-break and `:` cases (the `\` and `$` ones through Inline.DispatchLatex) of the switch: the step consumes exactly when `ConstructAt` holds for that character, and the node built is of that character's kind |
| Inline.DispatchLatex | org/inline.go:152-155 | the `\` and `$` cases of the switch: the step consumes exactly when `ConstructAt` holds for that character, and the node built is a line break or fragment (`\`) or a fragment (`$`) |
| Inline.ParseSubOrSuperScript | org/inline.go:286-293 | consumes exactly on a match, giving an Emphasis of kind `_{}` or `^{}` around the text |
| Inline.ParseSubScriptOrEmphasisOrInlineBlock | org/inline.go:295-303 | consumes exactly when an inline block, a subscript or an emphasis starts at `_`, tried in that order: a rewind exactly for the inline block, the subscript when it matches, else `_` emphasis |
| Inline.ParseInlineBlock | org/inline.go:226-236 | consumes exactly after `src` that starts the text or follows white space and is followed by a well-formed block, and the block carries the pending keywords |
| Inline.ParseInlineExportBlock | org/inline.go:238-245 | consumes exactly when an export block is found, as one `export` inline block |
| Inline.ParseExplicitLineBreakOrLatexFragment | org/inline.go:247-268 | consumes exactly when, tried in that order, an explicit line break, a fragment with its closing pair, or an environment with equal begin and end names starts at the backslash |
| Inline.ParseExplicitLineBreak | org/inline.go:250-258 | consumes exactly when `\\`, not at the start of a line, is followed by blanks and then a line break; it consumes through that line break, and blanks running to the end of the input give nothing |
| Inline.ParseLatexEnvironment | org/inline.go:259-265 | a matched environment with equal begin and end names is consumed up to the first closing `\end{name}` |
| Inline.LatexFragmentConsumes | org/inline.go:270-284 | what parseLatexFragment promises amounts to consuming exactly when a closing pair follows the opening pair |
| Inline.ParseLatexFragment | org/inline.go:270-284 | consumes exactly when a closing pair follows the opening pair; from the opening pair to the first closing pair after it, the text between parsed raw |
| Inline.ParseOpeningBracket | org/inline.go:305-314 | consumes exactly when `[[` starts a link, or else a footnote reference with a name or a definition, or else a statistic matches; the footnote link takes the reference's name and has a definition exactly when one was written, the statistic holds the text between the brackets |
| Inline.ParseMacro | org/inline.go:316-321 | consumes exactly on a macro match; the rejoined parameters are the argument text, none holding a comma |
| Inline.ParseFootnoteReference | org/inline.go:323-341 | consumes exactly when the reference has a name or a definition; a definition is there exactly when its text is non-empty, and then its nodes spell that text, its paragraph starts at the reference and ends where its last node ends |
| Inline.ParseStatisticToken | org/inline.go:343-350 | consumes exactly on a statistic match, giving a bracketed statistics token |
| Inline.ScanProtocolStart | org/inline.go:357-362 | the scan loop computes the corrected protocol start |
| Inline.ScanURLEnd | org/inline.go:368-369 | the end of the maximal run of URL characters from start |
| Inline.ParseAutoLink | org/inline.go:352-376 | a link only with auto links on after `://` preceded by http, https, ftp or file, running over the URL characters past `://`; it steps back over the protocol, and consumes exactly when those conditions hold |
| Inline.LinkProtocol | org/inline.go:396-398 | the text before the first ':' of the link, or "" without one |
| Inline.ParseRegularLink | org/inline.go:378-401 | `[[` up to the first `]]`: the link is the part before `][` on one line, and the description, whose nodes spell the text after the `][`, only with exactly one `][`; consumes exactly when the third character is not `[`, a `]]` closes it and the link part has no line break |
| Inline.ParseDescription | org/inline.go:389-391 | the description of a link is parsed inline: its nodes spell the description text exactly, and a non-empty description gives nodes |
| Inline.RegularLinkResult | org/inline.go:383-400 | once the first `]]` is found after `[[` and the link has no line break, the node built is the regular link from `start` to that `]]` with the link before the first `][` and a description only for exactly one `][`, its nodes spelling the text after it |
| Inline.ParseTimestamp | org/inline.go:403-415 | a recognised timestamp becomes the current headline's timestamp, and the node consumes nothing |
| Inline.EmphasisScanDone | org/inline.go:427-435 | a scan that runs out finds no closing marker |
| Inline.ParseEmphasis | org/inline.go:421-439 | consumes exactly when the pre and border characters fit and a closer exists within the line-break budget; the first closer ends it |
| Inline.FootnoteDefinitionOfDollars | org/inline.go:112 | `[fn:x:$$$$]` is a footnote reference with the definition `$$$$` |
| Inline.EmptyFragmentEndsDefinition | org/inline.go:519-521 | `$$$$` is a fragment without children, on which the written GetEnd is undefined and the corrected one gives its position |
| Parser.AsText | org/document.go:350-352 | the fallback of parseOne rebuilds the token as text from its group-0 match (for END and RESULTS lines, the line up to the name or the colon), keeping its position; it is lighter than any token parseOne can fall back from |
| Parser.FallbackLighter | org/document.go:346-353 | the retried token is strictly lighter, so the recursion of parseOne ends |
| Parser.Written | org/drawer.go:43-56 | evaluating the stop records a drawer end only when it holds, parents first |
| Parser.WrittenOnlyWhenHolds | org/drawer.go:43-56 | a stop that does not hold writes no drawer end |
| Parser.StopAt | org/drawer.go:43-56 | the stop closures' answer at token i, with exactly the drawer ends their side effects record |
| Parser.Stopped | org/drawer.go:43-56 | the same answer, the number of recorded drawer ends unchanged |
| Parser.ScanEnd | org/paragraph.go:39-42 | the index where a parser loop stops lies between its start and the end of the tokens |
| Parser.ScanEndIsFirst | org/paragraph.go:39-42 | that index is the first one where the stop holds or the line stops continuing the run |
| Parser.ParagraphLines | org/paragraph.go:35-42 | one line per token of the paragraph |
| Parser.ParagraphLineAt | org/paragraph.go:40-41 | the first line is the content; every later one is its level above the base level in spaces, then its content |
| Parser.OneLineEndComputed | org/block.go:115 | computeTextEnd of a line without a line break is the same row at the line's length |
| Parser.ExampleTexts | org/block.go:113-117 | one raw text node per example line |
| Parser.ExampleTextAt | org/block.go:113-117 | node k is the raw text of example line k |
| Parser.BodyLines | org/block.go:75-77 | one line per body token of a raw block |
| Parser.InlineNodes | org/block.go:81 | the inline nodes of a raw block wrapped one to one as block children |
| Parser.PropertiesOf | org/drawer.go:90-97 | one pair per property line |
| Parser.PropertyAt | org/drawer.go:95-96 | pair k is the upper-cased name and trimmed value of property line k |
| Parser.WithTimestamp | org/inline.go:403-415 | only the current headline's timestamp changes; every other section, the parents, children and tables stay |
| Parser.RestampedTrans | org/inline.go:403-415 | two timestamps set one after the other amount to the second one |
| Parser.SetSDC | org/headline.go:105-128 | the scheduled, deadline or closed entry of the kind is set; the other two, the title, children, timestamp and tables are kept |
| Parser.DrawerStopAt | org/drawer.go:43-56 | where a drawer's stop holds on a line that neither ends nor starts a drawer, its parent's stop holds or it is a headline |
| Parser.KindOf | org/keyword.go:69-100 | the switch of parseKeyword: NAME, SETUPFILE, INCLUDE, LINK, MACRO, the four affiliated keys and TBLFM each select their case, exactly |
| Parser.Define | org/keyword.go:76-85 | a found LINK or MACRO definition sets its name and keeps every other entry |
| Parser.SetupMerged | org/keyword.go:232-251 | a readable setup file's buffer settings overwrite the document's, and every other setting stays |
| Parser.BufferSetting | org/keyword.go:92-97 | any other keyword's value is joined to an earlier value with a newline, or set; nothing else changes |
| Parser.AffiliatedAt | org/keyword.go:141-144 | every line the affiliated loop passes has an affiliated key |
| Parser.AffiliatedEnds | org/keyword.go:141-144 | the loop ends at the stop or a line that is not a keyword when all keys are affiliated |
| Parser.AffiliatedBreaks | org/keyword.go:183-185 | a keyword line that is not affiliated ends the run early, where parseAffiliated returns 0 |
| Parser.KeyValues | org/keyword.go:143-147 | the values of the affiliated lines with a given key, in order |
| Parser.KeyValuesStep | org/keyword.go:143-147 | one more line adds its value under its own key only |
| Parser.AttributeLists | org/keyword.go:148-178 | each ATTR value becomes its attribute list |
| Parser.AttributeListsAppend | org/keyword.go:163 | one more value appends its attribute list |
| Parser.CaptionStep | org/keyword.go:145-146 | a CAPTION line adds a caption spelling its value |
| Parser.HtmlStep | org/keyword.go:163 | an ATTR_HTML line adds its attribute list |
| Parser.LatexStep | org/keyword.go:179 | an ATTR_LATEX line adds its attribute list |
| Parser.EnvStep | org/keyword.go:180-181 | an ENV line sets the environment to its trimmed value |
| Parser.SplitHeadline | org/headline.go:56-76 | the status loop, the priority cookie and the tag match compute the headline's parts |
| Parser.BegunKept | org/headline.go:50-93 | what parseHeadline wrote at the start survives later changes to other fields |
| Parser.Indentation | org/list.go:92 | minIndent is non-negative for a non-negative level |
| Parser.ItemLineLighter | org/list.go:114 | re-lexing an item line without its head gives a lighter token |
| Parser.ItemLineLevel | org/list.go:114 | the re-lexed line is indented at least as far as minIndent |
| Parser.Shifted | org/list.go:115-116 | the re-lexed token moved one column right, otherwise the same |
| Parser.ItemEndAtItem | org/list.go:117-123 | at a line indented at least minIndent, the item's stop is its parent's |
| Parser.RowCells | org/table.go:65-77 | one trimmed cell per piece of the split row |
| Parser.CellStarts | org/table.go:69-80 | one start per cell |
| Parser.CellEnds | org/table.go:69-80 | one end per cell |
| Parser.TableRows | org/table.go:63-91 | one row per table line |
| Parser.TableStarts | org/table.go:63-91 | one list of starts per table line |
| Parser.TableEnds | org/table.go:63-91 | one list of ends per table line |
| Parser.TableRowAt | org/table.go:65-85 | row k is made from line k: its cells, starts and ends |
| Parser.TableShape | org/table.go:63-91 | the cells of each row and their starts and ends line up in number |
| Parser.ScanParagraph | org/paragraph.go:35-42 | the loop stops at the first stop, non-text or blank line after the first, with exactly those lines |
| Parser.ScanExample | org/block.go:110-119 | the loop collects exactly the example lines up to the stop |
| Parser.SkipBlank | org/block.go:101 | the loop skips exactly the blank text lines up to the stop |
| Parser.PropertyStep | org/drawer.go:90-96 | one line of that loop: when done, the property run ends at that line and the pairs are unchanged; otherwise a property line adds its pair, and any other line rules out the drawer |
| Parser.ScanProperties | org/drawer.go:90-97 | ok exactly when every line up to the stop is a property line; then the pairs of those lines |
| Parser.AddProperty | org/drawer.go:91-96 | one round: a property line adds its pair, and any other line makes the drawer fail |
| Parser.AppendProperty | org/drawer.go:91-96 | the pairs so far are exactly those of the lines so far, all properties |
| Parser.AllPropertiesPrefix | org/drawer.go:90-97 | a run of property lines stays one when shortened |
| Parser.ScanTable | org/table.go:63-91 | the loop collects every row and separator to the stop or the first other line: the cells, their starts and ends, and the separator indices |
| Parser.AddTableLine | org/table.go:64-90 | one round adds a row's cells or a separator |
| Parser.SplitRow | org/table.go:65-79 | the trimmed cells of a row with where each starts and ends |
| Parser.ScanBody | org/block.go:75-77 | the loop collects the lines, indent trimmed, up to the block's END line or the end of the tokens |
| Parser.TokenAtAsWritten | org/inline.go:169 | as written: d.tokens[ni] panics exactly when ni is past the last token |
| Parser.RawBlockAsWrittenPanics | org/block.go:81 | `#+BEGIN_SRC` with a body line and no END line makes parseRawInline read past the last token |
| Parser.DescriptiveLineMatches | org/list.go:32 | the line `- a :: b` matches the unordered-list pattern with no indentation, the bullet `-` and the rest ` a :: b` |
| Parser.DescriptiveLineLexes | org/list.go:38-42 | the line `- a :: b` lexes as an unordered item at level 0 whose content is `a :: b` |
| Parser.DescriptiveAsWrittenPanics | org/list.go:132 | `- a :: b` as the last line makes parseInline read the term's position past the last token |
| Roman.RomanIntToString | org/table.go:387-392 | the out-of-bounds error with "" exactly for integers outside 1 to 3999, and no error otherwise |
| Roman.RomanToInt | org/table.go:433-444 | the nested loops strip each numeral of the table in order as often as it leads the input; ok exactly when nothing is left |
| Roman.StripAll | org/table.go:436-439 | the inner loop strips the longest run of one numeral and adds its value each time |
| Roman.RomanStringToIntAsWritten | org/table.go:416-431 | as written: 0 without error for "", the invalid-numeral error when the scan leaves input, else the scanned value however large; it differs from the corrected reader exactly when it returns a value above 3999 without error |
| Roman.RomanStringToInt | org/table.go:413-431 | corrected: 0 without error for "", the invalid-numeral error when the scan leaves input, the out-of-bounds error above 3999, so a value returned without error for a non-empty numeral lies in 1 to 3999 |
| Roman.FourThousandAccepted | org/table.go:413-444 | `MMMM` reads as 4000 without error as written, and gives the out-of-bounds error once corrected |
| Roman.ConvertRomanNumeral | org/table.go:446-451 | the numeral's value, or 1 when it is not one |
| Roman.DigitTables | org/table.go:379-383 | each lookup table entry is the standard numeral of its digit at its decimal place |
| Roman.RomanDigits | org/table.go:359-375 | reading the concatenated place strings back with the numeral table gives the number and leaves nothing |
| Roman.PlaceDigits | org/table.go:407-411 | the four lookup indices are the thousands, hundreds, tens and ones digits of n |
| Roman.RomanRoundTrip | org/table.go:387-451 | every integer from 1 to 3999 converts without error and reads back as itself |
| OrgTable.MatchAlignSound | org/table.go:46 | a recognised alignment directive is `<`, an optional l, c or r, digits and `>` |
| OrgTable.MatchAlignComplete | org/table.go:46 | every such directive is recognised, with its letter and digits |
| OrgTable.MaxColumns | org/table.go:135-140 | the column count bounds every row's length and is some row's length (or 0) |
| OrgTable.MaxLen | org/table.go:150-152 | the widest cell of column i over the rows that have it, or 0 |
| OrgTable.DirectiveAlign | org/table.go:154-161 | a directive's alignment is "", left, center or right |
| OrgTable.EmptyColumnIsRight | org/table.go:172-174 | a column whose cells are all missing or blank is right-aligned with length 0 |
| OrgTable.ScanOfAppend | org/table.go:144-170 | the column scan over one more row is one row step of the scan so far |
| OrgTable.ScanRow | org/table.go:146-170 | one round of the inner loop of getColumnInfos computes the row step |
| OrgTable.ColumnLayout | org/table.go:143-175 | the loop over the rows computes the column's alignment, length and display length |
| OrgTable.Layouts | org/table.go:142 | one layout per column |
| OrgTable.ColumnCount | org/table.go:135-140 | the first loop computes the greatest row length |
| OrgTable.GetColumnInfos | org/table.go:134-179 | one info per column of the widest row, each the layout of that column |
| OrgTable.AppendKeyword | org/table.go:339-343 | the keyword is appended and the formulas kept |
| OrgTable.Table.constructor | org/table.go:93 | a new table holds the given rows, infos, separators and position, no formulas, and current cell (1, 1) |
| OrgTable.Table.GetRealRowCol | org/table.go:200-211 | the loop computes the row reference: the physical index of the logical row, and col - 1, or (-1, -1) |
| OrgTable.Table.GetValRef | org/table.go:246-256 | a relative reference counts back from the current cell; the result is the cell's text there |
| OrgTable.Table.RecomputeColumnInfos | org/table.go:299-312 | each column's length grows to its widest rendered cell; nothing else changes |
| OrgTable.WidestIsMax | org/table.go:304-308 | the widened length bounds every rendered cell of the column and is the base or one of them |
| OrgTable.WidenRow | org/table.go:303-309 | one row of the loop widens each column to that row's cell |
| OrgTable.SepsBelow | org/table.go:203-205 | the separators counted before a row are at most its index |
| OrgTable.RealRow | org/table.go:202-209 | the first physical index where exactly row ordinary rows have been seen, or -1 when there is none |
| OrgTable.DataRowsStep | org/table.go:203-206 | one more physical row adds one ordinary row unless it is a separator |
| OrgTable.RealRowIsRowth | org/table.go:200-211 | a logical row exists exactly when the table has that many ordinary rows, and it is an ordinary row with row - 1 before it |
| OrgTable.GetWidth | org/table.go:258-264 | the number of columns of the first row, 0 for a nil or empty table |
| OrgTable.SetVal | org/table.go:213-223 | only the addressed cell's children become the plain value, when the cell exists; all else stays |
| OrgTable.SetValRef | org/table.go:225-230 | SetVal at the reference's row and column as they are, ignoring the relative flags |
| OrgTable.GetVal | org/table.go:232-244 | the cell's children written back as Org text, "" for a nil table or a missing cell |
| OrgTable.SetThenGet | org/table.go:213-244 | a value set in an existing cell is read back |
| OrgTable.ClampToMinMax | org/table.go:273-281 | 1 for a non-positive value, max above max, the value itself in range |
| OrgTable.RowEnd | org/table.go:788-795 | one column past the end of the last cell, or Pos 0 0 for a row without cells |
| OrgTable.RowPos | org/table.go:796-801 | the first cell's position, or Pos 0 0 |
| OrgTable.TableEnd | org/table.go:810-815 | the end of the last row, or the table's position when it has none |
| TableFormulas.ProcessFormula | org/table.go:751-766 | without "=" the formula is unchanged; with one it becomes valid, its target the trimmed text before the first "=", and the rest splits at the last ";" into expression and format |
| TableFormulas.TrimAll | org/table.go:774-776 | one trimmed piece per piece |
| TableFormulas.PieceFormulas | org/table.go:774-782 | at most one formula per piece; a nil table is accepted whenever no piece's target reads it |
| TableFormulas.PieceFormulasFrom | org/table.go:774-782 | every formula made comes from a non-blank piece, with that piece's text and index, processed |
| TableFormulas.PieceFormulasCover | org/table.go:774-782 | every non-blank piece gives a formula with its index |
| TableFormulas.ProcessFormulas | org/table.go:768-786 | a no-op once formulas exist; else every non-blank `::` piece of every keyword in order, keywords unchanged; a nil table is accepted whenever no piece's target reads it |
| TableFormulas.AddKeyword | org/table.go:772-784 | one round of the outer loop adds the keyword's formulas, over a nil table too when no piece's target reads it |
| TableFormulas.KeywordPieces | org/table.go:774-782 | the inner loop computes the formulas of one keyword's pieces, over a nil table too when no piece's target reads it |
| TableFormulas.AddPiece | org/table.go:775-781 | one round of the inner loop adds the piece's formula, if any, over a nil table too when no piece's target reads it |
| TableRefs.GetRow | org/table.go:453-477 | "" is row 1; `<...` and `>...` count from the top and bottom of the ordinary rows, clamped; a roman numeral names a separator's row; an integer is absolute when positive and a relative offset otherwise; anything else 1 |
| TableRefs.IntOrOne | org/table.go:470-476 | the Atoi tail: never negative |
| TableRefs.GetCol | org/table.go:479-499 | as GetRow without roman numerals, and `>` counts back from the height, as written |
| TableRefs.GetRowColOfInteger | org/table.go:470-476 | an integer text reads as itself when positive and as a relative offset when not |
| TableRefs.GetRowColOfLeft | org/table.go:459-460 | k '<' characters read as row or column k, clamped |
| TableRefs.GetRowColEmpty | org/table.go:455-457 | blank text reads as 1 |
| TableRefs.GetRowOfRoman | org/table.go:465-468 | the roman numeral n reads as the row of separator n |
| TableRefs.MatchTarget | org/table.go:346 | the target pattern's match is the leftmost start that matches, and none means no start does |
| TableRefs.MatchRowOnly | org/table.go:346 | `@r` is recognised as a row-only reference |
| TableRefs.MatchColOnly | org/table.go:346 | `$c` is recognised as a column-only reference |
| TableRefs.MatchRowAndCol | org/table.go:346 | `@r$c` is recognised as a row-and-column reference |
| TableRefs.RefOf | org/table.go:505-521 | a row-only match is an entire row, a column-only match an entire column, both a cell, each read by GetRow and GetCol |
| TableRefs.MakeRowColDef | org/table.go:501-522 | an unrecognised text is the zero reference; a recognised one its reference |
| TableRefs.MakeRowColDefCell | org/org_table_target_test.go:7-16 | `@r$c` gives the absolute cell (r, c) |
| TableRefs.MakeRowColDefWholeRow | org/table.go:505-510 | `@r` gives the entire row r |
| TableRefs.MakeRowColDefWholeCol | org/table.go:511-516 | `$c` gives the entire column c |
| TableRefs.ProcessTarget | org/table.go:524-535 | an empty target is unchanged; without ".." both ends are its reference; with ".." the ends are the two parts |
| TableRefs.MakeRowColDefParsed | org/table.go:537-556 | a row alone is an entire row, a column alone an entire column, else both through GetRow and GetCol |
| TableRefs.MakeFormulaTarget | org/table.go:558-568 | the start from r1 and c1; the end from r2 and c2, or the start when both are empty |
| TableRefs.RectangleIsPositive | org/table.go:588-596 | a range that is neither a row nor a column range is always positive |
| TableIter.Up | org/table.go:598-608 | the integers from rs to re ascending |
| TableIter.Down | org/table.go:610-620 | the integers from rs down to re |
| TableIter.Counter.Step | org/table.go:598-620 | a call hands out the next pending value, or -1 for ever once none is left |
| TableIter.PosCounter | org/table.go:598-608 | the ascending closure's values are rs to re |
| TableIter.NegCounter | org/table.go:610-620 | the descending closure's values are rs down to re |
| TableIter.IntIterator.Pos | org/table.go:598-608 | CreatePosIterator: the values still to come are rs to re ascending |
| TableIter.IntIterator.Neg | org/table.go:610-620 | CreateNegIterator: the values still to come are rs down to re |
| TableIter.IntIterator.Next | org/table.go:601-607 | a call returns the next value and drops it, or -1 once exhausted |
| TableIter.PosCounterYields | org/table.go:598-608 | the k-th value is rs + k, and none at all exactly when rs > re |
| TableIter.NegCounterYields | org/table.go:610-620 | the k-th value is rs - k, and none at all exactly when rs < re |
| TableIter.ExhaustedStays | org/table.go:603-606 | an exhausted counter stays exhausted and keeps returning -1 |
| TableIter.FixupPos | org/table.go:624-633 | a relative coordinate becomes an absolute one inside the table; an absolute one stays |
| TableIter.LineCells | org/table.go:656-700 | a row or column range hands out the current reference with the column or row replaced by each value |
| TableIter.RowsAt | org/table.go:708-727 | one reference per row in the given column |
| TableIter.IterState.Step | org/table.go:636-749 | a call returns the next reference still to come and drops it, or nil for ever once none is left |
| TableIter.IterState.RectStep | org/table.go:708-727 | the rectangle closure's step: the next cell down the column, then the next column |
| TableIter.ColRefIterator.constructor | org/table.go:636-749 | the iterator starts in the given state |
| TableIter.ColRefIterator.Next | org/table.go:636-749 | a call returns the next reference still to come, or nil once none is left |
| TableIter.CreateIterator | org/table.go:636-749 | a fresh iterator whose references are the target cells for the branch taken; the nil-table branch exactly for a nil table, whatever the target |
| TableIter.Grid | org/table.go:708-727 | the rectangle has one cell per column and row |
| TableIter.GridCell | org/table.go:708-727 | the cell at column q and row m of the rectangle is (sr + m, sc + q) |
| TableIter.RectangleCells | org/table.go:708-727 | the rectangle iterator hands out every cell column by column, each column top to bottom |
| TableIter.NilTableIteratesNothing | org/table.go:636-641 | over a nil table the iterator returns nil at once, for any target |
| OrgWriter.Utf8Width | org/org_writer.go:122 | a character takes one to four bytes in UTF-8, one exactly when it is ASCII |
| OrgWriter.ByteLen | org/org_writer.go:122 | a string's byte length lies between its length and four times it |
| OrgWriter.ByteLenAppend | org/org_writer.go:122 | byte lengths add up over concatenation |
| OrgWriter.ByteLenAscii | org/org_writer.go:122 | an ASCII string's byte length is its length |
| OrgWriter.LeadingPad | org/org_writer.go:420-428 | the spaces before a cell's content are at most its padding |
| OrgWriter.PaddedShape | org/org_writer.go:411-429 | a cell is as wide as its column or its content, whichever is wider, and the content sits after the padding (right), in the middle with the odd space in front (center), or first (otherwise), the rest spaces |
| OrgWriter.SeparatorCellsAsWritten | org/org_writer.go:398-405 | the dashes as written, Len+2 per column; none exactly when a column's Len+2 is negative |
| OrgWriter.SeparatorMisaligned | org/org_writer.go:400 | for a one-column table of an empty cell over a separator row the separator as written is one narrower than the cell line, and the corrected one is not |
| OrgWriter.InfoOf | org/org_writer.go:411 | a column reads the column info it points at |
| OrgWriter.SeparatorCellsWidth | org/org_writer.go:398-405 | the separator row's dashes span the width of the cell lines |
| OrgWriter.CellTextWidth | org/org_writer.go:408-430 | a written cell is the column's width plus three |
| OrgWriter.RowCellsWidth | org/org_writer.go:408-430 | a row's cells span the table's width when every content fits its column |
| OrgWriter.TableLinesAligned | org/org_writer.go:394-435 | every line of a table whose widths were computed from the rendered cells has the same width, separator rows included |
| OrgWriter.WidestFits | org/table.go:299-312 | a rendered cell is no wider than the widest cell of its column |
| OrgWriter.MatchKeywordShape | org/keyword.go:47 | a `#+` line with a letter and a later colon matches the keyword pattern, key up to the colon and value after the spaces |
| OrgWriter.MatchKeywordLine | org/keyword.go:47 | `#+KEY:` and anything after it matches the keyword pattern with that key |
| OrgWriter.KeywordLineRoundTrip | org/org_writer.go:298-306 | a written keyword line lexes as a keyword and parses back to the same key and value |
| OrgWriter.PropertyLineRoundTrip | org/org_writer.go:219-233 | a written property line matches the property pattern with the same key and value |
| OrgWriter.PrefixStars | org/org_writer.go:106-114 | a headline line begins with lvl stars and a space |
| OrgWriter.HeadlineLineLexes | org/org_writer.go:105-126 | a written headline line lexes as a headline of the same level |
| OrgWriter.StarsLexHeadline | org/headline.go:40 | lvl stars and a space lex as a headline of level lvl |
| OrgWriter.TagsEndAtColumn | org/org_writer.go:119-126 | the tags end exactly at the tag column when there is room, else one space separates them from the title |
| OrgWriter.OrgWriter.constructor | org/org_writer.go:68-75 | a new writer has empty output, tag column 77, no indent, no line break yet, and indenting on |
| OrgWriter.OrgWriter.NodeIdx | org/org_writer.go:25-27 | the index of the node being written becomes i |
| OrgWriter.OrgWriter.ResetLineBreak | org/org_writer.go:29-31 | afterwards no index counts as just after a line break |
| OrgWriter.OrgWriter.SetIndentState | org/org_writer.go:33-35 | indenting is switched on or off as asked |
| OrgWriter.OrgWriter.SetLineBreak | org/org_writer.go:37-39 | the current node is recorded as ending a line, so the next one counts as after a line break |
| OrgWriter.OrgWriter.SetLineBreakAs | org/org_writer.go:41-43 | the line break is recorded at the given index |
| OrgWriter.OrgWriter.WriteIndent | org/org_writer.go:49-53 | the indent is written when indenting is on, nothing otherwise |
| OrgWriter.OrgWriter.WriteKeyword | org/org_writer.go:298-306 | the indented `#+KEY:` line with the value after a space, and a line break recorded |
| OrgWriter.OrgWriter.WritePropertyDrawer | org/org_writer.go:219-233 | `:PROPERTIES:`, one `:KEY: value` line per property in order, `:END:`, each indented, and a line break recorded |
| OrgWriter.OrgWriter.WriteHeadlineLine | org/org_writer.go:105-126 | the stars, status, priority cookie, rendered title and tags padded towards the tag column, then a newline |
| OrgWriter.OrgWriter.WriteTable | org/org_writer.go:394-435 | one indented line per row, separator rows as dashes, and a line break recorded |
| OrgWriter.TableRowLine | org/org_writer.go:396-432 | a row without columns is a separator line, else its cells |
| OrgWriter.SeparatorRow | org/org_writer.go:398-405 | the loop writes the separator row's dashes |
| OrgWriter.CellsRow | org/org_writer.go:408-430 | the loop writes one padded cell per column |
| OrgWriter.PrefixText | org/org_writer.go:106-114 | the statements write the headline up to its title |
| OrgWriter.TagsText | org/org_writer.go:119-126 | the statements write the tags padded towards the tag column |
| HtmlWriter.AddKnown | org/html_writer.go:709-712 | a non-empty name seen before gets its old number back and nothing changes |
| HtmlWriter.AddFresh | org/html_writer.go:713-718 | any other link is appended and gets the next index, which no registered name holds; the name is recorded only when it is non-empty |
| HtmlWriter.AddRegistered | org/html_writer.go:709-719 | add keeps every recorded index inside the list and returns an index into it |
| HtmlWriter.AddDistinct | org/html_writer.go:709-719 | two different names added one after the other get different numbers |
| HtmlWriter.UpdateDefinitionEffect | org/html_writer.go:721-725 | only the registered name's entry changes, to the definition; an unregistered name changes nothing |
| HtmlWriter.AddThenDefine | org/html_writer.go:709-725 | after a named reference and its definition, the reference's number points at that definition |
| HtmlWriter.Footnotes.constructor | org/html_writer.go:78-94 | a writer's footnotes start with no names and no definitions |
| HtmlWriter.Footnotes.Add | org/html_writer.go:709-719 | the map and list are updated as add does, and a consistent state stays consistent |
| HtmlWriter.Footnotes.UpdateDefinition | org/html_writer.go:721-725 | the list is updated as updateDefinition does |
| HtmlWriter.DefinitionAnchor | org/html_writer.go:237 | a definition's anchor is `footnote-` and its number |
| HtmlWriter.ReferenceAnchor | org/html_writer.go:358 | a reference's anchor is `footnote-reference-` and its number |
| HtmlWriter.AnchorsDistinct | org/html_writer.go:225-237 | footnote anchors are equal exactly when their numbers are |
| HtmlWriter.DefinitionsPrefix | org/html_writer.go:224-241 | the definitions written for the first j footnotes begin those written for the first k |
| HtmlWriter.DefinitionWritten | org/html_writer.go:224-241 | every known definition is written under its index + 1 |
| HtmlWriter.PrefixContains | org/html_writer.go:224-241 | text that begins with a prefix and a definition contains the definition |
| HtmlWriter.DefinitionsText | org/html_writer.go:224-241 | the loop writes the known definitions in list order, skipping the missing ones |
| HtmlWriter.HtmlWriter.constructor | org/html_writer.go:78-94 | a new writer has empty output and fresh, empty footnotes, and its invariant (every recorded footnote number indexes the list) holds |
| HtmlWriter.HtmlWriter.WriteFootnoteLink | org/html_writer.go:352-359 | with footnotes off nothing happens; else the link is numbered by add and its reference written under index + 1; the invariant is kept |
| HtmlWriter.HtmlWriter.WriteFootnoteDefinition | org/html_writer.go:213-215 | a definition only updates the footnotes as updateDefinition does, keeping the invariant |
| HtmlWriter.HtmlWriter.WriteFootnotes | org/html_writer.go:217-243 | nothing when footnotes are off or none were referenced, else the frame around the known definitions |
| HtmlWriter.FirstKey | org/html_writer.go:686-687 | the index of the first attribute whose key matches ignoring case, or -1 when none does |
| HtmlWriter.Lookup | org/html_writer.go:686-687 | a value is found exactly when some key matches ignoring case |
| HtmlWriter.SetAttributeEffect | org/html_writer.go:685-698 | only the first matching attribute changes, keeping its key: class and style get a space and v appended, other keys get v; without a match (k, v) is appended |
| HtmlWriter.SetThenLookup | org/html_writer.go:685-698 | after setting k, looking k up gives v, or for class and style the old value, a space and v |
| HtmlWriter.FirstKeyAt | org/html_writer.go:686-687 | the first matching attribute is where the search finds it |
| HtmlWriter.SetAttributeKeepsOthers | org/html_writer.go:685-698 | setting k leaves the value of every key that differs from k ignoring case unchanged |
| HtmlWriter.SetHtmlAttribute | org/html_writer.go:685-698 | the loop computes the merged attribute list |
| HtmlWriter.InHeadIff | org/html_writer.go:606-608 | for increasing separator rows, the table opens with a header exactly when some separator is strictly inside it and the separators do not both open and close it |

## Left out

- Columns and offsets are counted in code points, where Go counts bytes, so the two agree only on ASCII text. This affects token positions and end positions (`len(m[1])`, `len(m[0])` in the lexers), inline start offsets and the `Pos` columns built from them, table cell positions (`len(rawRow[i])`, table.go:75), the end column of a text token (computeTextEnd, inline.go:504-508), and a descriptive item's baseLvl from `strings.Index` (list.go:104).
- Inline.ScanProtocolStart: parseAutoLink's backward scan for the protocol start is modelled as intended. The code as written misses a protocol that starts at index 1 (inline.go:357-362); that behaviour is Inline.ProtocolStartAsWritten, exhibited by Inline.AutolinkAtIndexOneMissed (see Findings).
- Inline.GetEnd: LatexFragment.GetEnd of an empty fragment answers with the fragment's own position. The code indexes Content[-1] and panics (inline.go:519-521); that is Inline.GetEndAsWritten, exhibited by Inline.EmptyFragmentEndsDefinition (see Findings).
- Headlines.TrimFastTag: a tag ending in ")" with no "(" two characters before is kept. The code computes t[:end-2] for a tag such as "a)", which panics (headline.go:136-137); that is Headlines.TrimFastTagAsWritten, exhibited by Headlines.FastTagPanics (see Findings).
- Keywords.ParseInclude: an #+INCLUDE value that does not have the include shape gives an Include without a file, whose resolve returns the keyword itself, and its end column adds the value's length. The code reads m[0] of the nil match there and panics (keyword.go:229); that is Keywords.ParseIncludeAsWritten, exhibited by Keywords.IncludeAsWrittenPanics (see Findings).
- Documents.Document.InlineContext: when parseInline or parseRawInline is handed an index past the last token, the model reads the last token's position, and the parse method then goes on as the code does after it. In the code, index len(tokens) panics. This happens for an unterminated raw block whose body is parsed at i == len(tokens) (block.go:81) and for the term of a descriptive item that ends the document (list.go:132). See Parser.RawBlockAsWrittenPanics and Parser.DescriptiveAsWrittenPanics in Findings.
- Roman.RomanStringToInt: a numeral whose value is above 3999 gives the IntegerOutOfBounds error, as the doc comment at table.go:413-414 promises. The code as written takes any number of leading M's and returns such a value without error, so `MMMM` reads as 4000 (table.go:433-444); that is Roman.RomanStringToIntAsWritten, exhibited by Roman.FourThousandAccepted (see Findings).
- Roman.ConvertRomanNumeral: it reads through the corrected Roman.RomanStringToInt, so a numeral above 3999 gives 1, where the code returns the numeral's value.
- TableRefs.GetRow: its roman case goes through Roman.ConvertRomanNumeral, so a numeral above 3999 that starts with I, V or X (400 X's, say) names separator 1 where the code names separator 4000 or more; the two differ only for a table with more than 3999 separators.
- OrgWriter.OrgWriter.WriteTable: separator rows use the cell width max(Len, 1) + 2. The code uses Len + 2 (org_writer.go:400), which is one short for a column whose cells are all empty; see Findings.
- Strs.ToUpper: Go's Unicode strings.ToUpper, ToLower and EqualFold are modelled on ASCII letters only, so beyond ASCII the key of `#+aé:` keeps "é". This holds for Strs.ToLower, Strs.EqualFold and HtmlWriter.SetAttribute too, and for the `(?i)` include pattern (Keywords.IncludeTarget, whose kind test is ASCII-only, so `ſrc` is not read as "src" there). The lexer's `(?i)` recognisers (Lexer.MatchEndDrawer, Lexer.MatchBeginBlock, Lexer.MatchEndBlock, Lexer.MatchResult) do fold as RE2 does: ſ (U+017F) matches s and S, and the Kelvin sign K (U+212A) matches k and K.
- Strs.Atoi: strconv.Atoi is unbounded here. Its range error on numbers beyond 64 bits, in TableRefs.GetRow, TableRefs.GetCol and the column width directive, is not modelled.
- End positions the code leaves unset: the token literals of lexHeadline, lexText, lexHorizontalRule and the three date lexers (headline.go:45, paragraph.go:22, paragraph.go:29, date.go:356-370) give no end position, and parseParagraph builds its Paragraph without one (paragraph.go:44). The model uses Go's zero value, the position (0, 0), in each place (Lexer.ZeroPos), and these zeros reach InlineContext's end position and the GetEnd results built from them.
- Logging: d.Log.Printf (document.go:309, 349) and w.log.Printf in WriteFootnotes (html_writer.go:233) are dropped, because they write to a logger and change nothing the parser returns.
- TableFormulas.ProcessFormula: a nil table behind a target that reads it is a nil-pointer panic in the code. It is a precondition here (tbl != null or the target needs no table), and the loops above it carry the same condition for every `::` piece (tbl != null or no piece's target needs the table).
- TableRefs.GetRow: the same holds for `<`, `>` and roman numerals read against a nil table (a precondition). OrgTable.Table.RecomputeColumnInfos is a method of a table that exists, and it requires every row to have at most as many columns as there are column infos; the code indexes columnInfos[c] unchecked and panics on a wider row.
- TableIter.CreateIterator: the iterators share one mutated `*RowColRef cur` between calls (table.go:598-749). Here each call returns a fresh reference value, so a caller that kept an earlier reference does not see it change.
- Dates: org/date.go is not part of this model. The timestamp and SCHEDULED/DEADLINE/CLOSED recognisers are parameters of the configuration (Parser.Config). parseTimestamp consumes 0 characters, because the `_fullmatch` group it reads is never set.
- I/O: Document.Parse's line scanner, its panic recovery and its content hash, the setup file read of `#+SETUPFILE` (a configuration parameter setupFile), and the INCLUDE resolve closure are left out; they read files or re-run the parser.
- main.go, iregex.go and string.go are not part of this model: a command line front end and regexp and template helpers.
- Floats: strconv.ParseFloat's numeric test of a column is a configuration parameter isNumeric. math.Max on floats in the paragraph code is an integer maximum.
- Unicode: unicode.IsSpace is the White_Space property, and the `\s` of the regular expressions is tab, newline, form feed, carriage return and space. unicode.IsLetter on the single bytes inline.go reads is the Latin-1 letter test.
- Roman.RomanIntToString and Roman.RomanStringToInt: romanIntToBytes and romanBytesToInt are modelled by these string forms.
- Drawers: Drawer.Append (drawer.go:161-169) calls an InsertNodeAfter that the repository does not define, so it is not modelled.
- HasDeadline, HasScheduled, HasClosed and HasTimestamp (headline.go:152-166) are not modelled: they read fields of a nil-checked pointer and add no parsing logic.
- Pointer sharing: a headline is a value held in its outline section and d.currentHeadline is that section's index, so a table parsed under a headline is added to the section's headline value. The headline's PropertyDrawer stays a shared object, as in the code.
- Writers: the WriteNodes traversal is the parameter render. HTML escaping, withHTMLAttributes, macro expansion, code highlighting, textwrap and the thead/tbody writing itself are left out. Only the decision whether a table opens with a header is modelled.
- OrgWriter.OrgWriter.WriteHeadlineLine: only the headline's first line is modelled. CheckStatus, which the repository does not declare, is not written; the properties and children that follow are left to render.
- OrgWriter.ByteLen: the tag column is counted in UTF-8 bytes as len() does. Cell padding counts runes (lengths).
- OrgWriter.InfoOf: a column whose info pointer is missing reads a zero column info; the code would dereference nil.
- HtmlWriter.HtmlWriter.WriteFootnotes: a footnote definition is the type parameter D and its body is render(D). The `f:nil` option is the constructor's `off`.
- HtmlWriter.SetHtmlAttribute: the code updates the slice element in place; the model returns the new list, which is the same value.
- Lexer recognisers: each Match* function's ensures states only some facts about the groups it returns: their number, that group 0 is the line (or a prefix of it), that no group holds a line break, and for some recognisers how the groups split the line. It is not proved that a match means the regular expression matches, nor the converse, except where a Complete lemma says so, e.g. Headlines.MatchTagsComplete and Drawers.MatchPropertyComplete.
- Quirks kept as written, with no property that masks them:
  - TableRefs.GetCol's `>` counts from the height (table.go:488).
  - The descending rectangular iterator lacks the initial column step; TableRefs.RectangleIsPositive proves that branch unreachable.
  - OrgTable.GetWidth reads Rows[0], so it is 0 for a table that starts with a separator.
  - A CAPTION or ATTR_* keyword with no following node falls through to the TBLFM handling.
  - The `[@N]` and checkbox prefixes of a list item are cut at a fixed length (list.go:95-100).
  - countRune is a function.
- Position fields marked TODO in the code (list.go:108, table.go:120) are modelled as written. No general position-containment invariant is claimed.

## Findings

| source | as written | input that shows it | evidently intended | confidence | as-written member | corrected member |
|---|---|---|---|---|---|---|
| org/block.go:81 | an unterminated raw block hands its body to parseRawInline at index len(tokens), and reading that token panics | `#+BEGIN_SRC` then a line `x`, with no END line | read positions from an existing token; the block is then rejected because it has no END line | not executed | Parser.RawBlockAsWrittenPanics | Documents.Document.ParseBlock |
| org/list.go:132 | a descriptive item that ends the document parses its term at index len(tokens), which panics | the single line `- a :: b` | do not panic: parse the term at the position of a token that exists (the model reads the last token, which for this input is the item's own line) | not executed | Parser.DescriptiveAsWrittenPanics | Documents.Document.ParseListItem |
| org/inline.go:519-521 | LatexFragment.GetEnd indexes the last child of an empty fragment, which panics | `[fn:x:$$$$]`, an inline footnote definition ending in an empty LaTeX fragment | an empty fragment ends at its own position | not executed | Inline.EmptyFragmentEndsDefinition | Inline.GetEnd |
| org/keyword.go:229 | parseInclude reads m[0] of the nil match for a value without the include shape, which panics | `#+INCLUDE: notes.org` | give the Include without a file, which resolves to the keyword | not executed | Keywords.IncludeAsWrittenPanics | Keywords.ParseInclude |
| org/table.go:413-444 | romanToInt strips any number of leading M's and RomanBytesToInt returns the sum without error, though its doc comment promises an error outside 1 to 3999 | `MMMM`, read as 4000 | return the out-of-bounds error for a value above 3999 | not executed | Roman.FourThousandAccepted | Roman.RomanStringToInt |
| org/inline.go:357-362 | the backward scan for the protocol stops at index 1 without checking index 0 as a non-letter, so a protocol starting at index 1 is never found | `(http://x` | find the protocol after the non-letter at index 0 | not executed | Inline.AutolinkAtIndexOneMissed | Inline.ScanProtocolStart |
| org/headline.go:136-137 | a TODO keyword ending in ")" with no "(" (LastIndex -1 equals len-3) is sliced at -1, which panics | `#+TODO: a)` | keep a keyword that has no fast-access key | not executed | Headlines.FastTagPanics | Headlines.TrimFastTag |
| org/org_writer.go:400 | separator rows use Len + 2 dashes, but a column of empty cells (Len 0) is written as a space, three wide, so the separator is one short | a one-column table of an empty cell over a separator row | dashes as wide as the written cell, max(Len, 1) + 2 | not executed | OrgWriter.SeparatorMisaligned | OrgWriter.TableLinesAligned |
