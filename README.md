# TV-Like rule compilers and extractors, modelled in Dafny

TV-Like is a small scraping language. A rule text holds `path:` blocks, and inside them
`section: <name> <css selector> { ... }` blocks. Each section lists `text`, `img` and `link` field
selectors, each with optional `[key: value, ...]` options. A section may also carry one
`items: <selector> { ... }` template, which is applied to every matching element inside the
section. The repository compiles this text into rule nodes and applies them to an HTML document,
turning each matching part of the page into a JSON-like record. It does this several times over,
in rewrites with slightly different semantics. This project models each rewrite on its own terms,
one Dafny module per Java file:

| module | file | what it holds |
|---|---|---|
| `ChatRuleParser`, `Braces` | `chatGPT/RuleParser.java` | the path-block compiler: the brace matcher, the `path:` map with its `/**` default, section and items blocks, field lines, option tokens, path lookup |
| `TVLikeParser` | `chatGPT/TVLikeParserExtractor.java` (its `RuleParser`, `RuleNode`, `Options`) | comment stripping, the section scan, section bodies, option tokens with typed and unquoted values, `parseOptionsNear`, `parseAll` |
| `TVLikeExtractor` | `chatGPT/TVLikeParserExtractor.java` (`HtmlExtractor`) | `extractSection`, `extractField`, `extractItems` with its limit |
| `LegacyParser` | `RuleParser.java` | the line-by-line state machine (brace level, globals, pending block), `countBraces`, `processBlock`, `buildItemTemplate`, `parseOptions` |
| `LegacyExtractor`, `ResultMap`, `OptionKeys` | `Extractor.java`, `Result.java`, `enums/OptionKeyEnum.java` | pre-order all-rules extraction, the write-once `value` key of `Result`, the executable option keys |
| `ChatRuleNode`, `ChatExtractor` | `chatGPT/RuleNode.java`, `chatGPT/Extractor.java` | write-once setters and `putIfAbsent`; pre-order first-productive-rule extraction |
| `GrokRuleNode`, `GrokExtractor` | `grok/RuleNode.java`, `grok/Extractor.java` | copying node constructor, typed option getters; ordered extraction over the body's children with index/limit narrowing, attribute fallback chains and transforms |
| `TVLikeDsl` | `TVLikeDSL.java` (Android plugin) | host to hub path (`m.douban.com` to `com/douban/m`), the hub candidate list, script-over-hub preference |

The shared modules are these:
- `Wrappers` holds `Option`, and `Try`, which models a Java exception that escapes.
- `JavaString` holds the `java.lang.String` operations used: `trim`, `split` (trailing empty pieces dropped), `replace`, `indexOf`, `Integer.parseInt` on ASCII digits over the 32-bit range.
- `Patterns` holds scanners for the regular expressions that occur.
- `Values` holds the option values, JSON values and the rule value type.
- `Dom` is an abstract element tree. Its `select`, `text`, `attr` and `is` are parameters.
- `Traversal` and `FieldLoop` hold the pre-order walk and the field loop that both older extractors share.

Where the source mutates objects, the model uses a `class`. Examples are the write-once `RuleNode`, `Result`, the grok `Extractor` and `TVLikeDSL`. Where the source loops, the model uses a method with a loop, proved equal to a specification function. The properties are proved about that function.

Source paths below are relative to the repository root. Paths under `tv-like-module/src/main/java/tv/tvai/like/` are the library. `tv-like-android-plugin/app/src/main/java/tv/tvai/like/` is the Android plugin.

## Model

| member | source | states |
|---|---|---|
| Patterns.PathAt | tv-like-module/src/main/java/tv/tvai/like/chatGPT/RuleParser.java:56 | a path header found starts at the given index and ends at a "{" |
| Patterns.PathAtOf | tv-like-module/src/main/java/tv/tvai/like/chatGPT/RuleParser.java:56 | every `path` header is found where it starts: the keyword in any case, spaces, `:`, then at least one char and no `{` up to a `{`; its pattern is that text trimmed |
| Patterns.SectionAt | tv-like-module/src/main/java/tv/tvai/like/chatGPT/TVLikeParserExtractor.java:162 | a section header found starts at the given index, has a non-empty name and ends at a "{" |
| Patterns.SectionAtOf | tv-like-module/src/main/java/tv/tvai/like/chatGPT/TVLikeParserExtractor.java:162 | every `section` header is found where it starts: keyword, `:`, a word name followed by a space, then a selector of at least one char and no `{` up to a `{`; name and trimmed selector are read back |
| Patterns.ItemsAt | tv-like-module/src/main/java/tv/tvai/like/chatGPT/TVLikeParserExtractor.java:228 | an items header found starts at the given index and ends at a "{" |
| Patterns.ItemsAtOf | tv-like-module/src/main/java/tv/tvai/like/chatGPT/TVLikeParserExtractor.java:228 | every `items` header is found where it starts: keyword, `:`, then a non-empty selector with no `{` or line break up to a `{`, read back trimmed |
| Patterns.FindHeader | tv-like-module/src/main/java/tv/tvai/like/chatGPT/TVLikeParserExtractor.java:163-164 | Matcher.find: a header found starts at or after the search start, and its "{" lies within the text |
| Patterns.FindHeaderFound | tv-like-module/src/main/java/tv/tvai/like/chatGPT/TVLikeParserExtractor.java:163-164 | the header found is one that starts where it says |
| Patterns.FindHeaderLeftmost | tv-like-module/src/main/java/tv/tvai/like/chatGPT/TVLikeParserExtractor.java:163-164 | no header starts between the search start and the one found, or anywhere after the start when none is found |
| Patterns.FindHeaderStep | tv-like-module/src/main/java/tv/tvai/like/chatGPT/TVLikeParserExtractor.java:163-164 | a header at the search start is the one found; otherwise the search goes on from the next index |
| Patterns.FieldLine | tv-like-module/src/main/java/tv/tvai/like/chatGPT/TVLikeParserExtractor.java:273 | a field line names one of text, img and link |
| Patterns.FieldLineOf | tv-like-module/src/main/java/tv/tvai/like/chatGPT/TVLikeParserExtractor.java:273 | a line starting with `text`, `img` or `link` in any case, then spaces and `:` and at least one more char, is matched: the field and the rest of the line, trimmed |
| Patterns.FieldLineFor | tv-like-module/src/main/java/tv/tvai/like/chatGPT/RuleParser.java:205-207 | a field line found is for the field asked about |
| Patterns.FieldLineForOf | tv-like-module/src/main/java/tv/tvai/like/chatGPT/RuleParser.java:205-207 | a line starting with the field asked about in any case, then spaces and `:`, is read with the rest of the line trimmed |
| Patterns.FieldLineForOther | tv-like-module/src/main/java/tv/tvai/like/chatGPT/RuleParser.java:205-207 | a line whose first char is not that of the field asked about, in any case, is not read |
| Patterns.Brackets | tv-like-module/src/main/java/tv/tvai/like/chatGPT/RuleParser.java:245-251 | the find loop of the bracket pattern: the text left is never longer than the text scanned; the groups and the text left are characterised by BracketsGroup and BracketsUnclosed |
| Patterns.BracketsGroup | tv-like-module/src/main/java/tv/tvai/like/chatGPT/RuleParser.java:245-251 | a closed `[...]` group, without `[` before it and no `]` or line break inside, is collected first, and the text before it is kept |
| Patterns.BracketsUnclosed | tv-like-module/src/main/java/tv/tvai/like/chatGPT/RuleParser.java:245-251 | a `[` whose line ends before any `]` is no group: it is kept in the text and the search goes on after it |
| Patterns.TrimAllCons | tv-like-module/src/main/java/tv/tvai/like/chatGPT/RuleParser.java:249 | each collected token is trimmed in turn |
| Patterns.BracketsNone | tv-like-module/src/main/java/tv/tvai/like/chatGPT/TVLikeParserExtractor.java:281-288 | a text without "[" has no bracket group and is kept whole |
| Patterns.LeadingGroupsEnd | tv-like-module/src/main/java/tv/tvai/like/chatGPT/TVLikeParserExtractor.java:372 | the leading run of bracket groups ends inside the text, at or after the start |
| Patterns.LeadingGroupsEndGroup | tv-like-module/src/main/java/tv/tvai/like/chatGPT/TVLikeParserExtractor.java:372 | a group after spaces at the run's start extends the run past its `]` |
| Patterns.LeadingGroupsEndStop | tv-like-module/src/main/java/tv/tvai/like/chatGPT/TVLikeParserExtractor.java:372 | the run stops at the first char after spaces that does not open a closed group |
| Patterns.PageTypeAt | tv-like-module/src/main/java/tv/tvai/like/chatGPT/TVLikeParserExtractor.java:154 | a page-type token found is not empty |
| Patterns.PageTypeAtOf | tv-like-module/src/main/java/tv/tvai/like/chatGPT/TVLikeParserExtractor.java:154 | every `page-type` declaration is read back: keyword, spaces, `:`, spaces, then the token up to the next space or line end |
| Patterns.PageTypePos | tv-like-module/src/main/java/tv/tvai/like/chatGPT/TVLikeParserExtractor.java:155-156 | a declaration found starts at or after the search start, and a token is read there |
| Patterns.PageTypePosLeftmost | tv-like-module/src/main/java/tv/tvai/like/chatGPT/TVLikeParserExtractor.java:155-156 | no declaration starts before the one found, or anywhere when none is found |
| Patterns.PageTypePosSkip | tv-like-module/src/main/java/tv/tvai/like/chatGPT/TVLikeParserExtractor.java:155-156 | before the declaration found, the search passes each index by |
| Patterns.LegacySectionLine | tv-like-module/src/main/java/tv/tvai/like/RuleParser.java:9 | a matched section line starts with "section:" and has a non-empty name; LegacySectionLineOf states which lines match |
| Patterns.LegacySectionLineOf | tv-like-module/src/main/java/tv/tvai/like/RuleParser.java:9 | a line made of `section:`, spaces, a word name, spaces, a selector without space or `{`, spaces and a final `{` matches, giving the name and the selector |
| Patterns.LegacyFieldLine | tv-like-module/src/main/java/tv/tvai/like/RuleParser.java:10 | a matched field line has a non-empty key; LegacyFieldLineOf and LegacyFieldLineWithOptions state which lines match |
| Patterns.LegacyFieldLineOf | tv-like-module/src/main/java/tv/tvai/like/RuleParser.java:10 | a word key, `:`, spaces, a selector without `[` or space and trailing spaces match, giving the key, the selector and no options |
| Patterns.LegacyFieldLineWithOptions | tv-like-module/src/main/java/tv/tvai/like/RuleParser.java:10 | the same followed by spaces, one `[...]` group and trailing spaces match, giving the text inside the brackets as options |
| Patterns.OptionPairs | tv-like-module/src/main/java/tv/tvai/like/RuleParser.java:172-175 | the find loop of the option pattern: every key found is non-empty; OptionPairsPair and OptionPairsNone state what is found |
| Patterns.OptionPairsPair | tv-like-module/src/main/java/tv/tvai/like/RuleParser.java:13 | a key followed by `:` and a value up to `,` or `]` is the next pair, its value trimmed, and the search resumes after the value |
| Patterns.OptionPairsNone | tv-like-module/src/main/java/tv/tvai/like/RuleParser.java:13 | text without `:` holds no pair |
| Braces.MatchingBrace | tv-like-module/src/main/java/tv/tvai/like/chatGPT/RuleParser.java:293-307 | the index returned for a `{` is -1 or a `}` at or after it |
| Braces.MatchingBraceSpec | tv-like-module/src/main/java/tv/tvai/like/chatGPT/RuleParser.java:293-307 | -1 exactly when the depth counted from the opening brace never comes back to 0 at a `}`; otherwise the FIRST `}` at which it does |
| Braces.MatchingBraceAfterOpen | tv-like-module/src/main/java/tv/tvai/like/chatGPT/RuleParser.java:295-304 | a block opened at a `{` closes strictly after that brace |
| Braces.ScanCloseSpec | tv-like-module/src/main/java/tv/tvai/like/chatGPT/RuleParser.java:295-306 | the depth scan started at any point with the right running depth finds the first closing position from there, or -1 when there is none |
| ChatRuleParser.FindMatchingBrace | tv-like-module/src/main/java/tv/tvai/like/chatGPT/RuleParser.java:293-307 | the depth loop returns -1 for a start past the text, else the matching brace characterised by Braces.MatchingBraceSpec |
| ChatRuleParser.PutPartsKeeps | tv-like-module/src/main/java/tv/tvai/like/chatGPT/RuleParser.java:269-281 | an option already present is never overwritten by a token's parts (`putIfAbsent`) |
| ChatRuleParser.PutPartsAdds | tv-like-module/src/main/java/tv/tvai/like/chatGPT/RuleParser.java:272-280 | a key not present before is added exactly when some comma-separated part names it |
| ChatRuleParser.PutPartsFirstWins | tv-like-module/src/main/java/tv/tvai/like/chatGPT/RuleParser.java:272-280 | a new key takes the value of the FIRST part naming it: TRUE for a bare key, else the trimmed text after the first `:` |
| ChatRuleParser.ParseOptionToken | tv-like-module/src/main/java/tv/tvai/like/chatGPT/RuleParser.java:269-281 | the split loop puts an empty token's nothing and every other token's parts in order, as the lemmas above characterise |
| ChatRuleParser.OptionTokens | tv-like-module/src/main/java/tv/tvai/like/chatGPT/RuleParser.java:245-252 | one trimmed token per `[...]` group of the text, in order, as OptionTokensFirst and OptionTokensNone state |
| ChatRuleParser.OptionTokensFirst | tv-like-module/src/main/java/tv/tvai/like/chatGPT/RuleParser.java:245-252 | the first closed group of the text gives the first token, trimmed, followed by those of the text after it |
| ChatRuleParser.OptionTokensNone | tv-like-module/src/main/java/tv/tvai/like/chatGPT/RuleParser.java:245-252 | a text without `[` gives no token |
| ChatRuleParser.OptionTokensTrimmed | tv-like-module/src/main/java/tv/tvai/like/chatGPT/RuleParser.java:249 | every token collected is already trimmed |
| ChatRuleParser.ParseTokens | tv-like-module/src/main/java/tv/tvai/like/chatGPT/RuleParser.java:231-234 | the token loop puts every token in turn into the option set |
| ChatRuleParser.ExtractOptionsFromText | tv-like-module/src/main/java/tv/tvai/like/chatGPT/RuleParser.java:257-264 | the find loop puts every bracket group of the text into one fresh option set |
| ChatRuleParser.OptionsFromPlainText | tv-like-module/src/main/java/tv/tvai/like/chatGPT/RuleParser.java:257-264 | text without `[` carries no options |
| ChatRuleParser.DeclOf | tv-like-module/src/main/java/tv/tvai/like/chatGPT/RuleParser.java:201-223 | a line declares only `text`, `img` or `link`, and its selector is absent when it reads `null` in any case |
| ChatRuleParser.DeclsOfAt | tv-like-module/src/main/java/tv/tvai/like/chatGPT/RuleParser.java:199-201 | the declaration read at step i is that of line i |
| ChatRuleParser.FieldSelectorKeeps | tv-like-module/src/main/java/tv/tvai/like/chatGPT/RuleParser.java:226-228 | a selector already in the map is never overwritten |
| ChatRuleParser.FieldSelectorAdds | tv-like-module/src/main/java/tv/tvai/like/chatGPT/RuleParser.java:226-228 | a field gets a selector exactly when some line gives it a non-null one |
| ChatRuleParser.FieldSelectorFirstWins | tv-like-module/src/main/java/tv/tvai/like/chatGPT/RuleParser.java:225-228 | a field's selector is that of its FIRST line with a non-null selector |
| ChatRuleParser.FieldOptionsKeeps | tv-like-module/src/main/java/tv/tvai/like/chatGPT/RuleParser.java:235-237 | options already in the map are never overwritten |
| ChatRuleParser.FieldOptionsAdds | tv-like-module/src/main/java/tv/tvai/like/chatGPT/RuleParser.java:235-237 | a field gets options exactly when some line names it, with or without a selector |
| ChatRuleParser.FieldOptionsFirstWins | tv-like-module/src/main/java/tv/tvai/like/chatGPT/RuleParser.java:230-237 | a field's options are those of its FIRST line, even when that line has no brackets |
| ChatRuleParser.FieldLinesOnlyKnownFields | tv-like-module/src/main/java/tv/tvai/like/chatGPT/RuleParser.java:205-237 | only `text`, `img` and `link` are ever added, and no selector reading `null` enters the map |
| ChatRuleParser.ParseFieldLines | tv-like-module/src/main/java/tv/tvai/like/chatGPT/RuleParser.java:193-240 | the Scanner loop leaves both maps as the first-wins fold of the line declarations |
| ChatRuleParser.ItemsFound | tv-like-module/src/main/java/tv/tvai/like/chatGPT/RuleParser.java:139-151 | the first `items:` header with the index of its matching `}`; none when there is no header or its brace is unmatched |
| ChatRuleParser.ItemsBlock | tv-like-module/src/main/java/tv/tvai/like/chatGPT/RuleParser.java:138-172 | with no usable `items:` block the text is returned unchanged and no template is built; a template is named `items` and has no nested template |
| ChatRuleParser.ItemsCut | tv-like-module/src/main/java/tv/tvai/like/chatGPT/RuleParser.java:153-171 | a found block always yields a template named `items` without a nested one |
| ChatRuleParser.ItemsTemplate | tv-like-module/src/main/java/tv/tvai/like/chatGPT/RuleParser.java:156-166 | the template is named `items`, takes the block's selector and has no nested template |
| ChatRuleParser.ParseItemsBlockIfPresent | tv-like-module/src/main/java/tv/tvai/like/chatGPT/RuleParser.java:138-172 | the remaining text and the template are those ItemsBlock describes |
| ChatRuleParser.CutItemsBlock | tv-like-module/src/main/java/tv/tvai/like/chatGPT/RuleParser.java:153-171 | the found branch: the text before the header, a newline and the text after the block, and the template built |
| ChatRuleParser.BuildItemsTemplate | tv-like-module/src/main/java/tv/tvai/like/chatGPT/RuleParser.java:157-166 | the setters build the template ItemsTemplate describes |
| ChatRuleParser.Finds | tv-like-module/src/main/java/tv/tvai/like/chatGPT/RuleParser.java:98-99 | one `find()` result per start position of the text |
| ChatRuleParser.FindsAdvancing | tv-like-module/src/main/java/tv/tvai/like/chatGPT/RuleParser.java:99 | every header found from a position starts at or after it and has its `{` inside the text |
| ChatRuleParser.VisitedFound | tv-like-module/src/main/java/tv/tvai/like/chatGPT/RuleParser.java:99-111 | every header the loop visits is a leftmost find from some position at or after the start |
| ChatRuleParser.VisitedBounds | tv-like-module/src/main/java/tv/tvai/like/chatGPT/RuleParser.java:99-111 | every visited header starts after the start and has its `{` inside the text |
| ChatRuleParser.VisitedOrdered | tv-like-module/src/main/java/tv/tvai/like/chatGPT/RuleParser.java:99-111 | the visited headers come in text order, each after the `{` of the one before |
| ChatRuleParser.VisitedBracesIn | tv-like-module/src/main/java/tv/tvai/like/chatGPT/RuleParser.java:99-111 | every visited header's `{` lies inside the text |
| ChatRuleParser.VisitedAdvance | tv-like-module/src/main/java/tv/tvai/like/chatGPT/RuleParser.java:99-104 | the search resumes right after the `{` of the header found, whether or not that brace is matched |
| ChatRuleParser.BlocksOf | tv-like-module/src/main/java/tv/tvai/like/chatGPT/RuleParser.java:102-106 | at most one block per visited header (an unmatched brace is skipped) |
| ChatRuleParser.BlockHeaderVisited | tv-like-module/src/main/java/tv/tvai/like/chatGPT/RuleParser.java:102-106 | every block comes from a visited header |
| ChatRuleParser.BlockOfHeader | tv-like-module/src/main/java/tv/tvai/like/chatGPT/RuleParser.java:102-106 | a block closes at the matching brace of its header's `{` and its body is exactly the text between the two |
| ChatRuleParser.BlocksOfAppend | tv-like-module/src/main/java/tv/tvai/like/chatGPT/RuleParser.java:99-111 | the blocks of consecutive header runs are consecutive |
| ChatRuleParser.SectionNode | tv-like-module/src/main/java/tv/tvai/like/chatGPT/RuleParser.java:122-132 | a section node keeps the header's name and selector and has no options of its own |
| ChatRuleParser.ParseSectionBody | tv-like-module/src/main/java/tv/tvai/like/chatGPT/RuleParser.java:122-132 | the items block first, then the field lines of the remaining text, give SectionNode |
| ChatRuleParser.SectionNodes | tv-like-module/src/main/java/tv/tvai/like/chatGPT/RuleParser.java:107-110 | one node per block |
| ChatRuleParser.SectionNodesAppend | tv-like-module/src/main/java/tv/tvai/like/chatGPT/RuleParser.java:99-111 | the nodes of consecutive block runs are consecutive |
| ChatRuleParser.SectionNodeAt | tv-like-module/src/main/java/tv/tvai/like/chatGPT/RuleParser.java:106-110 | node k is built from block k's name, selector and body |
| ChatRuleParser.SectionsNamed | tv-like-module/src/main/java/tv/tvai/like/chatGPT/RuleParser.java:100-110 | every section node is named by the non-empty name of its header, takes that header's selector and has no options |
| ChatRuleParser.SectionDsl | tv-like-module/src/main/java/tv/tvai/like/chatGPT/RuleParser.java:87-91 | blank text yields no sections |
| ChatRuleParser.BlocksAdvance | tv-like-module/src/main/java/tv/tvai/like/chatGPT/RuleParser.java:102-106 | one more header adds its block exactly when its `{` is matched |
| ChatRuleParser.SectionsAdvance | tv-like-module/src/main/java/tv/tvai/like/chatGPT/RuleParser.java:108-110 | one more block appends its section node |
| ChatRuleParser.ParseSectionDsl | tv-like-module/src/main/java/tv/tvai/like/chatGPT/RuleParser.java:87-113 | the find loop returns SectionDsl: the nodes of the matched `section:` blocks in text order |
| ChatRuleParser.Put | tv-like-module/src/main/java/tv/tvai/like/chatGPT/RuleParser.java:69 | insertion-ordered `put`: a present key keeps its place and takes the new value, a new key goes last, keys stay distinct |
| ChatRuleParser.PathsOf | tv-like-module/src/main/java/tv/tvai/like/chatGPT/RuleParser.java:60-71 | the map built from the `path:` blocks has distinct keys |
| ChatRuleParser.PathsAdvance | tv-like-module/src/main/java/tv/tvai/like/chatGPT/RuleParser.java:66-70 | a block with no sections leaves the map alone; otherwise its sections are put under its pattern |
| ChatRuleParser.PathsOfEntries | tv-like-module/src/main/java/tv/tvai/like/chatGPT/RuleParser.java:66-70 | every entry holds a non-empty rule list under the pattern of some block |
| ChatRuleParser.PathsOfLastWins | tv-like-module/src/main/java/tv/tvai/like/chatGPT/RuleParser.java:69 | the last block carrying a pattern decides that pattern's rules |
| ChatRuleParser.PathRules | tv-like-module/src/main/java/tv/tvai/like/chatGPT/RuleParser.java:52-78 | the map is never empty: the path blocks when any contributes, else the whole text's sections under `/**` |
| ChatRuleParser.FirstMatching | tv-like-module/src/main/java/tv/tvai/like/chatGPT/RuleParser.java:38-43 | the first entry in insertion order whose pattern matches the path, and none before it matches; none when no pattern matches |
| ChatRuleParser.RuleParser.constructor | tv-like-module/src/main/java/tv/tvai/like/chatGPT/RuleParser.java:18 | a new parser's path-rule map is null |
| ChatRuleParser.RuleParser.GetPathRule | tv-like-module/src/main/java/tv/tvai/like/chatGPT/RuleParser.java:36-46 | a null-pointer exception before any `parse`; else the rules of the first matching pattern in insertion order, or the empty list when none matches |
| ChatRuleParser.RuleParser.Parse | tv-like-module/src/main/java/tv/tvai/like/chatGPT/RuleParser.java:52-78 | rebuilds the path-rule map as PathRules of the text |
| ChatRuleParser.RuleParser.PutPathBlocks | tv-like-module/src/main/java/tv/tvai/like/chatGPT/RuleParser.java:59-71 | the `find` loop leaves the map built from every matched `path:` block |
| ChatRuleParser.RuleParser.AddPathBlock | tv-like-module/src/main/java/tv/tvai/like/chatGPT/RuleParser.java:66-70 | one matched block's sections are put under its pattern when there are any, else nothing changes |
| TVLikeParser.Options.constructor | tv-like-module/src/main/java/tv/tvai/like/chatGPT/TVLikeParserExtractor.java:85 | a new option set is empty |
| TVLikeParser.Options.Put | tv-like-module/src/main/java/tv/tvai/like/chatGPT/TVLikeParserExtractor.java:87-89 | `put` overwrites: the key takes the new value and nothing else changes |
| TVLikeParser.Options.Get | tv-like-module/src/main/java/tv/tvai/like/chatGPT/TVLikeParserExtractor.java:91-93 | a value exactly for the keys present, and it is the stored one |
| TVLikeParser.RuleNode.constructor | tv-like-module/src/main/java/tv/tvai/like/chatGPT/TVLikeParserExtractor.java:37-42 | a new node has no name, selector or template, empty field maps and a fresh empty option set |
| TVLikeParser.RuleNode.SetName | tv-like-module/src/main/java/tv/tvai/like/chatGPT/TVLikeParserExtractor.java:48-50 | the setter overwrites the name and leaves every other field alone |
| TVLikeParser.RuleNode.SetSelector | tv-like-module/src/main/java/tv/tvai/like/chatGPT/TVLikeParserExtractor.java:56-58 | the setter overwrites the selector and leaves every other field alone |
| TVLikeParser.RuleNode.SetItemTemplate | tv-like-module/src/main/java/tv/tvai/like/chatGPT/TVLikeParserExtractor.java:72-74 | the setter overwrites the template and leaves every other field alone |
| TVLikeParser.RuleNode.SetSectionOptions | tv-like-module/src/main/java/tv/tvai/like/chatGPT/TVLikeParserExtractor.java:80-82 | the setter overwrites the options and leaves every other field alone |
| TVLikeParser.StripComments | tv-like-module/src/main/java/tv/tvai/like/chatGPT/TVLikeParserExtractor.java:193-202 | empty text stays empty; block comments are removed first, then line comments, as the lemmas below state |
| TVLikeParser.BlockCommentsClosed | tv-like-module/src/main/java/tv/tvai/like/chatGPT/TVLikeParserExtractor.java:196 | the first `/*` up to the first `*/` after it is replaced by one space, and the search goes on after the `*/` |
| TVLikeParser.BlockCommentsUnclosed | tv-like-module/src/main/java/tv/tvai/like/chatGPT/TVLikeParserExtractor.java:196 | a `/*` without a `*/` after it is kept, with the rest of the text |
| TVLikeParser.LineCommentsCut | tv-like-module/src/main/java/tv/tvai/like/chatGPT/TVLikeParserExtractor.java:198-200 | the first `//` up to the end of its line is removed; the line break stays |
| TVLikeParser.LineCommentsNone | tv-like-module/src/main/java/tv/tvai/like/chatGPT/TVLikeParserExtractor.java:198-200 | text without `//` is kept |
| TVLikeParser.StripCommentsNoSlash | tv-like-module/src/main/java/tv/tvai/like/chatGPT/TVLikeParserExtractor.java:193-202 | text without any `/` has no comment and is kept as it is |
| TVLikeParser.LineCommentsHead | tv-like-module/src/main/java/tv/tvai/like/chatGPT/TVLikeParserExtractor.java:198-200 | the text left starts with the first char unless a comment starts there |
| TVLikeParser.LineCommentsLeaveNoComment | tv-like-module/src/main/java/tv/tvai/like/chatGPT/TVLikeParserExtractor.java:198-200 | once line comments are removed, no `//` is left in the text |
| TVLikeParser.FindMatchingBrace | tv-like-module/src/main/java/tv/tvai/like/chatGPT/TVLikeParserExtractor.java:205-217 | -1 unless the index is inside the text and holds `{`; otherwise the matching brace of Braces.MatchingBraceSpec |
| TVLikeParser.UnquoteAsWritten | tv-like-module/src/main/java/tv/tvai/like/chatGPT/TVLikeParserExtractor.java:349-351 | the unquote step as written throws exactly for a value that is a lone quote |
| TVLikeParser.UnquoteLoneQuoteThrows | tv-like-module/src/main/java/tv/tvai/like/chatGPT/TVLikeParserExtractor.java:349-351 | a value that is a lone `"` or `'` (the token `attr: "`) makes `substring(1, 0)` throw |
| TVLikeParser.Unquote | tv-like-module/src/main/java/tv/tvai/like/chatGPT/TVLikeParserExtractor.java:349-351 | the corrected unquote never lengthens the value |
| TVLikeParser.UnquoteQuoted | tv-like-module/src/main/java/tv/tvai/like/chatGPT/TVLikeParserExtractor.java:348-351 | quoting any text with either kind of quote and unquoting it gives the text back |
| TVLikeParser.UnquoteAgrees | tv-like-module/src/main/java/tv/tvai/like/chatGPT/TVLikeParserExtractor.java:349-351 | the corrected unquote agrees with the written one wherever the written one does not throw |
| TVLikeParser.TokenValue | tv-like-module/src/main/java/tv/tvai/like/chatGPT/TVLikeParserExtractor.java:341-365 | the corrected value step: TRUE exactly for a token without `:`; an int only under the key `limit` in any case; TokenValueAgrees ties it to the step as written |
| TVLikeParser.ValueFor | tv-like-module/src/main/java/tv/tvai/like/chatGPT/TVLikeParserExtractor.java:353-362 | under `limit` (any case) the int the value parses to, and the value itself otherwise |
| TVLikeParser.TokenValueAsWrittenThrows | tv-like-module/src/main/java/tv/tvai/like/chatGPT/TVLikeParserExtractor.java:343-351 | the value step as written throws exactly when the trimmed value after the first `:` is a lone quote |
| TVLikeParser.TokenValueAgrees | tv-like-module/src/main/java/tv/tvai/like/chatGPT/TVLikeParserExtractor.java:343-364 | wherever the value step as written does not throw, the corrected one gives the same value |
| TVLikeParser.TokensIntoKeys | tv-like-module/src/main/java/tv/tvai/like/chatGPT/TVLikeParserExtractor.java:341-365 | a key is present after the tokens exactly when it was before or some token sets it |
| TVLikeParser.TokensIntoKeeps | tv-like-module/src/main/java/tv/tvai/like/chatGPT/TVLikeParserExtractor.java:341-365 | a key no token sets keeps its value |
| TVLikeParser.TokensIntoLastWins | tv-like-module/src/main/java/tv/tvai/like/chatGPT/TVLikeParserExtractor.java:355-363 | `put` overwrites, so the LAST token setting a key decides its value |
| TVLikeParser.ParseTokensInto | tv-like-module/src/main/java/tv/tvai/like/chatGPT/TVLikeParserExtractor.java:296-298 | the token loop puts every token in turn, as the lemmas above characterise |
| TVLikeParser.OptionsNear | tv-like-module/src/main/java/tv/tvai/like/chatGPT/TVLikeParserExtractor.java:368-383 | nothing at or past the end of the text |
| TVLikeParser.OptionsNearNeedsLeadingGroup | tv-like-module/src/main/java/tv/tvai/like/chatGPT/TVLikeParserExtractor.java:372-374 | options after other text are not picked up: the bracket run must start the tail |
| TVLikeParser.ParseOptionsNear | tv-like-module/src/main/java/tv/tvai/like/chatGPT/TVLikeParserExtractor.java:368-383 | the method returns OptionsNear: the groups of the leading bracket run of the tail |
| TVLikeParser.DeclOf | tv-like-module/src/main/java/tv/tvai/like/chatGPT/TVLikeParserExtractor.java:270-289 | a line declares only `text`, `img` or `link`, and its selector is absent when it reads `null` in any case |
| TVLikeParser.DeclsOfAt | tv-like-module/src/main/java/tv/tvai/like/chatGPT/TVLikeParserExtractor.java:268-270 | the declaration read at step i is that of line i |
| TVLikeParser.FieldSelectorFirstWins | tv-like-module/src/main/java/tv/tvai/like/chatGPT/TVLikeParserExtractor.java:290-292 | `putIfAbsent`: a field's selector is that of its FIRST line with a non-null selector |
| TVLikeParser.FieldOptionsFirstWins | tv-like-module/src/main/java/tv/tvai/like/chatGPT/TVLikeParserExtractor.java:295-301 | `putIfAbsent`: a field's options are those of its FIRST line |
| TVLikeParser.ParseFieldLines | tv-like-module/src/main/java/tv/tvai/like/chatGPT/TVLikeParserExtractor.java:268-303 | the Scanner loop leaves both maps as the first-wins fold of the line declarations |
| TVLikeParser.ItemsTemplate | tv-like-module/src/main/java/tv/tvai/like/chatGPT/TVLikeParserExtractor.java:244-251 | the template is named `items`, takes the block's selector and has no nested template |
| TVLikeParser.ItemsBlock | tv-like-module/src/main/java/tv/tvai/like/chatGPT/TVLikeParserExtractor.java:228-265 | with no `items:` header or an unmatched brace the body is unchanged and no template is set; a template is named `items` |
| TVLikeParser.ItemsCut | tv-like-module/src/main/java/tv/tvai/like/chatGPT/TVLikeParserExtractor.java:235-264 | a found block always yields a template named `items` without a nested one |
| TVLikeParser.CutItems | tv-like-module/src/main/java/tv/tvai/like/chatGPT/TVLikeParserExtractor.java:235-264 | the found branch: the text before the header, a newline and the text after the block, and the template built |
| TVLikeParser.BuildItemsTemplate | tv-like-module/src/main/java/tv/tvai/like/chatGPT/TVLikeParserExtractor.java:244-251 | the setters build the template ItemsTemplate describes |
| TVLikeParser.ParseItems | tv-like-module/src/main/java/tv/tvai/like/chatGPT/TVLikeParserExtractor.java:228-265 | the items step returns ItemsBlock of the body |
| TVLikeParser.SectionNode | tv-like-module/src/main/java/tv/tvai/like/chatGPT/TVLikeParserExtractor.java:177-183 | a section node takes its header's name and selector |
| TVLikeParser.ParseSection | tv-like-module/src/main/java/tv/tvai/like/chatGPT/TVLikeParserExtractor.java:173-183 | the body, the options after the block and the setters give SectionNode |
| TVLikeParser.SectionNodesAt | tv-like-module/src/main/java/tv/tvai/like/chatGPT/TVLikeParserExtractor.java:164-186 | node k is built from block k |
| TVLikeParser.SectionNodesAppend | tv-like-module/src/main/java/tv/tvai/like/chatGPT/TVLikeParserExtractor.java:185 | one more block appends its node |
| TVLikeParser.PageTypeFirst | tv-like-module/src/main/java/tv/tvai/like/chatGPT/TVLikeParserExtractor.java:154-158 | the page type comes from the FIRST declaration, trimmed, and is absent exactly when there is none |
| TVLikeParser.CompiledSections | tv-like-module/src/main/java/tv/tvai/like/chatGPT/TVLikeParserExtractor.java:160-188 | section k is made of block k: every `section:` block with a matched `{`, in text order, and no other |
| TVLikeParser.ParseSections | tv-like-module/src/main/java/tv/tvai/like/chatGPT/TVLikeParserExtractor.java:161-186 | the find loop returns one node per matched section block |
| TVLikeParser.ParseAll | tv-like-module/src/main/java/tv/tvai/like/chatGPT/TVLikeParserExtractor.java:140-190 | the page type and the sections of the comment-stripped text, with the corrected unquote (see Findings); a null text reads as empty |
| TVLikeExtractor.ExtractField | tv-like-module/src/main/java/tv/tvai/like/chatGPT/TVLikeParserExtractor.java:425-448 | a value is never the empty string, and a field without a selector is null |
| TVLikeExtractor.ExtractFieldCases | tv-like-module/src/main/java/tv/tvai/like/chatGPT/TVLikeParserExtractor.java:425-448 | null exactly when there is no selector, no element or an empty value; otherwise the transformed `attr` or text of the FIRST element found |
| TVLikeExtractor.ExtractFieldSelectorTrimmed | tv-like-module/src/main/java/tv/tvai/like/chatGPT/TVLikeParserExtractor.java:427 | surrounding spaces of the selector do not change the value |
| TVLikeExtractor.ExtractFieldTrimmed | tv-like-module/src/main/java/tv/tvai/like/chatGPT/TVLikeParserExtractor.java:440-444 | with `transform: trim` (any case) the value has no surrounding spaces |
| TVLikeExtractor.ExtractFieldText | tv-like-module/src/main/java/tv/tvai/like/chatGPT/TVLikeParserExtractor.java:432-438 | without `attr` and `transform` the value is the first element's text, or null when that is empty |
| TVLikeExtractor.FieldsRecord | tv-like-module/src/main/java/tv/tvai/like/chatGPT/TVLikeParserExtractor.java:407-412 | the record holds exactly the listed fields |
| TVLikeExtractor.FieldsRecordAt | tv-like-module/src/main/java/tv/tvai/like/chatGPT/TVLikeParserExtractor.java:407-412 | every listed field holds its own extracted value |
| TVLikeExtractor.ExtractFields | tv-like-module/src/main/java/tv/tvai/like/chatGPT/TVLikeParserExtractor.java:468-473 | the loop over `text`, `img`, `link` fills one record as FieldsRecord |
| TVLikeExtractor.IntValue | tv-like-module/src/main/java/tv/tvai/like/chatGPT/TVLikeParserExtractor.java:456 | `Number.intValue()` lands in the 32-bit range and leaves a value already there unchanged |
| TVLikeExtractor.ItemLimit | tv-like-module/src/main/java/tv/tvai/like/chatGPT/TVLikeParserExtractor.java:453-463 | the limit is always a 32-bit int |
| TVLikeExtractor.ItemLimitUnparsable | tv-like-module/src/main/java/tv/tvai/like/chatGPT/TVLikeParserExtractor.java:457-461 | a limit that is neither a number nor parses leaves the limit at `Integer.MAX_VALUE` |
| TVLikeExtractor.TakeCount | tv-like-module/src/main/java/tv/tvai/like/chatGPT/TVLikeParserExtractor.java:464-465 | `Math.min(limit, size)` items, and none for a negative limit |
| TVLikeExtractor.ItemsOfCount | tv-like-module/src/main/java/tv/tvai/like/chatGPT/TVLikeParserExtractor.java:450-477 | exactly `min(limit, count)` items (none for a negative limit), item i made from the i-th element selected |
| TVLikeExtractor.ExtractItems | tv-like-module/src/main/java/tv/tvai/like/chatGPT/TVLikeParserExtractor.java:450-477 | the loop returns the items ItemsOfCount characterises |
| TVLikeExtractor.SectionRecordShape | tv-like-module/src/main/java/tv/tvai/like/chatGPT/TVLikeParserExtractor.java:394-404 | the five keys `type`, `text`, `img`, `link`, `items` are always present; a section not found has null fields and no items |
| TVLikeExtractor.SectionRecordFields | tv-like-module/src/main/java/tv/tvai/like/chatGPT/TVLikeParserExtractor.java:398-412 | a section found has the field values of its FIRST element |
| TVLikeExtractor.ExtractSection | tv-like-module/src/main/java/tv/tvai/like/chatGPT/TVLikeParserExtractor.java:394-423 | the method returns the record the two lemmas above characterise |
| LegacyParser.NormalisedPlain | tv-like-module/src/main/java/tv/tvai/like/RuleParser.java:17 | a text without `&` and CR is left as it is by the line-ending normalisation |
| LegacyParser.CountBraces | tv-like-module/src/main/java/tv/tvai/like/RuleParser.java:108-115 | the loop returns the number of `{` minus the number of `}` |
| LegacyParser.TypedOption | tv-like-module/src/main/java/tv/tvai/like/RuleParser.java:177-183 | `limit` and `index` values succeed exactly when they parse as an int and then hold that int; the only failure is a number-format exception |
| LegacyParser.OptionsOf | tv-like-module/src/main/java/tv/tvai/like/RuleParser.java:173-185 | the options hold exactly the keys of the pairs |
| LegacyParser.OptionsOfThrows | tv-like-module/src/main/java/tv/tvai/like/RuleParser.java:177-178 | the options throw exactly when some `limit` or `index` value is not an int |
| LegacyParser.OptionsOfLastWins | tv-like-module/src/main/java/tv/tvai/like/RuleParser.java:174-184 | `put` overwrites: the last pair of a key gives its value |
| LegacyParser.OptionPairsBareFlags | tv-like-module/src/main/java/tv/tvai/like/RuleParser.java:13 | a group without `:` holds no `key: value` pair, so bare flags are ignored |
| LegacyParser.OptionsOfThrowsEarly | tv-like-module/src/main/java/tv/tvai/like/RuleParser.java:173-185 | a prefix of the pairs that throws makes the whole loop throw the same exception |
| LegacyParser.ParseOptions | tv-like-module/src/main/java/tv/tvai/like/RuleParser.java:170-186 | empty options without a bracket group, else the typed options of every pair, as the lemmas above characterise |
| LegacyParser.ItemTemplate | tv-like-module/src/main/java/tv/tvai/like/RuleParser.java:150-168 | a template is named `item`, takes the given selector, has empty section options and no template of its own |
| LegacyParser.TemplateOf | tv-like-module/src/main/java/tv/tvai/like/RuleParser.java:155-167 | the same shape, from the field-line matches of the sub-block |
| LegacyParser.TemplateFieldsThrowsEarly | tv-like-module/src/main/java/tv/tvai/like/RuleParser.java:155-165 | a sub-block line whose options throw makes the whole template throw |
| LegacyParser.TemplateFieldLine | tv-like-module/src/main/java/tv/tvai/like/RuleParser.java:156-164 | one sub-block line: a field line puts its selector and options, overwriting |
| LegacyParser.FoldTemplate | tv-like-module/src/main/java/tv/tvai/like/RuleParser.java:155-167 | the loop returns TemplateOf of the matches |
| LegacyParser.BuildItemTemplate | tv-like-module/src/main/java/tv/tvai/like/RuleParser.java:150-168 | the method returns ItemTemplate |
| LegacyParser.FirstIndex | tv-like-module/src/main/java/tv/tvai/like/RuleParser.java:130 | `indexOf`: the first position holding an equal line |
| LegacyParser.BlockFold | tv-like-module/src/main/java/tv/tvai/like/RuleParser.java:122-136 | selectors and options are always gathered for the same keys |
| LegacyParser.BlockNodeShape | tv-like-module/src/main/java/tv/tvai/like/RuleParser.java:117-148 | the node keeps the block's name and selector, has empty section options, and its template, if any, is named `item` with none of its own |
| LegacyParser.BlockLineOther | tv-like-module/src/main/java/tv/tvai/like/RuleParser.java:122-136 | a line not declaring a key leaves that key's entries alone |
| LegacyParser.BlockLineField | tv-like-module/src/main/java/tv/tvai/like/RuleParser.java:131-134 | a field line other than `items` puts its selector and options |
| LegacyParser.BlockLineItems | tv-like-module/src/main/java/tv/tvai/like/RuleParser.java:129-130 | an `items` line leaves the section's fields alone |
| LegacyParser.BlockFoldLastWins | tv-like-module/src/main/java/tv/tvai/like/RuleParser.java:122-136 | a repeated field keeps the selector and options of its LAST line |
| LegacyParser.BlockLineKeys | tv-like-module/src/main/java/tv/tvai/like/RuleParser.java:124-134 | a line adds a key exactly when it is a field line declaring it, `items` aside |
| LegacyParser.BlockFoldKeys | tv-like-module/src/main/java/tv/tvai/like/RuleParser.java:122-136 | the fields gathered are exactly those of the field lines read, `items` aside |
| LegacyParser.BlockNodeLastWins | tv-like-module/src/main/java/tv/tvai/like/RuleParser.java:117-148 | in a node, the last field line for a key gives its selector and options |
| LegacyParser.BlockNodeKeys | tv-like-module/src/main/java/tv/tvai/like/RuleParser.java:117-148 | a node declares exactly the keys of its block's field lines, `items` aside |
| LegacyParser.BlockFoldThrowsEarly | tv-like-module/src/main/java/tv/tvai/like/RuleParser.java:122-136 | a block line whose options throw makes the whole block throw |
| LegacyParser.ProcessLine | tv-like-module/src/main/java/tv/tvai/like/RuleParser.java:123-135 | one line of the loop is one step of BlockFold |
| LegacyParser.FoldBlock | tv-like-module/src/main/java/tv/tvai/like/RuleParser.java:117-147 | the node built after the loop is NodeOf |
| LegacyParser.FoldLines | tv-like-module/src/main/java/tv/tvai/like/RuleParser.java:122-136 | the loop over the block lines returns BlockFold, or the first exception a line throws |
| LegacyParser.ProcessBlock | tv-like-module/src/main/java/tv/tvai/like/RuleParser.java:117-148 | the method returns BlockNode of the block |
| LegacyParser.Flush | tv-like-module/src/main/java/tv/tvai/like/RuleParser.java:62-64 | flushing keeps every node and adds at most one |
| LegacyParser.Step | tv-like-module/src/main/java/tv/tvai/like/RuleParser.java:29-102 | a line never removes a node |
| LegacyParser.GlobalsLine | tv-like-module/src/main/java/tv/tvai/like/RuleParser.java:46-59 | a line inside `globals` never changes the nodes |
| LegacyParser.BodyLine | tv-like-module/src/main/java/tv/tvai/like/RuleParser.java:73-102 | a body line never removes a node |
| LegacyParser.StepSkipsBlank | tv-like-module/src/main/java/tv/tvai/like/RuleParser.java:31 | blank lines and `#` comments change nothing |
| LegacyParser.StepSectionHeader | tv-like-module/src/main/java/tv/tvai/like/RuleParser.java:60-71 | a section header flushes the pending block and opens an empty block for the new name and selector at level 1 |
| LegacyParser.SectionLineOnly | tv-like-module/src/main/java/tv/tvai/like/RuleParser.java:31-44 | a `section:` line is not blank, a comment, the page type or the globals header |
| LegacyParser.StepGlobals | tv-like-module/src/main/java/tv/tvai/like/RuleParser.java:46-58 | inside `globals`, level 0 ends the block; otherwise the first `key: value` pair of the line is recorded |
| LegacyParser.RunSectionsGrow | tv-like-module/src/main/java/tv/tvai/like/RuleParser.java:29-103 | nodes are only ever appended, in the order their blocks are flushed |
| LegacyParser.ClosingBraceKeepsBlock | tv-like-module/src/main/java/tv/tvai/like/RuleParser.java:33-83 | as written, a lone `}` at level 1 only sets the level to 0: the level is already 0 when the `}` test is reached, so nothing is flushed |
| LegacyParser.ClosingBraceLine | tv-like-module/src/main/java/tv/tvai/like/RuleParser.java:74 | the line `}` is trimmed, no header of any kind, and counts -1 |
| LegacyParser.StepFieldLine | tv-like-module/src/main/java/tv/tvai/like/RuleParser.java:92-98 | inside an open section a field line is stored as `key: selector [options]` |
| LegacyParser.RunClose | tv-like-module/src/main/java/tv/tvai/like/RuleParser.java:73-83 | after lines leaving a section open at level 1, its `}` leaves the nodes and the pending block as they were |
| LegacyParser.RunFieldLine | tv-like-module/src/main/java/tv/tvai/like/RuleParser.java:92-98 | after lines leaving a section open, a field line joins its block |
| LegacyParser.RunStep | tv-like-module/src/main/java/tv/tvai/like/RuleParser.java:29 | a step that succeeds extends a run that succeeded |
| LegacyParser.HeaderFirst | tv-like-module/src/main/java/tv/tvai/like/RuleParser.java:60-71 | a section header as first line opens its section at level 1 with an empty block |
| LegacyParser.FlushPending | tv-like-module/src/main/java/tv/tvai/like/RuleParser.java:62-64 | flushing a non-empty block adds exactly one node |
| LegacyParser.RunAppend | tv-like-module/src/main/java/tv/tvai/like/RuleParser.java:29 | one more line is one more step, unless the run has thrown |
| LegacyParser.LostBlockRun | tv-like-module/src/main/java/tv/tvai/like/RuleParser.java:60-105 | after a header opens a section, a field line and a lone `}` leave no node flushed and the block pending |
| LegacyParser.LostBlockExample | tv-like-module/src/main/java/tv/tvai/like/RuleParser.java:16-106 | the lines `section: a .x {`, `text: h1`, `}` end with no node and the block of section `a` pending, so `parse` as written returns no section |
| LegacyParser.ParsedKeepsLastBlock | tv-like-module/src/main/java/tv/tvai/like/RuleParser.java:16-106 | the written `parse` returns the nodes flushed while reading; the corrected one keeps them and appends the node of the pending block |
| LegacyParser.ParseLine | tv-like-module/src/main/java/tv/tvai/like/RuleParser.java:30-101 | one pass of the loop body is Step |
| LegacyParser.ParseGlobalsLine | tv-like-module/src/main/java/tv/tvai/like/RuleParser.java:46-59 | a line inside `globals`: the level back at 0 leaves the globals; otherwise the line's first pair is put |
| LegacyParser.FlushBlock | tv-like-module/src/main/java/tv/tvai/like/RuleParser.java:62-64 | the method returns Flush |
| LegacyParser.ParseBodyLine | tv-like-module/src/main/java/tv/tvai/like/RuleParser.java:73-101 | the body-line branch is BodyLine |
| LegacyParser.RunThrowsEarly | tv-like-module/src/main/java/tv/tvai/like/RuleParser.java:29-103 | a line that throws makes the whole parse throw |
| LegacyParser.Parse | tv-like-module/src/main/java/tv/tvai/like/RuleParser.java:16-106 | the corrected `parse`: every line through the machine, then the pending block flushed |
| ResultMap.Result.constructor | tv-like-module/src/main/java/tv/tvai/like/Result.java:13-15 | a new result holds exactly the wrapped value under `value`, null included |
| ResultMap.Result.Put | tv-like-module/src/main/java/tv/tvai/like/Result.java:18-26 | writing `value` while it is present throws and changes nothing; any other write is a plain put answering the previous value; `value` is never lost |
| OptionKeys.ExecutableInFirst | tv-like-android-plugin/app/src/main/java/tv/tvai/like/enums/OptionKeyEnum.java:29-36 | the lookup answers with the flag of the FIRST constant carrying the key, and false when none does |
| OptionKeys.ExecutableKeys | tv-like-android-plugin/app/src/main/java/tv/tvai/like/enums/OptionKeyEnum.java:4-6 | exactly `attr` and `limit` are executable; every other key, `img-ratio` included, is not |
| OptionKeys.ExecutableOfKey | tv-like-android-plugin/app/src/main/java/tv/tvai/like/enums/OptionKeyEnum.java:11-36 | looking a constant up by its own key gives back that constant's flag |
| Values.SelectFirst | tv-like-module/src/main/java/tv/tvai/like/Extractor.java:162-163 | `selectFirst`: null exactly when the selection is empty, else its first element |
| Traversal.PreOrder | tv-like-module/src/main/java/tv/tvai/like/Extractor.java:18-47 | an element comes first in its own pre-order; a non-element node has none |
| Traversal.WalkIsPreOrder | tv-like-module/src/main/java/tv/tvai/like/Extractor.java:18-47 | the recursive walk yields, for each element in document order, what the rule loop yields there |
| Traversal.WalkAllIsPreOrder | tv-like-module/src/main/java/tv/tvai/like/Extractor.java:44-46 | the walk of a child list is the concatenation in document order |
| Traversal.FlatMapTryAppend | tv-like-module/src/main/java/tv/tvai/like/Extractor.java:44-46 | the throwing walk over two runs of nodes is the first run's, then the second's, unless one throws |
| Traversal.FirstThrowBefore | tv-like-module/src/main/java/tv/tvai/like/Extractor.java:18-47 | every element before the first throwing one succeeded |
| Traversal.FlatMapTryFirstThrow | tv-like-module/src/main/java/tv/tvai/like/Extractor.java:18-47 | the throwing walk throws the exception of the FIRST element in document order whose records throw; otherwise it is the plain walk |
| Traversal.WalkAllTryNext | tv-like-module/src/main/java/tv/tvai/like/Extractor.java:44-46 | one more child: its output joins those so far, or its exception ends the walk |
| Traversal.WalkAllTryPrefixThrows | tv-like-module/src/main/java/tv/tvai/like/Extractor.java:44-46 | once a child throws, the remaining children change nothing |
| Traversal.WalkTryIsPreOrder | tv-like-module/src/main/java/tv/tvai/like/Extractor.java:18-47 | the recursive walk with exceptions visits elements in document order |
| Traversal.WalkAllTryIsPreOrder | tv-like-module/src/main/java/tv/tvai/like/Extractor.java:44-46 | the same for a child list |
| FieldLoop.CollectedStep | tv-like-module/src/main/java/tv/tvai/like/Extractor.java:91-99 | visiting one more field adds its value unless the output already holds it or no value was produced |
| FieldLoop.CollectedEntries | tv-like-module/src/main/java/tv/tvai/like/Extractor.java:91-99 | keys already in the output keep their values; every other key present is a visited field with a value, and every such field is present |
| FieldLoop.AnyFailsStep | tv-like-module/src/main/java/tv/tvai/like/Extractor.java:91-99 | the loop fails exactly when the current or an earlier field fails |
| LegacyExtractor.ReadableKeys | tv-like-module/src/main/java/tv/tvai/like/Extractor.java:116-122 | only the executable `attr` and `limit` are held back; every other option is copied unchanged |
| LegacyExtractor.ResultWithParts | tv-like-module/src/main/java/tv/tvai/like/Extractor.java:185-196 | a result succeeds exactly when no option is named `value`, and then holds the value under `value` and exactly the readable options besides; otherwise it throws `UnsupportedOperationException` |
| LegacyExtractor.BuildResult | tv-like-module/src/main/java/tv/tvai/like/Extractor.java:185-195 | the constructor and one `put` per option on the `Result` class give ResultWith |
| LegacyExtractor.TextTakesAttr | tv-like-module/src/main/java/tv/tvai/like/Extractor.java:167-170 | with `attr` set, a `text` field takes the trimmed attribute, even an empty one |
| LegacyExtractor.RawValueNull | tv-like-module/src/main/java/tv/tvai/like/Extractor.java:161-183 | no raw value when nothing is selected or the field is unknown; a raw value otherwise |
| LegacyExtractor.ExtractValueCases | tv-like-module/src/main/java/tv/tvai/like/Extractor.java:161-197 | throws exactly when there is a raw value and an option named `value`; null exactly without a raw value; otherwise the value plus the readable options |
| LegacyExtractor.ExtractValueThrows | tv-like-module/src/main/java/tv/tvai/like/Extractor.java:185-195 | the only exception a field raises is the `Result` refusing to overwrite `value` |
| LegacyExtractor.ExtractFields | tv-like-module/src/main/java/tv/tvai/like/Extractor.java:90-101 | the loop writes every field with a result that the output does not hold yet, or throws |
| LegacyExtractor.EmptyValueStored | tv-like-module/src/main/java/tv/tvai/like/Extractor.java:97 | a field whose raw value is `""` is still stored, since a `Result` always holds `value` |
| LegacyExtractor.Capped | tv-like-module/src/main/java/tv/tvai/like/Extractor.java:70-71 | the loop takes at most the elements found, at most a positive limit, and stops early only at that limit |
| LegacyExtractor.ItemsOverOk | tv-like-module/src/main/java/tv/tvai/like/Extractor.java:70-76 | without a throw, one item per element, each the element's field map |
| LegacyExtractor.ItemsOverPrefixThrows | tv-like-module/src/main/java/tv/tvai/like/Extractor.java:70-76 | once an item throws, the remaining elements change nothing |
| LegacyExtractor.ItemsOverNext | tv-like-module/src/main/java/tv/tvai/like/Extractor.java:72-75 | one more element: its item joins the list, or its exception ends it |
| LegacyExtractor.ItemsOverThrowsAt | tv-like-module/src/main/java/tv/tvai/like/Extractor.java:70-76 | an element whose item throws ends any longer list with its exception |
| LegacyExtractor.ItemsOfCount | tv-like-module/src/main/java/tv/tvai/like/Extractor.java:65-76 | with a positive limit at most that many items, else every element found |
| LegacyExtractor.ItemList | tv-like-module/src/main/java/tv/tvai/like/Extractor.java:78 | entry k of the JSON list is the object of item k, and there are no others |
| LegacyExtractor.ExtractItems | tv-like-module/src/main/java/tv/tvai/like/Extractor.java:65-76 | the loop with its `limit` break returns ItemsOf |
| LegacyExtractor.ExtractSection | tv-like-module/src/main/java/tv/tvai/like/Extractor.java:58-86 | the fields, then the items wrapped in a `Result` with the readable section options when there are any |
| LegacyExtractor.RecordsAtCount | tv-like-module/src/main/java/tv/tvai/like/Extractor.java:22-41 | without a throw, an element yields one record per matching rule |
| LegacyExtractor.UnmatchedSkipped | tv-like-module/src/main/java/tv/tvai/like/Extractor.java:23-24 | a rule that does not match adds nothing |
| LegacyExtractor.RecordLayers | tv-like-module/src/main/java/tv/tvai/like/Extractor.java:25-38 | extracted keys win over readable section options, which win over `section`, which holds the rule's name otherwise |
| LegacyExtractor.RulesAt | tv-like-module/src/main/java/tv/tvai/like/Extractor.java:22-41 | the rule loop, without `break`, applies every matching rule in order |
| LegacyExtractor.Traverse | tv-like-module/src/main/java/tv/tvai/like/Extractor.java:18-47 | the element's records, then its children's, appended to the list; an exception ends the walk |
| LegacyExtractor.Extract | tv-like-module/src/main/java/tv/tvai/like/Extractor.java:11-16 | the records of the whole body in document order, or the first exception (see Traversal.FlatMapTryFirstThrow) |
| ChatRuleNode.InsertIfAbsent | tv-like-module/src/main/java/tv/tvai/like/chatGPT/RuleNode.java:26-30 | a key already present keeps its value; a new key is added with the given one |
| ChatRuleNode.Options.constructor | tv-like-module/src/main/java/tv/tvai/like/chatGPT/RuleNode.java:24 | a new option set is empty |
| ChatRuleNode.Options.PutIfAbsent | tv-like-module/src/main/java/tv/tvai/like/chatGPT/RuleNode.java:26-30 | a null key or value, or a key already present, changes nothing; otherwise the key is added |
| ChatRuleNode.RuleNode.Empty | tv-like-module/src/main/java/tv/tvai/like/chatGPT/RuleNode.java:16 | the no-argument constructor leaves every field unset and both field maps empty |
| ChatRuleNode.RuleNode.constructor | tv-like-module/src/main/java/tv/tvai/like/chatGPT/RuleNode.java:18-21 | the node takes the name and selector given, and nothing else |
| ChatRuleNode.RuleNode.SetName | tv-like-module/src/main/java/tv/tvai/like/chatGPT/RuleNode.java:39-41 | the name is set only while it is still null |
| ChatRuleNode.RuleNode.SetSelector | tv-like-module/src/main/java/tv/tvai/like/chatGPT/RuleNode.java:47-51 | a non-null selector is set only while the selector is still null |
| ChatRuleNode.RuleNode.SetItemTemplate | tv-like-module/src/main/java/tv/tvai/like/chatGPT/RuleNode.java:65-69 | the template is set only while it is still null |
| ChatRuleNode.RuleNode.SetSectionOptions | tv-like-module/src/main/java/tv/tvai/like/chatGPT/RuleNode.java:75-79 | the section options are set only while they are still null |
| ChatExtractor.ResolveAttr | tv-like-module/src/main/java/tv/tvai/like/chatGPT/Extractor.java:93-105 | an `attr` value exactly when the field has options holding `attr` |
| ChatExtractor.ExtractValueCases | tv-like-module/src/main/java/tv/tvai/like/chatGPT/Extractor.java:109-130 | no value when nothing is selected or the field is unknown; a value never has surrounding spaces |
| ChatExtractor.TextPrefersAttr | tv-like-module/src/main/java/tv/tvai/like/chatGPT/Extractor.java:114-119 | `text` takes the trimmed attribute when it is not empty, else the trimmed text |
| ChatExtractor.DefaultAttributes | tv-like-module/src/main/java/tv/tvai/like/chatGPT/Extractor.java:121-125 | without `attr`, `img` reads `src` and `link` reads `href` |
| ChatExtractor.ExtractFields | tv-like-module/src/main/java/tv/tvai/like/chatGPT/Extractor.java:75-89 | the loop writes every field with a non-empty value that the output does not hold yet |
| ChatExtractor.ItemsOver | tv-like-module/src/main/java/tv/tvai/like/chatGPT/Extractor.java:60-64 | one item map per element |
| ChatExtractor.ItemsOverAt | tv-like-module/src/main/java/tv/tvai/like/chatGPT/Extractor.java:60-64 | item i is the field map of element i |
| ChatExtractor.ItemList | tv-like-module/src/main/java/tv/tvai/like/chatGPT/Extractor.java:66 | entry k of the JSON list is the object of item k, and there are no others |
| ChatExtractor.FieldsKeys | tv-like-module/src/main/java/tv/tvai/like/chatGPT/Extractor.java:75-89 | only `text`, `img` and `link` are ever written |
| ChatExtractor.SectionKeys | tv-like-module/src/main/java/tv/tvai/like/chatGPT/Extractor.java:50-71 | a section holds only `text`, `img`, `link` and `items` |
| ChatExtractor.SectionItems | tv-like-module/src/main/java/tv/tvai/like/chatGPT/Extractor.java:55-68 | `items` is there only for a rule with a template and is never an empty list |
| ChatExtractor.ExtractSection | tv-like-module/src/main/java/tv/tvai/like/chatGPT/Extractor.java:50-71 | the method returns the section those lemmas characterise |
| ChatExtractor.RecordsAt | tv-like-module/src/main/java/tv/tvai/like/chatGPT/Extractor.java:24-33 | an element yields at most one record |
| ChatExtractor.RulesAt | tv-like-module/src/main/java/tv/tvai/like/chatGPT/Extractor.java:24-33 | the rule loop with its `continue` and `break` yields RecordsAt |
| ChatExtractor.RecordsAtFirst | tv-like-module/src/main/java/tv/tvai/like/chatGPT/Extractor.java:24-33 | the FIRST rule that matches with a non-empty section gives the element's record |
| ChatExtractor.RecordsAtNone | tv-like-module/src/main/java/tv/tvai/like/chatGPT/Extractor.java:24-33 | without such a rule the element yields nothing |
| ChatExtractor.RecordsAtFrom | tv-like-module/src/main/java/tv/tvai/like/chatGPT/Extractor.java:24-33 | a record always comes from the first such rule |
| ChatExtractor.RecordShape | tv-like-module/src/main/java/tv/tvai/like/chatGPT/Extractor.java:27-29 | the record is the section with `type` added, holding the rule's name |
| ChatExtractor.ThrowingSelectorSkipped | tv-like-module/src/main/java/tv/tvai/like/chatGPT/Extractor.java:41-47 | a rule whose selector throws is treated as not matching: dropping it changes nothing |
| ChatExtractor.Traverse | tv-like-module/src/main/java/tv/tvai/like/chatGPT/Extractor.java:19-39 | the element's record, then its children's, appended to the list |
| ChatExtractor.Extract | tv-like-module/src/main/java/tv/tvai/like/chatGPT/Extractor.java:10-17 | the records of the whole body, at most one per element, in document order |
| GrokRuleNode.Options.constructor | tv-like-module/src/main/java/tv/tvai/like/grok/RuleNode.java:59 | a new option set holds no value |
| GrokRuleNode.Options.Put | tv-like-module/src/main/java/tv/tvai/like/grok/RuleNode.java:61-64 | the key is bound to the value, overwriting an earlier one, every other key is kept, and the same object is answered for chaining |
| GrokRuleNode.GetString | tv-like-module/src/main/java/tv/tvai/like/grok/RuleNode.java:66-69 | null exactly when the key is absent; otherwise the stored value's string form |
| GrokRuleNode.GetInt | tv-like-module/src/main/java/tv/tvai/like/grok/RuleNode.java:71-78 | null for an absent key; a value read back is a 32-bit int and its key is present |
| GrokRuleNode.GetIntOfInt | tv-like-module/src/main/java/tv/tvai/like/grok/RuleNode.java:71-78 | an int stored under a key is read back by getInt |
| GrokRuleNode.GetIntOfNumberText | tv-like-module/src/main/java/tv/tvai/like/grok/RuleNode.java:71-78 | a 32-bit number stored as its decimal text is read back as that int |
| GrokRuleNode.GetIntOfNonNumber | tv-like-module/src/main/java/tv/tvai/like/grok/RuleNode.java:73-77 | a value that is not an optional sign followed by digits reads as null: the NumberFormatException is caught |
| GrokRuleNode.GetIntOutOfRange | tv-like-module/src/main/java/tv/tvai/like/grok/RuleNode.java:73-77 | digits beyond the 32-bit range read as null |
| GrokRuleNode.SplitCommaSpaces | tv-like-module/src/main/java/tv/tvai/like/grok/RuleNode.java:83 | split on a comma and the whitespace after it: no piece holds a comma, no piece after the first starts with whitespace, and a string without a comma is its own only piece |
| GrokRuleNode.SplitCommaSpacesJoin | tv-like-module/src/main/java/tv/tvai/like/grok/RuleNode.java:83 | splitting items joined by "," gives the items back, when no item holds a comma, no later item starts with whitespace and the last item is not empty |
| GrokRuleNode.StripAfterFirstKeeps | tv-like-module/src/main/java/tv/tvai/like/grok/RuleNode.java:83 | items that start with no whitespace lose nothing when the separator's whitespace is dropped |
| GrokRuleNode.GetList | tv-like-module/src/main/java/tv/tvai/like/grok/RuleNode.java:80-85 | an empty list for an absent key; a stored list as it is; any other value split into comma-free pieces |
| GrokRuleNode.GetListOfJoined | tv-like-module/src/main/java/tv/tvai/like/grok/RuleNode.java:80-85 | a comma-joined string of items stored under a key is read back by getList as those items |
| GrokRuleNode.RuleNode.constructor | tv-like-module/src/main/java/tv/tvai/like/grok/RuleNode.java:12-20 | the node keeps name, selector and item template; copies both maps, a null one becoming empty; keeps the given section options or takes a fresh empty set |
| GrokRuleNode.RuleNode.GetFieldSelectors | tv-like-module/src/main/java/tv/tvai/like/grok/RuleNode.java:37 | the field selectors the node holds |
| GrokRuleNode.RuleNode.GetFieldOptions | tv-like-module/src/main/java/tv/tvai/like/grok/RuleNode.java:38 | the field options the node holds |
| GrokRuleNode.Section | tv-like-module/src/main/java/tv/tvai/like/grok/RuleNode.java:22-25 | a fresh node with the given parts and no item template |
| GrokRuleNode.SectionWithItems | tv-like-module/src/main/java/tv/tvai/like/grok/RuleNode.java:27-33 | a fresh node with the given parts whose fresh item template is named "item", has the item selector and fields, fresh empty options and no template of its own |
| TVLikeDsl.Reversed | tv-like-android-plugin/app/src/main/java/tv/tvai/like/TVLikeDSL.java:186-194 | the parts in the opposite order: same length, part k is the part at the mirrored index |
| TVLikeDsl.DslPath | tv-like-android-plugin/app/src/main/java/tv/tvai/like/TVLikeDSL.java:170-195 | null exactly for a null or empty host |
| TVLikeDsl.DomainToDslPath | tv-like-android-plugin/app/src/main/java/tv/tvai/like/TVLikeDSL.java:170-195 | the StringBuilder loop builds the path of DslPath, throwing where it throws |
| TVLikeDsl.EmittedStep | tv-like-android-plugin/app/src/main/java/tv/tvai/like/TVLikeDSL.java:189-192 | one turn of the reverse loop appends label i, then "/" unless i is 0 |
| TVLikeDsl.PortIgnored | tv-like-android-plugin/app/src/main/java/tv/tvai/like/TVLikeDSL.java:175-176 | a ":port" suffix does not change the path |
| TVLikeDsl.SingleLabel | tv-like-android-plugin/app/src/main/java/tv/tvai/like/TVLikeDSL.java:181-184 | a host with one label and no port gives that label, trimmed |
| TVLikeDsl.PathIsReversedLabels | tv-like-android-plugin/app/src/main/java/tv/tvai/like/TVLikeDSL.java:179-194 | splitting the path on "/" gives the host's labels last first, so no leading or trailing "/" is added |
| TVLikeDsl.ThreeLabels | tv-like-android-plugin/app/src/main/java/tv/tvai/like/TVLikeDSL.java:186-194 | "a.b.c" becomes "c/b/a", as for m.douban.com and com/douban/m |
| TVLikeDsl.LoneColonThrows | tv-like-android-plugin/app/src/main/java/tv/tvai/like/TVLikeDSL.java:176 | the host ":" has no first piece, and reading it throws ArrayIndexOutOfBounds |
| TVLikeDsl.Candidates | tv-like-android-plugin/app/src/main/java/tv/tvai/like/TVLikeDSL.java:58-71 | a candidate list exists only for a non-null host, has two to four entries, and begins with the host |
| TVLikeDsl.WithoutPrefix | tv-like-android-plugin/app/src/main/java/tv/tvai/like/TVLikeDSL.java:62-64 | the name, then the name without "www." exactly when it starts with "www." |
| TVLikeDsl.WithoutSuffix | tv-like-android-plugin/app/src/main/java/tv/tvai/like/TVLikeDSL.java:69-71 | the path, then the path without "/www" exactly when it ends with "/www" |
| TVLikeDsl.HubCandidates | tv-like-android-plugin/app/src/main/java/tv/tvai/like/TVLikeDSL.java:58-71 | the list built entry by entry is Candidates |
| TVLikeDsl.CandidatesOrder | tv-like-android-plugin/app/src/main/java/tv/tvai/like/TVLikeDSL.java:58-71 | the host, then the "www."-less host exactly when it starts with "www.", then the hub path, then that path without "/www" exactly when it ends with it |
| TVLikeDsl.EmptyHostThrows | tv-like-android-plugin/app/src/main/java/tv/tvai/like/TVLikeDSL.java:66-69 | an empty host has a null hub path, and the endsWith call on it throws NullPointer |
| TVLikeDsl.HubOf | tv-like-android-plugin/app/src/main/java/tv/tvai/like/TVLikeDSL.java:26-30 | a non-blank hub ends with "/", begins with the given hub and adds at most that "/"; a blank or null one leaves the default hub |
| TVLikeDsl.FirstFetched | tv-like-android-plugin/app/src/main/java/tv/tvai/like/TVLikeDSL.java:73-80 | an answer found is never blank |
| TVLikeDsl.FirstFetchedAt | tv-like-android-plugin/app/src/main/java/tv/tvai/like/TVLikeDSL.java:73-80 | the answer for candidate k is returned when it is the first non-blank one |
| TVLikeDsl.FirstFetchedNone | tv-like-android-plugin/app/src/main/java/tv/tvai/like/TVLikeDSL.java:73-80 | null exactly when every candidate's answer is blank |
| TVLikeDsl.SameLineCommentsNoSlash | tv-like-android-plugin/app/src/main/java/tv/tvai/like/TVLikeDSL.java:52 | a text without "/" has no comment to remove |
| TVLikeDsl.SameLineCommentCut | tv-like-android-plugin/app/src/main/java/tv/tvai/like/TVLikeDSL.java:52 | the first `/*` up to the first `*/` after it, with no line break between, is removed together with its delimiters |
| TVLikeDsl.TwoLineCommentKept | tv-like-android-plugin/app/src/main/java/tv/tvai/like/TVLikeDSL.java:52 | a `/*` whose line ends before any `*/` is not matched: it is kept, and the search goes on after its `/` |
| TVLikeDsl.DslOf | tv-like-android-plugin/app/src/main/java/tv/tvai/like/TVLikeDSL.java:32-38 | the page's own rules when they are not blank, the hub lookup otherwise |
| TVLikeDsl.ScriptWins | tv-like-android-plugin/app/src/main/java/tv/tvai/like/TVLikeDSL.java:32-38 | non-blank page rules are the answer whatever the host and the hub would answer |
| TVLikeDsl.Lookup.constructor | tv-like-android-plugin/app/src/main/java/tv/tvai/like/TVLikeDSL.java:20-24 | the no-argument constructor keeps the default hub |
| TVLikeDsl.Lookup.WithHub | tv-like-android-plugin/app/src/main/java/tv/tvai/like/TVLikeDSL.java:26-30 | the one-argument constructor sets the hub of HubOf |
| TVLikeDsl.Lookup.GetHubDsl | tv-like-android-plugin/app/src/main/java/tv/tvai/like/TVLikeDSL.java:56-81 | the loop over the candidates answers the first non-blank hub reply, or null, as HubDsl does |
| TVLikeDsl.Lookup.GetDsl | tv-like-android-plugin/app/src/main/java/tv/tvai/like/TVLikeDSL.java:32-38 | the page's rules first, the hub otherwise, as DslOf does |
| GrokExtractor.PageTypeFirstLine | tv-like-module/src/main/java/tv/tvai/like/grok/Extractor.java:46-51 | the first line that starts, once trimmed, with "page-type: " sets the page type to what follows, trimmed; later lines do not matter |
| GrokExtractor.PageTypeNone | tv-like-module/src/main/java/tv/tvai/like/grok/Extractor.java:46-51 | no page type is found exactly when no line declares one |
| GrokExtractor.SlicedThrows | tv-like-module/src/main/java/tv/tvai/like/grok/Extractor.java:102-105 | narrowing throws exactly when the index or the limit is negative, the index being checked first (IndexOutOfBounds, then IllegalArgument from subList) |
| GrokExtractor.SlicedKeeps | tv-like-module/src/main/java/tv/tvai/like/grok/Extractor.java:102-105 | an index in range keeps that element alone, otherwise a prefix of the selection is kept, never more than the limit, and all of it without a limit |
| GrokExtractor.FirstAttr | tv-like-module/src/main/java/tv/tvai/like/grok/Extractor.java:150-154 | an attribute found is never empty |
| GrokExtractor.FirstAttrAt | tv-like-module/src/main/java/tv/tvai/like/grok/Extractor.java:150-154 | the k-th attribute of the chain answers when it is the first non-empty one, each name trimmed |
| GrokExtractor.FirstAttrNone | tv-like-module/src/main/java/tv/tvai/like/grok/Extractor.java:150-154 | null exactly when every attribute of the chain is empty |
| GrokExtractor.TransformedAppend | tv-like-module/src/main/java/tv/tvai/like/grok/Extractor.java:156-166 | applying two transform lists in turn is applying their concatenation |
| GrokExtractor.TransformedUnknown | tv-like-module/src/main/java/tv/tvai/like/grok/Extractor.java:158-164 | operations other than trim and url-join leave the value unchanged |
| GrokExtractor.TransformedTrims | tv-like-module/src/main/java/tv/tvai/like/grok/Extractor.java:159 | any non-empty run of trims is one trim |
| GrokExtractor.ProcessedNull | tv-like-module/src/main/java/tv/tvai/like/grok/Extractor.java:113-125 | process answers null exactly when the raw value is null or empty |
| GrokExtractor.AttrOptionIgnored | tv-like-module/src/main/java/tv/tvai/like/grok/Extractor.java:115-122 | text and link values do not depend on the attr option |
| GrokExtractor.ImageDefaultsToSrc | tv-like-module/src/main/java/tv/tvai/like/grok/Extractor.java:118 | without an attr option an image is its non-empty src, else null |
| GrokExtractor.ProcessedAll | tv-like-module/src/main/java/tv/tvai/like/grok/Extractor.java:108-110 | no more values than elements, every one a string |
| GrokExtractor.ProcessedAllKeepsAll | tv-like-module/src/main/java/tv/tvai/like/grok/Extractor.java:108-110 | when no element gives null, the list holds every element's value in selection order |
| GrokExtractor.FieldValueShape | tv-like-module/src/main/java/tv/tvai/like/grok/Extractor.java:98-111 | an empty selection gives null; a field value is null, a string or a list of strings |
| GrokExtractor.FieldsOfKeys | tv-like-module/src/main/java/tv/tvai/like/grok/Extractor.java:84-92 | every field of the rule is stored, whatever its value, and nothing else |
| GrokExtractor.FieldsOfAt | tv-like-module/src/main/java/tv/tvai/like/grok/Extractor.java:86-91 | each field holds its own value, null for the "null" selector |
| GrokExtractor.FieldsOfOk | tv-like-module/src/main/java/tv/tvai/like/grok/Extractor.java:84-92 | storing the fields fails exactly when one of them throws |
| GrokExtractor.FieldsOfPrefixThrows | tv-like-module/src/main/java/tv/tvai/like/grok/Extractor.java:86-91 | once a field throws, the later fields change nothing |
| GrokExtractor.ItemMapsCount | tv-like-module/src/main/java/tv/tvai/like/grok/Extractor.java:135-147 | a template with fields gives one map per item in order, one without gives none, since empty maps are not listed |
| GrokExtractor.ItemMapsNext | tv-like-module/src/main/java/tv/tvai/like/grok/Extractor.java:136-146 | one turn of the item loop lists the item's map exactly when it is not empty |
| GrokExtractor.ItemMapsPrefixThrows | tv-like-module/src/main/java/tv/tvai/like/grok/Extractor.java:136-146 | once an item throws, the later items change nothing |
| GrokExtractor.SectionDataKeys | tv-like-module/src/main/java/tv/tvai/like/grok/Extractor.java:84-96 | a section's keys are its field names, plus "items" exactly when the rule has an item template |
| GrokExtractor.FirstMatching | tv-like-module/src/main/java/tv/tvai/like/grok/Extractor.java:78-82 | a rule found is one of the rules and its selector finds something in the element |
| GrokExtractor.FirstMatchingFirst | tv-like-module/src/main/java/tv/tvai/like/grok/Extractor.java:78-82 | the rule found is the first whose selector finds something |
| GrokExtractor.FirstMatchingNone | tv-like-module/src/main/java/tv/tvai/like/grok/Extractor.java:78-82 | null exactly when no rule's selector finds anything |
| GrokExtractor.RecordShape | tv-like-module/src/main/java/tv/tvai/like/grok/Extractor.java:68-70 | a record's keys are the section's keys plus "type"; the section's entries are kept, and "type" is the rule's name unless the section has that key itself |
| GrokExtractor.RecordsOfCount | tv-like-module/src/main/java/tv/tvai/like/grok/Extractor.java:60-73 | one record per contributing child, each a map |
| GrokExtractor.RecordsOfNext | tv-like-module/src/main/java/tv/tvai/like/grok/Extractor.java:60-73 | one turn of the child loop adds the child's record when it has one |
| GrokExtractor.RecordsOfPrefixThrows | tv-like-module/src/main/java/tv/tvai/like/grok/Extractor.java:60-73 | once a child throws, the later children change nothing |
| GrokExtractor.UnparsedRecords | tv-like-module/src/main/java/tv/tvai/like/grok/Extractor.java:79 | before any rules are parsed, an element child makes the walk throw NullPointer, and a body without element children gives no record |
| GrokExtractor.Transform | tv-like-module/src/main/java/tv/tvai/like/grok/Extractor.java:156-166 | the loop over the operations computes Transformed |
| GrokExtractor.Process | tv-like-module/src/main/java/tv/tvai/like/grok/Extractor.java:113-125 | the element's value is Processed |
| GrokExtractor.Narrow | tv-like-module/src/main/java/tv/tvai/like/grok/Extractor.java:102-105 | the narrowing is Sliced |
| GrokExtractor.ExtractField | tv-like-module/src/main/java/tv/tvai/like/grok/Extractor.java:98-111 | the field's value is FieldValue |
| GrokExtractor.ExtractFields | tv-like-module/src/main/java/tv/tvai/like/grok/Extractor.java:86-92 | the field loop computes FieldsOf |
| GrokExtractor.ExtractItemMaps | tv-like-module/src/main/java/tv/tvai/like/grok/Extractor.java:135-147 | the item loop computes ItemMaps |
| GrokExtractor.ExtractItems | tv-like-module/src/main/java/tv/tvai/like/grok/Extractor.java:127-148 | the items are ItemsOf |
| GrokExtractor.ExtractSection | tv-like-module/src/main/java/tv/tvai/like/grok/Extractor.java:84-96 | the section's data is SectionData |
| GrokExtractor.Extractor.constructor | tv-like-module/src/main/java/tv/tvai/like/grok/Extractor.java:10-11 | no rules yet and the page type "generic" |
| GrokExtractor.Extractor.ParseRules | tv-like-module/src/main/java/tv/tvai/like/grok/Extractor.java:42-52 | "&#10;" becomes a line feed, the parsed rules are kept, and the first declaring line sets the page type, which otherwise stays as it was |
| GrokExtractor.Extractor.ParseRulesFromPage | tv-like-module/src/main/java/tv/tvai/like/grok/Extractor.java:17-40 | without a rule script, or with an empty one, the rules are an empty list and the page type is unchanged; otherwise the normalised script text is parsed as by parseRules |
| GrokExtractor.Extractor.ExtractChild | tv-like-module/src/main/java/tv/tvai/like/grok/Extractor.java:61-72 | a child's record is ChildRecord |
| GrokExtractor.Extractor.ExtractOrdered | tv-like-module/src/main/java/tv/tvai/like/grok/Extractor.java:54-76 | the result is the page type and the records of the body's children, as Ordered states |

## Left out

- jsoup is abstract. HTML parsing, CSS selector semantics, `text()`, `attr()` and `html()` are the function fields of `Dom.Html`. An element's `is` may answer "throws".
- A selector that jsoup refuses in `select` is read as an empty selection, where jsoup would throw. This applies to a null or malformed selector, and only `is` can throw in the model.
- TVLikeExtractor.SectionRecord: requires the rule and its item template to carry a selector. jsoup throws on a null selector, which is not modelled. Every node `parseAll` builds has one.
- TVLikeExtractor.ItemsOf: requires the template to carry a selector, for the same reason.
- TVLikeExtractor.ExtractSection: requires the rule to carry a selector, for the same reason.
- `HashMap` iteration order is unspecified in Java and is not modelled.
  - Maps are Dafny `map`s.
  - The field loops of `Extractor.java` and `chatGPT/Extractor.java` take the keys in any order, by choosing from a set.
  - The grok extractor takes its fields as a given sequence.
  - Only the `pathRuleMap` of `chatGPT/RuleParser.java` keeps its insertion order, as a sequence of pairs (`OrderedMap`).
  - Every other map is a Dafny `map` without order, including the `LinkedHashMap`s of `TVLikeParserExtractor.java`, `grok/Extractor.java`, `Extractor.java` and `chatGPT/Extractor.java`. The order in which their keys would be serialised is therefore not modelled.
- The HTTP methods `get` and `postJson` of `TVLikeDSL.java` are not modelled. The fetch in `getHubDsl` is the `fetch` parameter.
- `chatGPT/DSL.java` is left out. It is HTTP plus a script lookup.
- `StringUtils.isNotBlank` is the `notBlank` parameter.
- `AntPathMatcher` is the `matchPath` parameter.
- The grok `RuleParser.parse` is the `parse` parameter. It is not part of this model.
- The `url-join` transform is the `urlJoin` parameter. `java.net.URL` resolution is not modelled.
- jsoup's `html()` of the rule script is the `scriptHtml` parameter. It is null when there is no such script.
- Java regular expressions are not implemented in general. Each pattern the source uses is a hand-written scanner of that one shape.
  - Case-insensitive matching is on ASCII letters.
  - `\s` and `\w` are the ASCII classes.
- Only the `String` operations the code calls are modelled, over `seq<char>`. There is no Unicode case folding.
- The legacy `tv.tvai.like.RuleNode` class is not part of this model. `RuleParser.java` therefore produces `Rules.Rule` values with the fields that file sets.
- The two string parsers build `Rules.Rule` value snapshots, not `RuleNode` objects. This applies to `chatGPT/RuleParser.java` and `TVLikeParserExtractor.java`. The write-once setters of `chatGPT/RuleNode.java` are modelled separately, by the `ChatRuleNode.RuleNode` class.
- The grok extractor reads a rule as a `GrokRule` value: a snapshot of a `grok/RuleNode` with its options' maps.
- `toString` of the rule nodes is not modelled. It is used only for debugging.
- `resolveImageRatio` in `Extractor.java` is not modelled. It is never called.
- `main` methods, Jackson serialisation, `TV.java`, `chatGPT/TV.java`, `PageExtractor.java`, `TVModule.java` and the Lombok-generated members of `Result` are not modelled. They are entry points, serialisation and glue.
- TVLikeParser.ParseAll: builds its option values with the corrected unquote. On an option value that is a lone quote the source throws `StringIndexOutOfBoundsException`; that path is TVLikeParser.TokenValueAsWritten, and TokenValueAgrees shows the two agree on every other token.
- Patterns.PathAt, Patterns.SectionAt, Patterns.ItemsAt, Patterns.PageTypeAt, Patterns.LegacySectionLine, Patterns.LegacyFieldLine: the ensures state the shape of what is found; that every text of the pattern's layout is found, with its groups, is stated by the `...Of` lemmas beside them. That a match found always has that layout is left to the bodies.
- Integer widths:
  - `intValue()` of a stored number is 32-bit wrap-around, written out in `TVLikeExtractor.IntValue`.
  - `Integer.parseInt` and `Integer.valueOf` are modelled on ASCII digits only: an optional sign, then `0`-`9`, within the 32-bit range.
  - Other integers are unbounded.
- LegacyParser.TypedOption, TVLikeParser.TokenValue, TVLikeExtractor.ItemLimit, GrokRuleNode.GetInt, GrokRuleNode.GetIntOfNonNumber: read only the ASCII digits `0`-`9`. Java's `Integer.parseInt` and `Integer.valueOf` read every Unicode decimal digit through `Character.digit`, so a value such as a full-width `３` parses to 3 in the source. That is not modelled. The model treats such a value as not a number: the legacy option throws `NumberFormatException`, the chatGPT `limit` stays a string and the item limit falls back to `Integer.MAX_VALUE`, and the grok `getInt` answers null.
- Concurrency and object identity beyond the modelled classes are not modelled. Neither are exceptions other than those listed in `Wrappers.JavaException`.

## Findings

| source | as written | input that shows it | evidently intended | confidence | as-written member | corrected member |
|---|---|---|---|---|---|---|
| tv-like-module/src/main/java/tv/tvai/like/RuleParser.java:33-105 | The brace count of a line is added before the `}` test, so a lone `}` at level 1 brings the level to 0 first. The `braceLevel > 0` branch that flushes the block is then skipped. After the loop the pending block is not flushed either, so the last section of the text is lost. | `section: a .x {` / `text: h1` / `}` gives no section | every section block becomes a node | not executed | LegacyParser.ParsedAsWritten, LegacyParser.ClosingBraceKeepsBlock, LegacyParser.LostBlockExample | LegacyParser.Parsed, LegacyParser.ParsedKeepsLastBlock, LegacyParser.Parse |
| tv-like-module/src/main/java/tv/tvai/like/chatGPT/TVLikeParserExtractor.java:349-351 | A value that starts and ends with the same quote is cut to `substring(1, length - 1)`. A value that is one quote character alone satisfies both tests, and `substring(1, 0)` throws `StringIndexOutOfBoundsException`. | the option token `attr: "` | a lone quote is kept as it is, or read as an empty value | not executed | TVLikeParser.UnquoteAsWritten, TVLikeParser.UnquoteLoneQuoteThrows, TVLikeParser.TokenValueAsWrittenThrows | TVLikeParser.Unquote, TVLikeParser.UnquoteQuoted, TVLikeParser.UnquoteAgrees, TVLikeParser.TokenValueAgrees |
