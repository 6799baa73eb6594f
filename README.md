# translate-matrix-bot, modelled in Dafny

The bot sits in Matrix rooms and translates each text message with the
Anthropic Messages API, then posts the translation as a reply threaded to
the original. Before translating, it does two things:

- **Filter.** Each stored keyword is a regular expression. The first one
  that matches the raw body blocks the message, with a notice that names
  the keyword.
- **Normalise.** It deletes every "symbol, other" and "symbol, modifier"
  rune (emoji, mostly). It then drops a trailing line that looks like a
  sign-off.

The admin user's `!add <pattern>` and `!remove <pattern>` messages are not
translated at all. They manage the keyword table instead.

The model covers the message handler and the functions it calls.
Everything is relative to `main.go` unless another file is named.

| module | file | what it models |
|---|---|---|
| `Wrappers` | `wrappers.dfy` | `Option` and `Result` |
| `Unicode` | `unicode.dfy` | the Unicode general-category tables, passed in as predicates |
| `GoStrings` | `go_strings.dfy` | Go's `strings.TrimSpace`, `strings.Split` and `strings.Join` with separator `"\n"`, `strings.HasPrefix`, `unicode.IsSpace`, and `len` as the UTF-8 byte length |
| `Normalize` | `normalize.dfy` | `removeEmojis`, `removeSignature`, and its eight patterns plus fallback as predicates; the signature loop is a method proved against them |
| `Filter` | `filter.dfy` | the keyword loop of `handleMessage` as a method, proved against a recursive first-match function; the regex engine is a parameter |
| `Keywords` | `keywords.dfy` | the `filter_keywords` table as a class holding a `set<string>`, with methods for `addFilterKeyword`, `removeFilterKeyword` and `getFilterKeywords` |
| `Translate` | `translate.dfy` | `translateMessage`: the request it builds (`anthropic/api.go` request and response types) and how it reads the reply; the HTTP client is a function |
| `Pipeline` | `pipeline.dfy` | `handleMessage` as a method over a `KeywordStore`, proved equal to the functional specification `Respond`, and the lemmas about `Respond` |

### Behaviour of the code worth knowing

- **Normalisation is not idempotent.** When the last two lines both look
  like signatures, one pass strips only the last, and a second pass strips
  the other. `Normalize.NormalizedNotIdempotent` states the general case
  and `Normalize.NormalizedNotIdempotentExample` a concrete one:
  `"a\n- b\n- c"` normalises to `"a\n- b"`, and that to `"a"`.
- **A single line is never stripped.** `removeSignature` returns any text
  whose trimmed form is one line exactly as it was given
  (`Normalize.SingleLineUnchanged`), so a one-line `"Hello — John"`
  reaches translation whole. The signature test has eight patterns plus a
  fallback, and the model has all eight.
- **A closing sentence is taken for a signature.** The fourth pattern,
  `^[\p{L}\p{N}]+:?\s.*` (`main.go:230`), matches any last line that opens
  with a word and a space (`Normalize.WordThenSpaceIsSignature`). So
  `"Hi\nSee you"` is translated as `"Hi"`: its ordinary last line is dropped
  (`Normalize.NormalizedDropsClosingSentence`).
- **The reply is not parsed.** `translateMessage` returns the `text` member
  of the first content block as it is (`main.go:312`). It does not look
  for a JSON envelope or a language tag, and neither does the model.
- **The fallback counts bytes.** It divides a count of non-letter runes by
  `len(lastLine)`, which counts bytes. A line made only of non-ASCII runes
  therefore never passes it (`Normalize.WideLineNeverMostlyNonLetters`).
- **Keyword order is open.** The keywords are tried in the order the
  database returns them, and `SELECT` without `ORDER BY` fixes no order.
  `HandleMessage` promises a result for *some* listing of the table.
  Whether a message is blocked does not depend on the order
  (`Filter.SuppressionIgnoresOrder`, `Pipeline.SuppressedIffKeywordMatches`);
  only the keyword named in the notice may.
- **A keyword scan cut short goes unnoticed.** `getFilterKeywords` never
  asks `rows.Err()` (`main.go:107-114`). A step error that ends
  `rows.Next()` early yields the rows read so far, with no error, and the
  filter runs on that shorter list. Such a scan still blocks only for a
  stored keyword that matches (`Pipeline.CutShortReadBlocksSoundly`). But a
  message that a dropped keyword would block is translated
  (`Pipeline.CutShortReadMissesKeyword`).

## Model

| member | source | states |
|---|---|---|
| GoStrings.TrimSpace | main.go:215 | the result is no longer than the input and has no white space at either end; a string already trimmed is returned unchanged |
| GoStrings.TrimSpaceCutsSpace | main.go:215 | the trimmed result is a contiguous slice of the input, and everything cut off before and after it is white space |
| GoStrings.Split | main.go:215 | splitting on "\n" always yields at least one piece; with `SplitJoin` and `JoinSplit` it is the inverse of `Join` |
| GoStrings.SplitSingle | main.go:215-220 | splitting on "\n" yields a single piece exactly when the text has no newline, and that piece is the text |
| GoStrings.SplitHasNoNewlines | main.go:215 | no piece of a split contains a newline |
| GoStrings.Join | main.go:260 | the joined text is at least as long as its first piece and has room for a separator between pieces; `SplitJoin` and `JoinSplit` make it the inverse of `Split` |
| GoStrings.SplitJoin | main.go:215 | joining the pieces of a split with "\n" gives back the text |
| GoStrings.JoinSplit | main.go:260 | splitting a join of newline-free lines gives back the lines |
| GoStrings.SplitSnoc | main.go:215 | appending "\n" and a newline-free line appends that one piece to the split |
| GoStrings.SplitAtLastNewline | main.go:215-223 | the last piece is what follows the last newline, and the other pieces join to what precedes it |
| GoStrings.SplitInitShorter | main.go:258-260 | when a text splits into two or more pieces, joining all but the last gives something strictly shorter |
| GoStrings.Utf8Length | main.go:253 | the byte length of the UTF-8 encoding is between one and four bytes a rune |
| GoStrings.WideRunesUtf8Length | main.go:253 | a string of runes outside ASCII takes at least two bytes a rune |
| Normalize.RemoveEmojis | main.go:208-211 | the result has no So/Sk rune, is no longer than the input, and equals the input when the input has none |
| Normalize.RemoveEmojisAppend | main.go:208-211 | stripping distributes over concatenation: each rune is judged on its own |
| Normalize.RemoveEmojisCounts | main.go:208-211 | every non-symbol rune is kept as many times as it occurs; no symbol rune survives |
| Normalize.RemoveEmojisKeepsOrder | main.go:208-211 | a symbol-free stretch of the input appears unchanged, in place, in the output |
| Normalize.RemoveEmojisIdempotent | main.go:208-211 | stripping twice is stripping once |
| Normalize.PatternMatches | main.go:226-235 | a pattern matches only when it is one of the eight and the line is non-empty; the patterns that open with a glyph and `\s` need the second rune to be RE2 white space |
| Normalize.NamePatternRule | main.go:230 | the fourth pattern (the recursive `WordRunFrom`) holds exactly when some non-empty leading run of letters and digits is followed by an optional colon and a white-space rune |
| Normalize.TrailingSymbolsRule | main.go:233 | the seventh pattern holds exactly when the line ends in a run of symbol runes and what precedes the run has no newline, except possibly one directly before it |
| Normalize.TrailingSymbolPattern | main.go:233 | on a newline-free line, the seventh pattern holds exactly when the last rune is a symbol |
| Normalize.SymbolPatternsNeedSymbols | main.go:232-234 | on a line with no symbol rune (with `™` classed as a symbol), patterns six to eight never match |
| Normalize.NonLetterCount | main.go:247-252 | the number of non-letter runes is at most the number of runes |
| Normalize.WideLineNeverMostlyNonLetters | main.go:245-256 | a line made only of non-ASCII runes never passes the byte-based fallback, whatever its letters |
| Normalize.IsSignatureRule | main.go:226-256 | the last line is a signature exactly when one of the eight patterns matches it or, failing that, twice its non-letter count exceeds its byte length |
| Normalize.IsSignatureLine | main.go:237-256 | the loop over the patterns with its early break, then the non-letter count, decides exactly `IsSignature` |
| Normalize.RemoveSignature | main.go:213-264 | `removeSignature` computes `StripSignature`: split the trimmed text, test the trimmed last line, and join and trim the rest |
| Normalize.StripSignature | main.go:213-264 | the reference for `removeSignature`: the text comes back unchanged or strictly shorter. `StripSignatureShape` and `StripSignatureAtLastNewline` say which and what |
| Normalize.SingleLineUnchanged | main.go:215-220 | a text whose trimmed form has no newline comes back exactly as given, surrounding white space included |
| Normalize.StripSignatureAtLastNewline | main.go:213-264 | closed form: with `t` the trimmed text and `i` its last newline, the result is `TrimSpace(t[..i])` when `TrimSpace(t[i+1..])` is a signature, and otherwise the original text |
| Normalize.DroppedLineShortens | main.go:258-261 | dropping the last line leaves a strictly shorter text |
| Normalize.StripSignatureShape | main.go:213-264 | the result is either the text itself or the trimmed join of all lines but the last; it is the latter exactly when there are two or more lines and the last is a signature, and then it is shorter |
| Normalize.Normalized | main.go:166-170 | the text handed to translation is no longer than the body. `NormalizedKeepsPlainLine`, `NormalizedDropsClosingSentence` and `NormalizedNotIdempotent` describe it further |
| Normalize.NormalizedKeepsPlainLine | main.go:166-170 | a single-line body with no symbol runes reaches translation unchanged |
| Normalize.StripTrailingSignature | main.go:258-261 | a trimmed text ending in a newline and a trimmed signature line loses that line and the newline before it |
| Normalize.NormalizedNotIdempotent | main.go:166-170 | when the last two lines are both signatures, one pass strips only the last and a second pass strips the other |
| Normalize.NormalizedNotIdempotentExample | main.go:166-170 | `"a\n- b\n- c"` normalises to `"a\n- b"`, and that to `"a"` |
| Normalize.WordThenSpaceIsSignature | main.go:230 | any line that opens with a non-empty run of letters and digits followed by a space is a signature |
| Normalize.NormalizedDropsClosingSentence | main.go:166-170 | `"Hi\nSee you"` normalises to `"Hi"` when `S` and `e` are letters |
| Filter.FirstMatchIndex | main.go:149-158 | the result is the least index whose pattern compiles and matches, and None exactly when no pattern matches |
| Filter.SuppressedIffSomeMatch | main.go:149-159 | some pattern is found exactly when some pattern of the list matches |
| Filter.BadPatternIgnored | main.go:152 | inserting a pattern that does not compile anywhere in the list changes neither whether a pattern is found nor which one |
| Filter.NoCompilingPatternNeverSuppresses | main.go:149-158 | a list in which nothing compiles, the empty list included, never suppresses |
| Filter.SuppressionIgnoresOrder | main.go:145-158 | two listings with the same members suppress the same messages |
| Filter.FirstMatch | main.go:149-158 | the loop with its break sets `shouldFilter` exactly when some pattern matches, and `matchedKeyword` to the first match or "" |
| Keywords.ListingExists | main.go:99-115 | every keyword set has a listing: each member once, nothing else |
| Keywords.KeywordStore.Add | main.go:89-92 | a successful upsert adds the keyword and keeps all the others; a refused write reports failure and keeps the table |
| Keywords.KeywordStore.Remove | main.go:94-97 | a successful delete removes the keyword and keeps all the others; a refused write reports failure and keeps the table |
| Keywords.ReadExists | main.go:99-115 | every way a scan can end, run to the end or cut short after `n` rows, has an outcome |
| Keywords.KeywordStore.List | main.go:99-115 | a failed query or row scan yields no list. Otherwise the rows read are stored keywords, each once. A scan that runs to the end lists every stored keyword. A scan that a step error stops after `n` rows yields at most `n`, and all of them when fewer exist |
| Translate.RequestText | anthropic/api.go:20-38 | when a request has a readable text, it has exactly one user message whose only content is that text block |
| Translate.BuildRequest | main.go:291-301 | the request carries the text as its single user text block, has a token budget equal to the text's rune count, uses the fixed model and the given system prompt, and does not stream |
| Translate.FirstBlockText | main.go:308-312 | no blocks reads as `NoBlocks`; a first block that is an object with a string `text` reads as that text; anything else is the failed type assertion |
| Translate.TextBlockReadsBack | main.go:312 | a reply that opens with a text block reads back as that block's text, whatever follows |
| Translate.TranslateText | main.go:303-314 | a translation results exactly when the provider answers and the first block holds a text, and it is that text. The call panics exactly when the provider answers and the first block is something else |
| Translate.ProviderErrorFails | main.go:303-306 | a provider error becomes a failure |
| Translate.EmptyReplyFails | main.go:308-310 | a reply with no content blocks is the "empty response" failure |
| Translate.TextReplyTranslates | main.go:312-314 | a reply whose first block is a text block translates to that text |
| Pipeline.ParseCommand | main.go:124-135 | a body is a command exactly when it starts with `!add ` or `!remove `; it is an add exactly when it starts with `!add `; the keyword is shorter than the body |
| Pipeline.ParseCommandText | main.go:124-143 | every command is read back from the body that issues it |
| Pipeline.CommandTextParse | main.go:124-143 | every body read as a command is exactly the text of that command |
| Pipeline.ApplyCommand | main.go:126-141 | a refused write sends nothing and keeps the table. Otherwise the room gets the single notice `Added filter keyword: k` or `Removed filter keyword: k`, `k` is stored exactly when the command is an add, and every other keyword is kept |
| Pipeline.TranslationActions | main.go:172-188 | one action per outcome: a reply in the room threaded to the event exactly for a translation, `Panic` exactly for a panic, and otherwise a notice in the room |
| Pipeline.Screen | main.go:145-190 | a failed keyword read sends nothing; otherwise there is exactly one action, which goes to the message's room unless it is a panic. A reply is sent only when no listed keyword matches, threaded to the event |
| Pipeline.Respond | main.go:118-198 | every message leads to at most one action, and the table changes only on an admin command |
| Pipeline.HandleMessage | main.go:118-198 | for some outcome of the keyword scan of the table as it stood (all of it, or its first rows when a step error cuts the scan short), the actions sent and the new table are what `Respond` gives |
| Pipeline.BotIsSilent | main.go:119 | the bot's own messages cause no action and no change |
| Pipeline.MediaGetsTextOnlyNotice | main.go:193-196 | a non-text message from anyone else gets only the "text only" notice |
| Pipeline.EmptyBodyIsSilent | main.go:122-123 | an empty text body causes no action |
| Pipeline.AddCommandStores | main.go:126-133 | after the admin's `!add k`, `k` is stored, every other keyword is unchanged, and the admin is told; a refused write changes nothing and sends nothing |
| Pipeline.RemoveCommandDeletes | main.go:134-141 | after the admin's `!remove k`, `k` is gone, every other keyword is unchanged, and the admin is told; a refused write changes nothing and sends nothing |
| Pipeline.CommandIdempotent | main.go:89-97 | issuing the same admin command twice leaves the table the same as issuing it once |
| Pipeline.CommandsBypassFilter | main.go:124-143 | the outcome of an admin command depends neither on the keyword listing, nor on a read failure, nor on the provider |
| Pipeline.OnlyAdminCommandsChangeKeywords | main.go:118-198 | the table changes only on an admin's successful `!add` or `!remove` text message |
| Pipeline.OthersCommandsAreText | main.go:124 | a command text from anyone but the admin is an ordinary message |
| Pipeline.ReadFailureIsSilent | main.go:145-147 | when the keyword query fails, an ordinary message gets no action |
| Pipeline.SuppressedIffKeywordMatches | main.go:145-160 | an ordinary message is blocked exactly when some stored keyword matches its raw body, and the notice names the first matching keyword of the listing |
| Pipeline.UnsuppressedIsTranslated | main.go:161-172 | an unblocked ordinary message is translated after symbols, then the signature, are removed |
| Pipeline.ReplyIsThreaded | main.go:176-187 | a text reply from the provider is sent as a reply threaded to the original event |
| Pipeline.NonTextReplyPanics | main.go:312 | a reply whose first block is not a text block makes the handler panic |
| Pipeline.FailedTranslationNotice | main.go:172-175 | a provider error or an empty reply gets the generic translation-error notice |
| Pipeline.CutShortReadBlocksSoundly | main.go:107-114 | a scan cut short blocks only for a stored keyword that matches, and names it in the notice |
| Pipeline.CutShortReadMissesKeyword | main.go:107-114 | a scan cut short before the one matching keyword lets a message that should be blocked through to translation |

## Left out

- `main`, the Matrix login, the sync loop and event registration (`main.go:30-82`) are configuration and I/O. The bot's and the admin's user IDs become `Config` fields.
- `handleMembership` (`main.go:200-206`), which joins rooms the bot is invited to, is not part of this model.
- The read receipt and the typing indicators (`main.go:162-163`, `main.go:189`) are best-effort side effects. They do not change the outcome.
- Logging is left out, since it only writes to the log.
- The SQL text, `createFilterTable` and the database driver are left out. The table is a set of keywords; a failing statement is a boolean in `Environment`. A refused write is assumed to leave the table unchanged.
- The order in which `SELECT` returns its rows is left open, because SQL fixes none. `Pipeline.HandleMessage` therefore promises its result for some listing, or for the first rows of one when the scan is cut short. It does not pin down which keyword a blocked notice names when several match.
- Which error stops a row scan is not modelled: it is only the number of rows read before `rows.Next()` reports no more.
- The HTTP call, the JSON encoding, the headers and the API key (`anthropic/api.go:54-92`) are left out. The provider is a function from request to response or error text, and the error text is not modelled.
- The `Temperature` field (`anthropic/api.go:31`) is a float that the bot never sets. It is not in the request model.
- The instruction text (`main.go:272-289`) is the opaque `Config.systemPrompt`.
- The Unicode category tables (So, Sk, L, N) and the regular-expression engine behind `regexp.MatchString` are parameters. Only the signature patterns are spelt out, as predicates.
- Normalize.MostlyNonLetters: compares integers (`2 * nonLetters > len`) in place of the float quotient `> 0.5`. These agree for every line shorter than 2^53 bytes.
- Strings are sequences of code points. Invalid UTF-8 in a message body is not modelled.
- Translate.FirstBlockText: the panic of the unchecked type assertion is the `Panicked` outcome and the `Panic` action. Go's recovery from it, and the goroutine it runs on, are not modelled.
- Concurrent handling of several events is not modelled: each call of `HandleMessage` handles one event alone.
