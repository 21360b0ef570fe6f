# Confluence secret finder, modelled in Dafny

The Confluence secret finder crawls a Confluence wiki day by day. For every page or
attachment changed on a day, it scans the versions it has not seen yet for
password-like strings and reports each new finding. It keeps a per-item history
(latest version scanned, secrets already reported) and a cursor (last day crawled)
in a key/value cache between runs.

This project models the parts of both generations of the program that decide
*what* is scanned, *what* is reported and *what* is remembered:

- **The incremental crawl** (`IncrementalCrawl`, `CrawlProperties`, `Orchestrator`).
  The crawl is a pure function from a crawl state to the next state plus a trace of
  observable events: version extracted, history written, finding yielded, cursor written.
  The class `Orchestrator.App` runs the crawl loops of `main.py` against the class
  `KeyValueCache.Cache`. Each of its methods is proved to produce exactly what that
  function describes. The crawl-wide guarantees are then lemmas about the function:
  - histories only grow;
  - no secret is reported twice for an item;
  - nothing already recorded is reported;
  - every report has a non-empty secret;
  - the cursor is written once per day, in order, after the day's items.
- **The cache** (`KeyValueCache`): tables opened lazily by name, each a map from key
  to value. The backing file is an in-memory map.
- **Secret detection** (`SecretFilter`, `LineMajorFinder`, `PluginMajorFinder`,
  `Blacklists`, `PasswordPattern`, `DetectSecretsPlugin`):
  - the finders keep a candidate of length at least 6 that is new in this call and
    not blacklisted. The older finder works line by line; the newer one works
    detector by detector over all lines;
  - the blacklist is a list of anchored, case-insensitive patterns;
  - the password pattern plugin's token regular expression is restated as an explicit
    scanner: its word characters are the ASCII letters, digits and `_`, its white
    space is Python's full `isspace` set;
  - the detect-secrets plugin rewrites password synonyms again before each library
    rule, then recovers the original-case text of each value the rule reports.
- **The repository** (`Repository`): search results and version lists become content
  items and versions. Incomplete results, unscannable attachments and oversize
  attachment versions are dropped; version order is reversed; title, author and MIME
  fallbacks apply.
- **The client** (`Client`):
  - the retry loop is a function of the sequence of physical responses: its budget,
    its 429 and linear back-off delays, and giving up with `None`;
  - both paginations are modelled: following `next` links (newer) and advancing `start`
    by `limit` in the caller's parameters (older).

Dates are integers. `today`, the oldest creation date, the wiki's contents, the text
extractor and the detect-secrets rules are parameters.

The code resumes the crawl AT the stored cursor date, not the day after it, so the
last day of a run is crawled again by the next run (`Orchestrator.ResumeAtLastDay`).
A description of the program that says a finished day is never crawled again
disagrees with this; the model follows the code.

## Model

| member | source | states |
|---|---|---|
| Orchestrator.StartDate | src/confluence_secret_finder/main.py:85-91 | the explicit start date when given, else the stored cursor, else the oldest creation date |
| Orchestrator.LegacyStartDateAgrees | confluence_secret_finder/main.py:76-80 | the older generation's start date (cursor, else oldest creation date) is the newer one's without an explicit date |
| Orchestrator.ResumeAtLastDay | src/confluence_secret_finder/main.py:78-91 | after a crawl up to `today`, the next run without an explicit date starts at `today` again |
| Orchestrator.SetOf | src/confluence_secret_finder/main.py:45-47 | the set filled from the finder's output holds each secret once, exactly the secrets found |
| Common.Dedup | src/confluence_secret_finder/main.py:45-47 | each element once, exactly the elements of the input |
| Orchestrator.StripKnown | src/confluence_secret_finder/main.py:68-70 | the loop that drops known secrets from each finding and extends the history computes `FilterFindings` |
| Orchestrator.YieldNonEmpty | src/confluence_secret_finder/main.py:74-76 | the loop yields exactly the findings with a non-empty secret, in order (`YieldEvents`) |
| Orchestrator.SiteContext | confluence_secret_finder/confluence/confluence_repository.py:25-73 | the crawl consults the repository's filtered items of a day and versions of an item, and the given extractor and finder |
| Orchestrator.App.constructor | src/confluence_secret_finder/main.py:19-25 | the app consults the wiki through the repository and texts through the plugin-major secret finder |
| Orchestrator.App.Exit | src/confluence_secret_finder/main.py:36-37 | every table the cache had opened is closed, and only the closed handles change |
| Orchestrator.App.GetSecretsFromVersions | src/confluence_secret_finder/main.py:39-50 | the loop's findings and extractions are `ScanVersions` of the item's versions above the watermark |
| Orchestrator.App.ProcessItem | src/confluence_secret_finder/main.py:56-76 | the cache's new crawl state and the events of one item are `ItemStep` of the old state |
| Orchestrator.App.ProcessDay | src/confluence_secret_finder/main.py:56-78 | a day's items processed in order, then the cursor written, are `DayStep` |
| Orchestrator.App.CrawlDay | src/confluence_secret_finder/main.py:54-79 | one turn of the loop over days: after the day's events, the crawl from the next day produces the rest of the whole crawl |
| Orchestrator.App.FindSecretsFromDate | src/confluence_secret_finder/main.py:52-79 | the loop over days from `date` through `today` ends in `Crawl`'s state and trace; the findings are the trace's yields |
| Orchestrator.App.GetStartDate | src/confluence_secret_finder/main.py:85-91 | returns `StartDate` of the explicit date, the cached cursor and the oldest date; the crawl state is unchanged |
| Orchestrator.App.FindSecrets | src/confluence_secret_finder/main.py:81-83 | the crawl from the start date to `today`, state and findings |
| IncrementalCrawl.Findings | src/confluence_secret_finder/main.py:74-76 | the findings of a trace are exactly its yielded ones |
| IncrementalCrawl.VersionSecrets | src/confluence_secret_finder/main.py:44-47 | the secrets of a version are exactly what the finder returns for its text, each once |
| IncrementalCrawl.ScanVersionsExtracts | src/confluence_secret_finder/main.py:40-44 | exactly the versions above the watermark are extracted: none at or below it, each one above it |
| IncrementalCrawl.ScanVersionsFindings | src/confluence_secret_finder/main.py:44-50 | every finding is for a version above the watermark, with the secrets of its text, one of them non-empty |
| IncrementalCrawl.Without | src/confluence_secret_finder/main.py:69 | a finding keeps exactly its secrets that are not known, without duplicates if it had none |
| IncrementalCrawl.FilterFindings | src/confluence_secret_finder/main.py:68-70 | one filtered finding per finding |
| IncrementalCrawl.FilterFindingsKnown | src/confluence_secret_finder/main.py:70 | the new history is the old one followed by every kept secret, in order |
| IncrementalCrawl.FilterFindingsKept | confluence_secret_finder/main.py:59-61 | each filtered finding is its finding with only secrets that were in it and were not known |
| IncrementalCrawl.FilterFindingsKeeps | src/confluence_secret_finder/main.py:68-70 | every known secret stays known |
| IncrementalCrawl.FilterFindingsGrows | src/confluence_secret_finder/main.py:70 | the history is append-only: the old secrets are a prefix of the new ones |
| IncrementalCrawl.FilterFindingsCovers | src/confluence_secret_finder/main.py:68-70 | every secret of every finding ends up in the history |
| IncrementalCrawl.FilterFindingsDisjoint | src/confluence_secret_finder/main.py:68-70 | a later filtered finding shares no secret with an earlier one |
| IncrementalCrawl.FilterFindingsNoDup | src/confluence_secret_finder/main.py:68-70 | a duplicate-free history stays duplicate-free |
| IncrementalCrawl.YieldEvents | src/confluence_secret_finder/main.py:74-76 | exactly the findings with a non-empty secret are yielded |
| IncrementalCrawl.ItemScanSpec | src/confluence_secret_finder/main.py:57-66 | an unchanged item is not scanned; otherwise only its versions above the stored version (0 on first sight) are, and findings are about the item |
| IncrementalCrawl.ItemStepExtracts | confluence_secret_finder/main.py:49-56 | an item's extractions are of its versions above the watermark; none for an unchanged item |
| IncrementalCrawl.ItemStepUnchanged | src/confluence_secret_finder/main.py:58-62 | an unchanged item: nothing scanned or yielded, and the same history written back |
| IncrementalCrawl.ItemStepHistory | src/confluence_secret_finder/main.py:72-73 | the item's watermark becomes its latest version, its secrets grow by appending, and no other history or the cursor changes |
| IncrementalCrawl.ItemStepTrace | src/confluence_secret_finder/main.py:62-76 | an item's events are its extractions, its history write, then its yields |
| IncrementalCrawl.ItemStepOrder | src/confluence_secret_finder/main.py:72-76 | the history is written before any of the item's findings is yielded |
| IncrementalCrawl.ItemYieldsSpec | confluence_secret_finder/main.py:59-67 | each yield is a finding about the item with a non-empty secret, none of them already in its history |
| IncrementalCrawl.ItemStepYields | src/confluence_secret_finder/main.py:68-76 | the same, for the yields in the item's whole trace |
| IncrementalCrawl.YieldEventsDisjoint | src/confluence_secret_finder/main.py:74-76 | yielding keeps filtered findings pairwise disjoint |
| IncrementalCrawl.ItemYieldsDisjoint | src/confluence_secret_finder/main.py:68-76 | an item's yields share no secret pairwise |
| IncrementalCrawl.ItemYieldsRecorded | src/confluence_secret_finder/main.py:68-73 | every yielded secret is in the history written for the item |
| IncrementalCrawl.ItemStepNoDup | src/confluence_secret_finder/main.py:68-73 | a duplicate-free history stays duplicate-free |
| IncrementalCrawl.ItemStepIdempotent | src/confluence_secret_finder/main.py:58-73 | processing an item again right away scans and yields nothing and rewrites the same history |
| CrawlProperties.ReportedOnceAppend | src/confluence_secret_finder/main.py:74-76 | two traces each reporting a secret once per item, with no repeat across them, report it once together |
| CrawlProperties.ItemStepReportedOnce | src/confluence_secret_finder/main.py:68-76 | one item's trace reports no secret twice |
| CrawlProperties.ItemReports | src/confluence_secret_finder/main.py:74-76 | every yield of an item's trace is one of its filtered findings |
| CrawlProperties.ItemStepSound | src/confluence_secret_finder/main.py:56-76 | processing an item preserves the crawl invariant: histories grow, reports recorded, once, new and non-empty |
| CrawlProperties.RecordedStep | src/confluence_secret_finder/main.py:70-73 | reports recorded before stay recorded after histories grow |
| CrawlProperties.CursorWriteSound | src/confluence_secret_finder/main.py:78 | writing the cursor preserves the crawl invariant |
| CrawlProperties.ItemsStepSound | src/confluence_secret_finder/main.py:56-76 | a day's items preserve the crawl invariant |
| CrawlProperties.CrawlSound | src/confluence_secret_finder/main.py:54-79 | every day from `date` through `today` preserves the crawl invariant |
| CrawlProperties.CrawlGuarantees | src/confluence_secret_finder/main.py:52-79 | a whole crawl: no secret reported twice per item, none already recorded, every report non-empty and recorded, histories only grow |
| CrawlProperties.Days | src/confluence_secret_finder/main.py:53-54 | the consecutive dates from `a` through `b` inclusive |
| CrawlProperties.CursorWritesAppend | src/confluence_secret_finder/main.py:78 | the cursor writes of two traces run one after the other |
| CrawlProperties.ItemStepNoCursor | src/confluence_secret_finder/main.py:56-76 | processing an item writes no cursor |
| CrawlProperties.NoCursorWrites | src/confluence_secret_finder/main.py:78 | a trace without cursor events has no cursor writes |
| CrawlProperties.ItemsStepNoCursor | src/confluence_secret_finder/main.py:56-76 | a day's items write no cursor and leave it as it was |
| CrawlProperties.CrawlCursor | src/confluence_secret_finder/main.py:53-54 | the cursor is written once for each date from `date` through `today`, in order, and ends at `today` (unchanged when `date > today`) |
| CrawlProperties.DayStepCursorLast | confluence_secret_finder/main.py:69-70 | a day's trace ends with its one cursor write, after all its items |
| KeyValueCache.Lookup | confluence_secret_finder/cache.py:21-25 | a value exactly when the table holds the key; None otherwise |
| KeyValueCache.Put | confluence_secret_finder/cache.py:39-41 | writing creates the table if needed and no other table |
| KeyValueCache.GetAfterSet | confluence_secret_finder/cache.py:21-41 | after setting a key, reading it gives the value back |
| KeyValueCache.SetIsolated | confluence_secret_finder/cache.py:39-46 | setting one table and key leaves every other table and key as it was |
| KeyValueCache.TablesDistinct | confluence_secret_finder/cache.py:9-11 | crawl histories and the last crawl date are in different tables |
| KeyValueCache.PutHistory | confluence_secret_finder/cache.py:30-31 | writing a history records it for its content id and leaves the cursor and the other histories alone |
| KeyValueCache.PutCursor | confluence_secret_finder/cache.py:36-37 | writing the last crawl date sets the cursor and leaves every history alone |
| KeyValueCache.Cache.constructor | confluence_secret_finder/cache.py:13-15 | a cache over its file's contents with no table open |
| KeyValueCache.Cache.Close | confluence_secret_finder/cache.py:17-19 | every table opened so far is closed |
| KeyValueCache.Cache.GetDict | confluence_secret_finder/cache.py:43-46 | a table's handle is created on first use only and reused after |
| KeyValueCache.Cache.Get | confluence_secret_finder/cache.py:21-25 | the stored value, or None for an absent key; the table is opened |
| KeyValueCache.Cache.Set | confluence_secret_finder/cache.py:39-41 | the file's contents become `Put` of the old ones |
| KeyValueCache.Cache.GetCrawlHistory | confluence_secret_finder/cache.py:27-28 | the stored history of the content id, or None |
| KeyValueCache.Cache.SetCrawlHistory | confluence_secret_finder/cache.py:30-31 | the crawl state gets the history for the content id; the other tables are untouched |
| KeyValueCache.Cache.GetLastCrawlDate | confluence_secret_finder/cache.py:33-34 | the stored cursor, or None |
| KeyValueCache.Cache.SetLastCrawlDate | confluence_secret_finder/cache.py:36-37 | the crawl state gets the cursor; the other tables are untouched |
| SecretFilter.Collect | src/confluence_secret_finder/core/secrets/secret_finder.py:17-20 | the loop keeps, in order and once each, the candidates that pass the filter; the set is the kept list |
| LineMajorFinder.RunPlugin | confluence_secret_finder/secrets/secret_finder.py:16 | the plugin's candidates for a line; for the detect-secrets plugin, those of the code as written (`CandidatesAsWritten`) |
| LineMajorFinder.CollectLine | confluence_secret_finder/secrets/secret_finder.py:15-19 | after a line, the kept secrets are the filtered, duplicate-free candidates seen so far, this line's plugins in order |
| LineMajorFinder.LineCandidatesOrder | confluence_secret_finder/secrets/secret_finder.py:9-16 | within a line, the password pattern plugin's candidates come before the detect-secrets plugin's as-written ones |
| LineMajorFinder.LineCandidatesWhenStable | confluence_secret_finder/secrets/secret_finder.py:9-16 | for a line whose synonym rewrite is stable, the line's candidates are the same as with the rewrite-once plugin |
| LineMajorFinder.SecretFinder.constructor | confluence_secret_finder/secrets/secret_finder.py:6-10 | the blacklist is "password", "%password%", then the file's entries, compiled |
| LineMajorFinder.SecretFinder.Secrets | confluence_secret_finder/secrets/secret_finder.py:12-19 | each secret once, exactly the candidates of the stripped lines (the detect-secrets plugin's as written) that are long enough and not blacklisted |
| LineMajorFinder.SecretFinder.FindSecrets | confluence_secret_finder/secrets/secret_finder.py:12-19 | the loops over lines, plugins and candidates compute `Secrets` |
| LineMajorFinder.SecretsSound | confluence_secret_finder/secrets/secret_finder.py:14-17 | every secret has length at least 6, comes from a stripped line, and matches no blacklist pattern |
| LineMajorFinder.NeverPassword | confluence_secret_finder/secrets/secret_finder.py:6-17 | no secret matches "password" or "%password%" as a whole, ignoring case |
| LineMajorFinder.EarlierLinesFirst | confluence_secret_finder/secrets/secret_finder.py:14-19 | the secrets of the first `n` lines come first, in the same order |
| PluginMajorFinder.StreamOrder | src/confluence_secret_finder/core/secrets/secret_finder.py:10-17 | all the password pattern plugin's candidates, then all the detect-secrets plugin's |
| PluginMajorFinder.SecretFinder.constructor | src/confluence_secret_finder/core/secrets/secret_finder.py:7-11 | the blacklist is "password", "%password%", then the file's entries, compiled |
| PluginMajorFinder.SecretFinder.Secrets | src/confluence_secret_finder/core/secrets/secret_finder.py:13-20 | each secret once, exactly the plugins' candidates over the stripped lines that are long enough and not blacklisted |
| PluginMajorFinder.SecretFinder.FindSecrets | src/confluence_secret_finder/core/secrets/secret_finder.py:13-20 | the loops over plugins and candidates compute `Secrets` |
| PluginMajorFinder.FirstDetectorFirst | src/confluence_secret_finder/core/secrets/secret_finder.py:16-20 | the password pattern plugin's accepted secrets come first, so it wins a secret both report |
| PluginMajorFinder.SecretsInStreamOrder | src/confluence_secret_finder/core/secrets/secret_finder.py:13-20 | secrets come in the order of their first occurrence among the candidates |
| Common.StrippedLines | src/confluence_secret_finder/core/secrets/secret_finder.py:15 | the content's lines, each stripped of surrounding white space |
| Common.Distinct | src/confluence_secret_finder/core/secrets/secret_finder.py:14-20 | each element once, exactly those that pass the filter |
| Common.DistinctOrder | src/confluence_secret_finder/core/secrets/secret_finder.py:16-20 | kept elements keep the order of their first occurrence |
| Common.DistinctPrefix | confluence_secret_finder/secrets/secret_finder.py:14-19 | what is kept from a prefix is a prefix of what is kept from the whole |
| Common.SplitLines | src/confluence_secret_finder/core/secrets/secret_finder.py:15 | no lines exactly for the empty text |
| Common.SplitLinesJoin | src/confluence_secret_finder/core/secrets/secret_finder.py:15 | for newline-separated text, splitting into lines and joining them back gives the text |
| Common.SplitLinesNoBreaks | src/confluence_secret_finder/core/secrets/secret_finder.py:15 | no line holds a line break |
| Common.Strip | src/confluence_secret_finder/core/secrets/blacklist.py:10 | the stripped text neither starts nor ends with white space |
| Common.StripSlice | src/confluence_secret_finder/core/secrets/blacklist.py:10 | the stripped text is a slice of the text with only white space cut on each side |
| Common.Lower | confluence_secret_finder/secrets/plugins/yelp_detect_secrets_plugin.py:29 | the same length, each character lower-cased |
| Common.Find | confluence_secret_finder/secrets/plugins/yelp_detect_secrets_plugin.py:29 | the first index where the needle occurs, or -1 when it occurs nowhere |
| Common.PySlice | confluence_secret_finder/secrets/plugins/yelp_detect_secrets_plugin.py:30 | a Python slice: the plain slice for in-range bounds, and never longer than the text |
| Common.LowerSlice | confluence_secret_finder/secrets/plugins/yelp_detect_secrets_plugin.py:29-30 | lower-casing a slice is slicing the lower-cased text |
| Blacklists.Anchored | src/confluence_secret_finder/core/secrets/blacklist.py:13 | the pattern `^s$`, case-insensitive |
| Blacklists.Compile | src/confluence_secret_finder/core/secrets/blacklist.py:13 | one anchored, case-insensitive pattern per source, in order |
| Blacklists.FileEntries | src/confluence_secret_finder/core/secrets/blacklist.py:10-11 | no entry is empty, and there are no more entries than lines |
| Blacklists.FileEntriesMembers | src/confluence_secret_finder/core/secrets/blacklist.py:10-11 | the entries are exactly the non-empty stripped lines |
| Blacklists.Sources | src/confluence_secret_finder/core/secrets/blacklist.py:7-11 | the predefined entries first, in order; a missing file adds nothing, a file adds its entries |
| Blacklists.ExtendWithFile | src/confluence_secret_finder/core/secrets/blacklist.py:9-11 | the loop appends the file's entries in order |
| Blacklists.Blacklist.constructor | src/confluence_secret_finder/core/secrets/blacklist.py:6-13 | the patterns are the compiled sources |
| Blacklists.BlacklistMatches | src/confluence_secret_finder/core/secrets/blacklist.py:15-16 | a value matches exactly when some source, anchored and case-insensitive, matches it |
| PasswordPattern.BuiltinPatterns | confluence_secret_finder/secrets/plugins/password_pattern_plugin.py:7-16 | the 25 built-in entries, anchored and case-insensitive, among them `RFC[0-9]{3}` and `\d{2,4}x\d{2,4}` |
| PasswordPattern.WordPart | confluence_secret_finder/secrets/plugins/password_pattern_plugin.py:15 | a token without its optional final `!` |
| PasswordPattern.ValidTokenNoSpace | confluence_secret_finder/secrets/plugins/password_pattern_plugin.py:15 | a token holds no white space |
| PasswordPattern.RunEnd | confluence_secret_finder/secrets/plugins/password_pattern_plugin.py:15 | the end of the run of word characters: all before it are word characters, the one at it is not |
| PasswordPattern.RunEndMaximal | confluence_secret_finder/secrets/plugins/password_pattern_plugin.py:15 | no run of word characters from the same start goes further |
| PasswordPattern.GroupEnd | confluence_secret_finder/secrets/plugins/password_pattern_plugin.py:15 | a group found at a position ends at a white space or the end of the line |
| PasswordPattern.GroupEndSound | confluence_secret_finder/secrets/plugins/password_pattern_plugin.py:15 | what a found group spans is a token: word characters with a letter next to a digit, optionally one final `!` |
| PasswordPattern.GroupEndComplete | confluence_secret_finder/secrets/plugins/password_pattern_plugin.py:15 | every token that ends at a white space or the end of the line is found |
| PasswordPattern.TryAt | confluence_secret_finder/secrets/plugins/password_pattern_plugin.py:15 | a match at a position starts there or after one white space, and its group is a token delimited on both sides |
| PasswordPattern.Scan | confluence_secret_finder/secrets/plugins/password_pattern_plugin.py:15-19 | the matches are delimited, go left to right, do not overlap, and the trailing white space of one is not the leading one of the next |
| PasswordPattern.Tokens | confluence_secret_finder/secrets/plugins/password_pattern_plugin.py:19 | `findall`'s groups: the text of each match, in order |
| PasswordPattern.Candidates | confluence_secret_finder/secrets/plugins/password_pattern_plugin.py:18-21 | exactly the tokens that match no built-in blacklist entry |
| PasswordPattern.CandidatesSound | confluence_secret_finder/secrets/plugins/password_pattern_plugin.py:15-21 | every candidate is a delimited token, with a letter next to a digit, no white space, and not blacklisted |
| PasswordPattern.RfcNumberNeverReported | confluence_secret_finder/secrets/plugins/password_pattern_plugin.py:8-20 | "RFC123" is never a candidate |
| PasswordPattern.ResolutionNeverReported | confluence_secret_finder/secrets/plugins/password_pattern_plugin.py:11-20 | "1920x1080" is never a candidate |
| PasswordPattern.OneSpaceHidesNextToken | confluence_secret_finder/secrets/plugins/password_pattern_plugin.py:15-19 | in "a1 b2" only "a1" is found: the one space is consumed by the first match |
| PasswordPattern.TwoSpacesShowBothTokens | confluence_secret_finder/secrets/plugins/password_pattern_plugin.py:15-19 | in "a1  b2" both tokens are found |
| DetectSecretsPlugin.FirstSynonym | confluence_secret_finder/secrets/plugins/yelp_detect_secrets_plugin.py:8-11 | the first alternative that occurs at a position, ignoring case, or none occurs there |
| DetectSecretsPlugin.RewriteUnchanged | confluence_secret_finder/secrets/plugins/yelp_detect_secrets_plugin.py:25 | a line without synonyms is not changed |
| DetectSecretsPlugin.RewriteSynonyms | confluence_secret_finder/secrets/plugins/yelp_detect_secrets_plugin.py:8-25 | "pwd" and "MdP" become "password" |
| DetectSecretsPlugin.Recover | confluence_secret_finder/secrets/plugins/yelp_detect_secrets_plugin.py:29-30 | a value found ignoring case comes back as the line's text at its first occurrence: same length, equal ignoring case; a value not found gives Python's slice from index -1: the line's last character when the value is longer than the line, else empty |
| DetectSecretsPlugin.PySliceFromLast | confluence_secret_finder/secrets/plugins/yelp_detect_secrets_plugin.py:30 | when the value is not found, the slice from index -1 is the line's last character or empty |
| DetectSecretsPlugin.RecoverWhole | confluence_secret_finder/secrets/plugins/yelp_detect_secrets_plugin.py:29-30 | the whole line recovers as itself |
| DetectSecretsPlugin.Recovered | confluence_secret_finder/secrets/plugins/yelp_detect_secrets_plugin.py:27-31 | one recovered value per library value, in order |
| DetectSecretsPlugin.RuleValues | confluence_secret_finder/secrets/plugins/yelp_detect_secrets_plugin.py:24-27 | as many values as the rules report results for the line |
| DetectSecretsPlugin.RecoveredMembers | confluence_secret_finder/secrets/plugins/yelp_detect_secrets_plugin.py:27-31 | a rule's recovered report holds exactly the recovered forms of its values |
| DetectSecretsPlugin.RuleValuesAppend | confluence_secret_finder/secrets/plugins/yelp_detect_secrets_plugin.py:24-27 | the values of two runs of rules on one line follow each other |
| DetectSecretsPlugin.RuleValuesPerRule | confluence_secret_finder/secrets/plugins/yelp_detect_secrets_plugin.py:24-31 | rule by rule: the `i`-th rule's recovered report sits between the values of the rules before and after it |
| DetectSecretsPlugin.RuleValuesMembers | confluence_secret_finder/secrets/plugins/yelp_detect_secrets_plugin.py:24-31 | a value is among the rules' values exactly when some rule reports it, recovered |
| DetectSecretsPlugin.Candidates | confluence_secret_finder/secrets/plugins/yelp_detect_secrets_plugin.py:23-31 | the corrected plugin (rewrite once): as many values as the rules report for the rewritten line |
| DetectSecretsPlugin.CandidatesMembers | confluence_secret_finder/secrets/plugins/yelp_detect_secrets_plugin.py:23-31 | the corrected plugin: a candidate is exactly a value some rule reports for the line rewritten once, recovered |
| DetectSecretsPlugin.IterateLast | confluence_secret_finder/secrets/plugins/yelp_detect_secrets_plugin.py:24-25 | rewriting `n + 1` times is rewriting `n` times and then once more |
| DetectSecretsPlugin.CandidatesAsWrittenAppend | confluence_secret_finder/secrets/plugins/yelp_detect_secrets_plugin.py:24-31 | as written, the rules after a run of `k` rules see the line rewritten `k` more times |
| DetectSecretsPlugin.CandidatesAsWrittenPerRule | confluence_secret_finder/secrets/plugins/yelp_detect_secrets_plugin.py:24-31 | as written, the `i`-th rule (from 0) analyses the line rewritten `i + 1` times, and its recovered report sits between the values of the rules before and after it |
| DetectSecretsPlugin.CandidatesAsWrittenMembers | confluence_secret_finder/secrets/plugins/yelp_detect_secrets_plugin.py:24-31 | as written, a candidate is exactly a value the `i`-th rule reports for the line rewritten `i + 1` times, recovered against that line |
| DetectSecretsPlugin.AsWrittenAgreesWhenStable | confluence_secret_finder/secrets/plugins/yelp_detect_secrets_plugin.py:24-25 | when rewriting twice changes nothing more, the repeated rewrite gives the same values |
| DetectSecretsPlugin.RewriteMdmdp | confluence_secret_finder/secrets/plugins/yelp_detect_secrets_plugin.py:25 | "mdmdp" is rewritten to "mdpassword" |
| DetectSecretsPlugin.RewriteMdpassword | confluence_secret_finder/secrets/plugins/yelp_detect_secrets_plugin.py:25 | "mdpassword" is rewritten to "passwordassword" |
| DetectSecretsPlugin.RecoveredWholeLine | confluence_secret_finder/secrets/plugins/yelp_detect_secrets_plugin.py:27-30 | a rule that reports the whole line yields the line |
| DetectSecretsPlugin.SecondRuleSeesSecondRewrite | confluence_secret_finder/secrets/plugins/yelp_detect_secrets_plugin.py:24-25 | with two whole-line rules on "mdmdp", the code as written yields "mdpassword" then "passwordassword"; rewriting once yields "mdpassword" twice |
| DetectSecretsPlugin.RecoverAll | confluence_secret_finder/secrets/plugins/yelp_detect_secrets_plugin.py:27-31 | the loop over library values computes `Recovered` |
| DetectSecretsPlugin.FindSecrets | confluence_secret_finder/secrets/plugins/yelp_detect_secrets_plugin.py:23-31 | the loop over rules, rewriting the line again before each rule, computes `CandidatesAsWritten` |
| Repository.NewConfig | confluence_secret_finder/confluence/confluence_repository.py:15-18 | the attachment limit is the megabytes times 1048576 bytes; the wiki address is built from the domain |
| Repository.LastSegment | confluence_secret_finder/confluence/confluence_repository.py:39 | the part of the text after its last "/", the whole text when it has none |
| Repository.ExtractTitle | confluence_secret_finder/confluence/confluence_repository.py:76-85 | the unescaped top-level title, else the unescaped content title, else the parent container's title, else "" |
| Repository.ExtractMimeType | confluence_secret_finder/confluence/confluence_repository.py:88-94 | the media type, replaced by the type guessed from the title only for "application/octet-stream" with a guess |
| Repository.ConvertResult | confluence_secret_finder/confluence/confluence_repository.py:34-52 | a result is kept iff it has content and container and, for an attachment, a scannable media type; the item's fields are the result's |
| Repository.ContentForDate | confluence_secret_finder/confluence/confluence_repository.py:33-52 | no more items than results |
| Repository.ContentForDateMembers | confluence_secret_finder/confluence/confluence_repository.py:33-52 | an item is produced exactly when some result converts to it |
| Repository.ContentForDateConcat | confluence_secret_finder/confluence/confluence_repository.py:33-52 | items come in the order of the results |
| Repository.Author | confluence_secret_finder/confluence/confluence_repository.py:56-58 | the e-mail when it is non-empty, else the display name |
| Repository.ConvertVersion | confluence_secret_finder/confluence/confluence_repository.py:56-73 | an attachment version is kept iff it has a download link and its size is at most the limit; a page version always, with its body |
| Repository.Versions | confluence_secret_finder/confluence/confluence_repository.py:54-73 | exactly the entries that convert, no more versions than entries |
| Repository.VersionsReversed | confluence_secret_finder/confluence/confluence_repository.py:55 | versions come out in the reverse of the listed order |
| Client.Get | src/confluence_secret_finder/core/confluence/confluence_client.py:45-70 | the retry loop over physical responses computes `Retry` |
| Client.AfterAfter | src/confluence_secret_finder/core/confluence/confluence_client.py:47-70 | two runs of requests in a row add up their requests and sleeps |
| Client.Statuses | src/confluence_secret_finder/core/confluence/confluence_client.py:49-55 | only status responses, no more of them than responses |
| Client.RetryIgnoresTransport | src/confluence_secret_finder/core/confluence/confluence_client.py:54-55 | transport errors consume no retry and no sleep: the outcome and sleeps are those of the statuses alone |
| Client.RetryGivesUp | src/confluence_secret_finder/core/confluence/confluence_client.py:57-59 | after the remaining budget of failed statuses the client gives up with None, having slept the back-off |
| Client.RetrySucceeds | src/confluence_secret_finder/core/confluence/confluence_client.py:52-53 | the first 200 within the budget returns its body at once |
| Client.LinearBackoff | src/confluence_secret_finder/core/confluence/confluence_client.py:61-66 | without 429s the sleeps are 5 times the retry count, growing by 5 |
| Client.AlwaysServerError | src/confluence_secret_finder/core/confluence/confluence_client.py:10-70 | always 500: five requests, sleeps of 5, 10, 15 and 20 seconds, then None |
| Client.DefaultsFillAbsent | src/confluence_secret_finder/core/confluence/confluence_client.py:20-25 | `limit` 25 and `start` 0 only when absent, a list `expand` joined by ",", other keys untouched, idempotent |
| Client.Params.constructor | src/confluence_secret_finder/core/confluence/confluence_client.py:18 | the caller's parameters |
| Client.Params.SetDefaults | src/confluence_secret_finder/core/confluence/confluence_client.py:20-25 | the caller's parameters get the defaults in place |
| Client.FollowLinksResults | src/confluence_secret_finder/core/confluence/confluence_client.py:27-37 | the results are the pages' results in order; at most one request got no page |
| Client.FollowLinksChain | src/confluence_secret_finder/core/confluence/confluence_client.py:27-37 | the first request is the caller's; each next one is `base + next` of the page before, without parameters; a settled run ends at a page without `next` |
| Client.ThreePages | src/confluence_secret_finder/core/confluence/confluence_client.py:27-37 | three linked pages of 2, 2 and 1 results give the five results in order, after three requests, stopping by itself |
| Client.PaginatedGet | src/confluence_secret_finder/core/confluence/confluence_client.py:18-37 | fills the caller's defaults in place and returns `FollowLinks`'s results and requests |
| Client.FollowOffsetsRequests | confluence_secret_finder/confluence/confluence_client.py:27-36 | the `k`-th request is the first one with `start` moved on by `k` times `limit` |
| Client.FollowOffsetsPages | confluence_secret_finder/confluence/confluence_client.py:27-36 | the results are the pages' results in order; every page but the last had `next` |
| Client.AdvancedAgain | confluence_secret_finder/confluence/confluence_client.py:33-34 | moving on once more adds `limit` to `start` |
| Client.FollowOffsetsHead | confluence_secret_finder/confluence/confluence_client.py:27-36 | a failed first fetch stops the pagination; a page without `next` ends it; a page with `next` continues at the next offset |
| Client.PaginatedGetByOffset | confluence_secret_finder/confluence/confluence_client.py:18-36 | returns `FollowOffsets`'s results and requests; the caller's `start` is left moved on by `limit` once per `next` followed |

The table's methods and lemmas are stated against reference definitions that carry
no contract of their own, and so have no row:
- `IncrementalCrawl.ScanVersions` (src/confluence_secret_finder/main.py:39-50);
- `IncrementalCrawl.ItemStep` (main.py:56-76);
- `IncrementalCrawl.ItemsStep` (the loop over a day's items, main.py:56-77);
- `IncrementalCrawl.DayStep` (main.py:56-78);
- `IncrementalCrawl.Crawl` (main.py:52-79);
- `Client.Retry` (src/confluence_secret_finder/core/confluence/confluence_client.py:45-70);
- `Client.WithDefaults` (confluence_client.py:20-25);
- `Client.FollowLinks` (confluence_client.py:27-37);
- `Client.FollowOffsets` (confluence_secret_finder/confluence/confluence_client.py:27-36).

## Left out

- The network, `time.sleep`, logging and the clock. Each logical request is answered by a given sequence of physical responses. The sleeps are returned instead of taken. `today` is a parameter.
- Client.Get: an endless run of transport errors makes the code retry forever. The model ends such a run with `Pending` when the given responses run out.
- The client's `if not r` also stops pagination on an empty JSON object. Pages are modelled as records that always have results and links, so that case is not represented.
- `main()` in both generations (argument parsing, logging set-up, printing or JSON output) and `__enter__` (choosing the cache path).
- `get_oldest_content_creation_date`, which parses the date of the first search result, is the parameter `oldest`.
- `src/confluence_secret_finder/core/text_extractor.py` (textract, HTML parsing, temporary files) is the function `extract`. Its file-extension choice is not part of this model.
- `src/confluence_secret_finder/core/util/__init__.py` (MIME guessing, JSON output): MIME guessing and HTML unescaping are the functions in `Repository.Helpers`.
- The version content accessors: a version's text source is bound to the version as a value (`VersionSource`). The Python lambdas capture loop variables by reference. They are harmless only because each version is extracted before the generator advances, and the model does not represent that laziness.
- Generators are modelled as eager lists. Interleaving between yields and later work is not modelled, except through the event trace's order.
- Python sets: a set of secrets is a duplicate-free sequence in first-insertion order. Python's iteration order is unspecified, so a finding's secret order is one possible order.
- The regular-expression engine is the uninterpreted parameter `engine`. So is whether a blacklist pattern matches, and `re.match` is taken as deciding the anchored pattern. The detect-secrets library is the list of `Rule` functions, one per library plugin, each giving the values it reports for a line. The plugin's constructor that configures the library is not part of this model.
- PasswordPattern.Scan: Python's `\w` is Unicode-aware. The scanner takes only ASCII letters, digits and `_` as word characters. Its white space is Python's full `isspace` set, as `\s` is. `$` also matches before a final newline in Python. Lines are already split and stripped when they reach the plugin, so they never end with one.
- DetectSecretsPlugin.Recover: lower-casing is ASCII only. Python's `lower()` also folds non-ASCII letters, and some of them change length.
- DetectSecretsPlugin.Rewrite: the synonym pattern folds ASCII case only. Python's `re.I` also folds some non-ASCII letters (U+017F matches `s`), so Python rewrites "mot de paſſe" and the model does not. DetectSecretsPlugin.FirstSynonym has the same gap.
- Blacklists.Compile: always succeeds. Python's `re.compile` raises `re.error` on a blacklist line that is not a valid pattern, which aborts the blacklist's construction; Blacklists.Blacklist.constructor has the same gap. Patterns are uninterpreted here, so their validity is not modelled.
- Client.Get: every `200` response carries a decoded body. In the code the JSON decoding runs inside the `try`, so a `200` whose body does not decode either retries without using up a retry (when the decode error is a `RequestException`) or propagates the error.
- The older password pattern plugin imports `confluence_secret_finder/secrets/plugins/blacklist.py`, which is not part of this model. Its blacklist is modelled with the newer `blacklist.py` semantics: anchored, case-insensitive patterns.
- LineMajorFinder.SecretFinder.constructor: the older finder also builds its blacklist from that missing `blacklist.py` (`confluence_secret_finder/secrets/secret_finder.py:2,10`). It is modelled with the newer semantics too: "password", "%password%" and the file's non-empty stripped lines, each an anchored, case-insensitive pattern. LineMajorFinder.SecretsSound and LineMajorFinder.NeverPassword rest on that reading.
- The newer plugin files under `src/confluence_secret_finder/core/secrets/plugins/` are not part of this model. The newer finder hands each plugin the list of stripped lines. The model takes each detector as a function from that list to candidates (`PluginMajorFinder`); it takes the older plugins' line-by-line behaviour for the older finder.
- The newer `Cache` takes a domain as well as a path, and its file is not part of this model. The older `cache.py` is modelled for both generations. SqliteDict's durability and autocommit are an in-memory map of tables.
- The app consults its secret finder through the finder's `Secrets` function rather than its `FindSecrets` method. The method is proved to return `Secrets`.
- Python truthiness: a stored history object and a stored date are always truthy, so `if crawl_history:` and `if cached_date:` become presence tests.

## Findings

| source | as written | input that shows it | evidently intended | confidence | as-written member | corrected member |
|---|---|---|---|---|---|---|
| confluence_secret_finder/secrets/plugins/yelp_detect_secrets_plugin.py:24-25 | the synonym rewrite is applied inside the loop over library plugins, so the `k`-th plugin sees the line rewritten `k` times, and rewriting twice is not the same as once | the line "mdmdp" with two rules that report the whole line: the first sees "mdpassword", the second "passwordassword" | rewrite the line once, before the loop, so every plugin sees the same line | not executed | DetectSecretsPlugin.SecondRuleSeesSecondRewrite | DetectSecretsPlugin.Candidates |

The older finder is modelled on the code as written: its detect-secrets plugin is
`DetectSecretsPlugin.FindSecrets`, which computes `CandidatesAsWritten`.
`LineMajorFinder.LineCandidatesWhenStable` shows that it gives the corrected plugin's
candidates on every line whose rewrite is stable.
