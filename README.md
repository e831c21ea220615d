# Stock sentiment and volume pipeline: a Dafny model

This project models the computational core of a pipeline that scrapes stock
discussion from Reddit and Stocktwits, scores each message with a financial
sentiment classifier (FinBERT), and keeps per-symbol daily message-volume
statistics. It has five parts, one Dafny module (or two) each:

- **Volume** (`volume.dfy`, `volume_history.dfy`): the daily volume and
  velocity estimator.
  - Rows without a usable timestamp are dropped.
  - A symbol's messages are grouped by UTC date. Each day becomes a row with
    the count, the first and last instant, the window in minutes, a message
    rate with a small-sample noise floor, and the mean gap.
  - `save_or_append_daily` merges the table into the symbol's history file:
    it concatenates, keeps the last row per date and sorts by date. The
    directory of history files is a class whose map field the method
    updates.
- **Sentiment** (`sentiment.dfy`): the three functions that both sentiment
  analyzers share.
  - `infer_batch` is a loop over consecutive slices.
  - `to_row` covers the label map, the argmax, the confidence and the signed
    score.
  - `summarize` covers shares, means, totals and the one summary row per
    symbol.
  - The module also covers the Reddit `combined_text` column and the
    Stocktwits message column.
- **Stocktwits scraper** (`stocktwits_scraper.dfy`):
  - `normalize_time` reads an ISO time or a relative age such as `9m`;
  - the loop that numbers the scraped messages and fills their timestamp
    cells.
- **Reddit queries** (`reddit_queries.dfy`): `get_queries`, including the
  legal-suffix regular expression. It is modelled as the regex engine runs
  it: alternatives in order, greedy optional dot with backtracking, word
  boundary, case-insensitive, global replacement.
- **Reddit scraper** (`reddit_scraper.dfy`):
  - the post store `all_unique_posts` as a class, where the first sighting
    of an id wins and insertion order is kept;
  - the page-merge loop;
  - the per-query pagination loop with its page and post budget;
  - the loop over all queries;
  - building the CSV rows.

`wrappers.dfy` holds `Option`/`Result`. `text.dfy` holds ASCII character
classes, case mapping, `strip`, whitespace runs, and Python's string order
with `sorted(set(...))`.

Everything outside the program is a function parameter:
- the classifier;
- `pd.to_datetime` and `datetime.fromisoformat(...).isoformat()`;
- the ISO rendering of an instant;
- `str` of a timestamp;
- the Reddit search request;
- the company name from yfinance;
- the clock (`now`).

Times are whole seconds since the Unix epoch, in UTC. Probabilities and
derived statistics are `real` and are stated before rounding.

The two analyzers hold identical copies of `infer_batch`, `to_row` and
`summarize`:
- `Sentiment_Analysis/stockwits_sentiment_analyzer.py:36-42`, `:49-64` and
  `:76-104`;
- `Sentiment_Analysis/reddit_sentiment_analyzer.py:64-70`, `:81-96` and
  `:112-140`.

One model serves both. The table cites the Reddit copy.

## Model

| member | source | states |
|---|---|---|
| Volume.Timestamp | Volume/Volume_Sentiment_Analyzer.py:10-11 | an empty `timestamp_iso` cell is missing whatever the parser says; otherwise the parser decides |
| Volume.Day | Volume/Volume_Sentiment_Analyzer.py:19 | `.dt.date`: floor division of the instant by 86400 seconds; DayContains below states that this is the UTC day containing it |
| Volume.DayContains | Volume/Volume_Sentiment_Analyzer.py:19 | the date of an instant is the UTC day that contains it, also before 1970 |
| Volume.DropUntimedKeeps | Volume/Volume_Sentiment_Analyzer.py:10-12 | a (symbol, instant) survives the filter exactly when some input row with that symbol has a non-empty cell that parses to that instant |
| Volume.DropUntimed | Volume/Volume_Sentiment_Analyzer.py:12 | the filter never adds rows |
| Volume.DropUntimedCounts | Volume/Volume_Sentiment_Analyzer.py:10-12 | each (symbol, instant) occurs in the filtered rows exactly as often as input rows carry that symbol and a cell parsing to that instant: nothing is merged or duplicated |
| Volume.SymbolTimes | Volume/Volume_Sentiment_Analyzer.py:16 | the instants kept are exactly those of rows with the requested symbol |
| Volume.SymbolTimesCounts | Volume/Volume_Sentiment_Analyzer.py:16 | each instant occurs as often as the rows with the requested symbol carry it |
| Volume.SymbolTimesCountsRows | Volume/Volume_Sentiment_Analyzer.py:10-16 | the symbol's instants number exactly the input rows with that symbol and a usable timestamp |
| Volume.Days | Volume/Volume_Sentiment_Analyzer.py:19 | the dates are strictly ascending and are exactly the UTC dates of the instants |
| Volume.Group | Volume/Volume_Sentiment_Analyzer.py:52 | a day's group is exactly the instants on that date |
| Volume.GroupCounts | Volume/Volume_Sentiment_Analyzer.py:52 | a day's group holds each instant of that date as often as it occurs, and no other instant |
| Volume.Min | Volume/Volume_Sentiment_Analyzer.py:23 | `tmin` is an instant of the group and no later than any of them |
| Volume.Max | Volume/Volume_Sentiment_Analyzer.py:24 | `tmax` is an instant of the group and no earlier than any of them |
| Volume.WindowMinutes | Volume/Volume_Sentiment_Analyzer.py:27 | the window is non-negative and is the span in seconds divided by 60 |
| Volume.Velocity | Volume/Volume_Sentiment_Analyzer.py:30-41 | below 5 messages the rate is n/24; otherwise rate times max(window, 1) is 60n; always 0 < rate ≤ 60n |
| Volume.MeanGap | Volume/Volume_Sentiment_Analyzer.py:49 | the gap is non-negative, equals the span for one message, and times max(n−1, 1) gives the span |
| Volume.Summarize | Volume/Volume_Sentiment_Analyzer.py:21-50 | a day's row: messages = group size, tmin ≤ every instant ≤ tmax and both occur, window ≥ 0 is the span in minutes, the rate obeys the noise floor and the 60n bound, and the mean gap times max(n−1, 1) is the span; a single message has span and gap 0 |
| Volume.SummarizeDays | Volume/Volume_Sentiment_Analyzer.py:52-53 | one row per date, in date order, each carrying the symbol and its date |
| Volume.SummarizeDaysAt | Volume/Volume_Sentiment_Analyzer.py:52 | the i-th row is the summary of the i-th date's group |
| Volume.DailyVolumeTable | Volume/Volume_Sentiment_Analyzer.py:15-57 | every row carries the symbol; dates are strictly ascending |
| Volume.DailyDatesAreMessageDates | Volume/Volume_Sentiment_Analyzer.py:16-19 | a date has a row exactly when some message of the symbol falls on it |
| Volume.DailyRowSummarizesItsDay | Volume/Volume_Sentiment_Analyzer.py:52-57 | each row is the summary of the non-empty group of its date |
| Volume.DailyMessagesTotal | Volume/Volume_Sentiment_Analyzer.py:44 | the `messages` column sums to the number of the symbol's timed messages |
| Volume.DailyMessagesCountRows | Volume/Volume_Sentiment_Analyzer.py:10-57 | read from the input rows, the `messages` column sums to the number of rows with the symbol and a usable timestamp, duplicates included |
| VolumeHistory.LatestFor | Volume/Volume_Sentiment_Analyzer.py:98 | the row found is in the history with that date; none is found exactly when no row has the date |
| VolumeHistory.LatestForAppend | Volume/Volume_Sentiment_Analyzer.py:97-98 | in a concatenation the later part's row for a date wins over the earlier part's |
| VolumeHistory.DropStale | Volume/Volume_Sentiment_Analyzer.py:98 | de-duplication keeps only rows of its input |
| VolumeHistory.DropStaleSpec | Volume/Volume_Sentiment_Analyzer.py:98 | `keep='last'`: the dates are distinct afterwards and each date keeps its last row |
| VolumeHistory.SortByDate | Volume/Volume_Sentiment_Analyzer.py:98 | sorting gives ascending dates, the same number of rows and the same rows |
| VolumeHistory.Merge | Volume/Volume_Sentiment_Analyzer.py:97-98 | concatenation, `drop_duplicates(keep='last')` and sort by date; what it promises is stated by MergeSpec, MergeRows, MergeIdempotent and MergeIntoEmpty below |
| VolumeHistory.MergeSpec | Volume/Volume_Sentiment_Analyzer.py:97-98 | the merged history is in ascending date order, and each date holds the new row if there is one, else the old one |
| VolumeHistory.AscendingDetermined | Volume/Volume_Sentiment_Analyzer.py:98 | two date-ascending histories with the same row per date are equal |
| VolumeHistory.MergeIdempotent | Volume/Volume_Sentiment_Analyzer.py:97-98 | merging the same new rows twice gives what merging once gave |
| VolumeHistory.MergeIntoEmpty | Volume/Volume_Sentiment_Analyzer.py:96-98 | merging an ascending table into an empty history gives the table |
| VolumeHistory.MergeRows | Volume/Volume_Sentiment_Analyzer.py:97-98 | a row is in the merge exactly when it is the newest row of its date |
| VolumeHistory.SavedRows | Volume/Volume_Sentiment_Analyzer.py:92-101 | a missing file gets the table as given; a readable file gets the merge; an unreadable file gets the merge into an empty history |
| VolumeHistory.SaveIdempotent | Volume/Volume_Sentiment_Analyzer.py:92-101 | saving the same table twice leaves the file as saving it once did |
| VolumeHistory.HistoryDirectory.SaveOrAppendDaily | Volume/Volume_Sentiment_Analyzer.py:81-102 | an empty table changes nothing and returns None; otherwise only the first symbol's file is rewritten, with the saved rows, and its name is returned |
| VolumeHistory.PresentSymbols | Volume/Volume_Sentiment_Analyzer.py:105 | the symbols listed are exactly those of the timed rows |
| VolumeHistory.PresentSymbolHasTable | Volume/Volume_Sentiment_Analyzer.py:109-112 | a present symbol's daily table is never empty, so the skip branch does not fire |
| VolumeHistory.WriteDailyVolumes | Volume/Volume_Sentiment_Analyzer.py:104-114 | after the run, each present symbol's file is as saving its table left it; every other file is unchanged |
| Text.SortedDistinct | Volume/Volume_Sentiment_Analyzer.py:105 | `sorted(set(xs))`: strictly ascending, with exactly the values of the input |
| Sentiment.Chunks | Sentiment_Analysis/reddit_sentiment_analyzer.py:67-69 | the slices concatenate back to the texts, each holds 1..b texts, and all but the last hold exactly b |
| Sentiment.ChunksCount | Sentiment_Analysis/reddit_sentiment_analyzer.py:67 | there are ⌈len(texts)/b⌉ slices |
| Sentiment.InferBatch | Sentiment_Analysis/reddit_sentiment_analyzer.py:64-70 | batch size 0 raises (None), a negative size gives []; a positive size gives the classifier's outputs on the consecutive slices, concatenated in order |
| Sentiment.ScoreChunksElementwise | Sentiment_Analysis/reddit_sentiment_analyzer.py:68 | for an element-wise classifier, the concatenated slice outputs are the classifier mapped over the flattened slices |
| Sentiment.BatchSizeInvariant | Sentiment_Analysis/reddit_sentiment_analyzer.py:64-70 | for an element-wise classifier, the result is the classifier mapped over the texts, whatever the positive batch size, so order and length are kept |
| Sentiment.MapScore | Sentiment_Analysis/reddit_sentiment_analyzer.py:68 | one output per text, in order |
| Sentiment.Put | Sentiment_Analysis/reddit_sentiment_analyzer.py:82 | a dict assignment: keys stay distinct, an existing key keeps its place, and a new key goes last |
| Sentiment.Lookup | Sentiment_Analysis/reddit_sentiment_analyzer.py:84 | a key has a value exactly when it is stored, and the value is the one stored with it |
| Sentiment.LookupPut | Sentiment_Analysis/reddit_sentiment_analyzer.py:82 | after assigning k, looking up k gives the new value and other keys are unchanged |
| Sentiment.BuildScoreMap | Sentiment_Analysis/reddit_sentiment_analyzer.py:82 | the label map has distinct keys |
| Sentiment.LastScore | Sentiment_Analysis/reddit_sentiment_analyzer.py:82 | a lower-cased label has a score exactly when some entry carries it |
| Sentiment.BuildScoreMapLookup | Sentiment_Analysis/reddit_sentiment_analyzer.py:82 | the map gives each lower-cased label the score of its last entry |
| Sentiment.BuildScoreMapOrder | Sentiment_Analysis/reddit_sentiment_analyzer.py:82 | the map's keys are in order of first appearance |
| Sentiment.ArgMax | Sentiment_Analysis/reddit_sentiment_analyzer.py:83 | `max(m, key=m.get)`: its score is ≥ every score, and every earlier key scores strictly less, so the first maximum wins |
| Sentiment.ToRow | Sentiment_Analysis/reddit_sentiment_analyzer.py:81-96 | empty scores fail with NoScores; the row exists exactly when all three labels are present; the probabilities are the labels' scores; signed = pos − neg, in [−1, 1] for probabilities in [0, 1]; the predicted label's score is the confidence, no label scores higher, and among equal scores the label seen first wins |
| Sentiment.ToRowChoice | Sentiment_Analysis/reddit_sentiment_analyzer.py:83-84 | the argmax key's score bounds every entry's score, and no entry with that score appears before the chosen label's first appearance |
| Sentiment.CountLabel | Sentiment_Analysis/reddit_sentiment_analyzer.py:115-117 | a label count never exceeds the group size |
| Sentiment.Mean | Sentiment_Analysis/reddit_sentiment_analyzer.py:119-125 | the mean times n is the sum (`IsMean`) |
| Sentiment.MeanBetween | Sentiment_Analysis/reddit_sentiment_analyzer.py:119-125 | the mean lies between any bounds of the values |
| Sentiment.Share | Sentiment_Analysis/reddit_sentiment_analyzer.py:115-117 | a share is count/n and lies in [0, 1] |
| Sentiment.Summarize | Sentiment_Analysis/reddit_sentiment_analyzer.py:112-138 | messages = n; each share is its label count over n and lies in [0, 1]; each probability column's mean and the confidence mean, times n, is that column's sum; total = Σ signed; mean = total / n |
| Sentiment.LabelCountsPartition | Sentiment_Analysis/reddit_sentiment_analyzer.py:115-117 | when every label is positive, negative or neutral, the three counts add up to n |
| Sentiment.SharesSumToOne | Sentiment_Analysis/reddit_sentiment_analyzer.py:115-117 | with known labels, the three shares sum to 1 |
| Sentiment.MeansWithinRange | Sentiment_Analysis/reddit_sentiment_analyzer.py:119-125 | the probability means and the confidence mean lie within any bounds of the group's values |
| Sentiment.PresentSymbols | Sentiment_Analysis/reddit_sentiment_analyzer.py:140 | exactly the symbols that occur |
| Sentiment.GroupKeys | Sentiment_Analysis/reddit_sentiment_analyzer.py:140 | `dropna=False` keys: exactly the symbol values that occur, the missing one included, each once |
| Sentiment.GroupOf | Sentiment_Analysis/reddit_sentiment_analyzer.py:140 | a group is non-empty exactly when its key occurs |
| Sentiment.SummarizeKeys | Sentiment_Analysis/reddit_sentiment_analyzer.py:140 | one summary per key, in key order, each the summary of its group |
| Sentiment.SummaryBySymbol | Sentiment_Analysis/reddit_sentiment_analyzer.py:140 | every record's symbol has a row, no symbol has two, and each row summarizes its group |
| Sentiment.CombinedText | Sentiment_Analysis/reddit_sentiment_analyzer.py:32-34 | the title (or ""), one space, then the text (or "") |
| Sentiment.MessageTextAsWritten | Sentiment_Analysis/stockwits_sentiment_analyzer.py:16 | a present message is kept as it is |
| Sentiment.MissingMessageBecomesNan | Sentiment_Analysis/stockwits_sentiment_analyzer.py:16 | as written, a missing message becomes the text "nan"; the intended text is "" |
| Sentiment.MessageText | Sentiment_Analysis/stockwits_sentiment_analyzer.py:16 | a missing message is "", a present one is kept |
| Sentiment.StocktwitsTexts | Sentiment_Analysis/stockwits_sentiment_analyzer.py:16 | one text per message, in order; a missing message gives "" |
| StocktwitsScraper.AgeSeconds | Scraping/scraping_stockwits.py:23 | s, m, h and d are 1, 60, 3600 and 86400 seconds per unit |
| StocktwitsScraper.ParseRelative | Scraping/scraping_stockwits.py:19-22 | the reader of the pattern `^\s*(\d+)\s*([smhd])\s*$` with `re.I`; ParseRelativeComplete and ParseRelativeSound below state that it accepts exactly the strings of that shape, reading their digits and lower-cased unit |
| StocktwitsScraper.ParseRelativeComplete | Scraping/scraping_stockwits.py:19-22 | every string of the shape `\s*\d+\s*[smhd]\s*` (any case) is read as its number and its lower-cased unit |
| StocktwitsScraper.ParseRelativeSound | Scraping/scraping_stockwits.py:19-22 | every string the reader accepts has that shape, and the result is its number and unit |
| StocktwitsScraper.ShowAgeParses | Scraping/scraping_stockwits.py:19-22 | a number written in decimal, followed by a unit letter, reads back as that age |
| StocktwitsScraper.ReplaceZ | Scraping/scraping_stockwits.py:15 | no 'Z' remains and a string without 'Z' is unchanged; one character maps 'Z' to "+00:00" and keeps any other |
| StocktwitsScraper.ReplaceZAppend | Scraping/scraping_stockwits.py:15 | the replacement distributes over concatenation, so with the one-character cases it fixes the whole result |
| StocktwitsScraper.NormalizeTime | Scraping/scraping_stockwits.py:9-25 | None exactly for a missing or empty input; an ISO parse wins, and an ISO result only comes from an accepted ISO parse; a relative time is never after `now` nor before year 1; it raises exactly when the input, rejected by the ISO parser, reads as an age with a count above 999999999 or reaching before year 1; a non-empty input that neither the ISO parser nor the age reader accepts comes back unchanged, and an unchanged result is always such an input |
| StocktwitsScraper.NormalizedRelativeMatches | Scraping/scraping_stockwits.py:19-24 | a relative result is `now` minus n units, for a split of the input that has the pattern's shape |
| StocktwitsScraper.UnchangedMatchesNothing | Scraping/scraping_stockwits.py:19-25 | an input returned unchanged has no split with the pattern's shape |
| StocktwitsScraper.NormalizeRelative | Scraping/scraping_stockwits.py:21-24 | an age the ISO parser rejects becomes `now` minus the age, or raises when it cannot be represented |
| StocktwitsScraper.RelativeAgeRoundTrip | Scraping/scraping_stockwits.py:13-24 | writing n and a unit, then normalizing, gives `now − n·unit`, or raises when n is above 999999999 or the instant falls before year 1 |
| StocktwitsScraper.ZeroMinutesIsNow | Scraping/scraping_stockwits.py:19-24 | "0m" is `now`, for any `now` from year 1 on |
| StocktwitsScraper.LargeCountRaises | Scraping/scraping_stockwits.py:23 | a count above 999999999 raises in every unit, so "1000000000s" (about 31 years) raises: the day `timedelta` is built whatever the unit |
| StocktwitsScraper.Or | Scraping/scraping_stockwits.py:90-92 | Python `or`: the first value unless it is None or empty |
| StocktwitsScraper.RawTime | Scraping/scraping_stockwits.py:90-93 | no time element gives None; otherwise the raw time is the first non-empty value among datetime, title, text and aria-label in that order, or the aria-label value when none is non-empty |
| StocktwitsScraper.IsoCell | Scraping/scraping_stockwits.py:102 | `iso_time or ''`: '' without a normalized time, otherwise its rendering; MessageRowAt states the cell for each outcome of NormalizeTime |
| StocktwitsScraper.MessageRowAt | Scraping/scraping_stockwits.py:97-103 | row i is numbered i+1 and carries the symbol and text; the raw cell is the raw time, or '' without one; the ISO cell is '' for a missing or empty raw time, the ISO parser's rendering for an ISO time, the formatted instant for a relative age, and the raw time whenever neither the ISO parser nor the age reader accepts it |
| StocktwitsScraper.BuildMessages | Scraping/scraping_stockwits.py:73-103 | the script dies (None) exactly when some message's age cannot be represented (a count above 999999999, or an instant before year 1); otherwise there is one row per message, in page order, each row as above |
| RedditQueries.SuffixEnd | Scraping/scraping_reddit.py:53 | one alternative: a match is the word, ignoring case, with the end test met where it ends; the greedy `\.?` takes the dot whenever a dot follows and the end test holds behind it, and otherwise the bare word matches exactly when the end test holds after it; there is no match exactly when neither form passes |
| RedditQueries.FirstSuffixEnd | Scraping/scraping_reddit.py:53 | the alternation: a match is that of the first alternative in pattern order that matches, every earlier one failing; no match means no alternative matches |
| RedditQueries.MatchAt | Scraping/scraping_reddit.py:53 | a match starts at whitespace and ends after it, within the text |
| RedditQueries.MatchAfterRun | Scraping/scraping_reddit.py:53 | a match at a position ends where the alternation matches right after the maximal whitespace run that starts there |
| RedditQueries.RemoveFrom | Scraping/scraping_reddit.py:53-54 | substitution never lengthens the text |
| RedditQueries.KeepUnmatched | Scraping/scraping_reddit.py:53-54 | a character where no match starts is kept, and the scan moves on by one |
| RedditQueries.RemoveKeepsUnmatched | Scraping/scraping_reddit.py:53-54 | text in which no match starts is copied unchanged |
| RedditQueries.RemoveFirstMatch | Scraping/scraping_reddit.py:53-54 | the text before the first match is kept, the match is dropped, and the scan resumes where the match ends |
| RedditQueries.NoMatchUnchanged | Scraping/scraping_reddit.py:53-54 | with no match the text comes back unchanged |
| RedditQueries.CleanWith | Scraping/scraping_reddit.py:53-54 | `re.sub(pattern, '', name).strip()` for a given suffix pattern; CleanWithoutSuffix, RemoveFirstMatch and the lemmas after it state the result |
| RedditQueries.CleanNameAsWritten | Scraping/scraping_reddit.py:53-54 | the cleaning with the pattern as line 53 writes it; AsWrittenKeepsDot and AppleIncAsWritten state that it keeps the dot of "Inc." |
| RedditQueries.CleanName | Scraping/scraping_reddit.py:53-54 | the cleaning with the corrected pattern (see Findings); CleanNameDropsInc states that it removes " Inc" and " Inc." whole |
| RedditQueries.CleanWithoutSuffix | Scraping/scraping_reddit.py:53-54 | a name with no legal suffix is only stripped |
| RedditQueries.RemoveKeepsLetters | Scraping/scraping_reddit.py:53 | no match starts inside a run of letters, which is copied unchanged |
| RedditQueries.AsWrittenKeepsDot | Scraping/scraping_reddit.py:53-54 | as written, "Name Inc." is cleaned to "Name." for any all-letter name |
| RedditQueries.AppleIncAsWritten | Scraping/scraping_reddit.py:53-54 | as written, "Apple Inc." is cleaned to "Apple." |
| RedditQueries.CleanNameDropsInc | Scraping/scraping_reddit.py:53-54 | the corrected cleaner turns "Name Inc." and "Name Inc" into "Name" |
| RedditQueries.TitleChar | Scraping/scraping_reddit.py:60 | one character of `title()`: same letter ignoring case; lower case after a letter, otherwise not lower case |
| RedditQueries.Title | Scraping/scraping_reddit.py:60 | `title()` keeps the length, and each character is cased by whether a letter precedes it |
| RedditQueries.TitleCases | Scraping/scraping_reddit.py:60 | `title()` keeps the length, the characters ignoring case and which characters are letters; a character after a letter is not upper case; any other character is not lower case |
| RedditQueries.TitleIdempotent | Scraping/scraping_reddit.py:60 | title-casing twice is title-casing once |
| RedditQueries.Quote | Scraping/scraping_reddit.py:57-61 | the phrase is its text between two double quotes |
| RedditQueries.TickerQueriesDiffer | Scraping/scraping_reddit.py:57-58 | `"SYM"` and `"$SYM"` always differ |
| RedditQueries.Dedup | Scraping/scraping_reddit.py:64 | `list(set(...))`: no repeats, the same values, and no longer than the input |
| RedditQueries.GetQueriesWith | Scraping/scraping_reddit.py:40-64 | for any suffix pattern: without a name, exactly `"SYM"` and `"$SYM"`; with one, exactly the distinct phrases among the five built from the cleaned name; always 2 to 5 phrases, with no repeats and both ticker phrases |
| RedditQueries.GetQueriesAsWritten | Scraping/scraping_reddit.py:40-64 | the same, with the name cleaned by the pattern as written |
| RedditQueries.GetQueries | Scraping/scraping_reddit.py:40-64 | the same, with the name cleaned by the corrected pattern (see Findings) |
| RedditQueries.QueriesForIncName | Scraping/scraping_reddit.py:53-61 | for a one-word name followed by " Inc.", the queries as written search for the word with a trailing dot, and the corrected ones for the word alone |
| RedditScraper.Absorb | Scraping/scraping_reddit.py:128-133 | the merge completes exactly when every result on the page has a name |
| RedditScraper.AbsorbExtends | Scraping/scraping_reddit.py:128-133 | merging keeps the store well formed (ids distinct, each listed id stored under its own name), never drops or replaces a stored post, only appends ids, and `new_posts` counts the appended ids |
| RedditScraper.Merged | Scraping/scraping_reddit.py:129-130 | the results before the first KeyError all have names, and the next one has none |
| RedditScraper.AbsorbStoresFirstSeen | Scraping/scraping_reddit.py:129-133 | every merged result's id ends up stored; an id new to the store holds the first result that carries it |
| RedditScraper.AbsorbKeeps | Scraping/scraping_reddit.py:131-132 | a stored post is never replaced by a later sighting |
| RedditScraper.AbsorbKeys | Scraping/scraping_reddit.py:129-133 | the stored ids afterwards are the old ids plus the merged names |
| RedditScraper.AbsorbCountsKeys | Scraping/scraping_reddit.py:128-133 | `new_posts` is the number of keys the merge added |
| RedditScraper.NewPostsCount | Scraping/scraping_reddit.py:128-133 | `new_posts` is the number of distinct merged ids that were not stored before |
| RedditScraper.PostStore.constructor | Scraping/scraping_reddit.py:86 | the store starts empty |
| RedditScraper.PostStore.MergePage | Scraping/scraping_reddit.py:128-133 | the new store, `new_posts` and completion are exactly the page merge of the old store |
| RedditScraper.PostStore.ScrapeQuery | Scraping/scraping_reddit.py:98-148 | the new store, the requests sent and `pages_scraped` are exactly those of `Paginate` from the old store with no cursor; the store stays well formed |
| RedditScraper.Paginate | Scraping/scraping_reddit.py:101-148 | the page loop of one query as a function of the store, cursor and page count; PaginateCollects, PaginateChain, PaginateStops and PaginateCounts below state what it does, and ScrapeQuery is proved equal to it |
| RedditScraper.PaginateCollects | Scraping/scraping_reddit.py:101-148 | the store a phrase's scrape leaves is the pages of its requests merged in order (`Collected`); a failed or empty page merges nothing |
| RedditScraper.Collected | Scraping/scraping_reddit.py:123-133 | the pages of a list of requests merged into the store in order, a failed or empty page merging nothing; CollectedExtends states that the store only grows |
| RedditScraper.CollectedExtends | Scraping/scraping_reddit.py:128-133 | merging pages in order keeps the store well formed and only extends it |
| RedditScraper.PaginateChain | Scraping/scraping_reddit.py:98-135 | the first request carries the starting cursor and each later one the cursor of the page before, which continued; each is sent while fewer than 2000 posts are stored |
| RedditScraper.PaginateStops | Scraping/scraping_reddit.py:101-148 | no more requests than the page budget left; the scrape ends on a page that does not continue, on 50 pages, or on 2000 posts |
| RedditScraper.PaginateCounts | Scraping/scraping_reddit.py:99-148 | `pages_scraped` counts the pages merged whole: one per request, less the last when its page was failed, empty or cut short by a KeyError |
| RedditScraper.ScrapeFacts | Scraping/scraping_reddit.py:98-148 | from any well-formed store: the store stays well formed, only grows, and is the pages of the requests merged in order; at most 50 requests, a cursor chain, each sent below 2000 posts; `pages_scraped` is the pages merged whole; the scrape ends on a page that does not continue, on 50 pages or on 2000 posts |
| RedditScraper.PostStore.ScrapeAll | Scraping/scraping_reddit.py:95-148 | the new store is `ScrapedAll`: each query's `Paginate` in query order, from the store the previous one left; the store only grows |
| RedditScraper.ScrapedAll | Scraping/scraping_reddit.py:95 | each query's Paginate in query order, each from the store the previous one left; ScrapedAllExtends states that the store only grows, and ScrapeAll is proved equal to it |
| RedditScraper.ScrapedAllExtends | Scraping/scraping_reddit.py:95-148 | scraping every query keeps the store well formed and only extends it |
| RedditScraper.TextCell | Scraping/scraping_reddit.py:167 | the body, or the url when the body is missing or empty |
| RedditScraper.PostRowAt | Scraping/scraping_reddit.py:154-173 | row i is numbered i+1; absent fields read as '' or 0; both timestamp cells are '' when `created_utc` is missing or 0 |
| RedditScraper.PostStore.BuildRows | Scraping/scraping_reddit.py:153-173 | one row per stored post, in insertion order, numbered from 1, with the stored id as post id |
| RedditScraper.ScrapeReddit | Scraping/scraping_reddit.py:76-173 | the queries are `get_queries`'s; there is one row per post of `ScrapedAll` from the empty store over those queries, in first-seen order, each row `PostRowAt` of its stored post; the rows are numbered 1..N and carry the symbol; no post id appears twice |

## Left out

- CSV reading and writing, directory layout, file names built from the clock, and every `print`: these are file-system plumbing and output.
- The parsers and formatters are function parameters, not modelled: `pd.to_datetime`, `datetime.fromisoformat(...).isoformat()`, `datetime.fromtimestamp(...).isoformat()` and `str` of a timestamp.
- The FinBERT classifier, tokenizer and device selection: the classifier is the parameter `pipe`.
- The Reddit OAuth token request and the credential check (Scraping/scraping_reddit.py:17-38): network access.
- The HTTP search is the parameter `fetch`. A missing `data`/`children` object reads as an empty page, and a result without a `data` object reads as a post without a name.
- The yfinance lookup (Scraping/scraping_reddit.py:42-46): the company name is a parameter; None stands for a failed or empty lookup.
- The Playwright browsing, scrolling and BeautifulSoup extraction in Scraping/scraping_stockwits.py: the message bodies and their time elements are given as values.
- Rate-limit retries after a 429 answer, and all sleeps (Scraping/scraping_reddit.py:115-118,144): timing only. A 429 is not a response of `fetch`.
- Floating-point rounding (`round(x, 2/3/4)`) and float arithmetic: statistics are exact reals before rounding.
- Timestamps are whole seconds: sub-second precision and the float `created_utc` are not modelled, and neither are time zones other than UTC.
- Unicode: whitespace, digits, letters, word characters (`\w`, `\b`) and case mapping are the ASCII ones. Python's Unicode rules for other characters are not modelled.
- RedditQueries.GetQueries: it cleans the name with the corrected suffix pattern (see Findings), and so does `RedditScraper.ScrapeReddit`, which calls it; `GetQueriesAsWritten` is the program as written.
- RedditQueries.GetQueries: the order of `list(set(...))` depends on string hashing. The model keeps first-occurrence order, so its contract fixes the set of phrases but not their order.
- RedditQueries.MatchAt: `\s+` giving back whitespace on backtracking is not explored. Every alternative begins with a letter, so a shorter run cannot lead to a match.
- The hard-coded symbols ("NVDA", "GOOG") and CSV paths are parameters.
- In the Stocktwits scraper, the OverflowError of an age that cannot be represented ends the script with nothing saved. Such an age has a count above 999999999, in any unit, or reaches before year 1. It is modelled as the None outcome of `BuildMessages`.
- `pd.concat` of the messages with their scores (Sentiment_Analysis/reddit_sentiment_analyzer.py:99) is left out, and so is the output paths' ticker value (line 148). The summary is modelled over records that already pair a symbol with its score row.
- Sentiment.GroupKeys: the function builds pandas' key order (the present symbols ascending, then the missing symbol), but its contract states only which keys appear, each once.
- The re-rendering of `date_utc`, `tmin_utc` and `tmax_utc` as strings before saving (Volume/Volume_Sentiment_Analyzer.py:85-87) is left out. Rows are compared as values; a history file's own row format is not modelled.
- Dashboard/, Automation/ and old_scripts/ are not part of this model: they are presentation, process orchestration and experiments.

## Findings

| source | as written | input that shows it | evidently intended | confidence | as-written member | corrected member |
|---|---|---|---|---|---|---|
| Scraping/scraping_reddit.py:53 | `\b` follows the optional `\.?`. After "Inc." at the end of the name, a '.' followed by nothing is no word boundary, so the engine backtracks and removes " Inc" without its dot | the company name "Apple Inc." is cleaned to "Apple.", and the queries contain `"Apple."` | the suffix is removed with its dot, giving "Apple": the end test is "no word character follows" | high; not executed | RedditQueries.AsWrittenKeepsDot | RedditQueries.CleanNameDropsInc |
| Sentiment_Analysis/stockwits_sentiment_analyzer.py:16 | `astype(str)` runs before `fillna("")`, so a missing message is already the string "nan" and `fillna` has nothing to fill | a message cell left empty in the CSV is scored as the text "nan" | a missing message is scored as "" (the Reddit analyzer fills first, at Sentiment_Analysis/reddit_sentiment_analyzer.py:32-33) | high; not executed | Sentiment.MissingMessageBecomesNan | Sentiment.StocktwitsTexts |
