# Hotel-review dashboards: the data logic under the widgets

The dashboards load a table of hotel reviews (`name`, `topic_label`, `text`,
`ratings`), let the user pick a topic, a hotel (or "Todos" for all hotels)
and a maximum number of reviews, and render one card per selected review.
Under the widgets and styling there is a small, sequential core, repeated
across the scripts, which this project models and proves things about:

- **Rating parsing** (`parse_ratings`): a string cell is decoded with
  `ast.literal_eval`; a non-string cell, or a string that raises
  `ValueError`/`SyntaxError`, becomes the empty dictionary. The card view
  additionally treats any non-dictionary result as empty.
- **Numeric coercion and averages**: each review's ratings are coerced with
  `float(...)` key by key (a value that does not convert drops only its own
  key); the general averages are column-wise means over the numeric values
  only; the comparison chart joins a review's numeric scores with the
  averages and keeps the attributes present in both.
- **Review selection**: rows of the chosen topic; then rows of the chosen
  hotel, or with "Todos" the first row of every hotel
  (`drop_duplicates(subset=['name'])` in two scripts,
  `groupby('name').head(1)` in the third); then the first `n` rows.
- **Option lists**: the topics in first-seen order, and "Todos" followed by
  the sorted distinct hotel names.
- **The ratings card**: the overall line first (when `overall` is present
  and not `None`), then every other attribute in ascending key order, each
  with an emoji from a fixed table or the fallback "🔹"; an empty map shows
  the single line "No hay ratings disponibles.".

Modules follow these components rather than the scripts, since the scripts
repeat the same logic: `Wrappers` (Option/Result), `StringOrder` (Python's
ordering of `str` and `sorted` over a set of strings), `Sequences`
(subsequence, row filter, `head`, `unique`), `Ratings`, `Averages`,
`Selection`, `Options` and `RatingCard`.

`ast.literal_eval` and the conversion of a numeric string by `float` or
`pd.to_numeric` are foreign code: they are parameters of the model
(`LiteralDecoder`, `NumberParser`), and every property holds for every such
function that meets the member's stated `requires`. `ReviewScoresAllCharted`
needs the `pd.to_numeric` parser to read every string the `float` parser
reads (see its line under "## Left out"), and the worked examples fix the
parser's value on the strings they use. Numbers are Dafny `real`s.

Three facts about the scripts shape the model. `parse_ratings` returns `{}`
for every non-string cell, even one that already holds a dictionary
(bi-app.py:14). An attribute with no numeric value has no average: its NaN
mean is removed by the comparison's `dropna` (bi-app.py:88), so the model
leaves it out of the averages. No per-hotel average is computed anywhere.

## Model

| member | source | states |
|---|---|---|
| Ratings.ParseRatings | bi-app.py:12-16 | A cell that is not a string yields the empty dict; a string the decoder rejects with ValueError or SyntaxError yields the empty dict; otherwise the decoded literal is returned unchanged. |
| Ratings.ParseEmptyExactly | Final-app.py:9-13 | The parse result is empty if and only if the cell is not a string, or decoding failed, or the string really encodes `{}`. |
| Ratings.AsRatingMap | Final-app.py:64 | A dictionary result is used as is (the copy is implicit, since values are immutable); any non-dictionary result is treated as the empty map. |
| Ratings.Coerce | bi-app.py:76-78 | `float(value)`: a number converts to itself; `None` does not convert (the TypeError case); a string converts as the number parser says. |
| Ratings.CollectScores | bi-app.py:74-79 | The returned map has exactly the keys whose values coerce, each with its coerced number, and equals `NumericScores`. |
| Ratings.UncoercibleDropsOnlyItsKey | bi-app.py:76-79 | Giving one key a non-numeric value removes that key from the numeric scores and leaves all other keys as they were. |
| Ratings.CoercibleAddsOnlyItsKey | bi-app.py:76-77 | Giving one key a numeric value sets exactly that key, to that number, and changes no other key. |
| Ratings.MixedRatingsExample | bi-app.py:74-79 | `{'overall': 4, 'service': '5', 'cleanliness': 'n/a'}` gives numeric scores overall 4 and service 5, with cleanliness dropped. |
| Averages.ParsedRatings | bi-app.py:18 | There is one rating map per row, in row order, and each is the dictionary view of `parse_ratings` of that row's cell. |
| Averages.GeneralAverages | bi-app.py:22-25 | An average exists exactly for the attributes with at least one numeric value, and each equals the mean of exactly those values. |
| Averages.ColumnMeans | bi-app.py:25 | A one-pass tally of per-attribute sums and counts computes exactly `GeneralAverages`. |
| Averages.NonNumericReviewKeepsAverage | bi-app.py:22-25 | Adding a review with no numeric value for an attribute leaves that attribute's average, or its absence, unchanged. |
| Averages.NoNumericValueNoAverage | bi-app.py:24-25 | An attribute for which no review has a numeric value has no average; it is not averaged as zero. |
| Averages.UnparsedReviewContributesNothing | bi-app.py:12-25 | A review whose cell is not a string, or fails to decode, leaves every average unchanged. |
| Averages.AverageWithinBounds | bi-app.py:25 | If every numeric value of an attribute lies in [lo, hi], as ratings from 0 to 5 do, then so does its average. |
| Averages.TwoReviewsExample | bi-app.py:22-25 | Two reviews with overall 4 and 5 give the averages map `{overall: 4.5}`. |
| Averages.ComparisonPanel | bi-app.py:70-96 | An empty map gives the "no ratings" panel; a non-empty map with nothing numeric gives the "no numeric ratings" panel; otherwise the bars are exactly the attributes that are numeric in the review and have an average, each bar pairing the review's number with the average. |
| Averages.ReviewScoresAllCharted | bi-app.py:83-88 | For a review taken from the dataset, `dropna` removes nothing: every numeric score of the review gets a bar, provided every string `float` reads is also read by `pd.to_numeric`. |
| Averages.ParsersDisagreeDropBar | bi-app.py:76-88 | If `float` reads a string that `pd.to_numeric` rejects, a review holding that string gets a chart with no bar for it, although the score is numeric in the review. |
| Sequences.Filter | bi-app.py:47-49 | A row filter keeps the rows that satisfy the condition, in their original order and with their original multiplicities. |
| Sequences.Take | app.py:76 | `head(n)` is a prefix of its input of length `min(n, len)`. |
| Sequences.UniqueFrom | app.py:60 | `unique()` lists every value once, and in order of first occurrence. |
| Selection.DropDuplicates | bi-app.py:51 | Keeps one row per hotel: each kept row is that hotel's first row, every hotel is kept, and the kept rows come in the order in which their hotels first appear. |
| Selection.GroupHead | app.py:74 | `groupby('name').head(k)` keeps `min(k, count)` rows of every hotel, in the original order. |
| Selection.GroupHeadPerHotel | app.py:74 | The rows `groupby('name').head(k)` keeps of any one hotel are exactly the first `k` rows of that hotel, in order. |
| Selection.HeadOneIsDropDuplicates | app.py:74 | `groupby('name').head(1)` selects the same rows, in the same order, as `drop_duplicates(subset=['name'])`. |
| Selection.Narrow | bi-app.py:47-51 | The filtered frame is a subsequence of the rows, all of the chosen topic. When a hotel is chosen it is exactly the rows of that topic and hotel, in order. With "Todos" it equals `drop_duplicates` of the topic's rows, whichever one-row-per-hotel operation is used. |
| Selection.TopicThenHotel | bi-app.py:47-49 | Filtering by topic and then by hotel gives the same rows as one filter on both conditions. |
| Sequences.FilterFilter | bi-app.py:47-49 | Two row masks applied one after the other select what their conjunction selects. |
| Selection.SelectReviews | bi-app.py:47-52 | The shown rows are a prefix of length `min(n, len)` of the filtered frame, taken in their original order. With a hotel chosen they are the first `n` rows of that topic and hotel; with "Todos" the first `n` rows of `drop_duplicates` of the topic's rows. All rows have the chosen topic. If a hotel is chosen, all rows are of that hotel. With "Todos", hotel names are distinct, each row is its hotel's first row in the topic, and if the frame fits in `n` every hotel in the topic is shown. |
| Selection.DedupeVariantsAgree | app.py:69-76 | The `groupby(...).head(1)` pipeline and the `drop_duplicates` pipeline (Final-app.py:55-60) show the same reviews for every topic, hotel and `n`. |
| Options.Topics | app.py:60 | The topic options contain every topic that occurs, have no duplicates, and follow first-occurrence order. |
| Options.HotelOptions | app.py:63 | The hotel options are "Todos" followed by every distinct hotel name exactly once, in strictly ascending order. |
| Options.HotelOptionsAreSortedUnique | app.py:63 | Any ascending list of the values of `unique()` over the names is the list after "Todos". So the options are Python's `sorted` of the unique names. |
| StringOrder.SortSet | Final-app.py:93 | `sorted` over distinct strings lists every element once, in strictly ascending code-point order. |
| StringOrder.AscendingEnumerationUnique | Final-app.py:93 | Two strictly ascending lists with the same elements are equal, so the sorted order is unique. |
| RatingCard.EmojiFor | Final-app.py:20-26 | A key in the table gets its table emoji; any other key gets "🔹". |
| RatingCard.FallbackOnlyForUnknownKeys | Final-app.py:94 | A line gets the fallback emoji exactly when its key is missing from the table. |
| RatingCard.SpacedSleepQualityFallsBack | Final-app.py:25 | The table is keyed "sleep_quality", so a "sleep quality" attribute is shown with the fallback emoji. |
| RatingCard.Capitalize | Final-app.py:95 | `str.capitalize()` keeps the length, upper-cases the first character and lower-cases the others. |
| RatingCard.Pop | Final-app.py:88 | `pop('overall', None)` returns the value when the key is present and nothing when it is absent, and leaves every other key with its value. |
| RatingCard.PopRestore | Final-app.py:64-88 | Re-inserting the popped value restores the map, so popping from the copy changes no other rating. |
| RatingCard.OverallLineFollowsGeneralRule | Final-app.py:89-95 | The special-cased overall line gets the emoji and caption the general rule would give it. |
| RatingCard.AttributeLines | Final-app.py:93-95 | There is one line per key, carrying that key's value, and the keys are strictly ascending. |
| RatingCard.CardLines | Final-app.py:64-97 | An empty or non-dict map gives only the "no ratings" line. If overall is present and not None, its line comes first. The remaining lines exclude overall, are in strictly ascending key order, and cover every other key exactly once with its value. |
| RatingCard.OverallAtMostOnce | Final-app.py:88-95 | The only line whose key is overall is line 0, and it exists only when overall is present and not None. |
| RatingCard.NonDictRendersNoRatings | Final-app.py:64 | A parse result that is not a dictionary renders as the "no ratings" line. |
| RatingCard.NullOverallAloneRendersNothing | Final-app.py:87-91 | `{'overall': None}` is non-empty, so it skips the "no ratings" line, but the pop leaves nothing to show, so no line is rendered. |

## Left out

- Streamlit page setup, widgets, columns, HTML/CSS strings, `st.markdown`, `st.write` and `st.bar_chart`. These are presentation only. The model stops at the data each of them is given.
- `pd.read_csv` over HTTP is a single network fetch with no logic. `df['text'].astype(str)` only affects display.
- `ast.literal_eval` internals are foreign code. The decoder is a parameter, and exceptions other than ValueError and SyntaxError are not modelled.
- `float(str)` and `pd.to_numeric` on strings are foreign code. Each is a number-parser parameter. The review's scores use the `float` one and the general averages the `pd.to_numeric` one. `ReviewScoresAllCharted` takes both and assumes they agree on the strings `float` reads.
- Non-finite floats are not modelled: numbers are reals, so `float('nan')`, `float('inf')` and a literal such as `1e999` have no counterpart. In the source a NaN score is kept by the `hotel_scores` loop and then dropped from the chart by `dropna`.
- Averages.ComparisonPanel: does not model a review score that is NaN, which the source keeps in `hotel_scores` and `dropna` then removes, so the chart branch can end with fewer bars (or none).
- Averages.ReviewScoresAllCharted: holds only for finite scores; a NaN score of the review is removed by `dropna` (bi-app.py:88) in the source. It also needs every string `float` reads (which includes underscores and non-ASCII digits) to be read by `pd.to_numeric`; `ParsersDisagreeDropBar` shows a bar lost when they differ.
- Ratings.Coerce: a number always converts to itself. In the source, `float(value)` on a Python `int` beyond the double range (a literal of some 310 digits, which `literal_eval` accepts) raises OverflowError. bi-app.py:78 catches only ValueError and TypeError, so that error stops the page. The model has one kind of number and no such failure, and `CollectScores` and `ComparisonPanel` inherit this.
- Floating point: `mean()`, `.round(1)` and `float` are modelled over reals. Rounding to one decimal is not modelled.
- `json_normalize` flattening of nested dictionaries is left out. Rating values are modelled as scalars (number, text, None).
- Booleans and other literal kinds inside a ratings dictionary are left out. Only numbers, strings and None are modelled as values.
- Dictionary keys are strings only. A literal such as `{1: 4}` is not modelled. Its card would raise at Final-app.py:95, where `key.capitalize()` needs a string.
- Null hotel names and topics are left out, so the difference between `groupby` (which drops null keys) and `drop_duplicates` does not arise. Names and topics are strings.
- In bi-app.py, a `literal_eval` result that is not a dictionary is treated as the empty map, as Final-app.py:64 does. The source would instead pass it to `json_normalize` and `.items()`.
- The slider bounds for `n_reviews` (1 to 20) are a widget concern. The selection accepts any natural `n`.
- Row index handling (`iterrows` indices, `reset_index(drop=True)`) is left out. Rows are a sequence, and no index is displayed.
- The order of bars in the comparison chart and the text of each line (`{emoji} {caption}: {value}/5`, `str()` of a value) are rendering details. Lines carry key and value, and `LineEmoji` and `LineCaption` give the rest.
- app.py prints the raw `ratings` cell on each card. That is display of an unparsed string.
- Per-hotel averages are not computed by these scripts, so they are not modelled.
- final-bi-app.py is a map demo with fixed coordinates and holds no review logic.
- RatingCard.Capitalize: only ASCII letters change case, because Python's full Unicode case mapping is a foreign table.
