# HKTAP core logic, modelled in Dafny

HKTAP is a Next.js app for sharing places in Hong Kong. Users pin photographed
locations on a map, vote on them ("drop your heat"), browse a leaderboard and
trending categories, and ask a chat assistant for recommendations. Most of the
code is UI wiring around a hosted database, a map widget and a hosted language
model. This project models the four pieces of logic underneath that wiring.
Each remote service is replaced by an input, or by an outcome given as a
parameter.

- `map_view.dfy` (module `MapView`, from `Map.tsx`):
  - marker sizing from the vote count and the geometry of the marker icon;
  - the `?category=` filter applied to the location query;
  - `vote`, a class method. It reads the stored count (null counts as 0), writes
    the count plus one, and on success updates the local list and the selected
    count. On a read or write error nothing local changes.
- `trending.dfy` (module `Trending`, from `page.tsx`):
  - `fetchCategories`: the histogram loop over the query rows, the stable sort
    by count (highest first), the full list and the top three;
  - the error path, which empties both lists.
- `chat.dfy` (module `Chat`, from `Chat.tsx`):
  - the system prompt built from the catalogue and the welcome message;
  - `sendMessage`, a class method over the transcript, the input box and the
    loading flag. The language model's answer is a parameter.
- `ranking.dfy` (module `Ranking`, from `Ranking.tsx`):
  - `formatNumber`'s unit-selection loop, over exact reals;
  - the rank badge colour and number, and the row heading with its fallback.
- `text.dfy` (module `Text`): the capitalise-first-letter idiom (ASCII), decimal
  printing with its parser, and joining and splitting on line breaks.
- `wrappers.dfy` (module `Wrappers`): `Option` for null/undefined, and the
  `s || fallback` idiom.

The chat requests plain completions only; there is no schedule extraction,
schedule store or calendar export. An unknown id makes the `.single()` read in
`vote` fail; `vote` handles that like any other read error, and the model's
`RowNotFound` takes the same path.

## Model

| member | source | states |
|---|---|---|
| `MapView.IconWidth` | src/app/Components/Map.tsx:57-61 | width is min(25 + votes/2, 50): at most 50, at least 25 for votes >= 0, exactly 50 from 50 votes on, below 50 under 50 votes |
| `MapView.IconWidthMonotone` | src/app/Components/Map.tsx:61 | more votes never give a narrower marker |
| `MapView.IconSize` | src/app/Components/Map.tsx:57-63 | height is 1.64 times the width; both bounded by the base and maximum sizes |
| `MapView.CustomIcon` | src/app/Components/Map.tsx:65-93 | the label is the capitalised title; the icon anchor is (width/2, height), the middle of the bottom edge; the popup anchor is (0, 7 - height) |
| `MapView.SelectedCategory` | src/app/Components/Map.tsx:30 | a missing or empty `category` parameter becomes "default"; any other value is kept; the result is never empty |
| `MapView.CategoryFilter` | src/app/Components/Map.tsx:98-102 | "default" keeps every row; any other category keeps exactly the rows whose category equals it |
| `MapView.VotesRead` | src/app/Components/Map.tsx:133 | the value read is the stored count, or 0 when the column is null |
| `MapView.WithVotes` | src/app/Components/Map.tsx:142-148 | the list keeps its length and order; entries with the voted id change only their votes, to the given value; all others are unchanged |
| `MapView.WithVotesIdempotent` | src/app/Components/Map.tsx:142-148 | updating twice with the same count is the same as updating once |
| `MapView.VoteTouchesOneCounter` | src/app/Components/Map.tsx:135-139 | the write changes only the voted row's counter, which goes up by exactly one; every other row keeps its value |
| `MapView.MapState.constructor` | src/app/Components/Map.tsx:45-55 | the view starts empty and loading, with a selected count of 0 and no error |
| `MapView.MapState.FetchData` | src/app/Components/Map.tsx:95-115 | on success the list is the filtered table; on failure the list is kept and the error text is "Failed to fetch locations: " + message; loading ends false |
| `MapView.MapState.Vote` | src/app/Components/Map.tsx:121-153 | a read error (including a missing row) writes nothing; a read error or a write error leaves the list and the selected count unchanged; on success the store holds read + 1 for that id only, the list is `WithVotes(old list, id, read + 1)` and the selected count is read + 1 |
| `Text.UpperAscii` | src/app/Components/Map.tsx:84 | the result is never a lower-case letter; a lower-case letter becomes its upper-case form; anything else is unchanged |
| `Text.Capitalize` | src/app/Components/Map.tsx:84 | the length is kept; "" maps to ""; the first character is upper-cased; every later character is unchanged |
| `Text.CapitalizeIdempotent` | src/app/Components/Map.tsx:239 | capitalising twice is the same as capitalising once |
| `Text.CapitalizeFixesCapitalized` | src/app/Components/Map.tsx:251-252 | a string whose first character is not a lower-case letter is left exactly as it is |
| `Trending.CountCategories` | src/app/page.tsx:112-125 | the keys are exactly the distinct non-empty categories, in order of first appearance; each count is the number of rows with that category |
| `Trending.FirstSeenExact` | src/app/page.tsx:112-125 | the key list has no duplicates; a category is in it iff it is non-empty and some row carries it |
| `Trending.CountOfAbsent` | src/app/page.tsx:119-120 | a category no row carries counts zero |
| `Trending.CountPositive` | src/app/page.tsx:119-120 | a category some row carries counts at least one |
| `Trending.HistogramCounts` | src/app/page.tsx:112-128 | the entries have distinct, non-empty categories (exactly those in the rows); each count equals that category's number of rows and is at least 1 |
| `Trending.CountsSumToRows` | src/app/page.tsx:112-125 | the counts add up to the number of rows whose category is non-empty |
| `Trending.HistogramTotal` | src/app/page.tsx:112-128 | the entries' counts add up to the number of rows whose category is non-empty |
| `Trending.InsertSorted` | src/app/page.tsx:129 | inserting into a non-increasing list keeps it non-increasing |
| `Trending.InsertWithCount` | src/app/page.tsx:129 | an inserted entry goes after every entry with the same count |
| `Trending.SortFacts` | src/app/page.tsx:127-129 | the sorted list is non-increasing by count and a permutation of the input; the entries of each count keep their input order (stability); the total count is kept |
| `Trending.SortNames` | src/app/page.tsx:127-133 | sorting keeps the set of names and keeps them distinct |
| `Trending.RankedFacts` | src/app/page.tsx:112-133 | the full list names each distinct non-empty category exactly once; it is non-increasing by count; counts match the rows and sum to the non-empty rows; ties keep first-appearance order |
| `Trending.TopThree` | src/app/page.tsx:136 | the top list is the prefix of the sorted list of length min(3, its length) |
| `Trending.TopThreeFacts` | src/app/page.tsx:131-136 | the top list has min(3, number of distinct categories) entries; its names are the first names of the full list; no later entry has a higher count |
| `Trending.HomeState.constructor` | src/app/page.tsx:38-39 | both lists start empty |
| `Trending.HomeState.FetchCategories` | src/app/page.tsx:98-164 | with no key nothing changes; a query error empties both lists; otherwise the full list is the names of the sorted histogram and the top list the names of its first three entries |
| `Trending.ReduceAsWrittenAgrees` | src/app/page.tsx:112-125 | when no category is a name inherited from Object.prototype, the object-literal reduction yields the keys and counts of `CountCategories` |
| `Trending.ProtoCategoryDropped` | src/app/page.tsx:119-120 | as written, a row with category `__proto__` leaves no key, although the category occurs |
| `Trending.ConstructorCategoryMiscounted` | src/app/page.tsx:119-120 | as written, one row with category `constructor` stores a string, not the count 1 |
| `Chat.Lines` | src/app/Components/Chat.tsx:49-52 | one line per location, in input order: line i is numbered start + i + 1, with the title and description or their fallbacks |
| `Chat.LocationLineStartsWithNumber` | src/app/Components/Chat.tsx:51 | every listing line starts with its number, so no line is empty |
| `Chat.ListingEmptyIff` | src/app/Components/Chat.tsx:58 | the listing is empty iff there are no locations; then it is replaced by "No locations available in the database." |
| `Chat.ListingLines` | src/app/Components/Chat.tsx:49-53 | when no title or description holds a line break, splitting the listing at "\n" gives n lines; line i reads "<i+1>. <title or 'Untitled Location'>: <description or 'No description'>" |
| `Chat.FooterPlural` | src/app/Components/Chat.tsx:69 | the closing sentence ends in "." and has "s" before it iff the count is not one |
| `Chat.SystemPromptCount` | src/app/Components/Chat.tsx:55-69 | the prompt opens with the count of locations and closes with the count and "location"/"locations" |
| `Chat.Request` | src/app/Components/Chat.tsx:105-118 | the request is the system prompt, then the previous transcript in order, then the user's input; its length is the previous length + 2 |
| `Chat.AnswerText` | src/app/Components/Chat.tsx:123-139 | a missing key gives the configuration error inside the apology text; a model failure gives its message inside the apology text; a null or empty reply gives "Sorry, I couldn't generate a response."; any other reply is shown as it is |
| `Chat.AnswerNonEmpty` | src/app/Components/Chat.tsx:126-136 | the assistant's message is never empty |
| `Chat.ChatSession.constructor` | src/app/Components/Chat.tsx:20-22 | the transcript and input start empty and nothing is loading |
| `Chat.ChatSession.SeedWelcome` | src/app/Components/Chat.tsx:35-46 | an empty transcript becomes exactly the welcome message; a non-empty one is untouched |
| `Chat.ChatSession.SendMessage` | src/app/Components/Chat.tsx:72-143 | blank input or a send in progress changes nothing and sends nothing; otherwise exactly the user message and one assistant message are appended, the input is cleared and loading ends false; a request is made iff the key is configured, and it is `Request(prompt, previous transcript, input)` |
| `Text.NatToString` | src/app/Components/Chat.tsx:51 | a non-empty string of decimal digits with no leading zero |
| `Text.DecimalRoundTrip` | src/app/Components/Chat.tsx:55 | reading the printed count back gives the count |
| `Text.NatToStringInjective` | src/app/Components/Chat.tsx:69 | different counts print differently |
| `Text.JoinLines` | src/app/Components/Chat.tsx:53 | no lines join to ""; one line joins to itself |
| `Text.JoinLinesEmpty` | src/app/Components/Chat.tsx:58 | the joined text is empty iff there are no lines, or a single empty line |
| `Text.SplitJoin` | src/app/Components/Chat.tsx:53 | splitting joined lines that contain no line break gives back the lines |
| `Text.IntToString` | src/app/Components/Ranking.tsx:72 | a minus sign comes first iff the value is negative; the digits read back as the absolute value |
| `Ranking.Pow1000` | src/app/Components/Ranking.tsx:90-91 | every power of a thousand is at least 1, and at least 1000 from the first power on |
| `Ranking.UnitIndex` | src/app/Components/Ranking.tsx:74-93 | the reference unit lies in [0, 10], so `units[unitIndex]` is in bounds |
| `Ranking.UnitIndexBand` | src/app/Components/Ranking.tsx:74-93 | unit k is chosen exactly for [1000^(k+1), 1000^(k+2)): K for [10^3, 10^6), M for [10^6, 10^9), and so on; Dc for everything from 10^33 on |
| `Ranking.ShrinkTimesPow` | src/app/Components/Ranking.tsx:90-92 | after k divisions, mantissa × 1000^k equals the original number |
| `Ranking.ShrinkCompare` | src/app/Components/Ranking.tsx:90 | after k divisions the mantissa is at least c iff the number was at least c × 1000^k |
| `Ranking.ShrinkMultiple` | src/app/Components/Ranking.tsx:90-92 | q × 1000^k gives back q after k divisions |
| `Ranking.ScaleToUnit` | src/app/Components/Ranking.tsx:88-93 | below 1000 the loop does not run (index -1); from 1000 on it leaves the index in [0, 10] equal to the reference unit, a mantissa >= 1, and either a mantissa < 1000 or the last unit |
| `Ranking.Render` | src/app/Components/Ranking.tsx:95-97 | an integer mantissa is printed without a decimal point, followed by its suffix; a fractional one keeps its value and suffix for `toFixed(1)` |
| `Ranking.FormatNumber` | src/app/Components/Ranking.tsx:71-98 | below 1000 the number is printed plainly; otherwise the mantissa for the reference unit is rendered with `units[unit]` |
| `Ranking.WholeUnitCount` | src/app/Components/Ranking.tsx:95-96 | q × 1000^(k+1) with 1 <= q < 1000 prints as q followed by unit k (5000 as "5K") |
| `Ranking.RankNumber` | src/app/Components/Ranking.tsx:206 | the rank shown is index + 1, so at least 1 |
| `Ranking.BadgeClass` | src/app/Components/Ranking.tsx:196-204 | index 0 is exactly the yellow badge, index 1 the grey one, index 2 the orange one, and every index from 3 on the indigo one |
| `Ranking.MedalsDistinct` | src/app/Components/Ranking.tsx:196-204 | each of the first three ranks has a colour no other rank has |
| `Ranking.HeadingFallback` | src/app/Components/Ranking.tsx:222-224 | a present title is shown as `Capitalize(title)`: its length and every later character kept, its first character not lower-case; otherwise the heading is "Location " followed by the id |
| `Wrappers.OrElse` | src/app/Components/Chat.tsx:51 | a present, non-empty string is kept; null, undefined or "" gives the fallback |

## Findings

| source | as written | input that shows it | evidently intended | confidence | as-written member | corrected member |
|---|---|---|---|---|---|---|
| src/app/page.tsx:112-125 | the reduction counts into a plain object literal `{}`; `acc["__proto__"]` reads Object.prototype, and assigning the string it produces to `__proto__` is ignored | rows with category `__proto__` | every non-empty category appears in the full list | not executed; follows from the ECMAScript `__proto__` accessor | `Trending.ProtoCategoryDropped` | `Trending.CountCategories` |
| src/app/page.tsx:119-120 | `acc[category] \|\| 0` reads an inherited method for names such as `constructor` or `toString`, so `+ 1` concatenates strings | one row with category `constructor` | the count of that category is 1 | not executed | `Trending.ConstructorCategoryMiscounted` | `Trending.CountCategories` |

The rest of the model uses the intended counting (`CountCategories`, as if the
reduction used a prototype-free dictionary). `ReduceAsWrittenAgrees` shows that
the code as written agrees with it whenever no category is an inherited name.

## Left out

- Database calls (`createClient`, `select`, `update`, `insert`, `eq`, `neq`, `order`) are remote I/O. The model takes their results as parameters: the table, the store map, a `StoreFault`, a `QueryResult`, an error message.
- The lost update between the read and the write in `vote` (Map.tsx:122-139) needs concurrent sessions. Only one sequential call is modelled.
- Leaflet rendering is not modelled: the map container, marker clustering, the icon's HTML template and the `toFixed(4)` Google Maps links.
- Floating point is not modelled. Marker sizes, `size * 1.64` and `formatNumber`'s divisions are exact reals. `toFixed(1)` for a fractional mantissa is not modelled: `Render` returns the exact mantissa and the suffix. `toFixed(0)`'s exponent notation for values of 10^21 and above is also out.
- `Ranking.FormatNumber`: takes an integer vote count. The votes column may be null (the vote path reads it with `?? 0`, and `MapView.Store` keeps it as an `Option`), but the leaderboard passes `item.votes` to `formatNumber` unguarded; a null count compares below 1000 and `null.toString()` throws while the row renders. That failure is not modelled, and neither is a non-integer below 1000, which `toString` would print with a fraction.
- `Text.Capitalize`: upper-cases ASCII letters only. JavaScript's full Unicode `toUpperCase` (including mappings that change the length, such as "ß" to "SS") is not modelled.
- The chat client is not modelled: the OpenRouter setup, the model name, `max_tokens`, `temperature` and the answer's content. Also out: `Date.now()` ids, timestamps, scrolling and React's deferred state updates. The model applies each update in place. The request uses the transcript and input as they were before the send, as the source's closure does. A response with no choices throws inside the `try`, so it is covered by `Failure`.
- The photo lookup for the top three categories (page.tsx:135-158) is concurrent and uses `Math.random()` ordering. The top list is modelled by category names only.
- On page.tsx, the unused `addData` insert (83-96) and `fetchLocationsData` (59-81), which only loads the catalogue for the chat, are not modelled.
- `Object.entries` lists integer-like keys ("1", "42") in numeric order before the other keys. The model keeps insertion order for every key, which is what the code does for non-numeric category names.
- The leaderboard query's ordering (votes, then creation time, both descending) is done by the database and is not modelled.
- The early returns when the database key is missing (Map.tsx:35-41, Ranking.tsx:25-27) only render a message and are not modelled.
- The location query's filter keeps the table's order. The database promises no order.
- Camera.tsx (camera, geolocation and canvas), Translate.tsx (script injection) and layout.tsx (fonts and metadata) are not part of this model.
