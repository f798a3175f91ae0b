# hyperion-web postcode search, modelled in Dafny

This project models the client-side logic of hyperion-web, a web application
that shows local information for a UK postcode. The user types a postcode
into a search box. The box classifies each keystroke against the postcode
pattern `^([A-Z]{1,2})([0-9]?[A-Z]?[0-9 ]{0,3}[A-Z]{0,2})$`. It names the
region the captured letters belong to, using a table from postcode area to
region name. It asks an autocomplete service for candidates and bolds the part
of each candidate that the query already covers. When the service returns one
candidate equal to the query, it reports a resolved postcode to the
application. Around the search box sit smaller components:

- the application shell (toast queue, online state, secret key sequence);
- the crime summaries, in two versions;
- the stolen-bike filters, in two versions;
- the area panels, which fetch data for the chosen postcode and extract
  social-media handles from urls.

The repository holds two generations of most components: `src/` (current)
and `front/` (earlier). Both are modelled, and lemmas relate them where they
differ.

Modules, one per source file plus two shared ones:

| module | file | source |
|---|---|---|
| `Common` | common.dfy | nullable values, truthiness, HTTP responses as status and decoded body |
| `Strings` | strings.dfy | ASCII case mapping, `split`/`join`, `includes`, JavaScript string `<` |
| `PostcodePattern` | postcode_pattern.dfy | the postcode regular expression of both search boxes |
| `Postcodes` | postcodes.dfy | front/data/postcodes.ts |
| `SearchBox` | search_box.dfy | src/components/SearchBox.tsx |
| `FrontSearchBox` | front_search_box.dfy | front/components/SearchBox.tsx |
| `App` | app.dfy | src/app.tsx |
| `CrimeList` | crime_list.dfy | src/components/CrimeList.tsx |
| `FrontCrime` | front_crime.dfy | front/components/Crime.tsx |
| `BikeList` | bike_list.dfy | src/components/BikeList.tsx |
| `FrontBikeList` | front_bike_list.dfy | front/components/BikeList.tsx |
| `PostCodeData` | post_code_data.dfy | src/components/PostCodeData.tsx |
| `FrontPostCodeData` | front_post_code_data.dfy | front/components/PostCodeData.tsx |

How the model is built:

- Pure code becomes functions with lemmas. This covers the region
  classifier, the pattern, the suggestion builder, `dehyphenate`,
  `getHandle`, the filters and `readableCategories`.
- Loops become methods with loop invariants, each proved against a
  specification function:
  - `getHighlightLength`;
  - both `summarizeCategories`;
  - `existsData`;
  - both `bikeFilter`.
- React components become classes. Their state fields are class fields,
  and each handler is a method with a `modifies` clause.
- Side effects are recorded in fields of the class, not performed:
  - the callbacks (`updatePostcode`, `foundValid`) append their argument
    to a list;
  - `localStorage` is a field;
  - `navigator.vibrate` increments a counter;
  - a `fetch` appends its query to a list of requests.
- The response to a request is applied by a separate method, which takes
  the status and the decoded body as parameters.

Two behaviours of the code worth knowing:

- `highlightLength("EC1A 1", "EC1A1BB")` returns 5. In the loop at
  src/components/SearchBox.tsx:163-176, the query's space is skipped
  without moving the candidate cursor, so the five characters "EC1A1" are
  bold. `SearchBox.HighlightExamples` proves 5.
- Responses are applied as they arrive, tagged only with their own query.
  A response to a superseded query is not discarded, so
  `ApplyLookupResponse` applies whatever response it is given.

## Model

| member | source | states |
|---|---|---|
| PostcodePattern.TailAcceptsIff | src/components/SearchBox.tsx:187 | the greedy reading of the pattern's tail accepts exactly the strings that can be cut into `[0-9]?`, `[A-Z]?`, `[0-9 ]{0,3}`, `[A-Z]{0,2}` |
| PostcodePattern.PatternMatchesIff | src/components/SearchBox.tsx:187-188 | the whole pattern matches iff one or two leading capitals are followed by a matching tail |
| PostcodePattern.Capture | src/components/SearchBox.tsx:187-188 | capture group 1 exists iff the pattern matches; it is one or two capitals and a prefix of the query |
| PostcodePattern.CaptureIsLeadingLetters | src/components/SearchBox.tsx:187-188 | on a match, the capture is the first two characters when both are letters, else the first one |
| PostcodePattern.OneLetterExtends | src/components/SearchBox.tsx:187 | a match with one letter followed by a letter is also a match with two, so greedy `{1,2}` never stops at one |
| PostcodePattern.EmptyDoesNotMatch | src/components/SearchBox.tsx:187 | the empty string does not match |
| PostcodePattern.CaptureExampleE | src/components/SearchBox.tsx:187-188 | "E1 6AN" captures "E" |
| PostcodePattern.CaptureExampleEC | src/components/SearchBox.tsx:187-188 | "EC1A" captures "EC" |
| PostcodePattern.CaptureExampleZ | src/components/SearchBox.tsx:187-188 | "Z1" captures "Z" |
| PostcodePattern.CaptureRejects | src/components/SearchBox.tsx:187 | a lower-case letter or a leading digit fails the pattern |
| Postcodes.RegionsWellShaped | front/data/postcodes.ts:5-125 | every key is one or two capital letters and every name is non-empty |
| Postcodes.RegionsDistinct | front/data/postcodes.ts:5-125 | the keys are strictly increasing in string order, hence distinct |
| Postcodes.SingleLetterKeysExact | front/data/postcodes.ts:7-115 | the one-letter keys are exactly B, E, G, L, M, N, S and W |
| Postcodes.NoKeyWithUnusedInitial | front/data/postcodes.ts:5-125 | no key starts with J, Q, V or X |
| Postcodes.OnlyZE | front/data/postcodes.ts:125 | "ZE" (Lerwick) is the only key starting with Z |
| SearchBox.Prefixed | src/components/SearchBox.tsx:191-192 | the filtered entries are exactly the table entries whose key starts with the capture |
| SearchBox.SmallestIsLeast | src/components/SearchBox.tsx:195 | the `reduce` keeps an entry no other entry's key is smaller than |
| SearchBox.RegionName | src/components/SearchBox.tsx:185-196 | null iff the query is empty; undefined iff it is non-empty and either fails the pattern or no key starts with the capture; otherwise the name of a least key starting with the capture |
| SearchBox.RegionNameOfLeast | src/components/SearchBox.tsx:191-195 | with distinct keys, the name of the least key starting with the capture is the result (converse of the above) |
| SearchBox.ExactKeyWins | src/components/SearchBox.tsx:191-195 | a capture that is itself a key yields that key's name, whatever longer keys it begins |
| SearchBox.EastLondon | front/data/postcodes.ts:36 | "E1 6AN" is in East London |
| SearchBox.EastCentralLondon | front/data/postcodes.ts:37 | "EC1A" is in East Central London, not East London |
| SearchBox.Lerwick | front/data/postcodes.ts:125 | "Z1" is in Lerwick by the prefix rule |
| SearchBox.UnusedInitialUndefined | src/components/SearchBox.tsx:189-194 | a query starting with J, Q, V or X has an undefined region |
| SearchBox.CommonPrefix | src/components/SearchBox.tsx:159-177 | the result is a prefix of both strings and they differ right after it |
| SearchBox.GetHighlightLength | src/components/SearchBox.tsx:159-177 | the loop returns the aligner's value, at most the candidate's length, and the bold part without spaces is the longest common prefix of the query and the candidate without spaces |
| SearchBox.HighlightIsCommonPrefix | src/components/SearchBox.tsx:163-176 | the bold part, spaces removed, is the longest common prefix of the query and the candidate, spaces removed |
| SearchBox.HighlightCoversQuery | src/components/SearchBox.tsx:163-176 | when the query is a prefix of the candidate, spaces aside, all of it is bold |
| SearchBox.HighlightExamples | src/components/SearchBox.tsx:163-176 | ("EC1A","EC1A 1BB") gives 4, ("EC1A 1","EC1A1BB") gives 5, ("XYZ","EC1A 1BB") gives 0 |
| SearchBox.HighlightOfEmptyQuery | src/components/SearchBox.tsx:163 | an empty query bolds nothing |
| SearchBox.Suggest | src/components/SearchBox.tsx:129-136 | bold plus plain is the candidate, and the bold part without spaces is the longest common prefix of query and candidate without spaces |
| SearchBox.Suggestions | src/components/SearchBox.tsx:127-137 | one suggestion per candidate, in order; bold plus plain is the candidate; the bold part is the aligned common prefix |
| SearchBox.RemoveFirstSpace | src/components/SearchBox.tsx:140 | `replace(" ", "")` removes the first space and nothing else |
| SearchBox.RemoveFirstSpaceAfter | src/components/SearchBox.tsx:140 | removing the first space of a space-free word, a space and a rest joins the word to the rest |
| SearchBox.ExactSingleMatchOneSpace | src/components/SearchBox.tsx:140 | "EC1A 1BB" matches the single candidate "EC1A1BB" |
| SearchBox.ExactSingleMatchTwoSpaces | src/components/SearchBox.tsx:140 | "E 1 6" does not match the single candidate "E16", because only its first space is removed |
| SearchBox.ExactSingleMatchTwoCandidates | src/components/SearchBox.tsx:140 | with two candidates there is never an exact single match |
| SearchBox.Restore | src/components/SearchBox.tsx:37-41 | a truthy stored search is restored, anything else gives "" |
| SearchBox.SearchBox.constructor | src/components/SearchBox.tsx:34-50 | the search string comes from storage, the region is classified, and a lookup is sent for a non-empty search when online |
| SearchBox.SearchBox.SetError | src/components/SearchBox.tsx:68-73 | the error becomes the argument; a vibration only on a switch from false to true |
| SearchBox.SearchBox.ReceiveProps | src/components/SearchBox.tsx:56-62 | going offline clears only the suggestions; coming online requests the current search; otherwise nothing changes |
| SearchBox.SearchBox.HandleSearchUpdate | src/components/SearchBox.tsx:79-103 | empty input posts null and resets the state; otherwise as `UpdateQuery`; storage always holds the resulting search string |
| SearchBox.SearchBox.UpdateQuery | src/components/SearchBox.tsx:91-99 | an undefined region raises the error and keeps the previous string and region; a truthy new region requests a lookup for a changed query |
| SearchBox.SearchBox.ApplyRegion | src/components/SearchBox.tsx:91-99 | the same update for any region value: the error is set iff it is undefined, and storage keeps the resulting search string |
| SearchBox.SearchBox.HandleAutoComplete | src/components/SearchBox.tsx:109-115 | choosing the current string does nothing; another string is set, posted and stored, and clears the suggestions and error |
| SearchBox.SearchBox.ApplyLookupResponse | src/components/SearchBox.tsx:121-151 | for a query that was looked up: a non-200 status is no candidates; one exactly matching candidate clears the suggestions and is posted; otherwise null is posted and all candidates are suggested; the error is set iff there are none |
| FrontSearchBox.Lookup | front/components/SearchBox.tsx:157 | `regions[k]` is defined iff some entry has key k, and then it is that entry's name |
| FrontSearchBox.LookupOfKey | front/components/SearchBox.tsx:157 | with distinct keys, looking up a key gives its own name |
| FrontSearchBox.RegionForPostcode | front/components/SearchBox.tsx:154-158 | null iff the pattern fails (empty query included); undefined iff the capture is not a key; otherwise the name under the capture |
| FrontSearchBox.ClassifiersAgreeOnExactKey | front/components/SearchBox.tsx:154-158 | where the capture is a key, the earlier and the later classifiers give the same name |
| FrontSearchBox.PrefixUndefinedImpliesExactUndefined | front/components/SearchBox.tsx:154-158 | a query the prefix rule finds no region for has no name under the exact lookup either |
| FrontSearchBox.FrontZ1Undefined | front/components/SearchBox.tsx:157 | "Z1" is undefined under the exact lookup but Lerwick under the prefix rule |
| FrontSearchBox.FrontUnusedInitialHasNoName | front/components/SearchBox.tsx:154-158 | a query starting with J, Q, V or X never gets a name |
| FrontSearchBox.Suggestions | front/components/SearchBox.tsx:130-136 | each suggestion bolds exactly min(query length, candidate length) characters, and bold plus plain is the candidate |
| FrontSearchBox.NaiveBoldIgnoresSpaces | front/components/SearchBox.tsx:132 | for "EC1A1" and "EC1A 1BB" the earlier box bolds "EC1A " where the later one bolds "EC1A 1" |
| FrontSearchBox.ResultOrEmpty | front/components/SearchBox.tsx:128 | a missing or null result is the empty list |
| FrontSearchBox.FrontSearchBox.constructor | front/components/SearchBox.tsx:36-51 | the search string comes from storage, the region starts as "", and a lookup is sent for a truthy stored search when online |
| FrontSearchBox.FrontSearchBox.SubmitPostcode | front/components/SearchBox.tsx:56-58 | the current string is reported |
| FrontSearchBox.FrontSearchBox.SetError | front/components/SearchBox.tsx:76-83 | the error becomes the argument; a vibration only on a switch from false to true |
| FrontSearchBox.FrontSearchBox.ReceiveProps | front/components/SearchBox.tsx:64-70 | going offline clears only the suggestions; coming online requests the current search |
| FrontSearchBox.FrontSearchBox.HandleSearchUpdate | front/components/SearchBox.tsx:89-106 | the upper-cased input is always shown and stored; "" is reported for empty input; the error is set iff the input is non-empty and its region undefined; a lookup is sent iff the input is non-empty and the region is not undefined or the input is one character long |
| FrontSearchBox.FrontSearchBox.HandleAutoComplete | front/components/SearchBox.tsx:112-117 | a different choice is set and reported; the same one does nothing |
| FrontSearchBox.FrontSearchBox.ApplyLookupResponse | front/components/SearchBox.tsx:124-147 | for a query that was looked up: suggestions for every result; the error is set iff there are none; a single result is reported without comparing it to the query |
| App.KeyStep | src/app.tsx:52-60 | matched keys stay a proper prefix of the secret; a continuing key is pushed; any other key empties the list; completion empties it and is signalled exactly when the secret is complete |
| App.KeyRunAppend | src/app.tsx:52-60 | running two series of keys in turn is running their concatenation |
| App.KeyRunPrefix | src/app.tsx:50-60 | typing a proper prefix of the secret from a clean start matches exactly that prefix |
| App.SecretCompletes | src/app.tsx:50-60 | typing the secret completes it once and leaves nothing matched |
| App.NoRestartOnRepeatedFirstKey | src/app.tsx:53-54 | a third "ArrowUp" empties the match instead of restarting it |
| App.App.constructor | src/app.tsx:28-37 | no postcode, no toasts, info hidden, online as the browser reports |
| App.App.Mount | src/app.tsx:67-71 | starting offline queues one toast |
| App.App.KeyDown | src/app.tsx:52-60 | the keydown listener performs `KeyStep` and changes nothing else |
| App.App.UpdatePostcode | src/app.tsx:78-80 | only the postcode changes |
| App.App.AddToast | src/app.tsx:88-94 | the toast goes to the back, earlier ones unchanged, and autoHide is the argument (default true) |
| App.App.DismissToast | src/app.tsx:99-102 | exactly the first toast goes; an empty queue stays empty |
| App.App.GoOffline | src/app.tsx:39-42 | offline, with one toast appended |
| App.App.GoOnline | src/app.tsx:44-47 | online, with one toast appended |
| App.App.ShowInfo | src/app.tsx:107-109 | the info dialog is shown |
| App.App.HideInfo | src/app.tsx:114-116 | the info dialog is hidden |
| CrimeList.Distinct | src/components/CrimeList.tsx:62-70 | the categories that occur, each once |
| CrimeList.SummarizeCategories | src/components/CrimeList.tsx:61-73 | for ordinary keys (not integer-like, not `Object.prototype` names): the keys are the categories that occur, in first-occurrence order; each maps to its number of crimes; absent categories are absent |
| CrimeList.CountsSumToTotal | src/components/CrimeList.tsx:64-72 | the counts add up to the number of crimes |
| CrimeList.DehyphenateIsSpaced | src/components/CrimeList.tsx:80-84 | split, capitalise and join equals the character-wise transformation |
| CrimeList.DehyphenatePointwise | src/components/CrimeList.tsx:80-84 | the length is kept; every hyphen becomes a space; the first character of every word is upper-cased; nothing else changes |
| CrimeList.DehyphenateExample | src/components/CrimeList.tsx:80-84 | "anti-social-behaviour" becomes "Anti Social Behaviour" |
| CrimeList.DehyphenateEmptyWord | src/components/CrimeList.tsx:81-83 | "a--b" becomes "A  B" and "" stays "" |
| CrimeList.Rows | src/components/CrimeList.tsx:92-97 | one row per category: its readable name and its count |
| CrimeList.RenderShowsTableIffCrimes | src/components/CrimeList.tsx:90-113 | for ordinary keys: the table is shown iff there are crimes, with one row per category and counts summing to the total |
| CrimeList.CrimeList.constructor | src/components/CrimeList.tsx:25-35 | no crimes; a fetch for a truthy postcode |
| CrimeList.CrimeList.ReceiveProps | src/components/CrimeList.tsx:41-45 | a fetch only when the postcode changes to a non-null value |
| CrimeList.CrimeList.ApplyCrimes | src/components/CrimeList.tsx:51-54 | the crimes of a 200 response, none otherwise |
| FrontCrime.CategoriesDistinct | front/components/Crime.tsx:182-214 | the fifteen cases name fifteen different slugs |
| FrontCrime.CategoryIndex | front/components/Crime.tsx:182-214 | the case the switch enters first, or 15 when none |
| FrontCrime.SummarizeCategories | front/components/Crime.tsx:164-217 | fifteen counters; counter i counts the crimes whose category is among the first i + 1 cases |
| FrontCrime.CountOfCategory | front/components/Crime.tsx:182-214 | a crime of the k-th case adds one to counters k to 14 and to no other |
| FrontCrime.CountOfUnknown | front/components/Crime.tsx:182-214 | a crime of an unlisted category changes no counter |
| FrontCrime.CountOfCrime | front/components/Crime.tsx:182-214 | one more crime adds one to every counter from the case it enters first, and nothing to the others |
| FrontCrime.CountsNonDecreasing | front/components/Crime.tsx:181-216 | the counters never decrease along the list |
| FrontCrime.CounterStep | front/components/Crime.tsx:182-214 | each counter minus the one before it is the number of crimes of its own category |
| FrontCrime.FirstCounter | front/components/Crime.tsx:183-184 | the first counter counts "all-crime" alone |
| FrontCrime.LastCounter | front/components/Crime.tsx:212-216 | the last counter is the number of crimes with a listed category |
| FrontCrime.SomeCounterPositive | front/components/Crime.tsx:181-227 | some counter is positive iff some crime has a listed category |
| FrontCrime.ExistsData | front/components/Crime.tsx:220-227 | true iff some entry is positive |
| FrontCrime.ReadableCategory | front/components/Crime.tsx:108-142 | a slug the switch does not list gets "idk lol" |
| FrontCrime.ReadableCategoryListed | front/components/Crime.tsx:108-142 | the k-th listed slug gets the k-th label |
| FrontCrime.ReadableCategoryKnown | front/components/Crime.tsx:108-142 | the label is "idk lol" iff the slug is not listed |
| FrontCrime.SummaryExample | front/components/Crime.tsx:190-213 | a burglary counts in counter 3 and every later one, not in counter 2; an unlisted slug counts nowhere |
| BikeList.BikeFilter | src/components/BikeList.tsx:36-50 | the loop keeps a bike iff the search is empty or some string field, lower-cased, contains the lower-cased search |
| BikeList.Filter | src/components/BikeList.tsx:52 | a bike is shown iff it is in the list and the filter keeps it; every kept bike keeps all its copies, and every other bike has none |
| BikeList.FilterIsSubsequence | src/components/BikeList.tsx:52-53 | the shown list is a subsequence of the bikes, in order |
| BikeList.EmptySearchKeepsAll | src/components/BikeList.tsx:37-39 | an empty search shows every bike |
| BikeList.CaseInsensitive | src/components/BikeList.tsx:43 | upper- or lower-casing the search changes nothing |
| BikeList.NonStringFieldsNeverMatch | src/components/BikeList.tsx:42-47 | numbers, null and booleans never match, and never fail the filter |
| BikeList.LongerSearchKeepsFewer | src/components/BikeList.tsx:43 | a bike kept for a longer search is kept for its prefix |
| BikeList.LongerSearchSubsequence | src/components/BikeList.tsx:52 | the list for a longer search is a subsequence of the list for a shorter one |
| BikeList.BikeList.UpdateSearch | src/components/BikeList.tsx:27-29 | only the search changes |
| BikeList.BikeList.View | src/components/BikeList.tsx:52-71 | a message when there are no thefts, another when the filter leaves none, else exactly the filtered list: every kept bike, with all its copies, in order |
| FrontBikeList.BikeFilter | front/components/BikeList.tsx:29-44 | the loop keeps a bike iff the search is empty or some string field, lower-cased, contains the search as typed |
| FrontBikeList.Filter | front/components/BikeList.tsx:47-48 | a bike is shown iff it is in the list and the filter keeps it; every kept bike keeps all its copies, and every other bike has none |
| FrontBikeList.FilterIsSubsequence | front/components/BikeList.tsx:47-49 | the shown list is a subsequence of the bikes, in order |
| FrontBikeList.EmptySearchKeepsAll | front/components/BikeList.tsx:30-32 | an empty search shows every bike |
| FrontBikeList.CapitalSearchKeepsNothing | front/components/BikeList.tsx:36 | a search with a capital letter keeps no bike |
| FrontBikeList.AgreesOnLowerCaseSearch | front/components/BikeList.tsx:36 | without capitals in the search, the earlier and the later filters agree |
| FrontBikeList.FrontBikeList.UpdateSearch | front/components/BikeList.tsx:23-25 | only the search changes |
| FrontBikeList.FrontBikeList.Shown | front/components/BikeList.tsx:47-49 | exactly the filtered list: every kept bike, with all its copies, in their order |
| PostCodeData.GetHandle | src/components/PostCodeData.tsx:227-234 | null for a falsy url; a handle is never empty and never contains "/" |
| PostCodeData.HandleOfBareName | src/components/PostCodeData.tsx:229-231 | a url without a slash is its own handle |
| PostCodeData.HandleAfterLastSlash | src/components/PostCodeData.tsx:229-230 | the handle is the segment after the last slash |
| PostCodeData.HandleBeforeTrailingSlash | src/components/PostCodeData.tsx:229-230 | with a trailing slash, the handle is the segment before it, both for "name/" and for a url ending in "/name/" |
| PostCodeData.NoHandleAfterDoubleSlash | src/components/PostCodeData.tsx:229-231 | "/" and any url ending in "//" have no handle |
| PostCodeData.PostCodeData.constructor | src/components/PostCodeData.tsx:39-56 | no data; the four fetches for a truthy postcode |
| PostCodeData.PostCodeData.ReceiveProps | src/components/PostCodeData.tsx:62-79 | null clears all five fields; the same postcode does nothing; a new one starts the four fetches |
| PostCodeData.PostCodeData.ApplyCrimes | src/components/PostCodeData.tsx:85-88 | the crimes of a 200 response, [] otherwise |
| PostCodeData.PostCodeData.ApplyBikes | src/components/PostCodeData.tsx:94-97 | the bikes of a 200 response, [] otherwise |
| PostCodeData.PostCodeData.ApplyNearby | src/components/PostCodeData.tsx:103-106 | the places of a 200 response, [] otherwise |
| PostCodeData.PostCodeData.ApplyLocalData | src/components/PostCodeData.tsx:113-121 | the address and the neighbourhood of 200 responses, null otherwise |
| PostCodeData.PoliceInfo.constructor | src/components/PostCodeData.tsx:202-211 | no tweets; a request when the twitter url has a handle |
| PostCodeData.PoliceInfo.ReceiveProps | src/components/PostCodeData.tsx:252-261 | an unchanged url does nothing; a change to null clears the tweets; another change requests the tweets of its handle, if any |
| PostCodeData.PoliceInfo.ApplyTweets | src/components/PostCodeData.tsx:217-220 | the tweets of a 200 response, [] otherwise |
| FrontPostCodeData.NullIfMessage | front/components/PostCodeData.tsx:95-98 | a body with a truthy `message` is null, any other body is kept |
| FrontPostCodeData.EmptyMessageIsKept | front/components/PostCodeData.tsx:96-97 | an empty or absent message keeps the body |
| FrontPostCodeData.FrontPostCodeData.constructor | front/components/PostCodeData.tsx:41-53 | no data and no card; both fetches for a truthy postcode |
| FrontPostCodeData.FrontPostCodeData.ReceiveProps | front/components/PostCodeData.tsx:60-72 | an unchanged postcode does nothing; null clears the neighbourhood and address, so no card is shown, but keeps the nearby places; a new one starts both fetches |
| FrontPostCodeData.FrontPostCodeData.ApplyNearby | front/components/PostCodeData.tsx:78-81 | the places as received, whatever the status |
| FrontPostCodeData.FrontPostCodeData.ApplyLocalData | front/components/PostCodeData.tsx:88-99 | each body is stored, or null when it carries a message, so its card is shown iff its message is falsy |
| FrontPostCodeData.FrontPostCodeData.Render | front/components/PostCodeData.tsx:105-112 | the local information card, with the address and the nearby places, iff there is an address; the police card, with the neighbourhood, iff there is one |
| FrontPostCodeData.FrontPoliceInfo.constructor | front/components/PostCodeData.tsx:159-168 | no tweets; a request when the twitter url has a handle |
| FrontPostCodeData.FrontPoliceInfo.ReceiveProps | front/components/PostCodeData.tsx:209-218 | an unchanged url does nothing; a change to null clears the tweets; another change requests the tweets of its handle, if any |
| FrontPostCodeData.FrontPoliceInfo.ApplyTweets | front/components/PostCodeData.tsx:174-177 | the tweets as received, whatever the status |

## Left out

- Network, storage and device calls are not performed: `fetch`, `localStorage`, `navigator.vibrate`, `navigator.onLine` and `window.addEventListener`. Each is a parameter or a recorded field, as described above.
- The order in which responses arrive is not modelled: each response is applied by its own method call, in whatever order the caller chooses.
- Rendering is not modelled: the JSX, the react-md components, `LocalInfo`, the `PoliceInfo` markup and `Bike`. Only the decisions of `render` are modelled:
  - `CrimeList.Render`;
  - `BikeList.BikeList.View`;
  - `FrontPostCodeData.FrontPostCodeData.Render`.
- The Twitter, HyperLinkListItem, Message, people/person, searchbox, crime and AreaData components of `front/` and `src/` are display code or repeat `getHandle` inline, and are not part of this model.
- `cleanHTMLTags` depends on the browser's HTML parser and is not part of this model.
- The service worker, the webpack configuration and the bootstrap files are cache, build and mounting code, and are not part of this model.
- `toUpperCase` and `toLowerCase` are modelled for ASCII letters only. Other characters are unchanged.
- `SearchBox.SearchBox.ApplyLookupResponse`: a 200 response whose `result` is null would throw in the source. The model takes a list of candidates, so that case does not arise.
- The table rows at front/components/Crime.tsx:259-293 label the counters with an offset; this is display only and is not modelled.
- `CrimeList.SummarizeCategories`: a category is assumed to be neither an integer-like string nor the name of an `Object.prototype` member. In JavaScript, `Object.keys` lists integer-like keys first, in numeric order, so ["10", "2"] gives the keys ["2", "10"]. An inherited name such as "constructor" is already truthy on `{}`, so its entry becomes a string, not a count. "__proto__" never becomes a key. The model treats every category as an ordinary key, in first-occurrence order, with an exact count. Police category slugs are hyphenated words, so none of these cases arises for real data.
- `CrimeList.RenderShowsTableIffCrimes`: it rests on the same assumption. For crimes whose only category is "__proto__", the source shows the no-crime message, whereas the model shows a table.
- The `console.log` calls of the key handler and of `summarizeCategories` are dropped. Completing the secret is instead returned as a flag by `App.App.KeyDown`.
- A crime is modelled by its category slug, because no other field is read. A bike is modelled as its list of fields in key order, with a field value that is a string, a number, null or a boolean.
- The constructor and `componentWillReceiveProps` of front/components/Crime.tsx only fetch and reset the crime list, and are not modelled.
- The `fetchData` of front/components/BikeList.tsx is never called, so the earlier bike list's bikes are only set at construction.
- The `getHandle` of front/components/PostCodeData.tsx:184-191 is the same code as the later one and is modelled by `PostCodeData.GetHandle`.
- The region classifier being a pure function of the query and the table needs no lemma: Dafny functions are deterministic.
