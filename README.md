# NetShield Pro scan session, in Dafny

NetShield Pro is a single-page web application. A user types a URL, the
page "scans" it, and the result is kept in a history list with lifetime
counters. The scan is a keyword check with a random confidence score, not
a real detector. The history, the counters and the colour theme are stored
in the browser's local storage.

This project models the page's state machine: the component's state and
the event handlers that change it. It is in three modules:

- `Text` (`text.dfy`) covers the three JavaScript string operations the page
  uses. `String.prototype.trim` uses the full ECMAScript white-space and
  line-terminator set. `toLowerCase` covers every character that lower-cases
  to an ASCII letter. `includes` is substring search, characterised by an
  explicit occurrence predicate.
- `Scan` (`scan.dfy`) holds the values and the pure steps of a scan:
  - the keyword classifier and the confidence score;
  - the result record;
  - prepend-and-truncate on the 50-entry history;
  - the counter update;
  - deletion of history entries by date;
  - the theme switch.

  Each step has lemmas that state what it means. For the history and the
  counters, the lemmas also cover any number of consecutive scans.
- `Page` (`session.dfy`) holds the component. `Session` is a class whose
  fields are the component's state variables (`theme`, `url`, `scanHistory`,
  `stats`, `currentResult`), plus `storage`, the decoded contents of local
  storage. Its methods are the handlers, and each one assigns the fields the
  handler sets. `Valid()` is the invariant every handler keeps:
  - the counters add up;
  - the history has at most 50 entries;
  - every entry is a result the classifier can produce.

  `Mount` is the page opening: the initial state, then the mount effect.

The page's clock and random number source are passed to the model as
parameters:
- `now` is the ISO timestamp string that `new Date().toISOString()`
  produces.
- `draw` is the value of `Math.random()`, a real number in [0, 1).

Each handler is one atomic step. The two-second simulated delay inside
`analyzeUrl` is not modelled.

Three details of the code are worth stating outright:
- `deleteFromHistory` (app/page.tsx:101) filters out every entry with the
  given date. If two entries share a date, both go.
- `rescan` (app/page.tsx:106-109) analyses the stored URL exactly as given,
  without trimming. It also puts the URL in the input field.
- The mount effect (app/page.tsx:35-44) loads stored values without
  validating them.

## Model

| member | source | states |
|---|---|---|
| Text.Trim | app/page.tsx:95-96 | the result has no white space at either end, the input is the result padded with white space on both sides, and the result is empty exactly when the input is all white space |
| Text.TrimPadded | app/page.tsx:95-96 | trimming a trimmed string padded with any white space on each side gives back exactly that string |
| Text.TrimIdempotent | app/page.tsx:95-96 | trimming twice is the same as trimming once |
| Text.LowerChar | app/page.tsx:66 | each of `A`..`Z` becomes the lower-case letter at the same place in the alphabet, lower-case letters stay, only `A`..`Z` and the Kelvin sign change, and no upper-case ASCII letter comes out |
| Text.Lower | app/page.tsx:66 | lower-casing keeps the length and maps each character on its own |
| Text.LowerIdempotent | app/page.tsx:66 | lower-casing twice is the same as lower-casing once |
| Text.LowerAppend | app/page.tsx:66 | lower-casing distributes over concatenation |
| Text.Includes | app/page.tsx:66 | `includes` is true exactly when the keyword occurs at some index of the string |
| Scan.AnyIncluded | app/page.tsx:65-66 | `some(k => s.includes(k))` is true exactly when some keyword of the list occurs somewhere in the string |
| Scan.Classify | app/page.tsx:65-71 | the verdict is never `Malicious`, and it is `Suspicious` exactly when the lower-cased URL contains one of "phishing", "scam", "fake", "malware", "virus" |
| Scan.KeywordFlagged | app/page.tsx:65-71 | any URL that contains a keyword written in lower case, whatever surrounds it, is `Suspicious` |
| Scan.UpperKeywordFlagged | app/page.tsx:65-71 | any URL that contains a keyword in any letter case, whatever surrounds it, is `Suspicious` |
| Scan.ClassifyIgnoresCase | app/page.tsx:66 | two URLs that lower-case to the same string get the same verdict |
| Scan.ExampleFlagged | app/page.tsx:65-71 | "http://example.com/phishing" is `Suspicious` |
| Scan.ExampleFlaggedUpper | app/page.tsx:65-71 | "HTTP://EXAMPLE.COM/PHISHING" is `Suspicious` |
| Scan.ExampleSafe | app/page.tsx:65-71 | "http://example.com" is `Safe` |
| Scan.Confidence | app/page.tsx:72 | `Math.floor(draw * 30) + 70` lies in 70..99 for every draw in [0, 1) |
| Scan.ConfidenceOnto | app/page.tsx:72 | every score in 70..99 is the score of some draw in [0, 1) |
| Scan.MakeResult | app/page.tsx:68-73 | the record carries the analysed URL unchanged and the timestamp, its verdict is the classifier's, and it is well-formed (not `Malicious`, confidence in 70..99) |
| Scan.PushHistory | app/page.tsx:76 | the new result is the head, old entry `i` becomes entry `i+1`, and the length is `min(old length + 1, 50)` |
| Scan.Newest | app/page.tsx:76 | `slice(0, 50)` yields the first `min(length, 50)` entries, in their order |
| Scan.Reverse | app/page.tsx:76 | entry `i` of the reversed list is entry `n-1-i` of the list, where `n` is its length |
| Scan.PushAllNewest | app/page.tsx:76 | after any sequence of scans, the history is the first 50 entries of the scans newest first, followed by the old history. When the old history is over 50 entries long, as an unchecked stored list can be, this holds once at least one scan has run |
| Scan.RescanKeepsEntry | app/page.tsx:106-109 | rescanning entry `i` puts that URL at the head and keeps the original entry at position `i+1` unless that is past position 50 |
| Scan.BumpStats | app/page.tsx:77-81 | `total` goes up by one, `safe` goes up by one (and `threats` does not) exactly when the verdict is `Safe`, `threats` goes up by one (and `safe` does not) exactly when it is not |
| Scan.BumpKeepsConsistent | app/page.tsx:77-81 | one scan keeps `total == threats + safe` |
| Scan.BumpAllCounts | app/page.tsx:77-81 | after any sequence of scans `total` has grown by their number, `threats` by the number of non-`Safe` verdicts, and the sum still holds |
| Scan.DeleteByDate | app/page.tsx:101 | no entry with the date remains, every entry with another date keeps its number of occurrences, and the survivors keep their order |
| Scan.SubsequenceWithin | app/page.tsx:101 | the filtered history is no longer than the old one and holds only old entries |
| Scan.DeleteKeepsWellFormed | app/page.tsx:101 | filtering a well-formed history leaves it well-formed |
| Scan.DeleteAbsent | app/page.tsx:101 | deleting a date no entry carries leaves the history as it is |
| Scan.DeleteIdempotent | app/page.tsx:101 | deleting the same date twice is the same as deleting it once |
| Scan.Flip | app/page.tsx:47 | the new theme is always the other one |
| Scan.FlipTwice | app/page.tsx:46-49 | toggling twice restores the original theme |
| Page.Session.constructor | app/page.tsx:28-33 | initial state: light theme, empty input, empty history, zero counters, no current result; the invariant holds |
| Page.Session.Load | app/page.tsx:35-44 | every stored value present replaces the current one and the others stay; loading stored values of the kind a session writes keeps the invariant |
| Page.Session.ToggleTheme | app/page.tsx:46-51 | the theme flips and is written to storage, and nothing else changes |
| Page.Session.SetUrl | app/page.tsx:379 | the input field takes the typed text, and nothing else changes |
| Page.Session.Analyze | app/page.tsx:58-91 | the result becomes the current result, the head of the history and a bump of the counters, storage receives the new history and counters, the theme and input stay, and the invariant is kept |
| Page.Session.HandleSubmit | app/page.tsx:93-98 | an input that trims to nothing changes nothing, otherwise the trimmed input is analysed and recorded, and the invariant is kept |
| Page.Session.DeleteFromHistory | app/page.tsx:100-104 | the history loses every entry with the date and is written to storage, while the counters, the current result, the theme and the input stay, and the invariant is kept |
| Page.Session.Rescan | app/page.tsx:106-109 | the input field shows the URL and the URL is analysed untrimmed and recorded, and the invariant is kept |
| Page.Mount | app/page.tsx:28-44 | opening the page shows the stored history, counters and theme, or the defaults where nothing is stored, and well-formed stored values give a valid session |

## Left out

- Rendering: the JSX markup and styling, the decorative "digital rain" arithmetic, and the display-only truncation of the history table are not logic.
- JSON encoding: storage holds decoded values (`Storage`), not JSON text. `JSON.parse` on malformed text and an empty stored string are not modelled.
- Stored values of the wrong shape are not modelled either. Examples are a theme other than "light"/"dark", or negative or fractional counters. Such values have no Dafny value of the right type.
- Page.Session.Load: the invariant holds after loading only when the stored values are well-formed, because the page does not check what it loads.
- Math.random: the draw is an exact real in [0, 1). IEEE double rounding of `draw * 30` is not modelled.
- Date: the timestamp is an opaque string parameter. Its format and uniqueness are not modelled.
- Concurrency: the two-second `setTimeout`, `async`/`await` and the `isScanning` flag are not modelled. Each scan is one atomic step. `analyzeUrl` builds its new history (app/page.tsx:76) and counters from the state it captured before the delay. So the model leaves out what happens when other handlers run during the delay. Two overlapping scans (for example, a rescan while a scan is in flight) lose one result. An entry deleted during a scan reappears when the scan finishes, because the delete buttons are not disabled.
- The input's `type="url"` and `required` attributes (app/page.tsx:376, 381) are not modelled. With them the browser blocks an empty or non-URL submission before `handleSubmit` runs. `SetUrl` and `HandleSubmit` accept any text.
- Text.LowerChar: lower-casing is exact only for `A`..`Z` and the Kelvin sign. The model leaves every other character unchanged and keeps the length. JavaScript also lower-cases other letters, and `U+0130` becomes two characters. None of these mappings can produce a keyword, since every keyword is in ASCII lower case and none ends in `i`.
- The DOM side effect of the theme toggle (`classList.toggle`) is not modelled.
- `preventDefault` on the submit event is not modelled.
