# Decentralized Greeting Board in Dafny

This project models the Decentralized Greeting Board. It is an on-chain
guestbook: a `GreetingBoard` contract keeps the five most recent greetings
and counts every greeting it ever accepted. A web client reads and writes
those greetings through a connected wallet.

The project has two parts:

- `ledger.dfy` (module `Ledger`) models the contract. `GreetingBoard` is a
  class with the retained `greetings` and the `totalGreetings` counter.
  `WriteGreeting` rejects an empty message. Otherwise it drops the oldest
  greeting when the board is full, appends the new one, counts it and
  returns the `GreetingUpdated` event. A ghost field `accepted` records
  every accepted greeting, evicted ones included. The invariant `Valid()`
  ties the board to that history: `totalGreetings == |accepted|`, and
  `greetings` is the last `min(|accepted|, 5)` of `accepted`.
- `greeting_list.dfy`, `greeting_form.dfy` and `history_page.dfy` model the
  client logic of the three React components:
  - sorting newest or oldest first, with the sort toggle;
  - avatar colours, abbreviated addresses and relative ages;
  - the submit guard, which trims the draft and shows that the ledger
    accepts what it sends;
  - the submit button's disabled state and the error text;
  - the per-account history filter and its statistics panel.

  `strings.dfy` models the JavaScript string built-ins these components
  use: `trim`, `includes`, `slice`, `toLowerCase`, and number-to-text.
  `util.dfy` holds `Option`, `Min` and `Max`.

The Solidity source of the contract is not part of this model. Its
behaviour is taken from the contract's tests (`test/GreetingBoard.test.ts`).
Its interface (the function names, the `greetings(uint256)` getter and the
event payload) is taken from the ABI in `frontend/src/wagmi.config.ts`.

Inputs the environment supplies are parameters:

- the calling account and the block time of a write;
- the current time of the relative-age display;
- the wallet's connection state and address;
- the progress of a pending write.

## Model

| member | source | states |
|---|---|---|
| `Ledger.Retained` | test/GreetingBoard.test.ts:38-53 | What the board keeps of a history of accepted writes: its last `min(n, 5)` greetings, in write order. |
| `Ledger.RetainedAppend` | test/GreetingBoard.test.ts:38-53 | Dropping the oldest greeting of a full board and appending the new one keeps exactly the last five writes. |
| `Ledger.Evict` | test/GreetingBoard.test.ts:38-53 | The eviction step of a write leaves a suffix of the board, at most one greeting shorter, with room for one more greeting. |
| `Ledger.GreetingBoard.constructor` | test/GreetingBoard.test.ts:12-17 | A freshly deployed board has no greetings, a zero counter and an empty history. |
| `Ledger.GreetingBoard.WriteGreeting` | test/GreetingBoard.test.ts:19-61 | An empty message reverts with "Message cannot be empty" and changes nothing. Otherwise the write evicts the oldest greeting when full and appends `(caller, message, now)`. It adds one to the counter and returns `GreetingUpdated(caller, message, now)`. The invariant is kept. |
| `Ledger.GreetingBoard.GetAllGreetings` | frontend/src/wagmi.config.ts:63-80 | `getAllGreetings` returns at most five greetings, `min(total, 5)` of them: the last accepted writes, oldest first. |
| `Ledger.GreetingBoard.GetGreetingsCount` | frontend/src/wagmi.config.ts:82-86 | `getGreetingsCount` is `min(total, 5)`, so it never exceeds 5 or the total. |
| `Ledger.GreetingBoard.GetTotalGreetings` | frontend/src/wagmi.config.ts:88-93 | `getTotalGreetings` (and the public `totalGreetings`) is the number of accepted writes, evicted ones included. It is at least the retained count. |
| `Ledger.GreetingBoard.GreetingAt` | frontend/src/wagmi.config.ts:96-104 | `greetings(i)` succeeds exactly when `i < min(total, 5)`. It then returns the greeting of accepted write number `total - retained + i`. Past the end it fails. |
| `Ledger.Notifications` | frontend/src/wagmi.config.ts:120-129 | A history of accepted writes emits one `GreetingUpdated` per write, in order, each carrying that write's sender, message and timestamp. |
| `Ledger.Replay` | test/GreetingBoard.test.ts:19-89 | Deploying a board and sending it a sequence of transactions leaves the last accepted writes retained and a total equal to the number of accepted writes. Each accepted write emits one event carrying that write's sender, message and time. |
| `Ledger.AllAccepted` | test/GreetingBoard.test.ts:55-61 | When every transaction has a message, all are accepted, in order, so the total equals the number of writes. |
| `Ledger.SixWritesKeepLastFive` | test/GreetingBoard.test.ts:38-53 | After six writes with messages, five greetings remain: the second through the sixth write, in order. |
| `Ledger.RetainedAreLatestWrites` | test/GreetingBoard.test.ts:70-80 | The retained greetings are the latest writes in the order sent, whichever accounts sent them. Each has its own sender, message and block time. |
| `Strings.Trim` | frontend/src/components/GreetingForm.tsx:39 | `trim()` returns a string no longer than its input, with no whitespace at either end. |
| `Strings.TrimIsInfix` | frontend/src/components/GreetingForm.tsx:45 | The trimmed string is the infix of the input that starts at its first non-whitespace character. Only whitespace comes before it and after it. |
| `Strings.TrimEmptyIffAllWhitespace` | frontend/src/components/GreetingForm.tsx:39 | `trim()` gives "" exactly when the input is all whitespace. |
| `Strings.TrimIdempotent` | frontend/src/components/GreetingForm.tsx:45 | Trimming a trimmed string changes nothing. |
| `Strings.ContainsIffOccurs` | frontend/src/components/GreetingForm.tsx:196-197 | `includes` holds exactly when the pattern occurs at some offset. |
| `Strings.Contains` | frontend/src/components/GreetingForm.tsx:196-197 | `includes` is false when the pattern is longer than the text, and true when the text starts with the pattern. |
| `Strings.LowerChar` | frontend/src/components/HistoryPage.tsx:29 | `toLowerCase` on one character: a capital ASCII letter becomes its small letter, every other character is unchanged, and no capital ASCII letter comes out. |
| `Strings.ToLower` | frontend/src/components/HistoryPage.tsx:29 | `toLowerCase` keeps the length, lowers each character on its own, and leaves no capital ASCII letter. |
| `Strings.ToLowerIdempotent` | frontend/src/components/HistoryPage.tsx:29 | Lowering a lowered string changes nothing. |
| `Strings.SliceFirst` | frontend/src/components/GreetingList.tsx:258 | `slice(0, n)` is the prefix of length `min(n, length)`. |
| `Strings.SliceLast` | frontend/src/components/GreetingForm.tsx:62 | `slice(-n)`, for positive `n`, is the suffix of length `min(n, length)`. |
| `Strings.DecimalString` | frontend/src/components/GreetingList.tsx:311-313 | The number in "N minutes/hours/days ago" is written as a non-empty string of digits with no leading zero. |
| `Strings.DecimalRoundTrip` | frontend/src/components/GreetingList.tsx:311-313 | Reading the written digits back gives the number. |
| `GreetingList.Toggled` | frontend/src/components/GreetingList.tsx:70 | The toggle always gives the other order. |
| `GreetingList.ToggleTwice` | frontend/src/components/GreetingList.tsx:69-71 | Two toggles restore the original order. |
| `GreetingList.GreetingListView.constructor` | frontend/src/components/GreetingList.tsx:31-32 | The list starts newest first, with no refresh showing. |
| `GreetingList.GreetingListView.HandleToggleSort` | frontend/src/components/GreetingList.tsx:69-71 | `handleToggleSort` swaps newest and oldest and leaves the refresh flag alone. |
| `GreetingList.GreetingListView.HandleRefresh` | frontend/src/components/GreetingList.tsx:62-63 | A refresh turns the indicator on and keeps the sort order. |
| `GreetingList.GreetingListView.RefreshSettled` | frontend/src/components/GreetingList.tsx:65 | The settled refresh turns the indicator off and keeps the sort order. |
| `GreetingList.Compare` | frontend/src/components/GreetingList.tsx:75-80 | The comparator is zero exactly for equal timestamps. It is negative exactly when the first greeting is newer (newest first) or older (oldest first). |
| `GreetingList.CompareAntisymmetric` | frontend/src/components/GreetingList.tsx:75-80 | Swapping the comparator's arguments negates its result. |
| `GreetingList.InOrder` | frontend/src/components/GreetingList.tsx:75-80 | A greeting may stay before another exactly when its timestamp is at least (newest first) or at most (oldest first) the other's. |
| `GreetingList.SwapKeepsTimestampOrder` | frontend/src/components/GreetingList.tsx:75-80 | Exchanging two neighbours with different timestamps keeps the order among the greetings of every timestamp. |
| `GreetingList.SwapNeighbours` | frontend/src/components/GreetingList.tsx:75-80 | The exchange step of the in-place sort swaps two neighbours with different timestamps. It keeps the array a permutation and keeps the greetings of each timestamp in order. |
| `GreetingList.InsertInto` | frontend/src/components/GreetingList.tsx:75-80 | One insertion step of the in-place sort extends the ordered prefix by one greeting. It keeps the array a permutation of what it held and keeps equal-timestamp greetings in order. |
| `GreetingList.SortInPlace` | frontend/src/components/GreetingList.tsx:75-80 | `Array.prototype.sort` with the comparator, in place. The array ends up ordered by the comparator, is a permutation of what it held, and is stable: the greetings of every timestamp keep their original order. |
| `GreetingList.SortedGreetings` | frontend/src/components/GreetingList.tsx:74-81 | With no fetched data the list is empty. Otherwise it is a permutation of the fetched greetings, the same length. Newest first has non-increasing timestamps; oldest first has non-decreasing ones. Greetings with equal timestamps keep their fetched order. The fetched list is a value, so sorting the copy cannot reorder it. |
| `GreetingList.ColorIndex` | frontend/src/components/GreetingList.tsx:179 | The avatar index is always a valid index into the five-entry palette. The first five cards take the palette in order. |
| `GreetingList.AvatarGradient` | frontend/src/components/GreetingList.tsx:270 | Every card's gradient is one of the palette's entries. |
| `GreetingList.ColorIndexCycles` | frontend/src/components/GreetingList.tsx:16-22 | Neighbouring cards never share a colour, and colours repeat every five cards. |
| `GreetingList.ShortAddress` | frontend/src/components/GreetingList.tsx:258 | The short address is the first six characters, then "...", then the last four. Either side is the whole address if it is shorter. A 42-character address gives 13 characters. |
| `GreetingList.FormatRelativeTime` | frontend/src/components/GreetingList.tsx:305-315 | Under 60 seconds, future times included, the age reads "just now". Minutes cover 60 to 3599 seconds (1 to 59), hours 3600 to 86399 (1 to 23) and days 86400 to 604799 (1 to 6). Each count is the number of whole units elapsed. A week or more falls through to the locale date of `timestamp * 1000` milliseconds. |
| `GreetingList.CountCaption` | frontend/src/components/GreetingList.tsx:311-313 | A count caption is the count's decimal digits, with no leading zero, followed by the unit. Reading the digits back gives the count. |
| `GreetingList.Caption` | frontend/src/components/GreetingList.tsx:310-313 | Every age except the locale date has a non-empty text. Under a minute it reads "just now". Otherwise it is the bucket's count in decimal followed by " minutes ago", " hours ago" or " days ago". |
| `GreetingList.EarlierReadsOlder` | frontend/src/components/GreetingList.tsx:305-315 | A greeting posted earlier never reads as newer than one posted later. |
| `GreetingList.NewestFirstReadsYoungestFirst` | frontend/src/components/GreetingList.tsx:76-78 | In newest-first order, the ages shown down the list never get younger. |
| `GreetingForm.GreetingFormState.constructor` | frontend/src/components/GreetingForm.tsx:17 | The draft starts empty. |
| `GreetingForm.GreetingFormState.SetMessage` | frontend/src/components/GreetingForm.tsx:86 | Editing the textarea sets the draft. |
| `GreetingForm.GreetingFormState.HandleSubmit` | frontend/src/components/GreetingForm.tsx:37-47 | A draft that trims to "" triggers no write. Any other draft sends the trimmed draft. That argument has no whitespace at either end and passes the ledger's only rejection rule. The draft is left unchanged. |
| `GreetingForm.GreetingFormState.ConfirmationEffect` | frontend/src/components/GreetingForm.tsx:49-51 | Once the write is confirmed the draft is reset to ""; before that it is kept. |
| `GreetingForm.SubmitDisabled` | frontend/src/components/GreetingForm.tsx:123 | The button is disabled exactly when the wallet is not connected, the draft is all whitespace, or a write is awaiting the wallet or its confirmation. |
| `GreetingForm.EnabledSubmitIsAccepted` | frontend/src/components/GreetingForm.tsx:39-45 | Whenever the button is enabled, the message sent is one the ledger accepts. |
| `GreetingForm.ConnectedShortAddress` | frontend/src/components/GreetingForm.tsx:61-63 | The form's short address is "" exactly when there is no (or an empty) address. Otherwise it has the six + "..." + four shape. |
| `GreetingForm.GetErrorMessage` | frontend/src/components/GreetingForm.tsx:194-200 | "user rejected" is checked before "insufficient funds", so a message with both reads "Transaction was rejected". An empty message reads "Unknown error". An unmatched message over 100 characters becomes its first 100 plus "..."; shorter ones are unchanged. The text is never empty and at most 103 characters. |
| `HistoryPage.SentBy` | frontend/src/components/HistoryPage.tsx:29 | A match needs a connected address of the sender's length, and a sender always matches its own address. |
| `HistoryPage.SentByIgnoresCase` | frontend/src/components/HistoryPage.tsx:29 | An address and its lower-case form match the same greetings. |
| `HistoryPage.FilterBySender` | frontend/src/components/HistoryPage.tsx:28-30 | The account's list is an order-preserving subsequence of the fetched greetings, no longer than them. A greeting is in it exactly when its sender equals the address ignoring case. With no address it is empty. |
| `HistoryPage.FilterKeepsMultiplicity` | frontend/src/components/HistoryPage.tsx:28-30 | Each greeting of the account appears in the filtered list as many times as in the fetched list, and every other greeting not at all. So two identical posts both count. |
| `HistoryPage.UserGreetings` | frontend/src/components/HistoryPage.tsx:27-31 | With no fetched data or no connected address the list is empty. Otherwise it is the order-preserving case-insensitive sender filter. Each matching greeting is kept as many times as it was fetched, so "Total Greetings" counts repeated posts. |
| `HistoryPage.FilterIdempotent` | frontend/src/components/HistoryPage.tsx:28-30 | Filtering the filtered list by the same address returns it unchanged. |
| `HistoryPage.UserGreetingsBounded` | frontend/src/components/HistoryPage.tsx:110 | Over what the board retains, the account's count is at most five. |
| `HistoryPage.YourStats` | frontend/src/components/HistoryPage.tsx:104-116 | The stats show only when connected with a non-empty list. The count is the list's length, and "Last Posted" reads an existing element, the last. |
| `HistoryPage.LastPostedIsLatest` | frontend/src/components/HistoryPage.tsx:116 | The greeting "Last Posted" reads is the account's latest retained one. No later greeting on the board was sent by that account. |

## Left out

- Wallet and RPC plumbing is not modelled: the hooks, transports, query invalidation and event watching. The wallet's and the write's state become parameters.
- JSX rendering, styling, page routing, the static documentation page and the loading, error and empty views are not modelled.
- Timers are not modelled. This covers the 500 ms delay before `RefreshSettled` and the 5 s `resetWrite`. `refetch` itself is network I/O.
- `Date.now()` is a parameter (`now`, in seconds). `toLocaleDateString` and the history page's `formatDate` depend on the locale: the model stops at the millisecond value passed to `new Date`.
- The `Number(bigint)` conversions in the comparator and the relative age are exact integers in the model, so float rounding is not modelled.
- The 280-character cap and the textarea's `disabled` state are enforced by the browser, not by code shown here. `SetMessage` accepts any text, and the ledger has no length bound.
- The Solidity source is not part of this model. One consequence: the board evicts when it holds exactly five greetings. Under the invariant this cannot differ from a `>= 5` test.
- Solidity's 256-bit arithmetic is not modelled. `totalGreetings` and timestamps are unbounded naturals, so the counter's overflow revert is out of reach.
- Accounts are their hexadecimal address text. The 20-byte address value and checksum casing are not modelled beyond case-insensitive comparison.
- Events are returned by `WriteGreeting`, not delivered to subscribers.
- `Ledger.GreetingBoard.GreetingAt`: does not model the panic code of an out-of-range read, only that it fails.
- `Strings.LowerChar`: lower-cases ASCII letters only, because addresses are ASCII hexadecimal; `toLowerCase` also maps other scripts.
- `GreetingForm.GetErrorMessage`: counts length and cuts at 100 Unicode code points. JavaScript counts UTF-16 code units, so messages with characters outside the Basic Multilingual Plane are cut at a different place.
- Which error the form shows (`writeError || confirmError`) and the status banners are rendering and are not modelled.
