# Submarine monitor: protocol engine model

A Dafny model of the client-side protocol engine of the submarine monitoring
page (`public/app.js`). The page logs in, opens a WebSocket to the monitoring
server, and handles three kinds of server messages. Ping responses register newly
detected submarines. Position updates move a submarine whose key is known.
Intercepted communications arrive as numbered packets that are reassembled,
XOR-decrypted and decoded from Morse. A brute-force search, one key per interval
tick, recovers a submarine's key. When the socket closes, the page reconnects
with capped exponential backoff.

Modules, one file each:

- `Wrappers`: the `Option` type.
- `Numbers`: powers of two, and XOR on naturals defined bit by bit. JavaScript's `^` on the small non-negative values the page uses.
- `Cipher`: `xorDecrypt`. The base64 decoder `atob` is a parameter returning `None` where it would throw.
- `Morse`: `MORSE_CODE_DICT` exactly as written, JavaScript `trim`/`split`/`join`, and `morseToText`.
- `Html`: `escapeHtml`.
- `Fragments`: the reassembly buffer of one message. Slots are `seq<Option<string>>`, with a received count.
- `KeySearch`: the key search as a specification. It gives the outcome of trying keys from a cursor upwards.
- `Registry`: submarine records, and how a ping response admits them.
- `Backoff`: the reconnection policy. It has a pure step function, `CloseStep`, and a `Connection` class whose methods are the socket and timer events.
- `Tracker`: the `Monitor` class. It holds the registry (`map<string, Submarine>`) and the running key search, and its methods are the page's handlers.

The methods update their object in place, as the page does. Each one is specified
against a pure function: `Admit`, `AfterUpdate`, `Receive`, `CloseStep`,
`Search`/`Concluded`. Lemmas state the page's promises about those functions. The
class invariant `Monitor.Valid` has three parts. Every position trail ends at the
current position. Every stored buffer is consistent and incomplete. The state,
key, profile, name and colour of each record agree with the outcome of the key
search from key 0.

Choices the model makes about what the code does:

- The code XORs the unmasked key with each byte. The model therefore bounds keys, and so difficulties, below 256 (`Cipher.KeyLimit`), where every result is a byte.
- The code's Morse table has entries for `0` and for punctuation, but those keys lack the trailing space that the lookup `code + ' '` adds, so they never match. The model keeps the table as written, and `Morse.MorseAlphabet` proves that `0`, `.` and `?` can never appear in the output.
- A message completed without a usable key shows the placeholder in the plain and Morse views, and keeps the raw ciphertext in the encrypted view, as the code does.
- The code does not range-check `package_number` or `total_packages`. The model requires `1 <= part <= total`, and a total equal to the size of any existing buffer, of its callers.
- The code tests `if (sub.key)`, so a key of 0, although found by the search, counts as "no key" for position updates and messages (`Tracker.KeyTruthy`).
- Closing the modal stops the search but leaves the submarine in state Decrypting. It can never be searched again.

## Model

| member | source | states |
|---|---|---|
| Numbers.XorInvolution | public/app.js:282 | XOR-ing twice with the same key gives back the original value. |
| Numbers.XorBelow | public/app.js:282 | The XOR of two values below 2^n is below 2^n, so a byte XOR a byte key is a byte. |
| Cipher.XorDecrypt | public/app.js:277-288 | On a base64 failure the result is the sentinel text. Otherwise it has the decoded length, and character i is decoded byte i XOR key. The result equals `Decrypt`. |
| Cipher.XorBytesInvolution | public/app.js:281-283 | Decrypting the decrypted bytes with the same key returns the original bytes. |
| Cipher.RoundTrip | public/app.js:277-288 | Whenever `atob` inverts `btoa`, decrypting `btoa(plain XOR key)` with the key returns the plain text. |
| Cipher.ZeroKeyIdentity | public/app.js:282 | Key 0 returns the decoded text unchanged. |
| Morse.TrimStart | public/app.js:251 | `trimStart` removes exactly the leading JavaScript white space and keeps a suffix. |
| Morse.TrimEnd | public/app.js:251 | `trimEnd` removes exactly the trailing JavaScript white space and keeps a prefix. |
| Morse.IndexOf | public/app.js:251-252 | Returns the first occurrence of the separator at or after `from`, or None if there is none. |
| Morse.Split | public/app.js:251-252 | `split` yields at least one part, the parts joined with the separator give back the input, no part contains the separator, and every cut is at the leftmost occurrence: no occurrence starts inside a part before a cut. |
| Morse.SplitJoin | public/app.js:251-253 | Splitting a join gives back the parts when no separator occurrence starts inside any part but the last (even one running into the next separator) and the last part contains none. |
| Morse.DecodeWords | public/app.js:251-253 | Each word decodes to one entry, and entry i is the decoding of word i. |
| Morse.EmptyCodeIsSpace | public/app.js:31 | An empty code (from a double space) looks up `' '` and yields a space. |
| Morse.LookupAlphabet | public/app.js:28-32 | A lookup yields at most one character, which is a letter, a digit 1-9 or a space. |
| Morse.MorseAlphabet | public/app.js:28-32 | No decoding contains anything but letters, digits 1-9 and spaces. In particular `0`, `.` and `?` never appear, because their table keys lack the trailing space. |
| Morse.DecodeCodesAppend | public/app.js:252 | Decoding a concatenation of code lists is the concatenation of the decodings. |
| Morse.UnknownCodeSkipped | public/app.js:252 | A code missing from the table contributes nothing. |
| Morse.DecodeWordCodes | public/app.js:252 | A word made of Morse codes joined by single spaces decodes to the concatenated lookups. |
| Morse.MorseSentence | public/app.js:249-253 | A sentence of Morse words separated by three spaces decodes to the decoded words joined by single spaces. |
| Morse.Hola | public/app.js:29 | `".... --- .-.. .-"` decodes to `"HOLA"`. |
| Morse.TrailingSpaceIgnored | public/app.js:251 | A trailing space added to non-empty Morse text does not change the decoding, because of `trim`. |
| Html.ReplaceAll | public/app.js:340-344 | A global replacement whose replacement text lacks the character leaves no occurrence of it. |
| Html.EscapeOne | public/app.js:338-345 | A single character passes through the chain to exactly its entity; no entity is rewritten by a later replacement. |
| Html.EscapeHtmlIsEscapeEach | public/app.js:338-345 | The replacement chain equals escaping each character independently, in one pass. |
| Html.EscapedIsInert | public/app.js:338-345 | The escaped text contains no `<`, `>`, `"` or `'`. |
| Fragments.NewAssembly | public/app.js:216-219 | A new buffer has `total` empty slots and a count of 0, which agree. |
| Fragments.Place | public/app.js:222-226 | Only an empty slot is written, only that write is counted, and a filled slot leaves the buffer unchanged. The count stays equal to the number of written slots. |
| Fragments.FilledUpdate | public/app.js:223-225 | Writing an empty slot adds exactly one written slot. |
| Fragments.AllFilled | public/app.js:228 | When the count equals the number of slots, every slot is written. |
| Fragments.JoinFilled | public/app.js:229 | The join of fully written slots is the in-order concatenation of the parts. |
| Fragments.DeliverSlots | public/app.js:215-226 | After any sequence of arrivals, slot i holds part i exactly when part i+1 has arrived, whatever the order and the repeats. |
| Fragments.ArrivalOrderIrrelevant | public/app.js:222-229 | Once every part has arrived, in any order, the count equals the total and the join is the in-order concatenation. |
| Fragments.CompleteOnlyWhenAllArrived | public/app.js:228 | The count reaches the total only after every part has arrived. |
| KeySearch.TryKey | public/app.js:311-319 | A key is accepted exactly when its decryption starts with `{` and parses, and it yields the parsed profile. |
| KeySearch.SearchFindsFirst | public/app.js:303-334 | A found key is within the difficulty, is accepted, and every smaller key from the cursor on was rejected. |
| KeySearch.SearchExhaustsRange | public/app.js:303-309 | A failed search has tried and rejected every key up to the difficulty. |
| KeySearch.SearchComplete | public/app.js:303-334 | If some key within the difficulty is accepted, the search succeeds with a key no larger than it. |
| KeySearch.SearchSkipsRejected | public/app.js:334 | Skipping rejected keys does not change the search's outcome. |
| Registry.AdmitKeys | public/app.js:138-142 | After a ping, the ids present are the old ones plus the detected ones. |
| Registry.AdmitKeepsExisting | public/app.js:139 | An id already present keeps its record unchanged, including history and counters. |
| Registry.AdmitFirstDetection | public/app.js:146-162 | A new id gets the record built from its first detection, with history equal to the single detected position. |
| Backoff.RetryDelay | public/app.js:124 | The delay never exceeds 30 s, and is either 30 s or 1000·2^n ms. |
| Backoff.DelaySchedule | public/app.js:124 | Delays are 2000, 4000, 8000 and 16000 ms, then 30000 ms from the fifth attempt on. |
| Backoff.RetryDelayMonotone | public/app.js:124 | A later attempt never waits less. |
| Backoff.CloseCounts | public/app.js:112-116 | Code 1000 or a falsy token schedules nothing and keeps the counter. Any other close adds one attempt. |
| Backoff.RetryWhileWithinLimit | public/app.js:116-126 | A close retries exactly while the new counter is at most 10, with that counter's delay, and gives up beyond 10. |
| Backoff.ClosesRetryUntilLimit | public/app.js:116-126 | In a run of failing closes, the i-th retries with the delay of its counter while the counter is within the limit, and gives up after. |
| Backoff.ElevenCloses | public/app.js:116-126 | From counter 0, eleven failing closes retry after 2, 4, 8, 16 s and then six times 30 s, and the eleventh gives up. |
| Backoff.Connection.OnOpen | public/app.js:83-92 | Opening shows Connected, resets the counter to 0 and cancels the pending timer. |
| Backoff.Connection.OnClose | public/app.js:107-127 | The new counter and the action are those of `CloseStep`. A retry arms the timer with its delay; giving up shows the failure status. |
| Backoff.Connection.Connect | public/app.js:74-81 | A falsy token does nothing; otherwise the status becomes Connecting. |
| Backoff.Connection.LoggedIn | public/app.js:48-49 | Login stores the token and connects with it. |
| Backoff.Connection.OnError | public/app.js:128-132 | An error changes only the status line. |
| Backoff.Connection.TimerFires | public/app.js:126 | The timer reconnects with the stored token and clears itself. |
| Tracker.ReceiveCounts | public/app.js:213-231 | Every packet of a known submarine is counted. The message counter rises by one exactly when a message completes; a completed message leaves no buffer and becomes the last message. |
| Tracker.CompletedViews | public/app.js:233-242 | With no usable key, the plain and Morse views and the last message are the placeholder. With one, the plain view is the Morse decoding of the decrypted ciphertext. |
| Tracker.DuplicatePartIgnored | public/app.js:213-226 | Re-sending a written part changes nothing but the packet counter. |
| Tracker.FeedDelivers | public/app.js:213-229 | Feeding the packets of one message to the handler in any arrival order, until the message completes, leaves a stored buffer equal to `Deliver` of the same arrivals. |
| Tracker.FeedCompletes | public/app.js:213-245 | The packet bringing the last missing part, whatever the order and repeats before it, completes the message: its encrypted view is the in-order concatenation of the parts, the views are those of that ciphertext, and the buffer is dropped. |
| Tracker.CompletesOnLastPart | public/app.js:223-229 | The packet bringing the last missing part completes the message with the in-order join of the slots. |
| Tracker.UpdateMovesOne | public/app.js:169-190 | A position update changes nothing without a truthy key. With one, a decryption that parses moves the submarine to the parsed position and appends that position to its trail, and one that does not parse leaves the registry unchanged. No other record ever changes. |
| Tracker.Monitor.HandlePingResponse | public/app.js:136-144 | The registry becomes `Admit` of the detections; a missing list changes nothing. |
| Tracker.Monitor.HandleSubmarineUpdate | public/app.js:169-190 | The registry becomes `AfterUpdate`, keeping every trail ending at its position. |
| Tracker.ReceivePacket | public/app.js:213-245 | The packet step on one record, written step by step, returns exactly the record and views of `Receive`. |
| Tracker.Monitor.HandleCommunication | public/app.js:208-246 | An unknown id changes nothing. Otherwise the record and the returned views are those of `Receive`, and every buffer stays consistent and incomplete. |
| Tracker.Monitor.StartDecryption | public/app.js:291-302 | Only a known submarine in state Encrypted starts a search. It moves to Decrypting with the cursor at key 0. |
| Tracker.Monitor.Tick | public/app.js:302-335 | Past the difficulty, the submarine is Failed and the search stops. An accepted key solves it (name, key, profile, colour) and stops the search. Otherwise the cursor moves to the next key. |
| Tracker.Monitor.RunSearch | public/app.js:302-335 | Ticking until the interval clears ends the submarine in the state given by `Search` from key 0: Decrypted with the first accepted key, or Failed. |
| Tracker.Monitor.CloseModal | public/app.js:63-72 | Closing the modal stops the search and changes no record. |
| Tracker.Monitor.Dispatch | public/app.js:93-106 | Each message type goes to its handler, and any other type changes nothing. |

## Left out

- `server.js`: static file hosting only; it is not part of this model.
- Login (public/app.js:34-54) is left out because it is network I/O. Only storing the returned token and connecting with it are modelled (`LoggedIn`).
- The DOM, Leaflet and UI rendering are display only: map, markers, polylines, popups, table, chat container, view toggle and modal status lines. For the same reason, the views of a completed message are returned rather than appended to the chat.
- Real sockets and timers are not modelled. Open, close, error, timer expiry and interval ticks are explicit method calls, and `RunSearch` runs the ticks back to back.
- `atob` and `JSON.parse` are browser built-ins, so the model takes them as parameters. The same goes for parsing a server message into the `Message` datatype.
- `typeof morseString !== 'string'` is left out because the model's input is always a string. The empty string yields `""`, as in the code.
- Tracker.Monitor.StartDecryption: requires a difficulty below 256. Larger keys are left out because the unmasked XOR can then produce code units outside Latin-1.
- Tracker.Monitor.StartDecryption: requires that no search is running. The single shared `decryptionInterval` handle is modelled as one running search, and the modal covers the table while a search runs.
- Tracker.Monitor.HandleCommunication: requires `1 <= part <= total` and a total equal to the size of an existing buffer. The code does not guard against other values, so part numbers outside the range, a total of 0 and a changed total are not modelled.
- Tracker.Monitor.Dispatch: carries the same part and total preconditions as `HandleCommunication` for a Communication message, for the same reason.
- Tracker.ReceivePacket: carries the same part and total preconditions as `HandleCommunication`, for the same reason.
- A pending reconnection timer that a second close could overwrite without clearing is not modelled. Neither are several sockets at once: `connectWebSocket` replaces `socket` without closing the old one, whose handlers can still fire. The model has one connection, whose events are method calls.
- Timestamps are plain map keys. Collisions with JavaScript object property names (such as `__proto__`) are not modelled.
- Positions are opaque pairs of reals; no arithmetic is done on them.
