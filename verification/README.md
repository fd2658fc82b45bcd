# Medication reminder and chat assistant — a Dafny model

This project models the two pieces of logic in the medication-reminder web
page: the reminder engine and the chat assistant's streaming protocol.

**The reminder engine** has these parts:
- The store of reminders. Each reminder has an id, a medicine, a dosage, a
  date and its "HH:MM" time slots.
- The add form, with its times-per-day selector and slot inputs.
- Adding and deleting reminders.
- The once-a-second check. It matches the store against the current date
  and minute, shows the due reminder in the popup, and asks for a spoken
  announcement unless the single remembered key says it was already spoken.
- The popup's OK button. It removes the matched slot, and removes a
  reminder once its last slot is gone.

**The chat assistant** has these parts:
- The send action and its blank-question guard.
- The growing transcript.
- The handling of the server-sent event stream:
  - only `data:` lines are kept;
  - the `[DONE]` sentinel is skipped;
  - every other line is parsed into a token;
  - the tokens are appended to the reply;
  - the assistant's entry shows the first five lines of the reply.

Everything is an immutable value, and every step is a pure function.

**Modules**, one per file:

| module | what it holds |
|---|---|
| `Options` | the optional value |
| `Seqs` | order-preserving filter and flattening |
| `Strings` | the string operations of JavaScript the code relies on, stated in Dafny |
| `Reminders` | reminder records, the form, add, delete, OK |
| `Poller` | one run of the reminder check, as written |
| `OnceTracker` | the corrected check (see Findings) |
| `Engine` | the page as a state machine over user events and ticks |
| `ChatStream` | the line framing, token accumulation and five-line display |
| `ChatBot` | the send action and the whole exchange |

**The `Strings` operations:**
- `trim`, using the white-space and line-terminator set of ECMA-262;
- `startsWith`;
- `replace` of the first occurrence;
- `split` and `join` on one character;
- decimal printing of a non-negative integer.

**Inputs.** The current date and minute, the `Date.now()` stamp of a new
reminder, and the decoded response chunks are inputs. The speech request is
an emitted text. The JSON decoding of one event and the lookup of
`choices[0].delta.content` are a parameter `parse`:
- it returns the token;
- an absent or empty content gives `""`;
- `None` stands for a payload the decoder throws on.

**What the code does and does not check:**
- The code keeps one remembered key (src/App.jsx:108-111). `Poller` models
  that key, and `OnceTracker` is a variant that keeps a set of announced
  (id, minute) pairs.
- Corrupt stored data makes `JSON.parse` throw while the page loads
  (src/App.jsx:11-14). The loaded reminders are an input here.
- Neither ids nor slots are checked for uniqueness. Acknowledging removes
  every slot equal to the matched minute.
- Slots are only checked to be non-empty (src/App.jsx:41), not to be
  well-formed "HH:MM" times.

## Model

| member | source | states |
|---|---|---|
| Reminders.Init | src/App.jsx:6-17 | the page starts with the loaded reminders, an empty form with one empty slot, no popup and no remembered key |
| Reminders.SetTimesPerDay | src/App.jsx:29-31 | choosing a new count leaves exactly that many empty slots; choosing the current count changes nothing; the text fields are kept |
| Reminders.SetTime | src/App.jsx:33-37 | editing slot i sets that slot and keeps every other slot; writing past the end grows the list with empty holes; the other fields are kept |
| Reminders.EditAllSlots | src/App.jsx:33-37 | editing the first slots in turn leaves exactly those values before the untouched remaining slots |
| Reminders.EditAllText | src/App.jsx:33-37 | editing slots never changes medicine, dosage or date |
| Reminders.Add | src/App.jsx:39-57 | an empty medicine, an empty date or any empty slot leaves the page unchanged; otherwise exactly one reminder carrying the form's fields and the stamp as id is appended after the unchanged earlier ones, and the form is reset |
| Reminders.FreshSlotsBlockAdd | src/App.jsx:29-41 | right after choosing a new count, the form cannot be added |
| Reminders.FilledSlotsAdd | src/App.jsx:39-51 | a new count whose every slot is filled with a non-empty time, on a form with a medicine and a date, adds a reminder carrying exactly those times |
| Reminders.Delete | src/App.jsx:59-61 | the result holds only reminders of the store whose id differs, and every such reminder of the store survives |
| Reminders.DeleteKeepsOrder | src/App.jsx:60 | deleting distributes over concatenation, so survivors keep their relative order |
| Reminders.DeleteAbsent | src/App.jsx:60 | deleting an id no reminder carries leaves the store unchanged |
| Reminders.DeleteIdempotent | src/App.jsx:60 | deleting the same id twice is the same as deleting it once |
| Reminders.DeleteReminder | src/App.jsx:59-61 | the delete button changes only the store; the popup and the remembered key are kept |
| Reminders.Without | src/App.jsx:128-130 | the slots kept are exactly the slots other than the matched minute |
| Reminders.WithoutKeepsOrder | src/App.jsx:128-130 | a single slot is kept exactly when it is another minute, and dropping distributes over concatenation, so the other slots keep their order and their repeats |
| Reminders.AcknowledgeAll | src/App.jsx:125-135 | no surviving reminder has an empty slot list; the popup's reminder loses the matched minute; other reminders with slots are kept unchanged; a matched reminder with another slot survives with its other slots; nothing else appears |
| Reminders.AcknowledgeKeepsOrder | src/App.jsx:125-135 | acknowledging distributes over concatenation, so the store's order is kept |
| Reminders.AcknowledgeLastSlot | src/App.jsx:135 | when the matched minute is every slot of the popup's reminder, no reminder with that id remains |
| Reminders.Acknowledge | src/App.jsx:123-140 | OK always closes the popup; with no popup it changes nothing else; with one the store is acknowledged; form and remembered key are kept |
| Reminders.AcknowledgeTwice | src/App.jsx:124-139 | a second OK in a row does nothing |
| Poller.Tick | src/App.jsx:97-115 | a tick changes neither the store nor the form and makes at most one announcement per reminder |
| Poller.Key | src/App.jsx:108 | the key is the id's decimal digits followed by the minute |
| Poller.VoiceText | src/App.jsx:109 | the announcement greets with the minute and ends with the dosage, one space, the medicine and a full stop |
| Poller.Step | src/App.jsx:103-111 | a reminder not due changes nothing; a due one is shown; one whose key differs from the captured key is announced and its key remembered, otherwise nothing is announced and the key is kept |
| Poller.Scan | src/App.jsx:102-114 | a scan only appends announcements, at most one per reminder, and leaves everything as it was when nothing is due |
| Poller.DueOnly | src/App.jsx:103 | exactly the due reminders are kept: each kept one has today's date and the current minute among its slots, and every such reminder is kept |
| Poller.ScanActive | src/App.jsx:102-105 | the scan leaves the popup showing the last due reminder, or unchanged when none is due |
| Poller.ScanSpoken | src/App.jsx:108-111 | the remembered key ends as the key of the last reminder spoken for, or unchanged when none is |
| Poller.ScanAnnounces | src/App.jsx:102-112 | the announcements are the voice texts of the due reminders whose key differs from the key captured at the tick's start, in store order |
| Poller.ScanIgnoresNonDue | src/App.jsx:103 | dropping the reminders that are not due does not change the scan |
| Poller.TickActive | src/App.jsx:102-105 | a tick shows the last due reminder with the matched minute and leaves the popup alone when nothing is due |
| Poller.TickAnnounces | src/App.jsx:108-111 | a tick announces exactly the due reminders not matching the remembered key, in order, and then remembers the last one's key |
| Poller.TickSpoken | src/App.jsx:108-111 | a tick remembers the key of the last reminder spoken for, or keeps the old key when none is |
| Poller.FirstTickSilences | src/App.jsx:108-111 | when the due reminders share one id, the key a tick leaves silences every reminder in that minute |
| Poller.SecondTickSameActive | src/App.jsx:102-105 | a second tick in the same minute shows what the first one showed |
| Poller.TickIgnoresNonDue | src/App.jsx:102-104 | reminders not due neither change the popup nor cause an announcement |
| Poller.SpeakingAll | src/App.jsx:108 | when every reminder is due and none matches the remembered key, all of them are spoken for, in order |
| Poller.KeyInjective | src/App.jsx:108 | within one minute, equal keys mean equal ids |
| Poller.SecondTickSilent | src/App.jsx:107-111 | when the due reminders share one id, the next tick of the same minute announces nothing and changes nothing |
| Poller.LastSpeaking | src/App.jsx:108-111 | finds the last reminder spoken for |
| Poller.LastDue | src/App.jsx:102-105 | finds the last due reminder |
| Poller.DistinctDueAlwaysAnnounce | src/App.jsx:108-111 | with two due reminders of different ids, every tick of that minute announces, whatever key was remembered |
| Poller.SecondTickSilentIff | src/App.jsx:107-111 | the second tick of a minute is silent if and only if the due reminders share one id |
| Poller.AcknowledgedNotDueAgain | src/App.jsx:127-130 | after OK, the acknowledged reminder is no longer due in the matched minute |
| OnceTracker.OnceTick | src/App.jsx:107 | the corrected tick records every due (id, minute) pair and makes exactly one announcement per pair that was new |
| OnceTracker.OnceScanRecords | src/App.jsx:107 | the corrected scan records exactly the due pairs |
| OnceTracker.OnceScanCounts | src/App.jsx:107 | each announcement of the corrected scan records one new pair, and nothing else records one |
| OnceTracker.OnceScanSilent | src/App.jsx:107 | once every due pair is recorded, the corrected scan announces nothing |
| OnceTracker.OnceSecondTickSilent | src/App.jsx:107 | with the corrected tick, however many reminders are due, the tick after a tick of the same minute speaks nothing |
| OnceTracker.OnceAnnouncesBoth | src/App.jsx:102-107 | the corrected tick announces two due reminders of different ids at least twice |
| OnceTracker.ScalarKeyRepeats | src/App.jsx:108-111 | as written, two reminders due at 09:00 are both announced, and the next tick announces again |
| OnceTracker.TwoDueRepeat | src/App.jsx:102-111 | as written, any two due reminders of different ids are both announced by the first tick of a loaded page, and again by the next |
| OnceTracker.SetKeyOnce | src/App.jsx:107 | the corrected tick on the same two reminders announces twice, then is silent |
| Engine.Apply | src/App.jsx:29-140 | each event touches only its part of the page: form events only the form, a submission the store by at most one appended reminder and the form, delete and OK only the store (never growing it) and the popup, a tick only the popup and the remembered key |
| Engine.InitConsistent | src/App.jsx:11-14 | a page loaded from reminders that each have a slot is consistent |
| Engine.ApplyConsistent | src/App.jsx:29-140 | every event the page offers keeps every stored reminder with a slot and the form with a slot |
| Engine.RunConsistent | src/App.jsx:29-140 | no sequence of offered events reaches a store with a slot-less reminder |
| Engine.AspirinMorning | src/App.jsx:102-111 | at 08:00 a reminder with 08:00 and 20:00 slots is announced once and shown; the next tick is silent |
| Engine.AspirinMorningOk | src/App.jsx:123-137 | OK on the 08:00 occurrence leaves only the 20:00 slot |
| Engine.AspirinEvening | src/App.jsx:102-137 | at 20:00 the remaining slot is announced once; OK on it removes the reminder |
| Engine.AspirinDay | src/App.jsx:97-140 | the whole day of one reminder: two announcements, one per slot, and an empty store at the end |
| Strings.Trim | src/ChatBot.jsx:52 | the trimmed text is the text less its leading and trailing white space, and is empty exactly when the text is all white space |
| Strings.IndexOf | src/ChatBot.jsx:57 | finds the first occurrence of a pattern, or reports there is none |
| Strings.ReplaceFirst | src/ChatBot.jsx:57 | only the first occurrence is replaced; with none the text is unchanged |
| Strings.ReplaceLeadingPattern | src/ChatBot.jsx:57 | removing the marker from a line that starts with it leaves the payload |
| Strings.Split | src/ChatBot.jsx:52 | splitting gives at least one piece and no piece holds the separator |
| Strings.JoinSplit | src/ChatBot.jsx:62 | joining the pieces of a split restores the text |
| Strings.SplitJoin | src/ChatBot.jsx:62 | splitting a join of separator-free pieces gives back the pieces |
| Strings.JoinPrefix | src/ChatBot.jsx:62 | joining the first pieces gives a prefix of joining all of them |
| Strings.NatToString | src/App.jsx:108 | the decimal form of an id is non-empty and made of digits |
| Strings.NatToStringInjective | src/App.jsx:108 | different ids print differently |
| ChatStream.Limit | src/ChatBot.jsx:62 | the displayed text is a prefix of the reply that splits into exactly the reply's first lines, at most five of them |
| ChatStream.LimitKeepsShort | src/ChatBot.jsx:62 | a reply of at most five lines is displayed whole |
| ChatStream.DataLines | src/ChatBot.jsx:52 | every line kept trims to something starting with `data:`, and every such line of the chunk is kept |
| ChatStream.DataLinesKeepsOrder | src/ChatBot.jsx:52 | a single line is kept exactly when it is a data line, and the filter distributes over concatenation, so kept lines keep their order and their repeats |
| ChatStream.LineToken | src/ChatBot.jsx:55-57 | a line that trims to the sentinel yields nothing; a line starting with `data: ` hands the parser what follows the marker; a line without the marker is handed to the parser whole |
| ChatStream.Accept | src/ChatBot.jsx:55-68 | a line yielding no token changes nothing; a token is appended to the reply, the transcript keeps its length and earlier entries, and a non-empty transcript then shows the limited reply last |
| ChatStream.ReplaceLast | src/ChatBot.jsx:64-67 | only the last entry is replaced, the length is kept, and an empty transcript stays empty |
| ChatStream.FeedAppend | src/ChatBot.jsx:54-72 | the lines of a chunk are handled one after the other |
| ChatStream.Feed | src/ChatBot.jsx:54-72 | the reply becomes the old reply followed by every token in line order; only the last transcript entry changes and it keeps showing the limited reply; lines yielding no token change nothing |
| ChatStream.InertLineIgnored | src/ChatBot.jsx:52-71 | a non-data line, the sentinel or a line the parser rejects contributes nothing, and the lines after it are handled as if it were absent |
| ChatStream.DoneLineYieldsNothing | src/ChatBot.jsx:52-55 | any line that trims to the sentinel, such as the sentinel with a trailing carriage return, passes the filter and yields no token |
| ChatStream.DoneLineTrims | src/ChatBot.jsx:55 | the sentinel, bare or followed by a carriage return, trims to the sentinel |
| ChatStream.ProcessChunk | src/ChatBot.jsx:51-72 | one chunk grows the reply by the tokens of its data lines and changes only the last entry |
| ChatStream.FollowsTrans | src/ChatBot.jsx:47-72 | the effects of consecutive chunks compose |
| ChatStream.ProcessStream | src/ChatBot.jsx:47-72 | over the whole stream, the reply is every token of every chunk in order, and the transcript changes only in its last entry, which keeps showing the limited reply |
| ChatBot.Submit | src/ChatBot.jsx:18-23 | a question made only of white space sends nothing and changes nothing; any other is appended as the user's entry, clears the input, and the new transcript is what is posted |
| ChatBot.SendTwice | src/ChatBot.jsx:18-23 | sending from the input box clears it, so sending again at once sends nothing |
| ChatBot.Answer | src/ChatBot.jsx:45-72 | the streamed answer adds exactly one assistant entry after the transcript, showing the limited concatenation of every token |
| ChatBot.Converse | src/ChatBot.jsx:18-79 | a blank question changes nothing; otherwise the input is cleared and the user's entry is appended; a failed request adds nothing more; a read stream adds one assistant entry showing the limited tokens |
| ChatBot.EmptyShown | src/ChatBot.jsx:45 | a fresh empty assistant entry shows the empty reply |
| ChatBot.LimitEmpty | src/ChatBot.jsx:62 | the empty reply is displayed as the empty text |
| ChatBot.ConverseShowsStart | src/ChatBot.jsx:62 | the assistant's entry shows a prefix of the concatenated tokens, at most five lines of it |
| ChatBot.SilentStreamEmptyEntry | src/ChatBot.jsx:45-72 | a stream yielding no token leaves the assistant's entry empty |

## Left out

- Network calls are not modelled. This covers the speech request and its
  audio playback (src/App.jsx:64-93) and the chat completion request
  (src/ChatBot.jsx:27-41). An announcement is its text; a request is the
  transcript posted.
- Local storage is not modelled (src/App.jsx:11-14, 24-26). The loaded
  reminders are an input. They are not validated, as in the code, so the
  store invariant of `Engine` requires it of the loaded data.
- The clock is not modelled (src/App.jsx:98-100). The current date and
  minute are inputs. The code mixes a UTC date with a local time; that
  choice belongs to the caller here.
- Timers are not modelled (src/App.jsx:117-120). One tick is one step, and
  ticks are serialized with user events.
- Chunk decoding and reading are not modelled (src/ChatBot.jsx:41-51). The
  decoded chunks are an input. A line split across chunks is seen as two
  lines, as in the code.
- The JSON decoding of an event is not modelled. It is the parameter `parse`.
- Rendering is not modelled (src/App.jsx:142-237, src/ChatBot.jsx:81-131).
  This covers the `loading` and `open` flags and the browser's form checks
  for `required` fields.
- The suggested questions are only the `arg` of `ChatBot.Submit`.
- `Date.now()` ids are not modelled. The stamp is an input, and ids are not
  assumed unique.
- Reminders.SetTime: JavaScript leaves holes when a slot past the end is
  written, and the model fills them with empty slots. The two differ at the
  add guard: `some` skips holes, so the code would accept a form with holes,
  while the model's empty slots fail `Submittable`. The difference cannot
  arise on the page: the slot inputs are rendered from the slot list itself
  (src/App.jsx:182-187), so an edit never writes past the end.
- Strings.Trim: JavaScript strings are UTF-16 code units, while Dafny
  characters are Unicode scalar values. The two agree on the white-space set
  and on text in the Basic Multilingual Plane.
- ChatBot.Converse: a stream that fails while being read is modelled as
  ending after the chunks read so far, which is what the code's catch
  leaves on screen.

## Findings

| source | as written | input that shows it | evidently intended | confidence | as-written member | corrected member |
|---|---|---|---|---|---|---|
| src/App.jsx:107-111 | each due reminder is compared with one remembered key, and only the last spoken key is kept | two reminders with ids 1 and 2, both due 2025-01-01 at 09:00: every tick of that minute announces again | each (id, minute) occurrence is announced only once, as the comment on line 107 says | not executed | OnceTracker.ScalarKeyRepeats | OnceTracker.OnceSecondTickSilent |

`Engine` runs the page as written, with `Poller.Tick`, because the model is
of the page's behaviour. `OnceTracker.OnceTick` is the corrected tick, and
the announce-once property is proved of it.
