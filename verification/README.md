# Conversation memory of the NPC chat mod, in Dafny

This project models the conversation-memory core of an in-game NPC chat mod and
proves properties of it. The model has five modules.

- **`ConversationSystem`** (`conversation_system.dfy`) is the conversation store
  (`ConvoManager`). It is a class `Store` with these tables as `map` fields:
  - the active conversations;
  - the archived conversations;
  - the participant → active conversation index;
  - the durable pair index, pair key → last summary;
  - the chat-id counter.

  Each locked call becomes one atomic method: open (with an optional forced id),
  close, append with a soft cap, replace or read history, set summary, set
  context, and the maintenance sweeper. The store invariant says: no id is both active
  and archived; every record sits under its own id, with two participants and
  an activity flag that matches its table, and id 0 is never used; the
  participant index is sound and complete; and the counter is at least 100.
  It is proved to be preserved under the preconditions where the code actually
  keeps it.
- **`OptChatMem`** (`opt_chat_mem.dfy`) is the single-flight live-compression
  coordinator `ChatOptimizer`. It decides when a job is started and which window
  it covers. It then splices the summary over exactly that window.
- **`ModMain`** (`mod_main.dfy`) holds the parts of the script's main module that
  drive the store:
  - the rising-edge key detector;
  - `EndConversation` (snapshot, archive, summary gate, reset of the session
    globals) and the summary write-back gate;
  - the end-of-turn classifier;
  - the mod root path slice.
- **`HelperFunctions`** (`helper_functions.dfy`) holds:
  - `WordWrap` and `SplitString`, each an imperative loop proved against a
    recursive specification;
  - the LoRA adapter resolution order;
  - the size guard of the exported copy-out calls.
- **`StdString`** (`std_string.dfy`) holds the `std::string` searches used above
  (`find`, `find_last_of`, `find_first_not_of`, `find_last_not_of`) with `npos`
  as `None`.

A `string` stands for the bytes of a `std::string`: each `char` is one byte,
so text in UTF-8 is seen as its byte sequence, and every length is a length in
bytes, as `length()` and `size()` count it.

These inputs become parameters, because they come from the game, the OS or
other threads:
- the participant resolver (`GameHandle -> PersistId`);
- the clock value `now`;
- the executable path, which `GetModuleFileNameA` supplies to `GetModRootPath`;
- the configuration values;
- the asynchronous key state;
- the file-existence test;
- the outcome of a background summarisation.

## Model

| member | source | states |
|---|---|---|
| StdString.FindFrom | 0.8.1/Main.cpp:844-848 | `find(pat, from)` yields the first occurrence at or after `from`, and `npos` only when there is none |
| StdString.Find | 0.8.1/Main.cpp:844-848 | `find` is `npos` exactly when the pattern does not occur; otherwise it is the first occurrence |
| StdString.FindLastOf | 0.8.1/Main.cpp:170 | `find_last_of` yields a position holding one of the characters with none after it, or `npos` when none occurs |
| StdString.FindFirstNotOf | files/HelperFunctions.cpp:431 | `find_first_not_of` yields the first character outside the set, or `npos` when every character is in it |
| StdString.FindLastNotOf | files/HelperFunctions.cpp:432 | `find_last_not_of` yields the last character outside the set, or `npos` when every character is in it |
| StdString.Contains | 0.8.1/Main.cpp:844-848 | what `find(pat) != npos` tests: the pattern occurs somewhere; an empty pattern always occurs, one longer than the text never |
| StdString.OccursWithin | 0.8.1/Main.cpp:847-848 | an occurrence of a pattern inside an occurrence of another string is an occurrence in the whole text |
| ConversationSystem.PairKeySymmetric | 0.8.1/ConversationSystem.cpp:28-31 | `MakePairKey` is the smaller identifier mixed into the larger with wrapping 64-bit arithmetic (`Mix`), so the key is independent of the order of the two participants |
| ConversationSystem.SeedHistory | 0.8.1/ConversationSystem.cpp:67-71 | a fresh history holds at most one line; it has one exactly when the pair index has an entry for the key, and that line is the memory prefix followed by the stored summary |
| ConversationSystem.SummarySeedsNextEncounter | 0.8.1/ConversationSystem.cpp:153-157 | a summary stored for a pair becomes the memory line of the next conversation between the same two participants, whichever of them starts it (lines 68-70) |
| ConversationSystem.TaggedEntry | 0.8.1/ConversationSystem.cpp:116-118 | the entry is a role tag followed by the message; it starts with the user tag exactly when the sender is "Player", and with the assistant tag otherwise |
| ConversationSystem.HistoryCap | 0.8.1/ConversationSystem.cpp:124-127 | the soft cap is `MaxChatHistoryLines + 5`, or 15 when the setting is below 5. It is always at least 10. A 32-bit setting within 5 of the largest `int` wraps to a negative sum, whose `size_t` cast is a cap of at least 2^64 - 2^31 |
| ConversationSystem.AppendCapped | 0.8.1/ConversationSystem.cpp:120-131 | the entry is appended; over the cap the line at index 1 is dropped; index 0 is never dropped; the new entry ends the history; a history within the cap stays within it |
| ConversationSystem.ElapsedSec | 0.8.1/ConversationSystem.cpp:215 | elapsed seconds are computed on the wrapping 32-bit millisecond clock, so a `now` before the timestamp counts from the wrap |
| ConversationSystem.AgeSweep | 0.8.1/ConversationSystem.cpp:214-223 | the age pass keeps exactly the archived records that have not expired, unchanged; with a non-positive timeout it keeps all of them |
| ConversationSystem.Store.constructor | 0.8.1/ConversationSystem.cpp:18-21 | the tables start empty, the counter starts at 100, and the invariant holds |
| ConversationSystem.Store.GenerateNewChatID | 0.8.1/ConversationSystem.cpp:38-42 | returns the counter value and increments it, so generated ids are 100, 101, … |
| ConversationSystem.Store.InitiateConversation | 0.8.1/ConversationSystem.cpp:45-78 | a forced id that is already active is returned and nothing changes. Otherwise the id is the forced one or the next counter value, and the new active record has the two participants, the active flag, `now`, and a history holding the pair's memory line exactly when the pair index has an entry. Both participants are indexed to the id, and the other tables are unchanged. The invariant is kept when the id is unused and neither participant is indexed |
| ConversationSystem.Store.Open | 0.8.1/ConversationSystem.cpp:73-75 | stores the record and indexes both participants to it; keeps the invariant for an unused id and unindexed participants |
| ConversationSystem.Store.CloseConversation | 0.8.1/ConversationSystem.cpp:80-97 | a non-active id changes nothing. Otherwise the record moves to the archive, inactive and with a refreshed timestamp. Every one of its participants leaves the index, whatever chat that participant's entry named. The invariant is kept |
| ConversationSystem.Store.GetActiveChatID | 0.8.1/ConversationSystem.cpp:100-109 | returns the indexed conversation or 0; under the invariant, non-zero exactly when some active conversation has the participant |
| ConversationSystem.Store.AddMessageToChat | 0.8.1/ConversationSystem.cpp:111-133 | a non-active id changes nothing. Otherwise only that record changes: its history becomes the role-tagged capped append, with the cap computed from the 32-bit setting, and its timestamp becomes `now`. The invariant is kept |
| ConversationSystem.Store.SetConversationSummary | 0.8.1/ConversationSystem.cpp:137-159 | an active record gets the summary and nothing else changes. Otherwise an archived record gets it and the pair index stores it under the record's pair key. An unknown id changes nothing. The invariant is kept |
| ConversationSystem.Store.ReplaceHistory | 0.8.1/ConversationSystem.cpp:161-167 | only an active record's history is replaced; otherwise nothing changes; the invariant is kept |
| ConversationSystem.Store.GetChatHistory | 0.8.1/ConversationSystem.cpp:169-176 | an active record's history, else empty |
| ConversationSystem.Store.GetLastSummaryBetween | 0.8.1/ConversationSystem.cpp:178-185 | the summary stored for the pair in either order, else "" |
| ConversationSystem.Store.IsChatActive | 0.8.1/ConversationSystem.cpp:187-191 | true iff the id is active with its flag set; under the invariant, iff it is in the active table |
| ConversationSystem.Store.SetChatContext | 0.8.1/ConversationSystem.cpp:193-200 | only an active record's location and weather change; the invariant is kept |
| ConversationSystem.Store.RunMaintenance | 0.8.1/ConversationSystem.cpp:204-232 | an empty archive stays empty. Afterwards no expired record remains, and the archive is a sub-map of the age pass's result. It is exactly that result when within capacity, and otherwise exactly `maxHistory` records. Only the archive changes, and the invariant is kept |
| ConversationSystem.ClosePreservesIndex | 0.8.1/ConversationSystem.cpp:90-95 | removing a conversation and all of its participants' index entries keeps the index sound and complete |
| ConversationSystem.OpenPreservesValid | 0.8.1/ConversationSystem.cpp:73-75 | adding a record under an unused non-zero id and indexing two unindexed participants to it keeps the invariant |
| ConversationSystem.ActiveUpdateKeepsTables | 0.8.1/ConversationSystem.cpp:120-121 | rewriting an active record's contents without touching its id, flag or participants keeps the invariant |
| ConversationSystem.ArchivedUpdateKeepsTables | 0.8.1/ConversationSystem.cpp:150-151 | rewriting an archived record's contents without touching its id, flag or participants keeps the invariant |
| ConversationSystem.ArchiveShrinkKeepsTables | 0.8.1/ConversationSystem.cpp:219-230 | dropping archived records keeps the invariant |
| OptChatMem.Triggers | files/OptChatMem.cpp:49-68 | level 0 never triggers; any trigger needs more than 6 lines; level 1 triggers exactly above 10 lines |
| OptChatMem.TriggerLeavesChunk | files/OptChatMem.cpp:56-76 | whenever the thresholds trigger, the window `[1, size-4)` holds at least two lines |
| OptChatMem.Chunk | files/OptChatMem.cpp:74-82 | the summarised chunk is lines 1 up to `size-4` in order, `size-5` lines |
| OptChatMem.Throttle | files/OptChatMem.cpp:88 | the throttle is 20 for level 1 and 100 for any other level |
| OptChatMem.SummaryLine | files/OptChatMem.cpp:330 | the inserted line is the summary enclosed in the system tag (ending in a newline) and the end tag (starting with one) |
| OptChatMem.Spliced | files/OptChatMem.cpp:321-330 | line 0 is kept, then the summary system line, then the history from `removeCount + 1` on, with length `old - removeCount + 1` |
| OptChatMem.SpliceReplacesChunk | files/OptChatMem.cpp:318-330 | if the history at apply time only grew at its end since the trigger, the splice removes exactly the summarised chunk. Line 0, the four fresh lines and the new lines survive in order |
| OptChatMem.ChatOptimizer.constructor | files/OptChatMem.cpp:10-13 | the static state starts idle: not optimising, no pending job, no lines being summarised and no profiles |
| OptChatMem.ChatOptimizer.CheckAndOptimize | files/OptChatMem.cpp:43-97 | starts a job iff no job is running and the resolved level triggers on the history length. The level is the profile's if there is one, else the global one. A started job holds exactly the chunk, the names and the throttle, and the line count is `size-5`. Otherwise nothing changes |
| OptChatMem.ChatOptimizer.ApplyPendingOptimizations | files/OptChatMem.cpp:299-333 | nothing changes while idle or while the job is not ready. A ready job always clears the busy state. A non-empty summary over a long enough history gives the splice; otherwise the history is unchanged. The ghost `changed` result is true exactly when the splice happened |
| OptChatMem.ChatOptimizer.SetConversationProfile | files/OptChatMem.cpp:335-338 | the conversation's profile gets the level and the active flag; its throttle limit is kept, or the default 10 for a new profile; other profiles are unchanged |
| ModMain.KeyStep | 0.8.1/Main.cpp:157-159 | the new remembered state is the sample's down bit; a press is reported iff the key is down now and was not before |
| ModMain.HeldKeyFiresOnce | 0.8.1/Main.cpp:157-160 | a key held down after a reported press reports no second press |
| ModMain.ReleaseRearms | 0.8.1/Main.cpp:157-160 | after a sample with the key up, the next down sample reports a press |
| ModMain.IsUsableSummary | 0.8.1/Main.cpp:214 | a summary is written back iff it is non-empty and contains no `LLM_ERROR` |
| ModMain.EndOfTurn | 0.8.1/Main.cpp:843-856 | a raw `LLM_TIMEOUT`/`LLM_ERROR` reply shows "Response error." and ends the conversation. Otherwise the cleaned reply is shown, and the conversation ends iff it contains one of the five end markers |
| ModMain.GoodByeImpliesBye | 0.8.1/Main.cpp:847-848 | a reply containing "Good Bye" contains "Bye" |
| ModMain.FourMarkersSuffice | 0.8.1/Main.cpp:843-856 | the classifier decides exactly as it would with only the first four markers |
| ModMain.GetModRootPath | 0.8.1/Main.cpp:166-171 | the result ends with a backslash. A path without separators is kept whole; otherwise the path is cut before its last `\` or `/` |
| ModMain.ModState.constructor | 0.8.1/Main.cpp:37-154 | no key is remembered as down (line 154), and the session globals start as declared: chat id 0 (line 37), empty reply text (48), idle states (55-56), no target (60), empty NPC name (68) and no background tasks (70) |
| ModMain.ModState.IsKeyJustPressed | 0.8.1/Main.cpp:155-161 | an out-of-range key reports no press and changes nothing; otherwise the result and the key's new stored state are one `KeyStep` and the other keys are untouched |
| ModMain.ModState.EndConversation | 0.8.1/Main.cpp:182-233 | with an active current chat, its history is taken as the snapshot. The chat then leaves the active table and is archived, inactive and stamped `now`. Its participants leave the participant index, and the pair index and the counter are unchanged. A summary task of the snapshot is queued iff summarising is enabled and the snapshot has more than 4 lines. Every session global is reset. Without a chat, or with one that is not active, the store is untouched. The store invariant is kept |
| ModMain.CompleteSummaryTask | 0.8.1/Main.cpp:211-216 | an unusable summary changes nothing. A usable one is attached to the chat's record when the chat is still active. When it is archived, it goes to the record and to the pair index. When the sweeper has evicted the chat, the summary is dropped and the store is untouched. The participant index and the counter never change |
| HelperFunctions.WrapFromOnlyBreaks | files/HelperFunctions.cpp:118-140 | wrapping a rest of text adds only line breaks to the pending word followed by the text with its whitespace made spaces |
| HelperFunctions.WrapFromFits | files/HelperFunctions.cpp:121-138 | text that fits on the current line is emitted without a break |
| HelperFunctions.WrapFromBreaks | files/HelperFunctions.cpp:118-140 | every break the word loop emits is first or follows the space written after a word |
| HelperFunctions.Wrapped | files/HelperFunctions.cpp:113-142 | removing the line breaks from the wrapped text (`WrapFrom` from the start) gives the text with every whitespace character a space, so words are not reordered. Every line break is the first character or follows a space, so no word is split |
| HelperFunctions.ShortTextUnbroken | files/HelperFunctions.cpp:113-142 | a text no longer than the limit is not broken |
| HelperFunctions.WordWrap | files/HelperFunctions.cpp:113-142 | the loop yields the specification `Wrapped` (empty for empty text). A break goes before a word exactly when line length plus word length exceed the limit, and the line length restarts after a break |
| HelperFunctions.TrimLeft | files/HelperFunctions.cpp:431 | the result is a suffix of the token that starts with no blank |
| HelperFunctions.TrimRight | files/HelperFunctions.cpp:432 | the result is a prefix of the token that ends with no blank |
| HelperFunctions.TrimLeftIsErase | files/HelperFunctions.cpp:431 | dropping leading blanks is `erase(0, find_first_not_of(blanks))`, including the all-blank case |
| HelperFunctions.TrimRightIsErase | files/HelperFunctions.cpp:432 | dropping trailing blanks is `erase(find_last_not_of(blanks) + 1)`, including the all-blank case |
| HelperFunctions.Trim | files/HelperFunctions.cpp:431-432 | a trimmed token is empty or starts and ends with a non-blank |
| HelperFunctions.TrimClean | files/HelperFunctions.cpp:431-432 | a non-empty token without outer blanks is its own trim |
| HelperFunctions.TrimKeepsOut | files/HelperFunctions.cpp:431-432 | trimming adds no character |
| HelperFunctions.Split | files/HelperFunctions.cpp:425-438 | every token of the split (`SplitFrom` from the start) is non-empty, contains no delimiter and has no space, tab, CR or LF at either end |
| HelperFunctions.SplitJoin | files/HelperFunctions.cpp:425-438 | splitting clean tokens joined by the delimiter gives them back in order |
| HelperFunctions.GetLine | files/HelperFunctions.cpp:429 | `getline` reads the characters up to the next delimiter or the end, with no delimiter in the field |
| HelperFunctions.SplitAtLine | files/HelperFunctions.cpp:429-435 | one `getline` round: the field is trimmed and kept when non-empty, and reading resumes after the delimiter |
| HelperFunctions.SplitString | files/HelperFunctions.cpp:425-438 | the loop yields the specification `Split`: the trimmed non-empty fields in input order |
| HelperFunctions.WithTrailingSeparator | files/HelperFunctions.cpp:81-84 | the directory gets a backslash unless it already ends in `\` or `/` |
| HelperFunctions.LoraCandidates | files/HelperFunctions.cpp:79-103 | the candidates in order: configured directory with the configured name when both are set, root with the configured name when set, root with `mod_lora.gguf` |
| HelperFunctions.FirstExisting | files/HelperFunctions.cpp:85-108 | the first existing candidate, every earlier one missing; "" iff none exists |
| HelperFunctions.FindLoRAFile | files/HelperFunctions.cpp:73-110 | the guarded returns give the first existing candidate in the resolution order, "" iff none exists |
| HelperFunctions.SizeT | files/HelperFunctions.cpp:219 | `static_cast<size_t>` of a signed value is that value modulo 2^64 |
| HelperFunctions.CopyAllowedAsWritten | files/HelperFunctions.cpp:219 | the guard as written: for a size in the unsigned range it is `length + 1 <= bufferSize`, but a negative size is compared after adding 2^64 |
| HelperFunctions.NegativeSizeBypassesGuard | files/HelperFunctions.cpp:219 | the guard as written lets "Response error." through for a buffer size of -1 |
| HelperFunctions.GuardsAgreeOnNonNegativeSizes | files/HelperFunctions.cpp:219 | for every non-negative 32-bit size, the intended guard and the written one agree |
| HelperFunctions.CopyOut | files/HelperFunctions.cpp:216-224 | copies iff the text is non-empty and it and its terminator fit in `bufferSize`. On success the buffer holds the text and a NUL, and the rest is untouched. On failure nothing is written |

## Left out

- Locking: `g_convoMutex` and `g_idGenMutex` only serialise calls, so each public call is one atomic method.
- Futures and threads: `std::async` jobs, their polling and the `g_backgroundTasks` vector of futures are not modelled. A queued job is a `SummaryTask` value, and its result reaches `CompleteSummaryTask` or `ApplyPendingOptimizations` as a parameter.
- The inference code: `BackgroundSummarizerTask` and `PerformChatSummarization` run the language model, and their result reaches the model as a parameter.
- `CleanupResponse` post-processes the raw reply before the end-marker tests. Its body is not part of this model, so `EndOfTurn` takes its output as the `clean` parameter.
- `GetAvailableVRAM_MB` and the other memory metrics are OS calls with floating-point results.
- The duplicate stub bodies of `CheckAndOptimize` and `GetAvailableVRAM_MB` later in `OptChatMem.cpp` are incomplete, and only the first definitions are modelled.
- Logging, audio recording (`StopAudioRecording`) and the game calls in `EndConversation` (`ClearTasks` on the target) are not modelled.
- The `ScriptMain` frame loop is not modelled: where the classifier's outcome and the optimizer are used, subtitle rendering, speech-to-text and window handling.
- The other exported API calls and `GetOrAssignNpcVoiceId` are not modelled.
- ConversationSystem.h and the participant registry are not part of this model.
- Participant resolution (`EntityRegistry::RegisterNPC`) is a function parameter.
- Configuration values (`MaxChatHistoryLines`, `DeletionTimer`, `MaxAllowedChatHistory`, `TrySummarizeChat`, the optimisation level) are method parameters.
- ConversationSystem.PersistId: a participant identifier is modelled as a 64-bit unsigned value, because the registry's type is not visible. `Mix` computes the pair key with wrapping `bv64` arithmetic, and the index stores the key's unsigned value as an integer.
- ConversationSystem.Store.GenerateNewChatID: the counter is unbounded, so a chat-id overflow is not modelled.
- ConversationSystem.Store.RunMaintenance: which archived record `begin()` yields is unspecified, so capacity eviction removes a nondeterministically chosen archived record. The age pass visits the archive in an unspecified order as well.
- ConversationSystem.Store.InitiateConversation: the invariant is only proved under `OpenKeepsValid`. The code does not keep it otherwise:
  - a forced id that names an archived chat creates an active twin;
  - opening for an already indexed participant re-points that participant's entry.
- OptChatMem.ChatOptimizer.ApplyPendingOptimizations: it returns the new history instead of erasing and inserting in the caller's vector, so aliasing of that vector is not captured.
- OptChatMem.ChatOptimizer.ApplyPendingOptimizations is declared `void`, but `Main.cpp:556` tests its result as a "changed" flag. The model returns the new history in place of the in-place update. The ghost `changed` result stands for the flag the caller reads. The call site itself is not modelled.
- OptChatMem.ChatOptimizer.CheckAndOptimize does not model the history being trimmed by `AddMessageToChat` between the trigger and the splice. When the cap drops line 1 in between, the window shifts by one, and `SpliceReplacesChunk` covers only a history that grew at its end.
- ConversationSystem.HistoryCap: for a setting above 2^31 - 6, `hardLimit + 5` overflows, which is undefined behaviour in C++. The model takes the two's-complement wrap of the target.
- HelperFunctions.WordWrap, HelperFunctions.SplitString and HelperFunctions.CopyOut count bytes, as the code does. A multi-byte UTF-8 character is several `char`s of the model, so wrapping and the copy guard see text the way `length()` does. Character-level text is not modelled.
- HelperFunctions.WordWrap: `std::isspace` is modelled for the "C" locale on non-negative characters. The undefined behaviour of a negative `char` is not modelled.
- HelperFunctions.CopyOut: the copy is modelled with the intended guard. An embedded NUL in the string, which `strcpy` would stop at, is not modelled.

## Findings

| source | as written | input that shows it | evidently intended | confidence | as-written member | corrected member |
|---|---|---|---|---|---|---|
| files/HelperFunctions.cpp:219 | `length + 1 > static_cast<size_t>(bufferSize)` compares against the size cast to unsigned (the same guard is at line 230) | `bufferSize = -1` with a 15-character reply: the size becomes 2^64-1, the guard passes and `strcpy` writes 16 bytes (`NegativeSizeBypassesGuard`) | refuse the copy unless `0 <= bufferSize` and `length + 1 <= bufferSize` (`CopyAllowed`, which agrees with the written guard on every non-negative size) | not executed; medium (needs a caller passing a negative size) | HelperFunctions.CopyAllowedAsWritten | HelperFunctions.CopyOut |
