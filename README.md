# ChatProtect moderation core in Dafny

ChatProtect is a Minecraft server plugin that screens public chat and private
messages. Every message a player sends goes through the same checks, in this order:

1. A player with the bypass permission is never checked.
2. A muted player is refused and told how many seconds remain.
3. A burst of messages inside a short window gets the player kicked. Repeated
   kicks inside a longer window mute the player automatically.
4. A message that matches a blocked word is refused. The match survives case,
   look-alike digits and symbols, punctuation, and near-miss spellings.
5. A message too similar to one of the player's recent messages counts as a
   repeat. Enough repeats put that message on a cooldown.
6. A message that passes is remembered in a bounded history and delivered.

The model has one module per source package. Each module follows the source's
own form:

- `Utils` (`message_utils.dfy`) holds the pure string logic: normalisation,
  Levenshtein distance, similarity and blocked-word matching. The loops of the
  source are methods, each proved equal to a specification function.
- `Data` (`data.dfy`) holds the per-player state. `PlayerData` is a class
  whose methods update its fields in place, each stated against a value
  `PlayerState`. `MuteData` is an immutable value.
- `Managers` (`managers.dfy`) holds the `MuteManager` and
  `PlayerDataManager` classes. Their effects are stated through pure functions
  on `MuteState`: kick recording, auto-mute, cleanup and loading saved mutes.
- `Handlers` (`chat_channel.dfy`) holds the screening pipeline. `Decide` is
  the whole decision for one message as a function of the states before it.
  `ProcessMessage` and `ScreenMessage` are the imperative methods, and they
  are proved to leave the objects exactly as `Decide` says.
- `Listeners` (`private_message_listener.dfy`) holds private messages.
  Command parsing is `RouteCommand`. The listener class keeps the reply
  targets and sends each private message through the same screening.
- `JavaStrings`, `JavaInts`, `Config` and `Options` support the rest.
  They hold the Java string operations the source relies on (`trim`,
  ASCII `toLowerCase`, `split`, `contains`), long division that truncates
  towards zero, the `(int)` cast, the configuration values with their
  defaults, and an option type.

Clock reads become a parameter `now`, in milliseconds. All clock reads while
one message is handled see the same `now`. The bypass permission is a
boolean. `Bukkit.getPlayer(name)` becomes a function `lookup` from names to
UUIDs, and "online" becomes a set of UUIDs. `UUID.fromString` becomes a
partial function `parse`. A kick becomes the outcome `SpamKicked`.

The blocked-word check compares every whitespace-separated token of the
message with each blocked word. A token of three or more characters that is
all punctuation normalises to the empty string. Every string contains the
empty string, so such a token matches every blocked word, and a message like
"hi ..." is blocked whenever the list is non-empty. The model keeps this
behaviour (`Utils.PunctuationTokenBlocks`, `Utils.PunctuationMessageBlocked`).
A blocked word that normalises to the empty string blocks every message longer
than two characters (`Utils.EmptyBlockedWordBlocksAll`).

## Model

| member | source | states |
|---|---|---|
| JavaStrings.TrimIsSubstring | ChatProtect/src/main/java/com/mistasoup/chatprotect/utils/MessageUtils.java:110 | trim leaves a string that neither starts nor ends with a character at or below a space |
| JavaStrings.TrimNoControl | ChatProtect/src/main/java/com/mistasoup/chatprotect/handlers/ChatChannel.java:157 | a string with no character at or below a space is its own trim |
| JavaStrings.ToLower | ChatProtect/src/main/java/com/mistasoup/chatprotect/utils/MessageUtils.java:42 | lower-casing keeps the length and maps each character on its own |
| JavaStrings.SplitWhitespaceNoSpace | ChatProtect/src/main/java/com/mistasoup/chatprotect/utils/MessageUtils.java:130 | a message with no whitespace splits into the single token it is |
| JavaStrings.SplitLimit3Join | ChatProtect/src/main/java/com/mistasoup/chatprotect/listeners/PrivateMessageListener.java:42 | the at most three parts of a split on spaces join back with single spaces into the original line |
| JavaStrings.SplitLimit3NoSpace | ChatProtect/src/main/java/com/mistasoup/chatprotect/listeners/PrivateMessageListener.java:42 | only the last part of the split can contain a space |
| JavaStrings.SplitLimit3OfTriple | ChatProtect/src/main/java/com/mistasoup/chatprotect/listeners/PrivateMessageListener.java:42 | "a b c" with space-free a and b splits into exactly a, b and c, whatever c contains |
| JavaInts.DivTrunc | ChatProtect/src/main/java/com/mistasoup/chatprotect/data/MuteData.java:26 | long division by a positive divisor rounds towards zero for both signs |
| JavaInts.Int32 | ChatProtect/src/main/java/com/mistasoup/chatprotect/data/MuteData.java:27 | the (int) cast lands in the 32-bit range and is congruent to its input modulo 2^32 |
| JavaInts.Int32InRange | ChatProtect/src/main/java/com/mistasoup/chatprotect/data/MuteData.java:27 | the cast leaves a value already in range unchanged |
| Utils.NormalizeShape | ChatProtect/src/main/java/com/mistasoup/chatprotect/utils/MessageUtils.java:36-55 | normalisation never lengthens a message; it keeps only lower-case letters and digits, and none of them is a key of the substitution table |
| Utils.NormalizeIdempotent | ChatProtect/src/main/java/com/mistasoup/chatprotect/utils/MessageUtils.java:36-55 | normalising a normalised message changes nothing |
| Utils.NormalizeLoweredConcat | ChatProtect/src/main/java/com/mistasoup/chatprotect/utils/MessageUtils.java:44-52 | normalisation works character by character, so the normalisation of a concatenation is the concatenation of the normalisations |
| Utils.NormalizeLoweredDropsAll | ChatProtect/src/main/java/com/mistasoup/chatprotect/utils/MessageUtils.java:44-52 | characters that are neither substitutable nor letters or digits are all dropped |
| Utils.NormalizeMessage | ChatProtect/src/main/java/com/mistasoup/chatprotect/utils/MessageUtils.java:36-55 | the character loop builds exactly the normalised message |
| Utils.EditDistancePrefixes | ChatProtect/src/main/java/com/mistasoup/chatprotect/utils/MessageUtils.java:71-79 | the distance of two non-empty prefixes obeys the recurrence of the dynamic-programming table |
| Utils.LevenshteinDistance | ChatProtect/src/main/java/com/mistasoup/chatprotect/utils/MessageUtils.java:60-82 | the table loop returns the edit distance of the two strings |
| Utils.FillRow | ChatProtect/src/main/java/com/mistasoup/chatprotect/utils/MessageUtils.java:72-78 | the inner loop fills row i of the table with the distances from the first i characters, and leaves the other rows alone |
| Utils.EditDistanceBounds | ChatProtect/src/main/java/com/mistasoup/chatprotect/utils/MessageUtils.java:60-82 | the distance is at most the longer length and at least the difference of the lengths |
| Utils.EditDistanceZero | ChatProtect/src/main/java/com/mistasoup/chatprotect/utils/MessageUtils.java:60-82 | the distance is zero exactly when the strings are equal |
| Utils.EditDistanceSymmetric | ChatProtect/src/main/java/com/mistasoup/chatprotect/utils/MessageUtils.java:60-82 | the distance does not depend on the order of its arguments |
| Utils.EditDistanceTriangle | ChatProtect/src/main/java/com/mistasoup/chatprotect/utils/MessageUtils.java:60-82 | the distance obeys the triangle inequality: d(a, c) <= d(a, b) + d(b, c) |
| Utils.Similarity | ChatProtect/src/main/java/com/mistasoup/chatprotect/utils/MessageUtils.java:87-103 | similarity is a percentage between 0 and 100 |
| Utils.Percent | ChatProtect/src/main/java/com/mistasoup/chatprotect/utils/MessageUtils.java:102 | the share is between 0 and 100, below 100 for a proper part and exactly 100 for the whole |
| Utils.PercentAtLeast | ChatProtect/src/main/java/com/mistasoup/chatprotect/utils/MessageUtils.java:102 | the percentage reaches a threshold exactly when 100 times the part reaches threshold times the whole |
| Utils.SimilarityAtLeast | ChatProtect/src/main/java/com/mistasoup/chatprotect/utils/MessageUtils.java:96-102 | for unequal non-empty strings, similarity reaches a threshold exactly when 100 times (longer length minus distance) reaches threshold times the longer length |
| Utils.SimilarityCases | ChatProtect/src/main/java/com/mistasoup/chatprotect/utils/MessageUtils.java:87-103 | 0 for an empty input, 100 for equal inputs, otherwise the share of the longer length left by the distance; the longer length is then positive, so the zero-length branch is unreachable |
| Utils.SimilarityFull | ChatProtect/src/main/java/com/mistasoup/chatprotect/utils/MessageUtils.java:87-103 | similarity is 100 exactly for equal non-empty strings, and it is symmetric |
| Utils.ContainsBlockedWord | ChatProtect/src/main/java/com/mistasoup/chatprotect/utils/MessageUtils.java:108-146 | the loop over the blocked words answers exactly the blocked-word predicate |
| Utils.CheckBlockedWord | ChatProtect/src/main/java/com/mistasoup/chatprotect/utils/MessageUtils.java:117-142 | one pass of the loop answers exactly whether that blocked word matches the message |
| Utils.MatchesBlocked | ChatProtect/src/main/java/com/mistasoup/chatprotect/utils/MessageUtils.java:119-142 | one blocked word matches by containment, by similarity of 80 or more, or through a token |
| Utils.TokensMatch | ChatProtect/src/main/java/com/mistasoup/chatprotect/utils/MessageUtils.java:130-142 | the token loop finds a token of more than two characters whose normalisation contains, or is contained in, the blocked word |
| Utils.TokenMismatch | ChatProtect/src/main/java/com/mistasoup/chatprotect/utils/MessageUtils.java:137-141 | a token matches only when one normalised form contains the other |
| Utils.EmptyBlockedWordBlocksAll | ChatProtect/src/main/java/com/mistasoup/chatprotect/utils/MessageUtils.java:119-122 | a blocked word that normalises to the empty string blocks every message longer than two characters |
| Utils.PunctuationTokenBlocks | ChatProtect/src/main/java/com/mistasoup/chatprotect/utils/MessageUtils.java:130-142 | a punctuation-only token of three or more characters blocks the message for any non-empty list |
| Utils.PunctuationMessageBlocked | ChatProtect/src/main/java/com/mistasoup/chatprotect/utils/MessageUtils.java:108-146 | a message of three or more punctuation characters is blocked by any non-empty list |
| Utils.BlockedByContainment | ChatProtect/src/main/java/com/mistasoup/chatprotect/utils/MessageUtils.java:119-122 | a message whose normalisation contains a blocked word's normalisation is blocked |
| Utils.LookAlikeDigitsBlocked | ChatProtect/src/main/java/com/mistasoup/chatprotect/utils/MessageUtils.java:12-30 | "Sp4m!" normalises to "spami" and is blocked by "spam" |
| Utils.EmptyListBlocksNothing | ChatProtect/src/main/java/com/mistasoup/chatprotect/utils/MessageUtils.java:116-145 | no message is blocked by an empty list |
| Utils.ShortMessagePasses | ChatProtect/src/main/java/com/mistasoup/chatprotect/utils/MessageUtils.java:110-112 | a message of at most two characters once trimmed is never blocked |
| Data.AppendBoundedKeepsNewest | ChatProtect/src/main/java/com/mistasoup/chatprotect/data/PlayerData.java:24-29 | after adding a message the history holds the newest min(n + 1, capacity) messages, in order |
| Data.HistoryIsNewest | ChatProtect/src/main/java/com/mistasoup/chatprotect/data/PlayerData.java:24-29 | after any run of additions from empty, the history is the last capacity messages added |
| Data.DropBeforeKeeps | ChatProtect/src/main/java/com/mistasoup/chatprotect/data/PlayerData.java:70-72 | removing old timestamps keeps exactly those at or after the cutoff |
| Data.DropBeforeAppend | ChatProtect/src/main/java/com/mistasoup/chatprotect/data/PlayerData.java:70-72 | the removal distributes over appending a timestamp |
| Data.DropBeforeAllRecent | ChatProtect/src/main/java/com/mistasoup/chatprotect/data/PlayerData.java:70-72 | nothing is removed when every timestamp is recent |
| Data.DropBeforeAllOld | ChatProtect/src/main/java/com/mistasoup/chatprotect/data/PlayerData.java:70-72 | everything is removed when every timestamp is older than the cutoff |
| Data.DropBeforeTwice | ChatProtect/src/main/java/com/mistasoup/chatprotect/data/PlayerData.java:70-72 | two removals equal one removal at the later cutoff |
| Data.CooldownCheckSpec | ChatProtect/src/main/java/com/mistasoup/chatprotect/data/PlayerData.java:39-51 | a message is on cooldown exactly when it has an expiry still in the future; an expired entry is removed and nothing else changes |
| Data.CooldownUntil | ChatProtect/src/main/java/com/mistasoup/chatprotect/data/PlayerData.java:35-51 | after a cooldown is set, the message is on cooldown exactly until its expiry |
| Data.RepeatCountUpdates | ChatProtect/src/main/java/com/mistasoup/chatprotect/data/PlayerData.java:53-64 | incrementing adds one to the count, resetting makes it zero, and other messages' counts do not change |
| Data.PlayerData.constructor | ChatProtect/src/main/java/com/mistasoup/chatprotect/data/PlayerData.java:16-22 | a new record has an empty history, no cooldowns, no counts, no timestamps, and the given capacity |
| Data.PlayerData.AddMessage | ChatProtect/src/main/java/com/mistasoup/chatprotect/data/PlayerData.java:24-29 | appends the message and drops the oldest one once the capacity is exceeded |
| Data.PlayerData.SetCooldown | ChatProtect/src/main/java/com/mistasoup/chatprotect/data/PlayerData.java:35-37 | records the expiry for the message and changes nothing else |
| Data.PlayerData.IsOnCooldown | ChatProtect/src/main/java/com/mistasoup/chatprotect/data/PlayerData.java:39-51 | answers and updates the cooldowns as the cooldown check does |
| Data.PlayerData.IncrementRepeatCount | ChatProtect/src/main/java/com/mistasoup/chatprotect/data/PlayerData.java:53-56 | the count of the message grows by one, starting from zero |
| Data.PlayerData.ResetRepeatCount | ChatProtect/src/main/java/com/mistasoup/chatprotect/data/PlayerData.java:58-60 | the count of the message is removed |
| Data.PlayerData.AddTimestamp | ChatProtect/src/main/java/com/mistasoup/chatprotect/data/PlayerData.java:66-68 | the timestamp is appended |
| Data.PlayerData.CleanOldTimestamps | ChatProtect/src/main/java/com/mistasoup/chatprotect/data/PlayerData.java:70-72 | timestamps before the cutoff are removed, in order |
| Data.PlayerData.Clear | ChatProtect/src/main/java/com/mistasoup/chatprotect/data/PlayerData.java:78-83 | empties all four collections and keeps the capacity |
| Data.MuteData.SecondsRemaining | ChatProtect/src/main/java/com/mistasoup/chatprotect/data/MuteData.java:25-28 | the remaining seconds are never negative and fit in an int |
| Data.SecondsRemainingWhileMuted | ChatProtect/src/main/java/com/mistasoup/chatprotect/data/MuteData.java:25-28 | while muted, the remaining seconds are the remaining milliseconds divided by 1000, rounded down |
| Data.SecondsRemainingWhenExpired | ChatProtect/src/main/java/com/mistasoup/chatprotect/data/MuteData.java:25-28 | an expired mute reports zero seconds |
| Data.SecondsRemainingWrapsLongAfterExpiry | ChatProtect/src/main/java/com/mistasoup/chatprotect/data/MuteData.java:26-27 | about 136 years after expiry the int cast wraps and a positive count comes back |
| Data.SecondsRemainingAtMostDuration | ChatProtect/src/main/java/com/mistasoup/chatprotect/data/MuteData.java:25-28 | a mute started at or before now never reports more seconds than its duration |
| Data.DurationNotConsulted | ChatProtect/src/main/java/com/mistasoup/chatprotect/data/MuteData.java:21-28 | expiry and remaining time depend only on the expiry, not on the stored duration |
| Managers.MuteCheckKeepsAnswers | ChatProtect/src/main/java/com/mistasoup/chatprotect/managers/MuteManager.java:30-43 | the mute check removes only the expired entry it finds, so the answer for every player stays the same |
| Managers.MuteRecordInForce | ChatProtect/src/main/java/com/mistasoup/chatprotect/managers/MuteManager.java:59-66 | a new mute holds exactly until its start plus its duration |
| Managers.KickWindowNoWrap | ChatProtect/src/main/java/com/mistasoup/chatprotect/managers/MuteManager.java:86 | the kick window in milliseconds is minutes times 60000 while the int product does not overflow |
| Managers.KickWindowWraps | ChatProtect/src/main/java/com/mistasoup/chatprotect/managers/MuteManager.java:86 | a window of 35791395 minutes overflows the int product and becomes negative |
| Managers.RecordKickOutcome | ChatProtect/src/main/java/com/mistasoup/chatprotect/managers/MuteManager.java:80-110 | the kick is recorded after old kicks are pruned; the player is muted for the configured duration and the list cleared exactly when the pruned count reaches the threshold; below it the list is exactly the pruned kicks plus this one and no mute changes; other players are untouched |
| Managers.RecordKickDisabled | ChatProtect/src/main/java/com/mistasoup/chatprotect/managers/MuteManager.java:81-83 | with auto-mute off a kick changes nothing |
| Managers.KickInWindow | ChatProtect/src/main/java/com/mistasoup/chatprotect/managers/MuteManager.java:90-109 | when all earlier kicks lie in the window nothing is pruned: the kick is appended, or at the threshold the player is muted and the list emptied |
| Managers.ThirdKickMutes | ChatProtect/src/main/java/com/mistasoup/chatprotect/managers/MuteManager.java:80-110 | with the defaults, three kicks a minute apart mute the player for 300 seconds from the third kick |
| Managers.SpreadKicksDoNotMute | ChatProtect/src/main/java/com/mistasoup/chatprotect/managers/MuteManager.java:86-103 | with the defaults, kicks more than ten minutes apart never mute |
| Managers.LoneKick | ChatProtect/src/main/java/com/mistasoup/chatprotect/managers/MuteManager.java:86-109 | with the defaults, a kick that finds every earlier kick outside the window leaves a list holding only itself and no mute changes |
| Managers.CleanupSpec | ChatProtect/src/main/java/com/mistasoup/chatprotect/managers/MuteManager.java:115-126 | cleanup drops expired mutes without changing who is muted and keeps every unexpired mute as it was; it keeps exactly the kicks inside the window, and drops players left with no kicks |
| Managers.LoadedKeepsExactly | ChatProtect/src/main/java/com/mistasoup/chatprotect/managers/MuteManager.java:164-180 | loading keeps a player exactly when some entry has a valid UUID and an unexpired mute; the last such entry wins |
| Managers.LoadedConcat | ChatProtect/src/main/java/com/mistasoup/chatprotect/managers/MuteManager.java:164-180 | loading two lists of entries equals loading one after the other |
| Managers.InvalidKeySkipped | ChatProtect/src/main/java/com/mistasoup/chatprotect/managers/MuteManager.java:165-179 | an entry whose key is not a UUID is skipped |
| Managers.MuteManager.constructor | ChatProtect/src/main/java/com/mistasoup/chatprotect/managers/MuteManager.java:19-25 | a new manager holds exactly the loaded mutes and no kicks |
| Managers.MuteManager.IsMuted | ChatProtect/src/main/java/com/mistasoup/chatprotect/managers/MuteManager.java:30-43 | answers whether an unexpired mute exists, and removes the mute if it expired |
| Managers.MuteManager.GetMuteSecondsRemaining | ChatProtect/src/main/java/com/mistasoup/chatprotect/managers/MuteManager.java:48-54 | 0 for a player with no mute record; otherwise the record's getSecondsRemaining, never negative, and for an active mute the whole seconds left |
| Managers.MuteManager.Mute | ChatProtect/src/main/java/com/mistasoup/chatprotect/managers/MuteManager.java:59-66 | replaces the player's mute with one that expires after the duration |
| Managers.MuteManager.Unmute | ChatProtect/src/main/java/com/mistasoup/chatprotect/managers/MuteManager.java:71-75 | removes the player's mute and nothing else |
| Managers.MuteManager.RecordSpamKick | ChatProtect/src/main/java/com/mistasoup/chatprotect/managers/MuteManager.java:80-110 | updates kicks and mutes as the kick-recording function does |
| Managers.MuteManager.Cleanup | ChatProtect/src/main/java/com/mistasoup/chatprotect/managers/MuteManager.java:115-126 | updates kicks and mutes as the cleanup function does |
| Managers.MuteManager.LoadMutes | ChatProtect/src/main/java/com/mistasoup/chatprotect/managers/MuteManager.java:152-186 | adds the mutes the entries yield |
| Managers.MuteManager.ClearAll | ChatProtect/src/main/java/com/mistasoup/chatprotect/managers/MuteManager.java:191-194 | empties mutes and kicks |
| Managers.PlayerDataManager.constructor | ChatProtect/src/main/java/com/mistasoup/chatprotect/managers/PlayerDataManager.java:15-18 | a new manager holds no records |
| Managers.PlayerDataManager.GetPlayerData | ChatProtect/src/main/java/com/mistasoup/chatprotect/managers/PlayerDataManager.java:20-24 | returns the stored record; when there is none, stores and returns a new empty one with the configured capacity |
| Managers.PlayerDataManager.RemovePlayerData | ChatProtect/src/main/java/com/mistasoup/chatprotect/managers/PlayerDataManager.java:26-28 | forgets the player's record only |
| Managers.PlayerDataManager.ClearAll | ChatProtect/src/main/java/com/mistasoup/chatprotect/managers/PlayerDataManager.java:30-32 | forgets every record |
| Handlers.FindSimilar | ChatProtect/src/main/java/com/mistasoup/chatprotect/handlers/ChatChannel.java:179-192 | the history loop finds a past message that is longer than two characters once trimmed and similar enough, exactly when one exists |
| Handlers.IsDuplicateMessage | ChatProtect/src/main/java/com/mistasoup/chatprotect/handlers/ChatChannel.java:155-212 | answers and updates cooldowns and counts as the duplicate check does |
| Handlers.CountRepeat | ChatProtect/src/main/java/com/mistasoup/chatprotect/handlers/ChatChannel.java:193-211 | counts a repeat, and sets the cooldown at the limit; without a similar message the count is reset |
| Handlers.ShortMessageNeverDuplicate | ChatProtect/src/main/java/com/mistasoup/chatprotect/handlers/ChatChannel.java:156-168 | a message of at most two trimmed characters or one normalised character is never a duplicate and changes nothing |
| Handlers.CooldownRefusesUntouched | ChatProtect/src/main/java/com/mistasoup/chatprotect/handlers/ChatChannel.java:174-177 | a message on cooldown is refused and the state does not change |
| Handlers.ExpiredCooldownForgotten | ChatProtect/src/main/java/com/mistasoup/chatprotect/handlers/ChatChannel.java:174-177 | an expired cooldown acts as if it had never been set |
| Handlers.DuplicateCheckKeepsCountsBelow | ChatProtect/src/main/java/com/mistasoup/chatprotect/handlers/ChatChannel.java:193-206 | a stored repeat count always stays below the maximum, and the history and timestamps do not change |
| Handlers.RepeatOutcome | ChatProtect/src/main/java/com/mistasoup/chatprotect/handlers/ChatChannel.java:193-206 | a similar message is a duplicate exactly when its count plus one reaches the maximum; it is then put on cooldown for the configured seconds and its count reset, otherwise its count grows by one |
| Handlers.BurstCheckWindow | ChatProtect/src/main/java/com/mistasoup/chatprotect/handlers/ChatChannel.java:129-136 | after the check the timestamps are the recent ones plus now, and the rest of the state is unchanged |
| Handlers.BurstNeedsThreshold | ChatProtect/src/main/java/com/mistasoup/chatprotect/handlers/ChatChannel.java:136-141 | fewer stored timestamps than the threshold never trigger a kick |
| Handlers.BurstKicksWhenAllRecent | ChatProtect/src/main/java/com/mistasoup/chatprotect/handlers/ChatChannel.java:136-141 | threshold-many recent timestamps always trigger a kick |
| Handlers.CheckAndKickSpammer | ChatProtect/src/main/java/com/mistasoup/chatprotect/handlers/ChatChannel.java:129-153 | prunes and records the timestamp, kicks exactly when the count exceeds the threshold, and records the kick with the mute manager then |
| Handlers.ScreenMessage | ChatProtect/src/main/java/com/mistasoup/chatprotect/handlers/ChatChannel.java:36-83 | the outcome, the mutes and the sender's record are as the screening decision says; a record is created only once the bypass and mute checks are passed; other players' records do not change |
| Handlers.ScreenPlayer | ChatProtect/src/main/java/com/mistasoup/chatprotect/handlers/ChatChannel.java:53-82 | fetches or creates the sender's record and applies the checks to it; only that record is created or changed |
| Handlers.ScreenStored | ChatProtect/src/main/java/com/mistasoup/chatprotect/handlers/ChatChannel.java:56-82 | the checks on a stored record change no other player's record |
| Handlers.RunChecks | ChatProtect/src/main/java/com/mistasoup/chatprotect/handlers/ChatChannel.java:56-82 | the spam, blocked-word and duplicate checks, then the history update, act on the record as the checks function says |
| Handlers.ProcessMessage | ChatProtect/src/main/java/com/mistasoup/chatprotect/handlers/ChatChannel.java:30-84 | every message is handled, with the effects of the screening decision |
| Handlers.MutedPlayerSilenced | ChatProtect/src/main/java/com/mistasoup/chatprotect/handlers/ChatChannel.java:43-51 | a muted player without bypass is refused with a non-negative seconds count, and no record is touched |
| Handlers.MutedSecondsAtMostDuration | ChatProtect/src/main/java/com/mistasoup/chatprotect/handlers/ChatChannel.java:43-51 | the seconds reported to a muted player never exceed the mute's duration |
| Handlers.BlockedWordNeverDelivered | ChatProtect/src/main/java/com/mistasoup/chatprotect/handlers/ChatChannel.java:64-70 | with the word filter on, a blocked message is sent exactly when its sender bypasses |
| Handlers.DeliveredPassedEveryCheck | ChatProtect/src/main/java/com/mistasoup/chatprotect/handlers/ChatChannel.java:36-83 | a delivered message came from an unmuted sender without bypass, passed the burst and word checks, and was added to the history as the newest entry |
| Handlers.DuplicateCheckKeepsHistory | ChatProtect/src/main/java/com/mistasoup/chatprotect/handlers/ChatChannel.java:155-212 | the duplicate check leaves history and timestamps alone |
| Handlers.ScreeningEffects | ChatProtect/src/main/java/com/mistasoup/chatprotect/handlers/ChatChannel.java:36-83 | only a delivered message enters the history; bypassed and muted messages leave the record alone; only a kick touches the kick list |
| Handlers.DecideKeepsCountsBelow | ChatProtect/src/main/java/com/mistasoup/chatprotect/handlers/ChatChannel.java:155-212 | every screened message keeps all repeat counts below the maximum |
| Handlers.QuietDecide | ChatProtect/src/main/java/com/mistasoup/chatprotect/handlers/ChatChannel.java:53-83 | for an unmuted player with no blocked words and no burst, the decision reduces to the duplicate check |
| Handlers.FirstHelloPasses | ChatProtect/src/main/java/com/mistasoup/chatprotect/handlers/ChatChannel.java:179-211 | with the defaults, a first "hello" is not a duplicate |
| Handlers.RepeatedHello | ChatProtect/src/main/java/com/mistasoup/chatprotect/handlers/ChatChannel.java:193-206 | with the defaults, a repeated "hello" counts once, then sets a 30-second cooldown |
| Handlers.CoolingHelloRefused | ChatProtect/src/main/java/com/mistasoup/chatprotect/handlers/ChatChannel.java:174-177 | a "hello" on cooldown is refused |
| Handlers.ThirdHelloRefused | ChatProtect/src/main/java/com/mistasoup/chatprotect/handlers/ChatChannel.java:30-84 | with the defaults, "hello" sent three times is delivered twice and then refused, and is still refused 29 seconds later |
| Handlers.HelloSecondSend | ChatProtect/src/main/java/com/mistasoup/chatprotect/handlers/ChatChannel.java:193-206 | with the defaults, a second "hello" is delivered and its repeat count becomes one |
| Handlers.HelloThirdSend | ChatProtect/src/main/java/com/mistasoup/chatprotect/handlers/ChatChannel.java:199-203 | with the defaults, a third "hello" is refused and put on a 30-second cooldown, and the history keeps two entries |
| Listeners.InterceptedIff | ChatProtect/src/main/java/com/mistasoup/chatprotect/listeners/PrivateMessageListener.java:32-56 | a command is taken over exactly when private messaging is on, the line starts with a slash, and its lower-cased first word is a configured command |
| Listeners.ReplyTextIsRest | ChatProtect/src/main/java/com/mistasoup/chatprotect/listeners/PrivateMessageListener.java:83 | a reply's text is everything after the command and one space |
| Listeners.DirectMessageDelivered | ChatProtect/src/main/java/com/mistasoup/chatprotect/listeners/PrivateMessageListener.java:85-98 | "/cmd name text" reaches the online player the name resolves to, with the text intact |
| Listeners.ReplyDelivered | ChatProtect/src/main/java/com/mistasoup/chatprotect/listeners/PrivateMessageListener.java:63-83 | "/r text" reaches the sender's online reply target |
| Listeners.Paired | ChatProtect/src/main/java/com/mistasoup/chatprotect/listeners/PrivateMessageListener.java:159-161 | after a send, each side's reply target is the other, and every other player's target is unchanged |
| Listeners.ReplyGoesBack | ChatProtect/src/main/java/com/mistasoup/chatprotect/listeners/PrivateMessageListener.java:63-83 | after a message is sent, the receiver's "/r" goes back to its sender while the sender is online |
| Listeners.ReplyToQuitPartner | ChatProtect/src/main/java/com/mistasoup/chatprotect/listeners/PrivateMessageListener.java:76-80 | a reply to a partner who left is refused as offline |
| Listeners.PrivateMessageListener.constructor | ChatProtect/src/main/java/com/mistasoup/chatprotect/listeners/PrivateMessageListener.java:25-28 | no reply targets at start |
| Listeners.PrivateMessageListener.OnCommand | ChatProtect/src/main/java/com/mistasoup/chatprotect/listeners/PrivateMessageListener.java:31-154 | an unrouted line leaves all state alone, except that a stale reply target is dropped; a routed message is screened like chat, and only a sent one pairs the reply targets and reaches the receiver, unless the receiver is muted and muted players may not receive; a record is created only for a screened sender, and no other player's record changes |
| Listeners.PrivateMessageListener.ParseCommand | ChatProtect/src/main/java/com/mistasoup/chatprotect/listeners/PrivateMessageListener.java:32-99 | yields the route of the command and drops the reply target exactly when it is offline |
| Listeners.PrivateMessageListener.Forward | ChatProtect/src/main/java/com/mistasoup/chatprotect/listeners/PrivateMessageListener.java:106-153 | screens the text with the chat decision and sends it only when the decision lets it through; a record is created only for a screened sender, and no other player's record changes |
| Listeners.PrivateMessageListener.SendPrivateMessage | ChatProtect/src/main/java/com/mistasoup/chatprotect/listeners/PrivateMessageListener.java:156-192 | pairs the reply targets; the receiver gets the message unless they are muted and muted players may not receive |
| Listeners.PrivateMessageListener.OnPlayerQuit | ChatProtect/src/main/java/com/mistasoup/chatprotect/listeners/PrivateMessageListener.java:274-279 | forgets the leaving player's reply target |

## Left out

- Saving mutes is not modelled. The YAML file is not modelled either: loading takes the saved entries as a sequence of (key, expiry, duration), and a missing file or section is the empty sequence. Unreadable numbers and the outer catch of loadMutes are not modelled.
- Broadcasting to the server, colour prefixes, message formats, the texts sent to players and all logging are not modelled. A refusal is the outcome, not the text shown.
- The kick itself is scheduled on the server and is not modelled beyond the `SpamKicked` outcome. The same holds for the sender's confirmation of a private message, which is always sent.
- Whether the command event is cancelled is represented by `PassedThrough` against every other result.
- Permissions and player lookup are inputs: `bypass`, `lookup` and `online`. The way Bukkit matches partial names is inside `lookup`.
- Each message sees one clock value `now`. The source reads the clock several times, which can differ by a few milliseconds.
- Concurrency, thread scheduling and the Folia region scheduler are not modelled. Calls are sequential.
- Similarity uses exact reals rather than IEEE doubles, so a similarity within rounding error of a threshold may compare differently.
- Lower-casing and `isLetterOrDigit` are ASCII only. Null strings and null lists are not modelled.
- Timestamps are unbounded integers, so long overflow of clock arithmetic is not modelled. The int overflows that matter are modelled: the `(int)` cast in getSecondsRemaining and minutes * 60 in the kick window.
- The private-message listener's own copies of the spam-kick and duplicate checks (PrivateMessageListener.java:194-260) do the same as the chat channel's, and the model uses the chat channel's definitions for both.
- Getters such as getMessageHistory, getRepeatCount and getRecentMessageCount are read-only functions of the state.
- ConfigManager, the plugin entry point, the admin command and the chat listener that calls ProcessMessage are not part of this model. The configuration is a value with the documented defaults.
- Data.SecondsRemainingWhileMuted and Data.SecondsRemainingWhenExpired are stated only while the difference is below 2^31 seconds, because beyond that the cast wraps (Data.SecondsRemainingWrapsLongAfterExpiry).
- Managers.KickWindowNoWrap is stated only below 35791394 minutes, because beyond that the int product wraps (Managers.KickWindowWraps).
- Handlers.ProcessMessage: the source's boolean is always true, and the model states only that.
