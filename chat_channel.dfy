/**
 * ChatChannel: the screening pipeline every chat message goes through —
 * bypass, mute, burst kick, blocked words, duplicates — and the delivery of
 * what passes.  The pure functions state the decision on values; the methods
 * make it on the PlayerData and MuteManager objects and are proved to agree.
 */
module Handlers {
  import opened JavaInts
  import opened JavaStrings
  import opened Utils
  import opened Config
  import opened Data
  import opened Managers

  /** What happened to a message: sent unscreened, refused for one of four reasons, or delivered. */
  datatype Outcome =
    | Bypassed
    | Muted(secondsRemaining: int)
    | SpamKicked
    | BlockedWord
    | Duplicate
    | Delivered

  /** The message reaches its audience. */
  predicate Sends(o: Outcome) { o.Bypassed? || o.Delivered? }

  /** The outcome was reached after the player's data was fetched (and created if missing). */
  predicate Fetched(o: Outcome) { !o.Bypassed? && !o.Muted? }

  // ---------------------------------------------------------------------------
  // Duplicate detection
  // ---------------------------------------------------------------------------

  /** A past message counts as a repeat: longer than two characters once trimmed, and similar enough after normalization. */
  predicate SimilarPast(past: string, normalized: string, threshold: real)
  {
    |Trim(past)| > 2 && Similarity(normalized, Normalize(past)) >= threshold
  }

  predicate HasSimilar(history: seq<string>, normalized: string, threshold: real)
  {
    exists i :: 0 <= i < |history| && SimilarPast(history[i], normalized, threshold)
  }

  /**
   * isDuplicateMessage on the value: whether the message is refused as a
   * duplicate, and the player's state afterwards.  Short messages are never
   * duplicates; a cooling-down message always is; otherwise a similar past
   * message raises the repeat count, and reaching maxRepeats starts a cooldown
   * and resets the count, while no similar message resets it.
   */
  function DuplicateCheck(ps: PlayerState, message: string, now: int, cfg: Settings): (bool, PlayerState)
  {
    var normalized := Normalize(message);
    if |Trim(message)| <= 2 || |normalized| <= 1 then (false, ps)
    else RepeatStep(ps, normalized, HasSimilar(ps.history, normalized, cfg.similarityThreshold), now, cfg)
  }

  /** The cooldown and repeat-count bookkeeping of isDuplicateMessage, given whether a similar past message exists. */
  function RepeatStep(ps: PlayerState, normalized: string, similar: bool, now: int, cfg: Settings): (bool, PlayerState)
  {
    var (onCooldown, cooldowns) := CooldownCheck(ps.cooldowns, normalized, now);
    if onCooldown then (true, ps.(cooldowns := cooldowns))
    else CountStep(ps.(cooldowns := cooldowns), normalized, similar, now, cfg)
  }

  /** Past the cooldown: a repeat raises the count and, on reaching maxRepeats, starts a cooldown and resets it; no repeat resets it. */
  function CountStep(ps: PlayerState, normalized: string, similar: bool, now: int, cfg: Settings): (bool, PlayerState)
  {
    if !similar then (false, ps.(repeatCounts := ps.repeatCounts - {normalized}))
    else
      var counts := Incremented(ps.repeatCounts, normalized);
      if counts[normalized] >= cfg.maxRepeats then
        (true, ps.(cooldowns := ps.cooldowns[normalized := now + cfg.cooldownSeconds * 1000],
                   repeatCounts := counts - {normalized}))
      else
        (false, ps.(repeatCounts := counts))
  }

  /** The loop of isDuplicateMessage: whether some past message is a repeat, stopping at the first. */
  method FindSimilar(history: seq<string>, message: string, normalized: string, threshold: real) returns (found: bool)
    requires normalized == Normalize(message)
    ensures found == HasSimilar(history, normalized, threshold)
  {
    for i := 0 to |history|
      invariant !HasSimilar(history[..i], normalized, threshold)
    {
      var past := history[i];
      assert history[..i + 1] == history[..i] + [past];
      if |Trim(past)| <= 2 {
        continue;
      }
      var current := NormalizeMessage(message);
      var previous := NormalizeMessage(past);
      var similarity := Similarity(current, previous);
      if similarity >= threshold {
        assert SimilarPast(history[i], normalized, threshold);
        return true;
      }
    }
    assert history[..|history|] == history;
    return false;
  }

  /** isDuplicateMessage as written; the loop over the history is FindSimilar, the count bookkeeping CountRepeat. */
  method IsDuplicateMessage(message: string, pd: PlayerData, now: int, cfg: Settings) returns (duplicate: bool)
    modifies pd`messageCooldowns, pd`messageRepeatCount
    ensures (duplicate, pd.State()) == DuplicateCheck(old(pd.State()), message, now, cfg)
  {
    ghost var before := pd.State();
    if |Trim(message)| <= 2 {
      ShortMessageNeverDuplicate(before, message, now, cfg);
      return false;
    }
    var normalized := NormalizeMessage(message);
    if |normalized| <= 1 {
      ShortMessageNeverDuplicate(before, message, now, cfg);
      return false;
    }
    ghost var similar := HasSimilar(before.history, normalized, cfg.similarityThreshold);
    assert DuplicateCheck(before, message, now, cfg) == RepeatStep(before, normalized, similar, now, cfg);
    var onCooldown := pd.IsOnCooldown(normalized, now);
    if onCooldown {
      return true;
    }
    var history := pd.GetMessageHistory();
    var found := FindSimilar(history, message, normalized, cfg.similarityThreshold);
    duplicate := CountRepeat(pd, normalized, found, now, cfg);
  }

  /** The bookkeeping after the loop of isDuplicateMessage, on the PlayerData object. */
  method CountRepeat(pd: PlayerData, normalized: string, similar: bool, now: int, cfg: Settings) returns (duplicate: bool)
    modifies pd`messageCooldowns, pd`messageRepeatCount
    ensures (duplicate, pd.State()) == CountStep(old(pd.State()), normalized, similar, now, cfg)
  {
    if similar {
      pd.IncrementRepeatCount(normalized);
      var repeatCount := pd.GetRepeatCount(normalized);
      if repeatCount >= cfg.maxRepeats {
        pd.SetCooldown(normalized, now + cfg.cooldownSeconds * 1000);
        pd.ResetRepeatCount(normalized);
        return true;
      }
      return false;
    }
    pd.ResetRepeatCount(normalized);
    return false;
  }

  /** Short messages, and messages with at most one character left after normalization, are never duplicates and change nothing. */
  lemma ShortMessageNeverDuplicate(ps: PlayerState, message: string, now: int, cfg: Settings)
    requires |Trim(message)| <= 2 || |Normalize(message)| <= 1
    ensures DuplicateCheck(ps, message, now, cfg) == (false, ps)
  {
  }

  /** While its cooldown runs, a message is refused without touching any state. */
  lemma CooldownRefusesUntouched(ps: PlayerState, message: string, now: int, cfg: Settings)
    requires |Trim(message)| > 2 && |Normalize(message)| > 1
    requires Normalize(message) in ps.cooldowns && now < ps.cooldowns[Normalize(message)]
    ensures DuplicateCheck(ps, message, now, cfg) == (true, ps)
  {
  }

  /** Once its cooldown has expired, a message is judged as though the cooldown had never been set. */
  lemma ExpiredCooldownForgotten(ps: PlayerState, message: string, now: int, cfg: Settings)
    requires Normalize(message) in ps.cooldowns && now >= ps.cooldowns[Normalize(message)]
    requires |Trim(message)| > 2 && |Normalize(message)| > 1
    ensures var forgotten := ps.(cooldowns := ps.cooldowns - {Normalize(message)});
      DuplicateCheck(ps, message, now, cfg) == DuplicateCheck(forgotten, message, now, cfg)
  {
  }

  /** Every stored repeat count is at least one and below maxRepeats. */
  predicate CountsBelow(counts: map<string, int>, maxRepeats: int)
  {
    forall k :: k in counts ==> 1 <= counts[k] < maxRepeats
  }

  /**
   * The repeat counter never reaches maxRepeats in storage: the message that
   * would reach it is refused and its count reset.  The message is refused
   * exactly when it was cooling down or its new count reached maxRepeats.
   */
  lemma DuplicateCheckKeepsCountsBelow(ps: PlayerState, message: string, now: int, cfg: Settings)
    requires CountsBelow(ps.repeatCounts, cfg.maxRepeats)
    ensures var (duplicate, after) := DuplicateCheck(ps, message, now, cfg);
      && CountsBelow(after.repeatCounts, cfg.maxRepeats)
      && after.history == ps.history && after.timestamps == ps.timestamps
      && after.maxHistorySize == ps.maxHistorySize
  {
    var normalized := Normalize(message);
    var (duplicate, after) := DuplicateCheck(ps, message, now, cfg);
    forall k | k in after.repeatCounts
      ensures 1 <= after.repeatCounts[k] < cfg.maxRepeats
    {
      if k != normalized {
        assert k in ps.repeatCounts;
      }
    }
  }

  /** A repeat that does not reach maxRepeats passes and counts one more; one that reaches it is refused and starts a cooldown of cooldownSeconds. */
  lemma RepeatOutcome(ps: PlayerState, message: string, now: int, cfg: Settings)
    requires |Trim(message)| > 2 && |Normalize(message)| > 1
    requires !CooldownCheck(ps.cooldowns, Normalize(message), now).0
    requires HasSimilar(ps.history, Normalize(message), cfg.similarityThreshold)
    ensures var normalized := Normalize(message);
      var (duplicate, after) := DuplicateCheck(ps, message, now, cfg);
      && (duplicate <==> RepeatCount(ps.repeatCounts, normalized) + 1 >= cfg.maxRepeats)
      && (duplicate ==> RepeatCount(after.repeatCounts, normalized) == 0
                        && after.cooldowns[normalized] == now + cfg.cooldownSeconds * 1000)
      && (!duplicate ==> RepeatCount(after.repeatCounts, normalized) == RepeatCount(ps.repeatCounts, normalized) + 1)
  {
  }

  // ---------------------------------------------------------------------------
  // Burst kick
  // ---------------------------------------------------------------------------

  /** The earliest timestamp that still counts at `now`. */
  function KickCutoff(now: int, cfg: Settings): int
  {
    now - cfg.kickTimeWindowSeconds * 1000
  }

  /**
   * checkAndKickSpammer on the value: timestamps older than the window are
   * dropped, `now` is recorded, and the player is kicked when more than
   * kickMessageThreshold remain.
   */
  function BurstCheck(ps: PlayerState, now: int, cfg: Settings): (bool, PlayerState)
  {
    var timestamps := DropBefore(ps.timestamps, KickCutoff(now, cfg)) + [now];
    (|timestamps| > cfg.kickMessageThreshold, ps.(timestamps := timestamps))
  }

  /** After the check the list holds `now` and exactly the earlier timestamps inside the window. */
  lemma BurstCheckWindow(ps: PlayerState, now: int, cfg: Settings)
    ensures var after := BurstCheck(ps, now, cfg).1;
      && after.timestamps[|after.timestamps| - 1] == now
      && (forall t :: t in after.timestamps <==> t == now || (t in ps.timestamps && t >= KickCutoff(now, cfg)))
      && after.history == ps.history && after.cooldowns == ps.cooldowns && after.repeatCounts == ps.repeatCounts
  {
    DropBeforeKeeps(ps.timestamps, KickCutoff(now, cfg));
  }

  /** Fewer than kickMessageThreshold earlier timestamps can never cause a kick. */
  lemma BurstNeedsThreshold(ps: PlayerState, now: int, cfg: Settings)
    requires |ps.timestamps| < cfg.kickMessageThreshold
    ensures !BurstCheck(ps, now, cfg).0
  {
  }

  /** kickMessageThreshold earlier messages all inside the window make the next one a kick. */
  lemma BurstKicksWhenAllRecent(ps: PlayerState, now: int, cfg: Settings)
    requires |ps.timestamps| >= cfg.kickMessageThreshold
    requires forall k :: 0 <= k < |ps.timestamps| ==> ps.timestamps[k] >= KickCutoff(now, cfg)
    ensures BurstCheck(ps, now, cfg).0
  {
    DropBeforeAllRecent(ps.timestamps, KickCutoff(now, cfg));
  }

  /** checkAndKickSpammer as written: the kick itself is the `kicked` answer; the kick is recorded with the MuteManager. */
  method CheckAndKickSpammer(uuid: Uuid, pd: PlayerData, mm: MuteManager, now: int, cfg: Settings) returns (kicked: bool)
    modifies pd`messageTimestamps, mm
    ensures (kicked, pd.State()) == BurstCheck(old(pd.State()), now, cfg)
    ensures mm.State() == if kicked then RecordKick(old(mm.State()), uuid, now, cfg) else old(mm.State())
  {
    var cutoffTime := now - cfg.kickTimeWindowSeconds * 1000;
    pd.CleanOldTimestamps(cutoffTime);
    pd.AddTimestamp(now);
    var count := pd.GetRecentMessageCount();
    if count > cfg.kickMessageThreshold {
      mm.RecordSpamKick(uuid, now, cfg);
      return true;
    }
    return false;
  }

  // ---------------------------------------------------------------------------
  // The whole pipeline
  // ---------------------------------------------------------------------------

  /** The outcome of screening and the two states it leaves behind. */
  datatype Verdict = Verdict(outcome: Outcome, mutes: MuteState, player: PlayerState)

  /**
   * processMessage on values.  `ps` is the player's stored state, or a fresh
   * one when there is none.  The checks run in order and the first that
   * refuses ends processing; only a delivered message joins the history.
   */
  function Decide(ms: MuteState, ps: PlayerState, uuid: Uuid, bypass: bool, message: string, now: int, cfg: Settings): Verdict
  {
    if bypass then Verdict(Bypassed, ms, ps)
    else
      var checked := ms.(activeMutes := AfterMuteCheck(ms.activeMutes, uuid, now));
      if MutedIn(ms.activeMutes, uuid, now) then
        Verdict(Muted(ms.activeMutes[uuid].SecondsRemaining(now)), checked, ps)
      else
        Checks(checked, ps, uuid, message, now, cfg)
  }

  /** The checks that run on the player's data: burst kick, blocked words, duplicates, then delivery. */
  function Checks(ms: MuteState, ps: PlayerState, uuid: Uuid, message: string, now: int, cfg: Settings): Verdict
  {
    var (kicked, counted) := if cfg.antiSpamKickEnabled then BurstCheck(ps, now, cfg) else (false, ps);
    if kicked then Verdict(SpamKicked, RecordKick(ms, uuid, now, cfg), counted)
    else if cfg.blockedWordsEnabled && IsBlocked(message, cfg.blockedWords) then Verdict(BlockedWord, ms, counted)
    else
      var (duplicate, screened) := DuplicateCheck(counted, message, now, cfg);
      if duplicate then Verdict(Duplicate, ms, screened)
      else Verdict(Delivered, ms, screened.(history := AppendBounded(screened.history, message, screened.maxHistorySize)))
  }

  /** The state getPlayerData would hand out for uuid: the stored one, or a fresh one. */
  function StoredState(pdm: PlayerDataManager, uuid: Uuid, messageHistorySize: int): PlayerState
    reads pdm, pdm.playerDataMap.Values
  {
    if uuid in pdm.playerDataMap then pdm.playerDataMap[uuid].State() else EmptyPlayer(messageHistorySize)
  }

  /**
   * The checks of processMessage, shared with the private-message listener:
   * the outcome and both managers' new states are those Decide gives; player
   * data is created only once the bypass and mute checks are past, and no
   * other player's data changes.
   */
  method ScreenMessage(uuid: Uuid, bypass: bool, message: string, now: int, cfg: Settings, mm: MuteManager, pdm: PlayerDataManager)
    returns (outcome: Outcome)
    requires pdm.Valid()
    modifies mm, pdm, pdm.playerDataMap.Values
    ensures pdm.Valid()
    ensures var v := Decide(old(mm.State()), old(StoredState(pdm, uuid, cfg.messageHistorySize)), uuid, bypass, message, now, cfg);
      && outcome == v.outcome && mm.State() == v.mutes
      && StoredState(pdm, uuid, cfg.messageHistorySize) == v.player
    ensures forall u :: u in pdm.playerDataMap <==> u in old(pdm.playerDataMap) || (Fetched(outcome) && u == uuid)
    ensures forall u :: u in old(pdm.playerDataMap) ==> pdm.playerDataMap[u] == old(pdm.playerDataMap[u])
    ensures forall u :: u in old(pdm.playerDataMap) && u != uuid ==> pdm.playerDataMap[u].State() == old(pdm.playerDataMap[u].State())
  {
    ghost var ms := mm.State();
    ghost var ps := StoredState(pdm, uuid, cfg.messageHistorySize);
    if bypass {
      return Bypassed;
    }
    var muted := mm.IsMuted(uuid, now);
    if muted {
      var secondsRemaining := mm.GetMuteSecondsRemaining(uuid, now);
      return Muted(secondsRemaining);
    }
    assert Decide(ms, ps, uuid, bypass, message, now, cfg) == Checks(mm.State(), ps, uuid, message, now, cfg);
    outcome := ScreenPlayer(uuid, message, now, cfg, mm, pdm);
  }

  /** From getPlayerData on: the player's data is fetched or created, and only it changes. */
  method ScreenPlayer(uuid: Uuid, message: string, now: int, cfg: Settings, mm: MuteManager, pdm: PlayerDataManager)
    returns (outcome: Outcome)
    requires pdm.Valid()
    modifies mm, pdm, pdm.playerDataMap.Values
    ensures pdm.Valid() && Fetched(outcome)
    ensures var v := Checks(old(mm.State()), old(StoredState(pdm, uuid, cfg.messageHistorySize)), uuid, message, now, cfg);
      && outcome == v.outcome && mm.State() == v.mutes
      && StoredState(pdm, uuid, cfg.messageHistorySize) == v.player
    ensures forall u :: u in pdm.playerDataMap <==> u in old(pdm.playerDataMap) || u == uuid
    ensures forall u :: u in old(pdm.playerDataMap) ==> pdm.playerDataMap[u] == old(pdm.playerDataMap[u])
    ensures forall u :: u in old(pdm.playerDataMap) && u != uuid ==> pdm.playerDataMap[u].State() == old(pdm.playerDataMap[u].State())
  {
    var pd := pdm.GetPlayerData(uuid, cfg.messageHistorySize);
    outcome := ScreenStored(uuid, message, now, cfg, mm, pdm, pd);
  }

  /** The checks on a PlayerData that pdm stores for uuid: no other stored player's data changes. */
  method ScreenStored(uuid: Uuid, message: string, now: int, cfg: Settings, mm: MuteManager, pdm: PlayerDataManager, pd: PlayerData)
    returns (outcome: Outcome)
    requires pdm.Valid() && uuid in pdm.playerDataMap && pdm.playerDataMap[uuid] == pd
    modifies mm, pd`messageHistory, pd`messageCooldowns, pd`messageRepeatCount, pd`messageTimestamps
    ensures pdm.Valid() && Fetched(outcome)
    ensures var v := Checks(old(mm.State()), old(pd.State()), uuid, message, now, cfg);
      outcome == v.outcome && mm.State() == v.mutes && pd.State() == v.player
    ensures forall u :: u in pdm.playerDataMap && u != uuid ==> pdm.playerDataMap[u].State() == old(pdm.playerDataMap[u].State())
  {
    assert forall u :: u in pdm.playerDataMap && u != uuid ==> pdm.playerDataMap[u] != pd;
    outcome := RunChecks(uuid, message, now, cfg, mm, pd);
  }

  /** The part of processMessage after getPlayerData, on the player's own PlayerData. */
  method RunChecks(uuid: Uuid, message: string, now: int, cfg: Settings, mm: MuteManager, pd: PlayerData)
    returns (outcome: Outcome)
    requires pd.Valid()
    modifies mm, pd`messageHistory, pd`messageCooldowns, pd`messageRepeatCount, pd`messageTimestamps
    ensures pd.Valid() && Fetched(outcome)
    ensures var v := Checks(old(mm.State()), old(pd.State()), uuid, message, now, cfg);
      outcome == v.outcome && mm.State() == v.mutes && pd.State() == v.player
  {
    if cfg.antiSpamKickEnabled {
      var kicked := CheckAndKickSpammer(uuid, pd, mm, now, cfg);
      if kicked {
        return SpamKicked;
      }
    }
    if cfg.blockedWordsEnabled {
      var blocked := ContainsBlockedWord(message, cfg.blockedWords);
      if blocked {
        return BlockedWord;
      }
    }
    var duplicate := IsDuplicateMessage(message, pd, now, cfg);
    if duplicate {
      return Duplicate;
    }
    pd.AddMessage(message);
    return Delivered;
  }

  /** processMessage: every message is handled — broadcast, or refused with the reason in the outcome. */
  method ProcessMessage(uuid: Uuid, bypass: bool, message: string, now: int, cfg: Settings, mm: MuteManager, pdm: PlayerDataManager)
    returns (handled: bool, outcome: Outcome)
    requires pdm.Valid()
    modifies mm, pdm, pdm.playerDataMap.Values
    ensures handled && pdm.Valid()
    ensures var v := Decide(old(mm.State()), old(StoredState(pdm, uuid, cfg.messageHistorySize)), uuid, bypass, message, now, cfg);
      && outcome == v.outcome && mm.State() == v.mutes
      && StoredState(pdm, uuid, cfg.messageHistorySize) == v.player
    ensures forall u :: u in pdm.playerDataMap <==> u in old(pdm.playerDataMap) || (Fetched(outcome) && u == uuid)
    ensures forall u :: u in old(pdm.playerDataMap) && u != uuid ==> pdm.playerDataMap[u].State() == old(pdm.playerDataMap[u].State())
  {
    outcome := ScreenMessage(uuid, bypass, message, now, cfg, mm, pdm);
    handled := true;
  }

  /** A muted player without bypass never gets a message out, and their own data is not touched. */
  lemma MutedPlayerSilenced(ms: MuteState, ps: PlayerState, uuid: Uuid, message: string, now: int, cfg: Settings)
    requires MutedIn(ms.activeMutes, uuid, now)
    ensures var v := Decide(ms, ps, uuid, false, message, now, cfg);
      && v.outcome.Muted? && !Sends(v.outcome)
      && 0 <= v.outcome.secondsRemaining
      && v.player == ps && v.mutes == ms
  {
  }

  /** While a mute placed for d seconds runs, the player is told at most d seconds remain. */
  lemma MutedSecondsAtMostDuration(ms: MuteState, ps: PlayerState, uuid: Uuid, message: string, start: int, d: int, now: int, cfg: Settings)
    requires 0 < d < TWO_31 && start <= now < start + d * 1000
    ensures var mutes := ms.(activeMutes := ms.activeMutes[uuid := MuteRecord(start, d)]);
      var v := Decide(mutes, ps, uuid, false, message, now, cfg);
      v.outcome.Muted? && v.outcome.secondsRemaining <= d
  {
    MuteRecordInForce(ms.activeMutes, uuid, start, d, now);
    SecondsRemainingAtMostDuration(d, start, now);
  }

  /** With blocked words enabled, a message containing one is never delivered; only bypass sends it. */
  lemma BlockedWordNeverDelivered(ms: MuteState, ps: PlayerState, uuid: Uuid, bypass: bool, message: string, now: int, cfg: Settings)
    requires cfg.blockedWordsEnabled && IsBlocked(message, cfg.blockedWords)
    ensures var v := Decide(ms, ps, uuid, bypass, message, now, cfg);
      Sends(v.outcome) <==> bypass
  {
  }

  /** A delivered message passed every check, and it is the newest entry of the history. */
  lemma DeliveredPassedEveryCheck(ms: MuteState, ps: PlayerState, uuid: Uuid, bypass: bool, message: string, now: int, cfg: Settings)
    requires ps.Valid()
    ensures var v := Decide(ms, ps, uuid, bypass, message, now, cfg);
      v.outcome.Delivered? ==>
        && !bypass && !MutedIn(ms.activeMutes, uuid, now)
        && !(cfg.antiSpamKickEnabled && BurstCheck(ps, now, cfg).0)
        && !(cfg.blockedWordsEnabled && IsBlocked(message, cfg.blockedWords))
        && v.player.Valid()
        && v.player.history == AppendBounded(ps.history, message, ps.maxHistorySize)
        && (ps.maxHistorySize > 0 ==> |v.player.history| > 0 && v.player.history[|v.player.history| - 1] == message)
  {
    var v := Decide(ms, ps, uuid, bypass, message, now, cfg);
    if v.outcome.Delivered? {
      var counted := if cfg.antiSpamKickEnabled then BurstCheck(ps, now, cfg).1 else ps;
      DuplicateCheckKeepsHistory(counted, message, now, cfg);
      AppendBoundedKeepsNewest(ps.history, message, ps.maxHistorySize);
    }
  }

  /** DuplicateCheck leaves history, timestamps and the history limit alone. */
  lemma DuplicateCheckKeepsHistory(ps: PlayerState, message: string, now: int, cfg: Settings)
    ensures var after := DuplicateCheck(ps, message, now, cfg).1;
      after.history == ps.history && after.timestamps == ps.timestamps && after.maxHistorySize == ps.maxHistorySize
  {
  }

  /** Only a delivered message changes the history; every screened message is timestamped when the burst check is on. */
  lemma ScreeningEffects(ms: MuteState, ps: PlayerState, uuid: Uuid, bypass: bool, message: string, now: int, cfg: Settings)
    ensures var v := Decide(ms, ps, uuid, bypass, message, now, cfg);
      && v.player.history == (if v.outcome.Delivered? then AppendBounded(ps.history, message, ps.maxHistorySize) else ps.history)
      && (Fetched(v.outcome) && cfg.antiSpamKickEnabled ==> v.player.timestamps == BurstCheck(ps, now, cfg).1.timestamps)
      && (!Fetched(v.outcome) ==> v.player == ps)
      && (!v.outcome.SpamKicked? ==> v.mutes.recentKicks == ms.recentKicks)
  {
    var v := Decide(ms, ps, uuid, bypass, message, now, cfg);
    if Fetched(v.outcome) {
      var counted := if cfg.antiSpamKickEnabled then BurstCheck(ps, now, cfg).1 else ps;
      DuplicateCheckKeepsHistory(counted, message, now, cfg);
    }
  }

  /** The repeat counts stay below maxRepeats whatever is screened. */
  lemma DecideKeepsCountsBelow(ms: MuteState, ps: PlayerState, uuid: Uuid, bypass: bool, message: string, now: int, cfg: Settings)
    requires CountsBelow(ps.repeatCounts, cfg.maxRepeats)
    ensures CountsBelow(Decide(ms, ps, uuid, bypass, message, now, cfg).player.repeatCounts, cfg.maxRepeats)
  {
    var counted := if cfg.antiSpamKickEnabled then BurstCheck(ps, now, cfg).1 else ps;
    DuplicateCheckKeepsCountsBelow(counted, message, now, cfg);
  }

  /** With no blocked words and fewer earlier timestamps than the kick threshold, an unmuted player's message is judged by DuplicateCheck alone. */
  lemma QuietDecide(ms: MuteState, ps: PlayerState, uuid: Uuid, message: string, now: int, cfg: Settings)
    requires uuid !in ms.activeMutes && cfg.blockedWords == []
    requires |ps.timestamps| < cfg.kickMessageThreshold
    ensures var counted := if cfg.antiSpamKickEnabled then BurstCheck(ps, now, cfg).1 else ps;
      var (duplicate, screened) := DuplicateCheck(counted, message, now, cfg);
      Decide(ms, ps, uuid, false, message, now, cfg)
        == if duplicate then Verdict(Duplicate, ms, screened)
           else Verdict(Delivered, ms, screened.(history := AppendBounded(screened.history, message, screened.maxHistorySize)))
  {
    BurstNeedsThreshold(ps, now, cfg);
  }

  /** "hello" is its own normalization, survives trimming, and is a repeat of itself. */
  lemma HelloIsRepeat()
    ensures Normalize("hello") == "hello" && Trim("hello") == "hello"
    ensures SimilarPast("hello", "hello", Defaults.similarityThreshold)
  {
    LowerNoUpper("hello");
    NormalizeLoweredCanonical("hello");
    TrimNoControl("hello");
    SimilarityFull("hello", "hello");
  }

  /** A first "hello" with nothing to compare against passes, leaving no count. */
  lemma FirstHelloPasses(ps: PlayerState, now: int)
    requires ps.history == [] && "hello" !in ps.cooldowns
    ensures var (duplicate, after) := DuplicateCheck(ps, "hello", now, Defaults);
      !duplicate && after.cooldowns == ps.cooldowns && RepeatCount(after.repeatCounts, "hello") == 0
  {
    HelloIsRepeat();
  }

  /** A "hello" following a "hello" counts as a repeat: passed at count 1, refused with a 30 s cooldown at count 2. */
  lemma RepeatedHello(ps: PlayerState, now: int)
    requires |ps.history| > 0 && ps.history[0] == "hello" && "hello" !in ps.cooldowns
    ensures var (duplicate, after) := DuplicateCheck(ps, "hello", now, Defaults);
      && (RepeatCount(ps.repeatCounts, "hello") == 0 ==>
            !duplicate && after.cooldowns == ps.cooldowns && RepeatCount(after.repeatCounts, "hello") == 1)
      && (RepeatCount(ps.repeatCounts, "hello") == 1 ==>
            duplicate && after.cooldowns == ps.cooldowns["hello" := now + 30000])
  {
    HelloIsRepeat();
    assert SimilarPast(ps.history[0], "hello", Defaults.similarityThreshold);
  }

  /** A "hello" inside its cooldown is refused. */
  lemma CoolingHelloRefused(ps: PlayerState, now: int)
    requires "hello" in ps.cooldowns && now < ps.cooldowns["hello"]
    ensures DuplicateCheck(ps, "hello", now, Defaults).0
  {
    HelloIsRepeat();
  }

  /**
   * With the defaults (maxRepeats 2, cooldown 30 s), "hello" sent three
   * times a second apart by a new player is delivered twice and refused the
   * third time, and a fourth send 29 seconds after the third is still refused.
   */
  lemma ThirdHelloRefused(ms: MuteState, uuid: Uuid, t: int)
    requires uuid !in ms.activeMutes
    ensures var p0 := EmptyPlayer(Defaults.messageHistorySize);
      var v1 := Decide(ms, p0, uuid, false, "hello", t, Defaults);
      var v2 := Decide(v1.mutes, v1.player, uuid, false, "hello", t + 1000, Defaults);
      var v3 := Decide(v2.mutes, v2.player, uuid, false, "hello", t + 2000, Defaults);
      var v4 := Decide(v3.mutes, v3.player, uuid, false, "hello", t + 31000, Defaults);
      && v1.outcome == Delivered && v2.outcome == Delivered
      && v3.outcome == Duplicate && v4.outcome == Duplicate
      && v3.player.history == ["hello", "hello"]
  {
    var p0 := EmptyPlayer(Defaults.messageHistorySize);
    HelloFirstSend(ms, p0, uuid, t);
    var v1 := Decide(ms, p0, uuid, false, "hello", t, Defaults);
    HelloSecondSend(ms, v1.player, uuid, t + 1000);
    var v2 := Decide(ms, v1.player, uuid, false, "hello", t + 1000, Defaults);
    HelloThirdSend(ms, v2.player, uuid, t + 2000);
    var v3 := Decide(ms, v2.player, uuid, false, "hello", t + 2000, Defaults);
    HelloWhileCooling(ms, v3.player, uuid, t + 31000);
  }

  /** The first "hello" of a player with no history is delivered and leaves no count. */
  lemma HelloFirstSend(ms: MuteState, ps: PlayerState, uuid: Uuid, now: int)
    requires uuid !in ms.activeMutes
    requires ps == EmptyPlayer(Defaults.messageHistorySize)
    ensures var v := Decide(ms, ps, uuid, false, "hello", now, Defaults);
      && v.outcome == Delivered && v.mutes == ms
      && v.player.history == ["hello"] && "hello" !in v.player.cooldowns
      && |v.player.timestamps| <= 1 && RepeatCount(v.player.repeatCounts, "hello") == 0
      && v.player.maxHistorySize == Defaults.messageHistorySize
  {
    QuietDecide(ms, ps, uuid, "hello", now, Defaults);
    FirstHelloPasses(BurstCheck(ps, now, Defaults).1, now);
  }

  /** A second "hello" is delivered and counted once. */
  lemma HelloSecondSend(ms: MuteState, ps: PlayerState, uuid: Uuid, now: int)
    requires uuid !in ms.activeMutes
    requires ps.history == ["hello"] && "hello" !in ps.cooldowns
    requires |ps.timestamps| <= 1 && RepeatCount(ps.repeatCounts, "hello") == 0
    requires ps.maxHistorySize == Defaults.messageHistorySize
    ensures var v := Decide(ms, ps, uuid, false, "hello", now, Defaults);
      && v.outcome == Delivered && v.mutes == ms
      && v.player.history == ["hello", "hello"] && "hello" !in v.player.cooldowns
      && |v.player.timestamps| <= 2 && RepeatCount(v.player.repeatCounts, "hello") == 1
      && v.player.maxHistorySize == Defaults.messageHistorySize
  {
    QuietDecide(ms, ps, uuid, "hello", now, Defaults);
    RepeatedHello(BurstCheck(ps, now, Defaults).1, now);
  }

  /** A third "hello" reaches maxRepeats: refused, with a 30-second cooldown. */
  lemma HelloThirdSend(ms: MuteState, ps: PlayerState, uuid: Uuid, now: int)
    requires uuid !in ms.activeMutes
    requires ps.history == ["hello", "hello"] && "hello" !in ps.cooldowns
    requires |ps.timestamps| <= 2 && RepeatCount(ps.repeatCounts, "hello") == 1
    ensures var v := Decide(ms, ps, uuid, false, "hello", now, Defaults);
      && v.outcome == Duplicate && v.mutes == ms
      && v.player.history == ["hello", "hello"]
      && "hello" in v.player.cooldowns && v.player.cooldowns["hello"] == now + 30000
      && |v.player.timestamps| <= 3
  {
    QuietDecide(ms, ps, uuid, "hello", now, Defaults);
    RepeatedHello(BurstCheck(ps, now, Defaults).1, now);
  }

  /** A "hello" before its cooldown ends is refused. */
  lemma HelloWhileCooling(ms: MuteState, ps: PlayerState, uuid: Uuid, now: int)
    requires uuid !in ms.activeMutes
    requires "hello" in ps.cooldowns && now < ps.cooldowns["hello"] && |ps.timestamps| <= 3
    ensures Decide(ms, ps, uuid, false, "hello", now, Defaults).outcome == Duplicate
  {
    QuietDecide(ms, ps, uuid, "hello", now, Defaults);
    CoolingHelloRefused(BurstCheck(ps, now, Defaults).1, now);
  }
}
