/**
 * The per-player records: PlayerData, the mutable moderation state of one
 * sender, and MuteData, an immutable timed mute.
 */
module Data {
  import opened JavaInts

  /** java.util.UUID: two 64-bit halves. */
  datatype Uuid = Uuid(mostSigBits: int, leastSigBits: int)

  function Min(a: int, b: int): int { if a <= b then a else b }

  // ---------------------------------------------------------------------------
  // Message history
  // ---------------------------------------------------------------------------

  /** How many messages the history can hold: removing one entry per append keeps at most max(0, maxHistorySize). */
  function Capacity(maxHistorySize: int): nat
  {
    if maxHistorySize < 0 then 0 else maxHistorySize
  }

  /** addMessage on the history value: append, then drop the oldest entry when over the limit. */
  function AppendBounded(history: seq<string>, message: string, maxHistorySize: int): seq<string>
  {
    var added := history + [message];
    if |added| > maxHistorySize then added[1..] else added
  }

  /**
   * From a history within the limit, addMessage keeps the newest entries of
   * the old history followed by the new message, oldest first, and stays
   * within the limit.
   */
  lemma AppendBoundedKeepsNewest(history: seq<string>, message: string, maxHistorySize: int)
    requires |history| <= Capacity(maxHistorySize)
    ensures var r := AppendBounded(history, message, maxHistorySize);
      && |r| == Min(|history| + 1, Capacity(maxHistorySize))
      && r == (history + [message])[|history| + 1 - |r|..]
  {
  }

  /** The history after a run of messages is appended to an empty one. */
  function HistoryAfter(messages: seq<string>, maxHistorySize: int): seq<string>
  {
    if messages == [] then []
    else AppendBounded(HistoryAfter(messages[..|messages| - 1], maxHistorySize), messages[|messages| - 1], maxHistorySize)
  }

  /** The history always holds exactly the newest max(0, maxHistorySize) messages, oldest first. */
  lemma {:induction false} HistoryIsNewest(messages: seq<string>, maxHistorySize: int)
    ensures var n := Min(|messages|, Capacity(maxHistorySize));
      HistoryAfter(messages, maxHistorySize) == messages[|messages| - n..]
  {
    if messages != [] {
      var init := messages[..|messages| - 1];
      HistoryIsNewest(init, maxHistorySize);
      var h := HistoryAfter(init, maxHistorySize);
      AppendBoundedKeepsNewest(h, messages[|messages| - 1], maxHistorySize);
      var last := messages[|messages| - 1];
      var n := Min(|init|, Capacity(maxHistorySize));
      var k := Min(|messages|, Capacity(maxHistorySize));
      assert h + [last] == messages[|init| - n..];
      assert Min(n + 1, Capacity(maxHistorySize)) == k;
      assert (h + [last])[n + 1 - k..] == messages[|messages| - k..];
    }
  }

  // ---------------------------------------------------------------------------
  // Timestamps (removeIf(t -> t < cutoff))
  // ---------------------------------------------------------------------------

  /** The timestamps not older than the cutoff, in their original order. */
  function DropBefore(ts: seq<int>, cutoff: int): (r: seq<int>)
    ensures |r| <= |ts|
  {
    if ts == [] then []
    else
      var rest := DropBefore(ts[..|ts| - 1], cutoff);
      if ts[|ts| - 1] < cutoff then rest else rest + [ts[|ts| - 1]]
  }

  /** DropBefore keeps exactly the timestamps at or after the cutoff. */
  lemma {:induction false} DropBeforeKeeps(ts: seq<int>, cutoff: int)
    ensures forall t :: t in DropBefore(ts, cutoff) <==> t in ts && t >= cutoff
  {
    if ts != [] {
      DropBeforeKeeps(ts[..|ts| - 1], cutoff);
      assert ts == ts[..|ts| - 1] + [ts[|ts| - 1]];
    }
  }

  /** Appending after the cut is the same as cutting the appended list when the new entry is recent. */
  lemma DropBeforeAppend(ts: seq<int>, t: int, cutoff: int)
    ensures DropBefore(ts + [t], cutoff) == DropBefore(ts, cutoff) + (if t < cutoff then [] else [t])
  {
    assert (ts + [t])[..|ts|] == ts;
  }

  /** A list whose every timestamp is at or after the cutoff is left as it is. */
  lemma {:induction false} DropBeforeAllRecent(ts: seq<int>, cutoff: int)
    requires forall k :: 0 <= k < |ts| ==> ts[k] >= cutoff
    ensures DropBefore(ts, cutoff) == ts
  {
    if ts != [] {
      DropBeforeAllRecent(ts[..|ts| - 1], cutoff);
      assert ts == ts[..|ts| - 1] + [ts[|ts| - 1]];
    }
  }

  /** A list whose every timestamp is before the cutoff is emptied. */
  lemma {:induction false} DropBeforeAllOld(ts: seq<int>, cutoff: int)
    requires forall k :: 0 <= k < |ts| ==> ts[k] < cutoff
    ensures DropBefore(ts, cutoff) == []
  {
    if ts != [] {
      DropBeforeAllOld(ts[..|ts| - 1], cutoff);
    }
  }

  /** Pruning twice is pruning once at the later cutoff. */
  lemma {:induction false} DropBeforeTwice(ts: seq<int>, c1: int, c2: int)
    ensures DropBefore(DropBefore(ts, c1), c2) == DropBefore(ts, if c1 < c2 then c2 else c1)
  {
    if ts != [] {
      var init, t := ts[..|ts| - 1], ts[|ts| - 1];
      DropBeforeTwice(init, c1, c2);
      if t >= c1 {
        DropBeforeAppend(DropBefore(init, c1), t, c2);
      }
    }
  }

  // ---------------------------------------------------------------------------
  // Cooldowns and repeat counts
  // ---------------------------------------------------------------------------

  /**
   * isOnCooldown on the map value: whether the key is cooling down at `now`,
   * and the map after an expired entry for it has been removed.
   */
  function CooldownCheck(cooldowns: map<string, int>, key: string, now: int): (bool, map<string, int>)
  {
    if key !in cooldowns then (false, cooldowns)
    else if now >= cooldowns[key] then (false, cooldowns - {key})
    else (true, cooldowns)
  }

  /** The check answers whether an unexpired entry exists; only the key's own expired entry is ever removed. */
  lemma CooldownCheckSpec(cooldowns: map<string, int>, key: string, now: int)
    ensures var (on, after) := CooldownCheck(cooldowns, key, now);
      && (on <==> key in cooldowns && now < cooldowns[key])
      && (forall k :: k in after <==> k in cooldowns && (k != key || now < cooldowns[k]))
      && (forall k :: k in after ==> after[k] == cooldowns[k])
  {
  }

  /** A cooldown set to expire at `expiry` holds strictly before that time and not from it on. */
  lemma CooldownUntil(cooldowns: map<string, int>, key: string, expiry: int, now: int)
    ensures CooldownCheck(cooldowns[key := expiry], key, now).0 <==> now < expiry
  {
  }

  /** getRepeatCount: the stored count, or 0 when there is none. */
  function RepeatCount(counts: map<string, int>, key: string): int
  {
    if key in counts then counts[key] else 0
  }

  /** incrementRepeatCount on the map value. */
  function Incremented(counts: map<string, int>, key: string): map<string, int>
  {
    counts[key := RepeatCount(counts, key) + 1]
  }

  /** Incrementing raises the key's count by exactly one from 0 or its stored value; resetting brings it back to 0; other keys are untouched. */
  lemma RepeatCountUpdates(counts: map<string, int>, key: string, other: string)
    requires other != key
    ensures RepeatCount(Incremented(counts, key), key) == RepeatCount(counts, key) + 1
    ensures RepeatCount(counts - {key}, key) == 0
    ensures RepeatCount(Incremented(counts, key), other) == RepeatCount(counts, other)
    ensures RepeatCount(counts - {key}, other) == RepeatCount(counts, other)
  {
  }

  // ---------------------------------------------------------------------------
  // PlayerData
  // ---------------------------------------------------------------------------

  /** The value held by one PlayerData object. */
  datatype PlayerState = PlayerState(
    history: seq<string>,
    cooldowns: map<string, int>,
    repeatCounts: map<string, int>,
    timestamps: seq<int>,
    maxHistorySize: int)
  {
    predicate Valid() { |history| <= Capacity(maxHistorySize) }
  }

  /** A freshly constructed PlayerData. */
  function EmptyPlayer(maxHistorySize: int): PlayerState
  {
    PlayerState([], map[], map[], [], maxHistorySize)
  }

  class PlayerData {
    var messageHistory: seq<string>
    var messageCooldowns: map<string, int>
    var messageRepeatCount: map<string, int>
    var messageTimestamps: seq<int>
    const maxHistorySize: int

    function State(): PlayerState
      reads this
    {
      PlayerState(messageHistory, messageCooldowns, messageRepeatCount, messageTimestamps, maxHistorySize)
    }

    ghost predicate Valid()
      reads this
    {
      State().Valid()
    }

    constructor(maxHistorySize: int)
      ensures State() == EmptyPlayer(maxHistorySize) && Valid()
    {
      this.maxHistorySize := maxHistorySize;
      messageHistory := [];
      messageCooldowns := map[];
      messageRepeatCount := map[];
      messageTimestamps := [];
    }

    method AddMessage(message: string)
      requires Valid()
      modifies this`messageHistory
      ensures Valid()
      ensures messageHistory == AppendBounded(old(messageHistory), message, maxHistorySize)
    {
      messageHistory := messageHistory + [message];
      if |messageHistory| > maxHistorySize {
        messageHistory := messageHistory[1..];
      }
    }

    /** getMessageHistory hands out a copy: a value, which the caller cannot use to change the stored list. */
    function GetMessageHistory(): seq<string>
      reads this
    {
      messageHistory
    }

    method SetCooldown(normalizedMessage: string, expiryTime: int)
      modifies this`messageCooldowns
      ensures messageCooldowns == old(messageCooldowns)[normalizedMessage := expiryTime]
    {
      messageCooldowns := messageCooldowns[normalizedMessage := expiryTime];
    }

    method IsOnCooldown(normalizedMessage: string, now: int) returns (onCooldown: bool)
      modifies this`messageCooldowns
      ensures (onCooldown, messageCooldowns) == CooldownCheck(old(messageCooldowns), normalizedMessage, now)
    {
      if normalizedMessage !in messageCooldowns {
        return false;
      }
      if now >= messageCooldowns[normalizedMessage] {
        messageCooldowns := messageCooldowns - {normalizedMessage};
        return false;
      }
      return true;
    }

    method IncrementRepeatCount(normalizedMessage: string)
      modifies this`messageRepeatCount
      ensures messageRepeatCount == Incremented(old(messageRepeatCount), normalizedMessage)
    {
      messageRepeatCount := messageRepeatCount[normalizedMessage := RepeatCount(messageRepeatCount, normalizedMessage) + 1];
    }

    method ResetRepeatCount(normalizedMessage: string)
      modifies this`messageRepeatCount
      ensures messageRepeatCount == old(messageRepeatCount) - {normalizedMessage}
    {
      messageRepeatCount := messageRepeatCount - {normalizedMessage};
    }

    function GetRepeatCount(normalizedMessage: string): int
      reads this
    {
      RepeatCount(messageRepeatCount, normalizedMessage)
    }

    method AddTimestamp(timestamp: int)
      modifies this`messageTimestamps
      ensures messageTimestamps == old(messageTimestamps) + [timestamp]
    {
      messageTimestamps := messageTimestamps + [timestamp];
    }

    method CleanOldTimestamps(cutoffTime: int)
      modifies this`messageTimestamps
      ensures messageTimestamps == DropBefore(old(messageTimestamps), cutoffTime)
    {
      messageTimestamps := DropBefore(messageTimestamps, cutoffTime);
    }

    function GetRecentMessageCount(): int
      reads this
    {
      |messageTimestamps|
    }

    method Clear()
      modifies this`messageHistory, this`messageCooldowns, this`messageRepeatCount, this`messageTimestamps
      ensures State() == EmptyPlayer(maxHistorySize) && Valid()
    {
      messageHistory := [];
      messageCooldowns := map[];
      messageRepeatCount := map[];
      messageTimestamps := [];
    }
  }

  // ---------------------------------------------------------------------------
  // MuteData
  // ---------------------------------------------------------------------------

  /** An immutable mute: when it ends (epoch milliseconds) and how long it was set for (seconds). */
  datatype MuteData = MuteData(muteExpiry: int, muteDuration: int)
  {
    predicate IsExpired(now: int)
    {
      now >= muteExpiry
    }

    /** getSecondsRemaining: the long quotient (expiry - now) / 1000, narrowed to int, floored at 0. */
    function SecondsRemaining(now: int): (r: int)
      ensures 0 <= r < TWO_31
    {
      var remaining := DivTrunc(muteExpiry - now, 1000);
      var narrowed := Int32(remaining);
      if narrowed < 0 then 0 else narrowed
    }
  }

  /** While the mute runs (and less than 2^31 seconds remain) the seconds remaining are the whole seconds to the expiry. */
  lemma SecondsRemainingWhileMuted(m: MuteData, now: int)
    requires !m.IsExpired(now) && m.muteExpiry - now < TWO_31 * 1000
    ensures m.SecondsRemaining(now) == (m.muteExpiry - now) / 1000
    ensures m.SecondsRemaining(now) * 1000 <= m.muteExpiry - now < m.SecondsRemaining(now) * 1000 + 1000
  {
    var q := DivTrunc(m.muteExpiry - now, 1000);
    assert q == (m.muteExpiry - now) / 1000;
    Int32InRange(q);
  }

  /** Once expired (for less than 2^31 seconds), no time remains. */
  lemma SecondsRemainingWhenExpired(m: MuteData, now: int)
    requires m.IsExpired(now) && now - m.muteExpiry < TWO_31 * 1000
    ensures m.SecondsRemaining(now) == 0
  {
    var q := DivTrunc(m.muteExpiry - now, 1000);
    assert -TWO_31 < q <= 0;
    Int32InRange(q);
  }

  /** The 32-bit narrowing wraps for a record that expired long ago: one expired about 136 years earlier reports 5 seconds left. */
  lemma SecondsRemainingWrapsLongAfterExpiry()
    ensures MuteData(0, 0).IsExpired((TWO_32 - 5) * 1000)
    ensures MuteData(0, 0).SecondsRemaining((TWO_32 - 5) * 1000) == 5
  {
    var q := DivTrunc(0 - (TWO_32 - 5) * 1000, 1000);
    assert q == 5 - TWO_32;
    assert Int32(q) == 5;
  }

  /** A mute of d seconds (an int) set at `start` reports at most d seconds afterwards (within 2^31 seconds of the start). */
  lemma SecondsRemainingAtMostDuration(d: int, start: int, now: int)
    requires 0 <= d < TWO_31 && start <= now < start + TWO_31 * 1000
    ensures MuteData(start + d * 1000, d).SecondsRemaining(now) <= d
  {
    var m := MuteData(start + d * 1000, d);
    if m.IsExpired(now) {
      SecondsRemainingWhenExpired(m, now);
    } else {
      SecondsRemainingWhileMuted(m, now);
    }
  }

  /** The stored duration is never consulted by isExpired or getSecondsRemaining. */
  lemma DurationNotConsulted(expiry: int, d1: int, d2: int, now: int)
    ensures MuteData(expiry, d1).IsExpired(now) == MuteData(expiry, d2).IsExpired(now)
    ensures MuteData(expiry, d1).SecondsRemaining(now) == MuteData(expiry, d2).SecondsRemaining(now)
  {
  }
}
