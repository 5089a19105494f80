/**
 * MuteManager (timed mutes and the spam-kick history that escalates into a
 * mute) and PlayerDataManager (one PlayerData per player, created on demand).
 */
module Managers {
  import opened Options
  import opened JavaInts
  import opened Config
  import opened Data

  // ---------------------------------------------------------------------------
  // Mutes and kicks as values
  // ---------------------------------------------------------------------------

  /** The two maps a MuteManager holds. */
  datatype MuteState = MuteState(activeMutes: map<Uuid, MuteData>, recentKicks: map<Uuid, seq<int>>)

  /** isMuted's answer: a record exists and has not expired. */
  predicate MutedIn(mutes: map<Uuid, MuteData>, uuid: Uuid, now: int)
  {
    uuid in mutes && !mutes[uuid].IsExpired(now)
  }

  /** The mute map after isMuted: an expired record of the player is removed, nothing else changes. */
  function AfterMuteCheck(mutes: map<Uuid, MuteData>, uuid: Uuid, now: int): map<Uuid, MuteData>
  {
    if uuid in mutes && mutes[uuid].IsExpired(now) then mutes - {uuid} else mutes
  }

  /** isMuted changes no answer: the player stays (un)muted and every other record is kept. */
  lemma MuteCheckKeepsAnswers(mutes: map<Uuid, MuteData>, uuid: Uuid, now: int, other: Uuid)
    ensures MutedIn(AfterMuteCheck(mutes, uuid, now), other, now) == MutedIn(mutes, other, now)
    ensures uuid !in AfterMuteCheck(mutes, uuid, now) || !AfterMuteCheck(mutes, uuid, now)[uuid].IsExpired(now)
    ensures other != uuid ==> (other in AfterMuteCheck(mutes, uuid, now) <==> other in mutes)
  {
  }

  /** The record mute() stores: it ends durationSeconds * 1000 ms after `now` (a long product, no wrap). */
  function MuteRecord(now: int, durationSeconds: int): MuteData
  {
    MuteData(now + durationSeconds * 1000, durationSeconds)
  }

  /** A fresh mute of a positive duration is in force until its expiry and not after. */
  lemma MuteRecordInForce(mutes: map<Uuid, MuteData>, uuid: Uuid, start: int, durationSeconds: int, now: int)
    requires durationSeconds > 0 && start <= now
    ensures MutedIn(mutes[uuid := MuteRecord(start, durationSeconds)], uuid, now) <==> now < start + durationSeconds * 1000
  {
  }

  /**
   * The kick window in milliseconds as the source computes it: the minutes
   * times 60 is an int product and wraps at 32 bits before the widening
   * multiplication by 1000L.
   */
  function KickWindowMillis(windowMinutes: int): int
  {
    Int32(windowMinutes * 60) * 1000
  }

  /** Every window below 35791394 minutes (about 68 years) is computed without wrapping. */
  lemma KickWindowNoWrap(windowMinutes: int)
    requires 0 <= windowMinutes < 35791394
    ensures KickWindowMillis(windowMinutes) == windowMinutes * 60000
  {
    Int32InRange(windowMinutes * 60);
  }

  /** Beyond that, the window wraps negative: the cutoff lies in the future and every earlier kick is forgotten. */
  lemma KickWindowWraps()
    ensures KickWindowMillis(35791395) < 0
  {
    assert 35791395 * 60 == TWO_31 + 52;
    assert (TWO_31 + 52) % TWO_32 == TWO_31 + 52;
  }

  function KicksOf(kicks: map<Uuid, seq<int>>, uuid: Uuid): seq<int>
  {
    if uuid in kicks then kicks[uuid] else []
  }

  /** The player's kick list after pruning to the window and appending the new kick. */
  function PrunedKicks(kicks: map<Uuid, seq<int>>, uuid: Uuid, now: int, cfg: Settings): seq<int>
  {
    DropBefore(KicksOf(kicks, uuid), now - KickWindowMillis(cfg.autoMuteKickWindowMinutes)) + [now]
  }

  /** recordSpamKick on the value: prune, append, and at the threshold mute for the configured duration and empty the list. */
  function RecordKick(s: MuteState, uuid: Uuid, now: int, cfg: Settings): MuteState
  {
    if !cfg.autoMuteEnabled then s
    else
      var kicks := PrunedKicks(s.recentKicks, uuid, now, cfg);
      if |kicks| >= cfg.autoMuteKickThreshold then
        MuteState(s.activeMutes[uuid := MuteRecord(now, cfg.autoMuteDurationSeconds)], s.recentKicks[uuid := []])
      else
        MuteState(s.activeMutes, s.recentKicks[uuid := kicks])
  }

  /**
   * With auto-mute on and a threshold of at least one, a kick either mutes the
   * player (for the configured duration, from now) and empties their list, or
   * leaves a list shorter than the threshold that ends with this kick; other
   * players are untouched.
   */
  lemma RecordKickOutcome(s: MuteState, uuid: Uuid, now: int, cfg: Settings, other: Uuid)
    requires cfg.autoMuteEnabled && cfg.autoMuteKickThreshold >= 1 && other != uuid
    ensures var t := RecordKick(s, uuid, now, cfg);
      && uuid in t.recentKicks
      && |t.recentKicks[uuid]| < cfg.autoMuteKickThreshold
      && (|PrunedKicks(s.recentKicks, uuid, now, cfg)| >= cfg.autoMuteKickThreshold
          <==> uuid in t.activeMutes && t.activeMutes[uuid] == MuteRecord(now, cfg.autoMuteDurationSeconds) && t.recentKicks[uuid] == [])
      && (t.recentKicks[uuid] != [] ==> t.recentKicks[uuid][|t.recentKicks[uuid]| - 1] == now)
      && (other in t.activeMutes <==> other in s.activeMutes)
      && (other in t.activeMutes ==> t.activeMutes[other] == s.activeMutes[other])
      && KicksOf(t.recentKicks, other) == KicksOf(s.recentKicks, other)
      && (|PrunedKicks(s.recentKicks, uuid, now, cfg)| < cfg.autoMuteKickThreshold ==>
            t.activeMutes == s.activeMutes && t.recentKicks[uuid] == PrunedKicks(s.recentKicks, uuid, now, cfg))
  {
    var kicks := PrunedKicks(s.recentKicks, uuid, now, cfg);
    assert |kicks| >= 1;
  }

  /** With auto-mute off a kick changes nothing. */
  lemma RecordKickDisabled(s: MuteState, uuid: Uuid, now: int, cfg: Settings)
    requires !cfg.autoMuteEnabled
    ensures RecordKick(s, uuid, now, cfg) == s
  {
  }

  /**
   * With the default settings, three kicks of a player with no kick history
   * within the ten-minute window mute them for 300 seconds from the third
   * kick; the first two do not change their mute.
   */
  lemma ThirdKickMutes(s: MuteState, uuid: Uuid, t0: int)
    requires uuid !in s.recentKicks
    ensures var s1 := RecordKick(s, uuid, t0, Defaults);
      var s2 := RecordKick(s1, uuid, t0 + 60000, Defaults);
      var s3 := RecordKick(s2, uuid, t0 + 120000, Defaults);
      && s1.activeMutes == s.activeMutes && s2.activeMutes == s.activeMutes
      && s3.activeMutes == s.activeMutes[uuid := MuteData(t0 + 420000, 300)]
      && s3.recentKicks[uuid] == []
  {
    FirstKick(s, uuid, t0);
    var s1 := RecordKick(s, uuid, t0, Defaults);
    SecondKick(s1, uuid, t0);
    var s2 := RecordKick(s1, uuid, t0 + 60000, Defaults);
    ThirdKick(s2, uuid, t0);
  }

  lemma FirstKick(s: MuteState, uuid: Uuid, t0: int)
    requires uuid !in s.recentKicks
    ensures RecordKick(s, uuid, t0, Defaults) == MuteState(s.activeMutes, s.recentKicks[uuid := [t0]])
  {
    KickWindowNoWrap(10);
    assert KicksOf(s.recentKicks, uuid) + [t0] == [t0];
    KickInWindow(s, uuid, t0, Defaults);
  }

  lemma SecondKick(s: MuteState, uuid: Uuid, t0: int)
    requires KicksOf(s.recentKicks, uuid) == [t0]
    ensures RecordKick(s, uuid, t0 + 60000, Defaults) == MuteState(s.activeMutes, s.recentKicks[uuid := [t0, t0 + 60000]])
  {
    KickWindowNoWrap(10);
    assert KicksOf(s.recentKicks, uuid) + [t0 + 60000] == [t0, t0 + 60000];
    KickInWindow(s, uuid, t0 + 60000, Defaults);
  }

  lemma ThirdKick(s: MuteState, uuid: Uuid, t0: int)
    requires KicksOf(s.recentKicks, uuid) == [t0, t0 + 60000]
    ensures RecordKick(s, uuid, t0 + 120000, Defaults)
      == MuteState(s.activeMutes[uuid := MuteData(t0 + 420000, 300)], s.recentKicks[uuid := []])
  {
    KickWindowNoWrap(10);
    assert |KicksOf(s.recentKicks, uuid) + [t0 + 120000]| == 3;
    KickInWindow(s, uuid, t0 + 120000, Defaults);
  }

  /** A kick whose earlier kicks all lie in the window appends to them, or mutes at the threshold. */
  lemma KickInWindow(s: MuteState, uuid: Uuid, now: int, cfg: Settings)
    requires cfg.autoMuteEnabled
    requires forall k :: 0 <= k < |KicksOf(s.recentKicks, uuid)| ==>
      KicksOf(s.recentKicks, uuid)[k] >= now - KickWindowMillis(cfg.autoMuteKickWindowMinutes)
    ensures var kicks := KicksOf(s.recentKicks, uuid) + [now];
      RecordKick(s, uuid, now, cfg)
        == if |kicks| >= cfg.autoMuteKickThreshold
           then MuteState(s.activeMutes[uuid := MuteRecord(now, cfg.autoMuteDurationSeconds)], s.recentKicks[uuid := []])
           else MuteState(s.activeMutes, s.recentKicks[uuid := kicks])
  {
    DropBeforeAllRecent(KicksOf(s.recentKicks, uuid), now - KickWindowMillis(cfg.autoMuteKickWindowMinutes));
  }

  /** Kicks more than ten minutes apart never accumulate: each one finds the list holding only itself. */
  lemma SpreadKicksDoNotMute(s: MuteState, uuid: Uuid, t0: int)
    requires uuid !in s.recentKicks
    ensures var s1 := RecordKick(s, uuid, t0, Defaults);
      var s2 := RecordKick(s1, uuid, t0 + 600001, Defaults);
      var s3 := RecordKick(s2, uuid, t0 + 1200002, Defaults);
      && s3.activeMutes == s.activeMutes
      && s3.recentKicks[uuid] == [t0 + 1200002]
  {
    LoneKick(s, uuid, t0);
    var s1 := RecordKick(s, uuid, t0, Defaults);
    LoneKick(s1, uuid, t0 + 600001);
    var s2 := RecordKick(s1, uuid, t0 + 600001, Defaults);
    LoneKick(s2, uuid, t0 + 1200002);
  }

  /** Under the defaults, a kick that finds every earlier kick outside the window is recorded alone. */
  lemma LoneKick(s: MuteState, uuid: Uuid, now: int)
    requires forall k :: 0 <= k < |KicksOf(s.recentKicks, uuid)| ==> KicksOf(s.recentKicks, uuid)[k] < now - 600000
    ensures RecordKick(s, uuid, now, Defaults) == MuteState(s.activeMutes, s.recentKicks[uuid := [now]])
  {
    KickWindowNoWrap(10);
    DropBeforeAllOld(KicksOf(s.recentKicks, uuid), now - 600000);
    assert PrunedKicks(s.recentKicks, uuid, now, Defaults) == [now];
  }

  /** cleanup on the value: drop expired mutes, prune every kick list to the window, drop the lists left empty. */
  function CleanedUp(s: MuteState, now: int, cfg: Settings): MuteState
  {
    var cutoff := now - KickWindowMillis(cfg.autoMuteKickWindowMinutes);
    MuteState(
      map u | u in s.activeMutes && !s.activeMutes[u].IsExpired(now) :: s.activeMutes[u],
      map u | u in s.recentKicks && DropBefore(s.recentKicks[u], cutoff) != [] :: DropBefore(s.recentKicks[u], cutoff))
  }

  /**
   * cleanup leaves no expired mute, changes no player's muted status, keeps
   * every unexpired mute as it was, and keeps exactly the kicks inside the
   * window, dropping the lists left empty.
   */
  lemma CleanupSpec(s: MuteState, now: int, cfg: Settings, u: Uuid)
    ensures var t := CleanedUp(s, now, cfg);
      && (u in t.activeMutes ==> !t.activeMutes[u].IsExpired(now))
      && MutedIn(t.activeMutes, u, now) == MutedIn(s.activeMutes, u, now)
      && (u in t.recentKicks ==>
            && t.recentKicks[u] != []
            && (forall k :: k in t.recentKicks[u] ==> k in s.recentKicks[u] && k >= now - KickWindowMillis(cfg.autoMuteKickWindowMinutes)))
      && (u in s.recentKicks && u !in t.recentKicks ==> forall k :: k in s.recentKicks[u] ==> k < now - KickWindowMillis(cfg.autoMuteKickWindowMinutes))
      && (u in t.activeMutes ==> u in s.activeMutes && t.activeMutes[u] == s.activeMutes[u])
      && (u in s.recentKicks ==> forall k :: k in KicksOf(t.recentKicks, u) <==>
            k in s.recentKicks[u] && k >= now - KickWindowMillis(cfg.autoMuteKickWindowMinutes))
  {
    var cutoff := now - KickWindowMillis(cfg.autoMuteKickWindowMinutes);
    if u in s.recentKicks {
      DropBeforeKeeps(s.recentKicks[u], cutoff);
    }
  }

  // ---------------------------------------------------------------------------
  // Loading mutes
  // ---------------------------------------------------------------------------

  /** One entry of the mutes file: the key as written, its expiry and duration (a missing number reads as 0). */
  datatype MuteEntry = MuteEntry(key: string, expiry: int, duration: int)

  /** The entry is kept for this player: its key parses to the player's UUID and its mute has not expired. */
  predicate Accepts(e: MuteEntry, parse: string -> Option<Uuid>, now: int, u: Uuid)
  {
    parse(e.key) == Some(u) && !MuteData(e.expiry, e.duration).IsExpired(now)
  }

  /** loadMutes over the entries in file order, starting from the given map. */
  function Loaded(mutes: map<Uuid, MuteData>, entries: seq<MuteEntry>, parse: string -> Option<Uuid>, now: int): map<Uuid, MuteData>
  {
    if entries == [] then mutes
    else
      var before := Loaded(mutes, entries[..|entries| - 1], parse, now);
      var e := entries[|entries| - 1];
      match parse(e.key)
      case None => before
      case Some(u) =>
        var m := MuteData(e.expiry, e.duration);
        if m.IsExpired(now) then before else before[u := m]
  }

  /**
   * Loading into an empty map keeps a player exactly when some entry for them
   * parses and is unexpired; the record kept is unexpired and is that of the
   * last such entry.
   */
  lemma {:induction false} LoadedKeepsExactly(entries: seq<MuteEntry>, parse: string -> Option<Uuid>, now: int, u: Uuid)
    ensures var r := Loaded(map[], entries, parse, now);
      && (u in r <==> exists i :: 0 <= i < |entries| && Accepts(entries[i], parse, now, u))
      && (u in r ==>
            && !r[u].IsExpired(now)
            && (exists i :: && 0 <= i < |entries|
                            && Accepts(entries[i], parse, now, u)
                            && r[u] == MuteData(entries[i].expiry, entries[i].duration)
                            && (forall j :: i < j < |entries| ==> !Accepts(entries[j], parse, now, u))))
  {
    if entries != [] {
      var init := entries[..|entries| - 1];
      var last := |entries| - 1;
      LoadedKeepsExactly(init, parse, now, u);
      var before := Loaded(map[], init, parse, now);
      if Accepts(entries[last], parse, now, u) {
        assert Loaded(map[], entries, parse, now) == before[u := MuteData(entries[last].expiry, entries[last].duration)];
      } else {
        assert u in Loaded(map[], entries, parse, now) <==> u in before;
        if u in before {
          assert Loaded(map[], entries, parse, now)[u] == before[u];
          var i :| 0 <= i < |init| && Accepts(init[i], parse, now, u)
             && before[u] == MuteData(init[i].expiry, init[i].duration)
             && forall j :: i < j < |init| ==> !Accepts(init[j], parse, now, u);
          assert entries[i] == init[i];
        }
        if exists i :: 0 <= i < |entries| && Accepts(entries[i], parse, now, u) {
          var i :| 0 <= i < |entries| && Accepts(entries[i], parse, now, u);
          assert i < last;
          assert init[i] == entries[i];
        }
      }
    }
  }

  /** Loading two runs of entries one after the other is loading them together. */
  lemma {:induction false} LoadedConcat(mutes: map<Uuid, MuteData>, a: seq<MuteEntry>, b: seq<MuteEntry>, parse: string -> Option<Uuid>, now: int)
    ensures Loaded(mutes, a + b, parse, now) == Loaded(Loaded(mutes, a, parse, now), b, parse, now)
  {
    if b == [] {
      assert a + b == a;
    } else {
      LoadedConcat(mutes, a, b[..|b| - 1], parse, now);
      assert (a + b)[..|a + b| - 1] == a + b[..|b| - 1];
    }
  }

  /** An entry whose key does not parse is skipped and the entries around it load as if it were absent. */
  lemma InvalidKeySkipped(mutes: map<Uuid, MuteData>, before: seq<MuteEntry>, bad: MuteEntry, after: seq<MuteEntry>, parse: string -> Option<Uuid>, now: int)
    requires parse(bad.key).None?
    ensures Loaded(mutes, before + [bad] + after, parse, now) == Loaded(mutes, before + after, parse, now)
  {
    LoadedConcat(mutes, before + [bad], after, parse, now);
    LoadedConcat(mutes, before, after, parse, now);
    assert (before + [bad])[..|before|] == before;
  }

  // ---------------------------------------------------------------------------
  // MuteManager
  // ---------------------------------------------------------------------------

  class MuteManager {
    var activeMutes: map<Uuid, MuteData>
    var recentKicks: map<Uuid, seq<int>>

    function State(): MuteState
      reads this
    {
      MuteState(activeMutes, recentKicks)
    }

    /** The constructor starts empty and loads the entries of the mutes file (none when it is missing). */
    constructor(entries: seq<MuteEntry>, parse: string -> Option<Uuid>, now: int)
      ensures activeMutes == Loaded(map[], entries, parse, now) && recentKicks == map[]
    {
      activeMutes := map[];
      recentKicks := map[];
      new;
      LoadMutes(entries, parse, now);
    }

    method IsMuted(uuid: Uuid, now: int) returns (muted: bool)
      modifies this`activeMutes
      ensures muted == MutedIn(old(activeMutes), uuid, now)
      ensures activeMutes == AfterMuteCheck(old(activeMutes), uuid, now)
    {
      if uuid !in activeMutes {
        return false;
      }
      if activeMutes[uuid].IsExpired(now) {
        Unmute(uuid);
        return false;
      }
      return true;
    }

    /** getMuteSecondsRemaining: 0 without a record, otherwise the record's seconds remaining; it never evicts. */
    function GetMuteSecondsRemaining(uuid: Uuid, now: int): (secs: int)
      reads this
      ensures 0 <= secs < TWO_31
      ensures uuid !in activeMutes ==> secs == 0
      ensures uuid in activeMutes ==> secs == activeMutes[uuid].SecondsRemaining(now)
      ensures uuid in activeMutes && !activeMutes[uuid].IsExpired(now) && activeMutes[uuid].muteExpiry - now < TWO_31 * 1000
        ==> secs == (activeMutes[uuid].muteExpiry - now) / 1000
    {
      if uuid !in activeMutes then 0
      else
        var m := activeMutes[uuid];
        if !m.IsExpired(now) && m.muteExpiry - now < TWO_31 * 1000 then
          SecondsRemainingWhileMuted(m, now);
          m.SecondsRemaining(now)
        else
          m.SecondsRemaining(now)
    }

    method Mute(uuid: Uuid, durationSeconds: int, now: int)
      modifies this`activeMutes
      ensures activeMutes == old(activeMutes)[uuid := MuteRecord(now, durationSeconds)]
    {
      var expiryTime := now + durationSeconds * 1000;
      activeMutes := activeMutes[uuid := MuteData(expiryTime, durationSeconds)];
    }

    method Unmute(uuid: Uuid)
      modifies this`activeMutes
      ensures activeMutes == old(activeMutes) - {uuid}
    {
      activeMutes := activeMutes - {uuid};
    }

    method RecordSpamKick(uuid: Uuid, now: int, cfg: Settings)
      modifies this
      ensures State() == RecordKick(old(State()), uuid, now, cfg)
    {
      if !cfg.autoMuteEnabled {
        return;
      }
      var windowMillis := Int32(cfg.autoMuteKickWindowMinutes * 60) * 1000;
      var cutoffTime := now - windowMillis;
      var kicks := if uuid in recentKicks then recentKicks[uuid] else [];
      kicks := DropBefore(kicks, cutoffTime);
      kicks := kicks + [now];
      recentKicks := recentKicks[uuid := kicks];
      if |kicks| >= cfg.autoMuteKickThreshold {
        Mute(uuid, cfg.autoMuteDurationSeconds, now);
        recentKicks := recentKicks[uuid := []];
      }
    }

    method Cleanup(now: int, cfg: Settings)
      modifies this
      ensures State() == CleanedUp(old(State()), now, cfg)
    {
      activeMutes := map u | u in activeMutes && !activeMutes[u].IsExpired(now) :: activeMutes[u];
      var windowMillis := Int32(cfg.autoMuteKickWindowMinutes * 60) * 1000;
      var cutoffTime := now - windowMillis;
      var pruned := map u | u in recentKicks :: DropBefore(recentKicks[u], cutoffTime);
      recentKicks := map u | u in pruned && pruned[u] != [] :: pruned[u];
    }

    /** The filtering loop of loadMutes over the file's entries. */
    method LoadMutes(entries: seq<MuteEntry>, parse: string -> Option<Uuid>, now: int)
      modifies this`activeMutes
      ensures activeMutes == Loaded(old(activeMutes), entries, parse, now)
    {
      for i := 0 to |entries|
        invariant activeMutes == Loaded(old(activeMutes), entries[..i], parse, now)
      {
        assert entries[..i + 1][..i] == entries[..i];
        var e := entries[i];
        match parse(e.key) {
          case None =>
          case Some(uuid) =>
            var mute := MuteData(e.expiry, e.duration);
            if !mute.IsExpired(now) {
              activeMutes := activeMutes[uuid := mute];
            }
        }
      }
      assert entries[..|entries|] == entries;
    }

    method ClearAll()
      modifies this
      ensures activeMutes == map[] && recentKicks == map[]
    {
      activeMutes := map[];
      recentKicks := map[];
    }
  }

  // ---------------------------------------------------------------------------
  // PlayerDataManager
  // ---------------------------------------------------------------------------

  class PlayerDataManager {
    var playerDataMap: map<Uuid, PlayerData>

    /** Every stored PlayerData is within its history limit, and no two players share one. */
    ghost predicate Valid()
      reads this, playerDataMap.Values
    {
      && (forall u :: u in playerDataMap ==> playerDataMap[u].Valid())
      && (forall u, v :: u in playerDataMap && v in playerDataMap && u != v ==> playerDataMap[u] != playerDataMap[v])
    }

    constructor()
      ensures playerDataMap == map[] && Valid()
    {
      playerDataMap := map[];
    }

    /** getPlayerData: the stored object, or a fresh empty one with the configured history size, stored first. */
    method GetPlayerData(uuid: Uuid, messageHistorySize: int) returns (pd: PlayerData)
      requires Valid()
      modifies this
      ensures Valid() && pd.Valid()
      ensures uuid in old(playerDataMap) ==> pd == old(playerDataMap)[uuid] && playerDataMap == old(playerDataMap)
      ensures uuid !in old(playerDataMap) ==>
                && fresh(pd) && pd.State() == EmptyPlayer(messageHistorySize)
                && playerDataMap == old(playerDataMap)[uuid := pd]
      ensures uuid in playerDataMap && playerDataMap[uuid] == pd
    {
      if uuid in playerDataMap {
        pd := playerDataMap[uuid];
        return;
      }
      pd := new PlayerData(messageHistorySize);
      playerDataMap := playerDataMap[uuid := pd];
    }

    method RemovePlayerData(uuid: Uuid)
      requires Valid()
      modifies this
      ensures Valid()
      ensures playerDataMap == old(playerDataMap) - {uuid}
    {
      playerDataMap := playerDataMap - {uuid};
    }

    method ClearAll()
      modifies this
      ensures Valid()
      ensures playerDataMap == map[]
    {
      playerDataMap := map[];
    }
  }
}
