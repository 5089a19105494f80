/**
 * The configuration values the moderation logic reads, with the defaults
 * ConfigManager falls back to when a key is missing.
 */
module Config {

  datatype Settings = Settings(
    messageHistorySize: int,
    similarityThreshold: real,
    maxRepeats: int,
    cooldownSeconds: int,
    blockedWordsEnabled: bool,
    blockedWords: seq<string>,
    antiSpamKickEnabled: bool,
    kickMessageThreshold: int,
    kickTimeWindowSeconds: int,
    autoMuteEnabled: bool,
    autoMuteKickThreshold: int,
    autoMuteKickWindowMinutes: int,
    autoMuteDurationSeconds: int,
    allowMutedReceivePM: bool,
    privateMessagingEnabled: bool,
    privateMessageCommands: seq<string>)

  /** The defaults of ConfigManager; the two lists have no default and read as empty. */
  const Defaults: Settings := Settings(
    messageHistorySize := 10,
    similarityThreshold := 75.0,
    maxRepeats := 2,
    cooldownSeconds := 30,
    blockedWordsEnabled := true,
    blockedWords := [],
    antiSpamKickEnabled := true,
    kickMessageThreshold := 7,
    kickTimeWindowSeconds := 5,
    autoMuteEnabled := true,
    autoMuteKickThreshold := 3,
    autoMuteKickWindowMinutes := 10,
    autoMuteDurationSeconds := 300,
    allowMutedReceivePM := true,
    privateMessagingEnabled := true,
    privateMessageCommands := [])
}
