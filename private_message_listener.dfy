/**
 * PrivateMessageListener: intercepts the configured private-message commands
 * (/msg-style "<player> <message>" and /r, /reply), runs the same screening as
 * public chat, sends what passes and keeps, per player, whom a reply goes to.
 * Bukkit's player lookup by name is the parameter `lookup`; whether a player
 * is online is membership in `online`.
 */
module Listeners {
  import opened Options
  import opened JavaStrings
  import opened Config
  import opened Data
  import opened Managers
  import opened Handlers

  /** Where onCommand sends a command line, before any screening. */
  datatype Route =
    | NotPrivateMessage
    | Usage(command: string)
    | NoReplyTarget
    | TargetOffline
    | ReceiverNotFound
    | Deliver(receiver: Uuid, text: string)

  predicate IsReplyCommand(command: string) { command == "r" || command == "reply" }

  /**
   * The parsing half of onCommand.  A line that is not one of the configured
   * commands (compared lower-cased) is left alone; a reply goes to the
   * sender's reply target and carries everything after "/<command> "; any
   * other command needs a player name and a message.
   */
  function RouteCommand(message: string, sender: Uuid, cfg: Settings, replyTargets: map<Uuid, Uuid>,
                        lookup: string -> Option<Uuid>, online: set<Uuid>): Route
  {
    if !cfg.privateMessagingEnabled || |message| == 0 || message[0] != '/' then NotPrivateMessage
    else
      var parts := SplitLimit3(message[1..]);
      var command := ToLower(parts[0]);
      if command !in cfg.privateMessageCommands then NotPrivateMessage
      else if IsReplyCommand(command) then
        if |parts| < 2 then Usage(command)
        else if sender !in replyTargets then NoReplyTarget
        else if replyTargets[sender] !in online then TargetOffline
        else Deliver(replyTargets[sender], message[|command| + 2..])
      else if |parts| < 3 then Usage(command)
      else
        match lookup(parts[1])
        case Some(receiver) => if receiver in online then Deliver(receiver, parts[2]) else ReceiverNotFound
        case None => ReceiverNotFound
  }

  /** A line is intercepted exactly when messaging is on, it starts with '/', and its first word lower-cased is a configured command. */
  lemma InterceptedIff(message: string, sender: Uuid, cfg: Settings, replyTargets: map<Uuid, Uuid>,
                       lookup: string -> Option<Uuid>, online: set<Uuid>)
    ensures !RouteCommand(message, sender, cfg, replyTargets, lookup, online).NotPrivateMessage?
      <==> && cfg.privateMessagingEnabled && |message| > 0 && message[0] == '/'
           && ToLower(SplitLimit3(message[1..])[0]) in cfg.privateMessageCommands
  {
  }

  /** A delivered reply carries exactly what follows "/<command> " in the line. */
  lemma ReplyTextIsRest(message: string, sender: Uuid, cfg: Settings, replyTargets: map<Uuid, Uuid>,
                        lookup: string -> Option<Uuid>, online: set<Uuid>)
    requires |message| > 0 && IsReplyCommand(ToLower(SplitLimit3(message[1..])[0]))
    ensures var route := RouteCommand(message, sender, cfg, replyTargets, lookup, online);
      route.Deliver? ==> message == "/" + SplitLimit3(message[1..])[0] + " " + route.text
  {
    var route := RouteCommand(message, sender, cfg, replyTargets, lookup, online);
    if route.Deliver? {
      var rest := message[1..];
      var first := SplitLimit3(rest)[0];
      assert rest == first + " " + rest[|first| + 1..];
      assert message == [message[0]] + rest;
    }
  }

  /** "/<command> <player> <text>" with a configured non-reply command and an online player is delivered to that player, text intact. */
  lemma DirectMessageDelivered(command: string, name: string, text: string, sender: Uuid, receiver: Uuid, cfg: Settings,
                               replyTargets: map<Uuid, Uuid>, lookup: string -> Option<Uuid>, online: set<Uuid>)
    requires cfg.privateMessagingEnabled && ' ' !in command && ' ' !in name
    requires ToLower(command) in cfg.privateMessageCommands && !IsReplyCommand(ToLower(command))
    requires lookup(name) == Some(receiver) && receiver in online
    ensures RouteCommand("/" + command + " " + name + " " + text, sender, cfg, replyTargets, lookup, online) == Deliver(receiver, text)
  {
    var message := "/" + command + " " + name + " " + text;
    assert message[1..] == command + " " + name + " " + text;
    SplitLimit3OfTriple(command, name, text);
  }

  /** "/<reply command> <text>" goes to the sender's reply target with the text intact, while that target is online. */
  lemma ReplyDelivered(command: string, text: string, sender: Uuid, cfg: Settings,
                       replyTargets: map<Uuid, Uuid>, lookup: string -> Option<Uuid>, online: set<Uuid>)
    requires cfg.privateMessagingEnabled && ' ' !in command
    requires ToLower(command) in cfg.privateMessageCommands && IsReplyCommand(ToLower(command))
    requires sender in replyTargets && replyTargets[sender] in online
    ensures RouteCommand("/" + command + " " + text, sender, cfg, replyTargets, lookup, online) == Deliver(replyTargets[sender], text)
  {
    var message := "/" + command + " " + text;
    assert message[1..] == command + " " + text;
    SplitLimit3FirstWord(command, text);
    assert message[|command| + 2..] == text;
  }

  /** sendPrivateMessage records each of the two players as the other's reply target. */
  function Paired(replyTargets: map<Uuid, Uuid>, sender: Uuid, receiver: Uuid): (r: map<Uuid, Uuid>)
    ensures sender in r && receiver in r && r[receiver] == sender
    ensures sender != receiver ==> r[sender] == receiver
    ensures forall u :: u != sender && u != receiver ==> (u in r <==> u in replyTargets)
    ensures forall u :: u != sender && u != receiver && u in replyTargets ==> r[u] == replyTargets[u]
  {
    replyTargets[sender := receiver][receiver := sender]
  }

  /** After a private message is sent, the receiver's "/r <text>" goes back to the sender while the sender is online. */
  lemma ReplyGoesBack(text: string, sender: Uuid, receiver: Uuid, cfg: Settings,
                      replyTargets: map<Uuid, Uuid>, lookup: string -> Option<Uuid>, online: set<Uuid>)
    requires cfg.privateMessagingEnabled && "r" in cfg.privateMessageCommands && sender in online
    ensures RouteCommand("/r " + text, receiver, cfg, Paired(replyTargets, sender, receiver), lookup, online) == Deliver(sender, text)
  {
    assert "r" == ToLower("r");
    assert "/r " + text == "/" + "r" + " " + text;
    ReplyDelivered("r", text, receiver, cfg, Paired(replyTargets, sender, receiver), lookup, online);
  }

  /** After the partner quits and goes offline, a reply to them is refused as offline rather than delivered. */
  lemma ReplyToQuitPartner(text: string, sender: Uuid, partner: Uuid, cfg: Settings,
                           replyTargets: map<Uuid, Uuid>, lookup: string -> Option<Uuid>, online: set<Uuid>)
    requires cfg.privateMessagingEnabled && "r" in cfg.privateMessageCommands
    requires sender != partner && sender in replyTargets && replyTargets[sender] == partner && partner !in online
    ensures RouteCommand("/r " + text, sender, cfg, replyTargets - {partner}, lookup, online) == TargetOffline
  {
    var message := "/r " + text;
    assert message[1..] == "r" + " " + text;
    SplitLimit3FirstWord("r", text);
    assert ToLower("r") == "r";
  }

  /** What onCommand did with a line. */
  datatype PmResult =
    | PassedThrough
    | Refused(route: Route)
    | Screened(receiver: Uuid, text: string, outcome: Outcome, receiverGetsIt: bool)

  class PrivateMessageListener {
    var replyTargets: map<Uuid, Uuid>

    constructor()
      ensures replyTargets == map[]
    {
      replyTargets := map[];
    }

    /**
     * onCommand: a line that routes to a delivery is screened as public chat
     * is and, when it passes, sent; every other intercepted line is refused
     * with a message to the sender, dropping a stale reply target.
     */
    method OnCommand(message: string, sender: Uuid, senderBypass: bool, lookup: string -> Option<Uuid>, online: set<Uuid>,
                     now: int, cfg: Settings, mm: MuteManager, pdm: PlayerDataManager)
      returns (result: PmResult)
      requires pdm.Valid()
      modifies this, mm, pdm, pdm.playerDataMap.Values
      ensures pdm.Valid()
      ensures var route := RouteCommand(message, sender, cfg, old(replyTargets), lookup, online);
        !route.Deliver? ==>
          && result == (if route.NotPrivateMessage? then PassedThrough else Refused(route))
          && replyTargets == (if route.TargetOffline? then old(replyTargets) - {sender} else old(replyTargets))
          && mm.State() == old(mm.State())
          && pdm.playerDataMap == old(pdm.playerDataMap)
          && (forall u :: u in pdm.playerDataMap ==> pdm.playerDataMap[u].State() == old(pdm.playerDataMap[u].State()))
      ensures var route := RouteCommand(message, sender, cfg, old(replyTargets), lookup, online);
        route.Deliver? ==>
          var v := Decide(old(mm.State()), old(StoredState(pdm, sender, cfg.messageHistorySize)), sender, senderBypass, route.text, now, cfg);
          && result.Screened? && result.receiver == route.receiver && result.text == route.text
          && result.outcome == v.outcome
          && StoredState(pdm, sender, cfg.messageHistorySize) == v.player
          && (Sends(v.outcome) ==>
                && replyTargets == Paired(old(replyTargets), sender, route.receiver)
                && mm.State() == v.mutes.(activeMutes := AfterMuteCheck(v.mutes.activeMutes, route.receiver, now))
                && result.receiverGetsIt == (!MutedIn(v.mutes.activeMutes, route.receiver, now) || cfg.allowMutedReceivePM))
          && (!Sends(v.outcome) ==>
                replyTargets == old(replyTargets) && mm.State() == v.mutes && !result.receiverGetsIt)
      ensures RouteCommand(message, sender, cfg, old(replyTargets), lookup, online).Deliver? ==>
        && (forall u :: u in pdm.playerDataMap <==> u in old(pdm.playerDataMap) || (Fetched(result.outcome) && u == sender))
        && (forall u :: u in old(pdm.playerDataMap) ==> pdm.playerDataMap[u] == old(pdm.playerDataMap[u]))
        && (forall u :: u in old(pdm.playerDataMap) && u != sender ==> pdm.playerDataMap[u].State() == old(pdm.playerDataMap[u].State()))
    {
      var route := ParseCommand(message, sender, lookup, online, cfg);
      if !route.Deliver? {
        return if route.NotPrivateMessage? then PassedThrough else Refused(route);
      }
      result := Forward(sender, route.receiver, route.text, senderBypass, now, cfg, mm, pdm);
    }

    /** The parsing half of onCommand, with its early returns; an offline reply target is dropped. */
    method ParseCommand(message: string, sender: Uuid, lookup: string -> Option<Uuid>, online: set<Uuid>, cfg: Settings)
      returns (route: Route)
      modifies this`replyTargets
      ensures route == RouteCommand(message, sender, cfg, old(replyTargets), lookup, online)
      ensures replyTargets == if route.TargetOffline? then old(replyTargets) - {sender} else old(replyTargets)
    {
      if !cfg.privateMessagingEnabled {
        return NotPrivateMessage;
      }
      if |message| == 0 || message[0] != '/' {
        return NotPrivateMessage;
      }
      var parts := SplitLimit3(message[1..]);
      var command := ToLower(parts[0]);
      if command !in cfg.privateMessageCommands {
        return NotPrivateMessage;
      }
      if command == "r" || command == "reply" {
        if |parts| < 2 {
          return Usage(command);
        }
        if sender !in replyTargets {
          return NoReplyTarget;
        }
        var receiver := replyTargets[sender];
        if receiver !in online {
          replyTargets := replyTargets - {sender};
          return TargetOffline;
        }
        return Deliver(receiver, message[|command| + 2..]);
      }
      if |parts| < 3 {
        return Usage(command);
      }
      var found := lookup(parts[1]);
      if found.None? || found.value !in online {
        return ReceiverNotFound;
      }
      return Deliver(found.value, parts[2]);
    }

    /** The end of onCommand once sender, receiver and text are known: the screening, then the sending of what passes. */
    method Forward(sender: Uuid, receiver: Uuid, text: string, senderBypass: bool, now: int, cfg: Settings,
                   mm: MuteManager, pdm: PlayerDataManager)
      returns (result: PmResult)
      requires pdm.Valid()
      modifies this`replyTargets, mm, pdm, pdm.playerDataMap.Values
      ensures pdm.Valid()
      ensures var v := Decide(old(mm.State()), old(StoredState(pdm, sender, cfg.messageHistorySize)), sender, senderBypass, text, now, cfg);
        && result.Screened? && result.receiver == receiver && result.text == text && result.outcome == v.outcome
        && StoredState(pdm, sender, cfg.messageHistorySize) == v.player
        && (Sends(v.outcome) ==>
              && replyTargets == Paired(old(replyTargets), sender, receiver)
              && mm.State() == v.mutes.(activeMutes := AfterMuteCheck(v.mutes.activeMutes, receiver, now))
              && result.receiverGetsIt == (!MutedIn(v.mutes.activeMutes, receiver, now) || cfg.allowMutedReceivePM))
        && (!Sends(v.outcome) ==>
              replyTargets == old(replyTargets) && mm.State() == v.mutes && !result.receiverGetsIt)
      ensures forall u :: u in pdm.playerDataMap <==> u in old(pdm.playerDataMap) || (Fetched(result.outcome) && u == sender)
      ensures forall u :: u in old(pdm.playerDataMap) ==> pdm.playerDataMap[u] == old(pdm.playerDataMap[u])
      ensures forall u :: u in old(pdm.playerDataMap) && u != sender ==> pdm.playerDataMap[u].State() == old(pdm.playerDataMap[u].State())
    {
      var outcome := ScreenMessage(sender, senderBypass, text, now, cfg, mm, pdm);
      var receiverGetsIt := false;
      if Sends(outcome) {
        receiverGetsIt := SendPrivateMessage(sender, receiver, now, cfg, mm);
      }
      return Screened(receiver, text, outcome, receiverGetsIt);
    }

    /**
     * sendPrivateMessage: both players become each other's reply target; the
     * sender always sees the message, the receiver unless muted with
     * allowMutedReceivePM off.  Asking whether the receiver is muted evicts
     * an expired mute of theirs.
     */
    method SendPrivateMessage(sender: Uuid, receiver: Uuid, now: int, cfg: Settings, mm: MuteManager)
      returns (receiverGetsIt: bool)
      modifies this`replyTargets, mm`activeMutes
      ensures replyTargets == Paired(old(replyTargets), sender, receiver)
      ensures mm.activeMutes == AfterMuteCheck(old(mm.activeMutes), receiver, now)
      ensures receiverGetsIt == (!MutedIn(old(mm.activeMutes), receiver, now) || cfg.allowMutedReceivePM)
    {
      replyTargets := replyTargets[sender := receiver];
      replyTargets := replyTargets[receiver := sender];
      var receiverIsMuted := mm.IsMuted(receiver, now);
      var canReceive := cfg.allowMutedReceivePM;
      receiverGetsIt := !receiverIsMuted || canReceive;
    }

    /** onPlayerQuit: the quitting player's own reply target is forgotten; targets pointing at them stay. */
    method OnPlayerQuit(uuid: Uuid)
      modifies this`replyTargets
      ensures replyTargets == old(replyTargets) - {uuid}
    {
      replyTargets := replyTargets - {uuid};
    }
  }
}
