/**
 * The conversation store (`ConvoManager`): four in-memory tables of
 * conversations, the participant index, the durable pair-summary index and
 * the maintenance sweeper.  Every public call holds the store's lock for its
 * whole body, so each is one atomic method of the class `Store`.
 */
module ConversationSystem {

  type ChatId = nat
  /** A participant's stable identifier: a 64-bit unsigned value. */
  type PersistId = x: int | 0 <= x < 0x1_0000_0000_0000_0000
  type GameHandle = nat

  /** Milliseconds as a 32-bit unsigned clock value. */
  type TimeMillis = t: int | 0 <= t < 0x1_0000_0000

  const TimeModulus: int := 0x1_0000_0000

  /** The first identifier the counter hands out. */
  const FirstChatId: ChatId := 100

  const MemoryPrefix: string := "<|system|>\n[MEMORY] Previous encounter: "
  const UserTag: string := "<|user|>\n"
  const AssistantTag: string := "<|assistant|>\n"
  const PlayerSender: string := "Player"

  datatype ConversationData = ConversationData(
    chatId: ChatId,
    participants: seq<PersistId>,
    history: seq<string>,
    summary: string,
    location: string,
    weather: string,
    timestamp: TimeMillis,
    isActive: bool)

  /** The 64-bit hash-combine of a smaller identifier `a` with a larger one `b` (wrapping arithmetic). */
  function Mix(a: PersistId, b: PersistId): bv64
  {
    var x, y := a as bv64, b as bv64;
    x ^ (y + 0x9e3779b9 + (x << 6) + (x >> 2))
  }

  /** A pair-index key: the 64-bit unsigned hash of a pair. */
  type PairKey = k: int | 0 <= k < 0x1_0000_0000_0000_0000

  /** The key of a pair of participants: the smaller identifier is mixed into the larger. */
  function MakePairKey(p1: PersistId, p2: PersistId): (k: PairKey)
  {
    (if p1 > p2 then Mix(p2, p1) else Mix(p1, p2)) as int
  }

  /**
   * "A talked to B" and "B talked to A" share one pair-index entry: the key is
   * the smaller identifier mixed into the larger.
   */
  lemma PairKeySymmetric(p1: PersistId, p2: PersistId)
    ensures MakePairKey(p1, p2) == MakePairKey(p2, p1)
    ensures var lo, hi := if p1 <= p2 then p1 else p2, if p1 <= p2 then p2 else p1;
      MakePairKey(p1, p2) == Mix(lo, hi) as int
  {
  }

  /** The history a fresh conversation starts with: the pair's last summary, if any. */
  function SeedHistory(index: map<PairKey, string>, key: PairKey): (h: seq<string>)
    ensures |h| <= 1
    ensures h != [] <==> key in index
    ensures h != [] ==> h[0] == MemoryPrefix + index[key]
  {
    if key in index then [MemoryPrefix + index[key]] else []
  }

  /**
   * The memory round trip: a summary stored under the pair of an archived
   * conversation is the first line of the next conversation of the same two
   * participants, whichever of them starts it.
   */
  lemma SummarySeedsNextEncounter(index: map<PairKey, string>, p1: PersistId, p2: PersistId, summary: string)
    ensures SeedHistory(index[MakePairKey(p1, p2) := summary], MakePairKey(p1, p2)) == [MemoryPrefix + summary]
    ensures SeedHistory(index[MakePairKey(p1, p2) := summary], MakePairKey(p2, p1)) == [MemoryPrefix + summary]
  {
    PairKeySymmetric(p1, p2);
    SeedAfterStore(index, MakePairKey(p1, p2), MakePairKey(p1, p2), summary);
    SeedAfterStore(index, MakePairKey(p1, p2), MakePairKey(p2, p1), summary);
  }

  /** A summary stored under a key seeds the history of a conversation looking it up under that key. */
  lemma SeedAfterStore(index: map<PairKey, string>, stored: PairKey, looked: PairKey, summary: string)
    requires stored == looked
    ensures SeedHistory(index[stored := summary], looked) == [MemoryPrefix + summary]
  {
    var m := index[stored := summary];
    assert m[stored] == summary;
  }

  /** The role-tagged line appended for a message. */
  function TaggedEntry(senderName: string, message: string): (entry: string)
    ensures |entry| >= |UserTag| + |message| && entry[|entry| - |message|..] == message
    ensures entry[..|UserTag|] == UserTag <==> senderName == PlayerSender
    ensures senderName != PlayerSender ==>
      |entry| >= |AssistantTag| + |message| && entry[..|AssistantTag|] == AssistantTag
  {
    var tag := if senderName == PlayerSender then UserTag else AssistantTag;
    assert (tag + message)[..|tag|] == tag;
    assert AssistantTag[2] != UserTag[2];
    tag + message
  }

  /** A 32-bit signed `int`. */
  type Int32 = x: int | -0x8000_0000 <= x < 0x8000_0000

  /** A 32-bit signed sum as the target computes it: two's-complement wrap-around. */
  function Wrap32(x: int): (r: Int32)
    ensures -0x8000_0000 <= x < 0x8000_0000 ==> r == x
    ensures 0x8000_0000 <= x < 0x1_0000_0000 ==> r == x - 0x1_0000_0000
  {
    (x + 0x8000_0000) % 0x1_0000_0000 - 0x8000_0000
  }

  /** `(size_t)` of a 32-bit signed value on a 64-bit target. */
  function ToSize(x: Int32): (r: nat)
    ensures x >= 0 ==> r == x
    ensures x < 0 ==> r == x + 0x1_0000_0000_0000_0000
  {
    if x >= 0 then x else x + 0x1_0000_0000_0000_0000
  }

  /**
   * The effective soft cap: `MaxChatHistoryLines`, or 10 when that is below 5,
   * plus 5 lines of slack, computed in 32-bit `int` and cast to `size_t`.  A
   * setting within 5 of the largest `int` wraps to a negative sum, whose cast
   * is a cap no history reaches.
   */
  function HistoryCap(maxChatHistoryLines: Int32): (cap: int)
    ensures cap >= 10
    ensures 5 <= maxChatHistoryLines < 0x8000_0000 - 5 ==> cap == maxChatHistoryLines + 5
    ensures maxChatHistoryLines < 5 ==> cap == 15
    ensures maxChatHistoryLines >= 0x8000_0000 - 5 ==> cap >= 0x1_0000_0000_0000_0000 - 0x8000_0000
  {
    var hardLimit: Int32 := if maxChatHistoryLines < 5 then 10 else maxChatHistoryLines;
    ToSize(Wrap32(hardLimit as int + 5))
  }

  /**
   * Appends `entry`, then drops the line at index 1 when the history is over
   * `cap`.  Index 0 (the memory/system line) is never the one dropped, the new
   * entry always ends the history, and a history within the cap stays within it.
   */
  function AppendCapped(h: seq<string>, entry: string, cap: int): (r: seq<string>)
    requires cap >= 2
    ensures |h| + 1 <= cap ==> r == h + [entry]
    ensures |h| + 1 > cap ==> |r| == |h| && r[0] == h[0] && r[1..|r| - 1] == h[2..]
    ensures |r| >= 1 && r[|r| - 1] == entry
    ensures |h| <= cap ==> |r| <= cap
    ensures |h| >= 1 ==> r[0] == h[0]
  {
    var appended := h + [entry];
    if |appended| > cap && |appended| > 1 then
      var r := appended[..1] + appended[2..];
      assert r[1..|r| - 1] == h[2..];
      r
    else
      appended
  }

  /** Seconds since `since`, computed on the wrapping 32-bit millisecond clock. */
  function ElapsedSec(now: TimeMillis, since: TimeMillis): (r: nat)
    ensures now >= since ==> r == (now - since) / 1000
    ensures now < since ==> r == (now - since + TimeModulus) / 1000
  {
    ((now - since) % TimeModulus) / 1000
  }

  /** The age rule of the sweeper. */
  predicate Expired(d: ConversationData, now: TimeMillis, timeoutSec: int)
  {
    timeoutSec > 0 && ElapsedSec(now, d.timestamp) > timeoutSec
  }

  /** The archive after the age pass: exactly the unexpired records, unchanged. */
  function AgeSweep(archive: map<ChatId, ConversationData>, now: TimeMillis, timeoutSec: int)
    : (r: map<ChatId, ConversationData>)
    ensures forall c :: c in r <==> c in archive && !Expired(archive[c], now, timeoutSec)
    ensures forall c :: c in r ==> r[c] == archive[c]
    ensures timeoutSec <= 0 ==> r == archive
  {
    map c | c in archive && !Expired(archive[c], now, timeoutSec) :: archive[c]
  }

  /** `m` holds some of the entries of `big`, unchanged. */
  ghost predicate SubMap(m: map<ChatId, ConversationData>, big: map<ChatId, ConversationData>)
  {
    forall c :: c in m ==> c in big && m[c] == big[c]
  }

  /** A conversation identifier lives in the active table or in the archive, never both. */
  ghost predicate Disjoint(active: map<ChatId, ConversationData>, archived: map<ChatId, ConversationData>)
  {
    forall c :: c in active ==> c !in archived
  }

  /** Records carry their own non-zero key, two participants and the flag of the table they are in. */
  ghost predicate WellFormed(active: map<ChatId, ConversationData>, archived: map<ChatId, ConversationData>)
  {
    && (forall c :: c in active ==> active[c].chatId == c && active[c].isActive && |active[c].participants| == 2)
    && (forall c :: c in archived ==> archived[c].chatId == c && !archived[c].isActive && |archived[c].participants| == 2)
    && 0 !in active && 0 !in archived
  }

  /** Every indexed participant points at an active conversation it takes part in. */
  ghost predicate SoundIndex(active: map<ChatId, ConversationData>, index: map<PersistId, ChatId>)
  {
    forall p :: p in index ==> index[p] in active && p in active[index[p]].participants
  }

  /** Every participant of an active conversation is indexed to that conversation. */
  ghost predicate CompleteIndex(active: map<ChatId, ConversationData>, index: map<PersistId, ChatId>)
  {
    forall c, p :: c in active && p in active[c].participants ==> p in index && index[p] == c
  }

  /** The store invariant, over the four tables and the counter. */
  ghost predicate TablesValid(active: map<ChatId, ConversationData>, archived: map<ChatId, ConversationData>,
                              index: map<PersistId, ChatId>, counter: ChatId)
  {
    && Disjoint(active, archived) && WellFormed(active, archived)
    && SoundIndex(active, index) && CompleteIndex(active, index)
    && counter >= FirstChatId
  }

  class Store {
    var activeChats: map<ChatId, ConversationData>
    var archivedChats: map<ChatId, ConversationData>
    var participantToChat: map<PersistId, ChatId>
    var historyIndex: map<PairKey, string>
    /** The static counter of `GenerateNewChatID`. */
    var counter: ChatId

    ghost predicate Valid()
      reads this
    {
      TablesValid(activeChats, archivedChats, participantToChat, counter)
    }

    /** The conditions under which opening a conversation keeps `Valid()`. */
    ghost predicate OpenKeepsValid(forceId: ChatId, p1: PersistId, p2: PersistId)
      reads this
    {
      && (forceId != 0 && forceId !in activeChats ==> forceId !in archivedChats)
      && (forceId == 0 ==> counter !in activeChats && counter !in archivedChats)
      && (forceId == 0 || forceId !in activeChats ==> p1 !in participantToChat && p2 !in participantToChat)
    }

    constructor ()
      ensures activeChats == map[] && archivedChats == map[]
      ensures participantToChat == map[] && historyIndex == map[]
      ensures counter == FirstChatId
      ensures Valid()
    {
      activeChats, archivedChats := map[], map[];
      participantToChat, historyIndex := map[], map[];
      counter := FirstChatId;
    }

    method GenerateNewChatID() returns (id: ChatId)
      modifies this`counter
      ensures id == old(counter) && counter == id + 1
    {
      id := counter;
      counter := counter + 1;
    }

    method InitiateConversation(initiator: GameHandle, target: GameHandle, forceId: ChatId,
                                now: TimeMillis, resolve: GameHandle -> PersistId)
      returns (id: ChatId)
      modifies this
      // an already active forced identifier is returned and nothing changes
      ensures forceId != 0 && forceId in old(activeChats) ==>
        id == forceId && unchanged(this)
      ensures forceId != 0 && forceId !in old(activeChats) ==> id == forceId && counter == old(counter)
      ensures forceId == 0 ==> id == old(counter) && counter == old(counter) + 1
      ensures forceId == 0 || forceId !in old(activeChats) ==>
        var p1, p2 := resolve(initiator), resolve(target);
        && id in activeChats
        && activeChats == old(activeChats)[id := activeChats[id]]
        && activeChats[id].chatId == id
        && activeChats[id].participants == [p1, p2]
        && activeChats[id].isActive
        && activeChats[id].timestamp == now
        && activeChats[id].summary == ""
        && activeChats[id].history == SeedHistory(old(historyIndex), MakePairKey(p1, p2))
        && participantToChat == old(participantToChat)[p1 := id][p2 := id]
        && archivedChats == old(archivedChats)
        && historyIndex == old(historyIndex)
      ensures old(Valid()) && old(OpenKeepsValid(forceId, resolve(initiator), resolve(target))) ==> Valid()
    {
      var p1 := resolve(initiator);
      var p2 := resolve(target);
      var newId: ChatId;
      if forceId != 0 {
        if forceId in activeChats {
          return forceId;
        }
        newId := forceId;
      } else {
        newId := GenerateNewChatID();
      }
      var pairKey := MakePairKey(p1, p2);
      var history: seq<string> := [];
      if pairKey in historyIndex {
        history := history + [MemoryPrefix + historyIndex[pairKey]];
      }
      assert history == SeedHistory(historyIndex, pairKey);
      Open(newId, ConversationData(newId, [p1, p2], history, "", "", "", now, true));
      id := newId;
    }

    /** Records a new active conversation and indexes both of its participants to it. */
    method Open(id: ChatId, data: ConversationData)
      requires |data.participants| == 2
      modifies this`activeChats, this`participantToChat
      ensures activeChats == old(activeChats)[id := data]
      ensures participantToChat == old(participantToChat)[data.participants[0] := id][data.participants[1] := id]
      ensures old(Valid()) && id != 0 && id !in old(activeChats) && id !in old(archivedChats)
              && data.chatId == id && data.isActive
              && data.participants[0] !in old(participantToChat) && data.participants[1] !in old(participantToChat)
              ==> Valid()
    {
      if Valid() && id != 0 && id !in activeChats && id !in archivedChats && data.chatId == id && data.isActive
         && data.participants[0] !in participantToChat && data.participants[1] !in participantToChat {
        OpenPreservesValid(activeChats, archivedChats, participantToChat, counter, id, data,
                           data.participants[0], data.participants[1]);
      }
      activeChats := activeChats[id := data];
      participantToChat := participantToChat[data.participants[0] := id][data.participants[1] := id];
    }

    method CloseConversation(chatId: ChatId, now: TimeMillis)
      modifies this
      ensures chatId !in old(activeChats) ==> unchanged(this)
      ensures chatId in old(activeChats) ==>
        var d := old(activeChats)[chatId];
        && activeChats == old(activeChats) - {chatId}
        && archivedChats == old(archivedChats)[chatId := d.(isActive := false, timestamp := now)]
        && participantToChat == old(participantToChat) - (set p | p in d.participants)
        && historyIndex == old(historyIndex)
        && counter == old(counter)
      // closing drains the participant index of every participant of the conversation
      ensures chatId in old(activeChats) ==>
        forall p :: p in old(activeChats)[chatId].participants ==> p !in participantToChat
      ensures old(Valid()) ==> Valid()
    {
      if chatId in activeChats {
        var data := activeChats[chatId];
        data := data.(isActive := false, timestamp := now);
        // erase every participant's index entry, whatever chat it points at
        var index := participantToChat;
        var i := 0;
        while i < |data.participants|
          invariant 0 <= i <= |data.participants|
          invariant index == participantToChat - (set p | p in data.participants[..i])
        {
          assert data.participants[..i + 1] == data.participants[..i] + [data.participants[i]];
          index := index - {data.participants[i]};
          i := i + 1;
        }
        assert data.participants[..i] == data.participants;
        participantToChat := index;
        archivedChats := archivedChats[chatId := data];
        activeChats := activeChats - {chatId};
        if old(Valid()) {
          ClosePreservesIndex(old(activeChats), old(participantToChat), chatId, data.participants);
        }
      }
    }

    /** Reads the active conversation a participant is indexed to, or 0. */
    method GetActiveChatID(handle: GameHandle, resolve: GameHandle -> PersistId) returns (id: ChatId)
      ensures resolve(handle) in participantToChat ==> id == participantToChat[resolve(handle)]
      ensures resolve(handle) !in participantToChat ==> id == 0
      ensures Valid() ==> (id != 0 <==> exists c :: c in activeChats && resolve(handle) in activeChats[c].participants)
      ensures Valid() && id != 0 ==> id in activeChats && resolve(handle) in activeChats[id].participants
    {
      var pid := resolve(handle);
      if pid in participantToChat {
        id := participantToChat[pid];
      } else {
        id := 0;
        if Valid() {
          assert forall c :: c in activeChats ==> pid !in activeChats[c].participants;
        }
      }
    }

    method AddMessageToChat(chatId: ChatId, senderName: string, message: string,
                            now: TimeMillis, maxChatHistoryLines: Int32)
      modifies this
      ensures chatId !in old(activeChats) ==> unchanged(this)
      ensures chatId in old(activeChats) ==>
        var d := old(activeChats)[chatId];
        var h := AppendCapped(d.history, TaggedEntry(senderName, message), HistoryCap(maxChatHistoryLines));
        && activeChats == old(activeChats)[chatId := d.(history := h, timestamp := now)]
        && archivedChats == old(archivedChats)
        && participantToChat == old(participantToChat)
        && historyIndex == old(historyIndex)
        && counter == old(counter)
      ensures old(Valid()) ==> Valid()
    {
      if chatId in activeChats {
        var entry: string;
        if senderName == PlayerSender {
          entry := UserTag + message;
        } else {
          entry := AssistantTag + message;
        }
        var history := activeChats[chatId].history + [entry];
        var hardLimit := maxChatHistoryLines;
        if hardLimit < 5 {
          hardLimit := 10;
        }
        assert ToSize(Wrap32(hardLimit as int + 5)) == HistoryCap(maxChatHistoryLines);
        if |history| > ToSize(Wrap32(hardLimit as int + 5)) {
          if |history| > 1 {
            history := history[..1] + history[2..];
          }
        }
        assert history == AppendCapped(activeChats[chatId].history, TaggedEntry(senderName, message),
                                       HistoryCap(maxChatHistoryLines));
        if Valid() {
          ActiveUpdateKeepsTables(activeChats, archivedChats, participantToChat, counter,
                                  chatId, activeChats[chatId].(history := history, timestamp := now));
        }
        activeChats := activeChats[chatId := activeChats[chatId].(history := history, timestamp := now)];
      }
    }

    /**
     * Attaches a summary: to the active record if there is one, otherwise to the
     * archived record and to the pair index; a summary for an evicted
     * conversation is silently dropped.
     */
    method SetConversationSummary(chatId: ChatId, summary: string)
      modifies this`activeChats, this`archivedChats, this`historyIndex
      ensures chatId in old(activeChats) ==>
        && activeChats == old(activeChats)[chatId := old(activeChats)[chatId].(summary := summary)]
        && archivedChats == old(archivedChats)
        && historyIndex == old(historyIndex)
      ensures chatId !in old(activeChats) && chatId in old(archivedChats) ==>
        var d := old(archivedChats)[chatId];
        && activeChats == old(activeChats)
        && archivedChats == old(archivedChats)[chatId := d.(summary := summary)]
        && historyIndex == if |d.participants| >= 2
                           then old(historyIndex)[MakePairKey(d.participants[0], d.participants[1]) := summary]
                           else old(historyIndex)
      ensures chatId !in old(activeChats) && chatId !in old(archivedChats) ==> unchanged(this)
      ensures participantToChat == old(participantToChat) && counter == old(counter)
      ensures old(Valid()) ==> Valid()
    {
      if chatId in activeChats {
        var data := activeChats[chatId].(summary := summary);
        ghost var oldValid := Valid();
        if oldValid {
          ActiveUpdateKeepsTables(activeChats, archivedChats, participantToChat, counter, chatId, data);
        }
        activeChats := activeChats[chatId := data];
        assert oldValid ==> Valid();
      } else if chatId in archivedChats {
        var data := archivedChats[chatId].(summary := summary);
        ghost var oldValid := Valid();
        if oldValid {
          ArchivedUpdateKeepsTables(activeChats, archivedChats, participantToChat, counter, chatId, data);
        }
        archivedChats := archivedChats[chatId := data];
        assert oldValid ==> Valid();
        if |data.participants| >= 2 {
          var pairKey := MakePairKey(data.participants[0], data.participants[1]);
          historyIndex := historyIndex[pairKey := summary];
        }
      }
    }

    method ReplaceHistory(chatId: ChatId, newHistory: seq<string>)
      modifies this
      ensures chatId !in old(activeChats) ==> unchanged(this)
      ensures chatId in old(activeChats) ==>
        && activeChats == old(activeChats)[chatId := old(activeChats)[chatId].(history := newHistory)]
        && archivedChats == old(archivedChats)
        && participantToChat == old(participantToChat)
        && historyIndex == old(historyIndex)
        && counter == old(counter)
      ensures old(Valid()) ==> Valid()
    {
      if chatId in activeChats {
        if Valid() {
          ActiveUpdateKeepsTables(activeChats, archivedChats, participantToChat, counter,
                                  chatId, activeChats[chatId].(history := newHistory));
        }
        activeChats := activeChats[chatId := activeChats[chatId].(history := newHistory)];
      }
    }

    /** A copy of an active conversation's history; archived or unknown conversations read as empty. */
    method GetChatHistory(chatId: ChatId) returns (history: seq<string>)
      ensures chatId in activeChats ==> history == activeChats[chatId].history
      ensures chatId !in activeChats ==> history == []
    {
      if chatId in activeChats {
        return activeChats[chatId].history;
      }
      return [];
    }

    /** The durable summary for a pair, looked up order-independently. */
    method GetLastSummaryBetween(p1: PersistId, p2: PersistId) returns (summary: string)
      ensures MakePairKey(p1, p2) in historyIndex ==> summary == historyIndex[MakePairKey(p2, p1)]
      ensures MakePairKey(p1, p2) !in historyIndex ==> summary == ""
    {
      PairKeySymmetric(p1, p2);
      var pairKey := MakePairKey(p1, p2);
      if pairKey in historyIndex {
        return historyIndex[pairKey];
      }
      return "";
    }

    method IsChatActive(chatId: ChatId) returns (active: bool)
      ensures active == (chatId in activeChats && activeChats[chatId].isActive)
      ensures Valid() ==> (active <==> chatId in activeChats)
    {
      active := chatId in activeChats && activeChats[chatId].isActive;
    }

    method SetChatContext(chatId: ChatId, location: string, weather: string)
      modifies this
      ensures chatId !in old(activeChats) ==> unchanged(this)
      ensures chatId in old(activeChats) ==>
        && activeChats == old(activeChats)[chatId := old(activeChats)[chatId].(location := location, weather := weather)]
        && archivedChats == old(archivedChats)
        && participantToChat == old(participantToChat)
        && historyIndex == old(historyIndex)
        && counter == old(counter)
      ensures old(Valid()) ==> Valid()
    {
      if chatId in activeChats {
        if Valid() {
          ActiveUpdateKeepsTables(activeChats, archivedChats, participantToChat, counter,
                                  chatId, activeChats[chatId].(location := location, weather := weather));
        }
        activeChats := activeChats[chatId := activeChats[chatId].(location := location, weather := weather)];
      }
    }

    /**
     * The sweeper: drops expired archived records, then arbitrary archived
     * records until the archive is within `maxHistory`.  Only the archive changes.
     */
    method RunMaintenance(now: TimeMillis, timeoutSec: int, maxHistory: int)
      modifies this`archivedChats
      ensures old(archivedChats) == map[] ==> archivedChats == map[]
      ensures SubMap(archivedChats, AgeSweep(old(archivedChats), now, timeoutSec))
      ensures forall c :: c in archivedChats ==> !Expired(archivedChats[c], now, timeoutSec)
      ensures maxHistory > 0 ==> |archivedChats| <= maxHistory
      ensures maxHistory <= 0 || |AgeSweep(old(archivedChats), now, timeoutSec)| <= maxHistory ==>
        archivedChats == AgeSweep(old(archivedChats), now, timeoutSec)
      ensures maxHistory > 0 && |AgeSweep(old(archivedChats), now, timeoutSec)| > maxHistory ==>
        |archivedChats| == maxHistory
      ensures old(Valid()) ==> Valid()
    {
      if archivedChats == map[] {
        return;
      }
      ghost var oldValid := Valid();
      ghost var swept := AgeSweep(archivedChats, now, timeoutSec);
      // 1. age-based deletion, visiting the archived records in an unspecified order
      var pending := archivedChats.Keys;
      while pending != {}
        invariant pending <= old(archivedChats).Keys
        invariant forall c :: c in archivedChats <==>
          c in old(archivedChats) && (c in pending || !Expired(old(archivedChats)[c], now, timeoutSec))
        invariant forall c :: c in archivedChats ==> archivedChats[c] == old(archivedChats)[c]
        decreases pending
      {
        var c :| c in pending;
        if timeoutSec > 0 && ElapsedSec(now, archivedChats[c].timestamp) > timeoutSec {
          archivedChats := archivedChats - {c};
        }
        pending := pending - {c};
      }
      assert archivedChats == swept;
      // 2. capacity-based deletion of whichever record the table yields first
      if maxHistory > 0 && |archivedChats| > maxHistory {
        while |archivedChats| > maxHistory
          invariant SubMap(archivedChats, swept)
          invariant |archivedChats| >= maxHistory
          decreases |archivedChats|
        {
          NonEmptyHasKey(archivedChats);
          var c :| c in archivedChats;
          RemoveKeySize(archivedChats, c);
          archivedChats := archivedChats - {c};
        }
      }
      if oldValid {
        ArchiveShrinkKeepsTables(activeChats, old(archivedChats), archivedChats, participantToChat, counter);
      }
    }
  }

  lemma NonEmptyHasKey(m: map<ChatId, ConversationData>)
    requires |m| > 0
    ensures exists c :: c in m
  {
    assert m.Keys != {};
  }

  lemma RemoveKeySize(m: map<ChatId, ConversationData>, c: ChatId)
    requires c in m
    ensures |m - {c}| == |m| - 1
  {
    assert (m - {c}).Keys == m.Keys - {c};
  }

  /** Removing a closed conversation's participants keeps the participant index sound and complete. */
  lemma ClosePreservesIndex(active: map<ChatId, ConversationData>, index: map<PersistId, ChatId>,
                            chatId: ChatId, ps: seq<PersistId>)
    requires chatId in active && active[chatId].participants == ps
    requires SoundIndex(active, index) && CompleteIndex(active, index)
    ensures SoundIndex(active - {chatId}, index - (set p | p in ps))
    ensures CompleteIndex(active - {chatId}, index - (set p | p in ps))
  {
    var active', index' := active - {chatId}, index - (set p | p in ps);
    forall p | p in index'
      ensures index'[p] in active' && p in active'[index'[p]].participants
    {
      assert p !in ps;
    }
    forall c, p | c in active' && p in active'[c].participants
      ensures p in index' && index'[p] == c
    {
      assert index[p] == c;
    }
  }

  /** Opening a conversation for two unindexed participants under an unused non-zero key keeps the invariant. */
  lemma OpenPreservesValid(active: map<ChatId, ConversationData>, archived: map<ChatId, ConversationData>,
                           index: map<PersistId, ChatId>, counter: ChatId,
                           id: ChatId, d: ConversationData, p1: PersistId, p2: PersistId)
    requires TablesValid(active, archived, index, counter)
    requires id != 0 && id !in active && id !in archived
    requires d.chatId == id && d.isActive && d.participants == [p1, p2]
    requires p1 !in index && p2 !in index
    ensures TablesValid(active[id := d], archived, index[p1 := id][p2 := id], counter)
  {
    var active', index' := active[id := d], index[p1 := id][p2 := id];
    forall p | p in index'
      ensures index'[p] in active' && p in active'[index'[p]].participants
    {
      if p != p1 && p != p2 {
        assert index'[p] == index[p] && index[p] != id;
      }
    }
    forall c, p | c in active' && p in active'[c].participants
      ensures p in index' && index'[p] == c
    {
      if c != id {
        assert p in index;
      }
    }
  }

  /** Rewriting an active record's contents, but not its key, flag or participants, keeps the invariant. */
  lemma ActiveUpdateKeepsTables(active: map<ChatId, ConversationData>, archived: map<ChatId, ConversationData>,
                                index: map<PersistId, ChatId>, counter: ChatId, c: ChatId, d: ConversationData)
    requires TablesValid(active, archived, index, counter)
    requires c in active && d.chatId == c && d.isActive && d.participants == active[c].participants
    ensures TablesValid(active[c := d], archived, index, counter)
  {
    var active' := active[c := d];
    forall p | p in index
      ensures index[p] in active' && p in active'[index[p]].participants
    {
    }
    forall c', p | c' in active' && p in active'[c'].participants
      ensures p in index && index[p] == c'
    {
      assert p in active[c'].participants;
    }
  }

  /** Rewriting an archived record's contents, but not its key, flag or participants, keeps the invariant. */
  lemma ArchivedUpdateKeepsTables(active: map<ChatId, ConversationData>, archived: map<ChatId, ConversationData>,
                                  index: map<PersistId, ChatId>, counter: ChatId, c: ChatId, d: ConversationData)
    requires TablesValid(active, archived, index, counter)
    requires c in archived && d.chatId == c && !d.isActive && d.participants == archived[c].participants
    ensures TablesValid(active, archived[c := d], index, counter)
  {
  }

  /** Dropping archived records keeps the invariant. */
  lemma ArchiveShrinkKeepsTables(active: map<ChatId, ConversationData>, archived: map<ChatId, ConversationData>,
                                 kept: map<ChatId, ConversationData>, index: map<PersistId, ChatId>, counter: ChatId)
    requires TablesValid(active, archived, index, counter)
    requires SubMap(kept, archived)
    ensures TablesValid(active, kept, index, counter)
  {
  }
}
