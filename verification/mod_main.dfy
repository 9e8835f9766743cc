/**
 * The parts of the script's main loop that drive the conversation store:
 * edge-triggered key input, ending a conversation (archive, launch the
 * end-of-conversation summary, reset the session), the end-of-turn
 * classifier and the mod root path.
 */
module ModMain {
  import opened StdString
  import opened ConversationSystem

  datatype ConvoState = ConvoIdle | InConversation
  datatype InputState = InputIdle | WaitingForInput | Recording | Transcribing
  datatype InferenceState = InferenceIdle | Running | Complete

  /** An end-of-conversation summary launched in the background: which chat, the history copy and the NPC's name. */
  datatype SummaryTask = SummaryTask(chatId: ChatId, history: seq<string>, npcName: string)

  /** Number of virtual-key codes tracked. */
  const KeyCount: int := 256

  /** The "currently down" bit of an asynchronous key-state sample. */
  const DownBit: bv16 := 0x8000

  /** Histories this short are not worth summarising. */
  const MinSummaryLines: int := 4

  /** One step of the key edge detector: (just pressed, new remembered state). */
  function KeyStep(wasDown: bool, sample: bv16): (r: (bool, bool))
    ensures r.1 <==> sample & DownBit != 0
    ensures r.0 <==> r.1 && !wasDown
  {
    var pressed := sample & DownBit != 0;
    (pressed && !wasDown, pressed)
  }

  /** A key that stays down reports one press: the sample after a press never reports another. */
  lemma HeldKeyFiresOnce(wasDown: bool, s1: bv16, s2: bv16)
    requires KeyStep(wasDown, s1).0
    requires s2 & DownBit != 0
    ensures !KeyStep(KeyStep(wasDown, s1).1, s2).0
  {
  }

  /** A press is reported again once a sample with the key up has been seen. */
  lemma ReleaseRearms(wasDown: bool, up: bv16, down: bv16)
    requires up & DownBit == 0
    requires down & DownBit != 0
    ensures KeyStep(KeyStep(wasDown, up).1, down).0
  {
  }

  /** A summary is written back only when it is non-empty and carries no error marker. */
  function IsUsableSummary(summary: string): (ok: bool)
    ensures ok <==> summary != "" && !Contains(summary, "LLM_ERROR")
  {
    summary != "" && Find(summary, "LLM_ERROR").None?
  }

  /** The markers in a cleaned reply that end the conversation. */
  const EndMarkers: seq<string> := ["<END_CONVERSATION>", "[END_CONVERSATION]", "<|endofchat|>", "Bye", "Good Bye"]

  /** What a finished reply turns into: the text to show and store, and whether the conversation ends. */
  datatype TurnOutcome = TurnOutcome(display: string, endConversation: bool)

  /**
   * The end-of-turn classifier: any end marker in the cleaned reply ends the
   * conversation; a raw timeout or error reply is replaced by a fixed message
   * and always ends it.
   */
  function EndOfTurn(raw: string, clean: string): (r: TurnOutcome)
    ensures raw == "LLM_TIMEOUT" || raw == "LLM_ERROR" ==> r == TurnOutcome("Response error.", true)
    ensures raw != "LLM_TIMEOUT" && raw != "LLM_ERROR" ==>
      r.display == clean && (r.endConversation <==> exists i :: 0 <= i < |EndMarkers| && Contains(clean, EndMarkers[i]))
  {
    var endConvo :=
      Find(clean, "<END_CONVERSATION>").Some? ||
      Find(clean, "[END_CONVERSATION]").Some? ||
      Find(clean, "<|endofchat|>").Some? ||
      Find(clean, "Bye").Some? ||
      Find(clean, "Good Bye").Some?;
    assert endConvo ==> exists i :: 0 <= i < |EndMarkers| && Contains(clean, EndMarkers[i]) by {
      if Find(clean, "<END_CONVERSATION>").Some? { assert Contains(clean, EndMarkers[0]); }
      else if Find(clean, "[END_CONVERSATION]").Some? { assert Contains(clean, EndMarkers[1]); }
      else if Find(clean, "<|endofchat|>").Some? { assert Contains(clean, EndMarkers[2]); }
      else if Find(clean, "Bye").Some? { assert Contains(clean, EndMarkers[3]); }
      else if Find(clean, "Good Bye").Some? { assert Contains(clean, EndMarkers[4]); }
    }
    if raw == "LLM_TIMEOUT" || raw == "LLM_ERROR" then TurnOutcome("Response error.", true)
    else TurnOutcome(clean, endConvo)
  }

  /** "Good Bye" contains "Bye", so the last marker never decides anything on its own. */
  lemma GoodByeImpliesBye(clean: string)
    requires Contains(clean, "Good Bye")
    ensures Contains(clean, "Bye")
  {
    var i :| OccursAt(clean, "Good Bye", i);
    assert OccursAt("Good Bye", "Bye", 5);
    OccursWithin(clean, "Good Bye", "Bye", i, 5);
  }

  /** The classifier decides exactly as it would with the first four markers only. */
  lemma FourMarkersSuffice(raw: string, clean: string)
    ensures EndOfTurn(raw, clean).endConversation <==>
      raw == "LLM_TIMEOUT" || raw == "LLM_ERROR" || exists i :: 0 <= i < 4 && Contains(clean, EndMarkers[i])
  {
    if Contains(clean, EndMarkers[4]) {
      GoodByeImpliesBye(clean);
      assert Contains(clean, EndMarkers[3]);
    }
  }

  /** Path separators recognised in the executable path. */
  const Separators: set<char> := {'\\', '/'}

  /**
   * The mod root: the executable path up to its last separator, followed by a
   * backslash; a path without separators is kept whole.
   */
  function GetModRootPath(exe: string): (r: string)
    ensures |r| >= 1 && r[|r| - 1] == '\\'
    ensures (forall k :: 0 <= k < |exe| ==> exe[k] !in Separators) ==> r == exe + "\\"
    ensures (exists k :: 0 <= k < |exe| && exe[k] in Separators) ==>
      var d := |r| - 1;
      && d < |exe| && exe[d] in Separators && r == exe[..d] + "\\"
      && forall j :: d < j < |exe| ==> exe[j] !in Separators
  {
    match FindLastOf(exe, Separators)
    case None => exe + "\\"
    case Some(k) => exe[..k] + "\\"
  }

  /** The script's session globals. */
  class ModState {
    /** Last seen down-state per virtual key. */
    const keyStates: array<bool>
    var targetPed: GameHandle
    var currentChatId: ChatId
    var currentNpcName: string
    var convoState: ConvoState
    var inputState: InputState
    var llmState: InferenceState
    var renderText: string
    /** Whether the reply and transcription futures hold a job. */
    var llmFutureValid: bool
    var sttFutureValid: bool
    var backgroundTasks: seq<SummaryTask>

    ghost predicate Valid()
      reads this
    {
      keyStates.Length == KeyCount
    }

    constructor ()
      ensures Valid() && fresh(keyStates)
      ensures forall k :: 0 <= k < KeyCount ==> !keyStates[k]
      ensures currentChatId == 0 && targetPed == 0 && currentNpcName == ""
      ensures convoState == ConvoIdle && inputState == InputIdle && llmState == InferenceIdle
      ensures renderText == "" && !llmFutureValid && !sttFutureValid && backgroundTasks == []
    {
      keyStates := new bool[KeyCount](_ => false);
      targetPed, currentChatId, currentNpcName := 0, 0, "";
      convoState, inputState, llmState := ConvoIdle, InputIdle, InferenceIdle;
      renderText, llmFutureValid, sttFutureValid := "", false, false;
      backgroundTasks := [];
    }

    /**
     * True on the sample where key `vk` goes down after having been up; the
     * sample `asyncKeyState` is the platform's asynchronous key state for `vk`.
     */
    method IsKeyJustPressed(vk: int, asyncKeyState: bv16) returns (just: bool)
      requires Valid()
      modifies keyStates
      ensures vk <= 0 || vk >= KeyCount ==> !just && unchanged(keyStates)
      ensures 0 < vk < KeyCount ==>
        && just == KeyStep(old(keyStates[vk]), asyncKeyState).0
        && keyStates[..] == old(keyStates[..])[vk := KeyStep(old(keyStates[vk]), asyncKeyState).1]
    {
      if vk <= 0 || vk >= KeyCount {
        return false;
      }
      var pressed := asyncKeyState & DownBit != 0;
      just := pressed && !keyStates[vk];
      keyStates[vk] := pressed;
    }

    /**
     * Ends the current conversation: archives it, queues a background summary
     * of its history when enabled and the history has more than four lines,
     * and resets every session global.
     */
    method EndConversation(store: Store, trySummarizeChat: bool, now: TimeMillis)
      modifies this, store
      ensures targetPed == 0 && currentChatId == 0 && currentNpcName == ""
      ensures convoState == ConvoIdle && inputState == InputIdle && llmState == InferenceIdle
      ensures renderText == "" && !llmFutureValid && !sttFutureValid
      ensures old(currentChatId) == 0 ==> unchanged(store) && backgroundTasks == old(backgroundTasks)
      ensures old(currentChatId) != 0 ==>
        var id := old(currentChatId);
        var snapshot := if id in old(store.activeChats) then old(store.activeChats)[id].history else [];
        backgroundTasks == old(backgroundTasks) +
          (if trySummarizeChat && |snapshot| > MinSummaryLines
           then [SummaryTask(id, snapshot, old(currentNpcName))] else [])
      // a current chat that is no longer active (nothing to close) leaves the store as it was
      ensures old(currentChatId) != 0 && old(currentChatId) !in old(store.activeChats) ==> unchanged(store)
      // an active one is archived, inactive and stamped `now`, with the history the snapshot was taken of
      ensures old(currentChatId) != 0 && old(currentChatId) in old(store.activeChats) ==>
        var id := old(currentChatId);
        var d := old(store.activeChats)[id];
        && store.activeChats == old(store.activeChats) - {id}
        && store.archivedChats == old(store.archivedChats)[id := d.(isActive := false, timestamp := now)]
        && store.participantToChat == old(store.participantToChat) - (set p | p in d.participants)
        && store.historyIndex == old(store.historyIndex)
        && store.counter == old(store.counter)
      ensures old(store.Valid()) ==> store.Valid()
    {
      if currentChatId != 0 {
        var savedId := currentChatId;
        var historySnapshot := store.GetChatHistory(savedId);
        var savedName := currentNpcName;
        store.CloseConversation(savedId, now);
        if trySummarizeChat && |historySnapshot| > MinSummaryLines {
          backgroundTasks := backgroundTasks + [SummaryTask(savedId, historySnapshot, savedName)];
        }
      }
      targetPed := 0;
      currentChatId := 0;
      currentNpcName := "";
      convoState := ConvoIdle;
      inputState := InputIdle;
      llmState := InferenceIdle;
      renderText := "";
      llmFutureValid := false;
      sttFutureValid := false;
    }
  }

  /**
   * The body of an end-of-conversation task once its summariser has produced
   * `summary`: a usable summary is attached to the chat, and to the pair index
   * when the chat is archived by then; one for an evicted chat is dropped.
   */
  method CompleteSummaryTask(store: Store, task: SummaryTask, summary: string)
    modifies store
    ensures !IsUsableSummary(summary) ==> unchanged(store)
    // the chat is still active: only its record gets the summary
    ensures IsUsableSummary(summary) && task.chatId in old(store.activeChats) ==>
      && store.activeChats == old(store.activeChats)[task.chatId := old(store.activeChats)[task.chatId].(summary := summary)]
      && store.archivedChats == old(store.archivedChats)
      && store.historyIndex == old(store.historyIndex)
    // the chat is archived: its record and the pair index get the summary
    ensures IsUsableSummary(summary) && task.chatId !in old(store.activeChats) && task.chatId in old(store.archivedChats) ==>
      var d := old(store.archivedChats)[task.chatId];
      && store.activeChats == old(store.activeChats)
      && store.archivedChats == old(store.archivedChats)[task.chatId := d.(summary := summary)]
      && store.historyIndex == if |d.participants| >= 2
                               then old(store.historyIndex)[MakePairKey(d.participants[0], d.participants[1]) := summary]
                               else old(store.historyIndex)
    // the chat was evicted by the sweeper while the summary ran: the summary is dropped
    ensures task.chatId !in old(store.activeChats) && task.chatId !in old(store.archivedChats) ==> unchanged(store)
    ensures store.participantToChat == old(store.participantToChat) && store.counter == old(store.counter)
    ensures old(store.Valid()) ==> store.Valid()
  {
    if IsUsableSummary(summary) {
      store.SetConversationSummary(task.chatId, summary);
    }
  }
}
