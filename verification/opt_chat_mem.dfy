/**
 * The chat-memory optimizer (`ChatOptimizer`): at most one background
 * summarisation job at a time, started when a conversation's history grows
 * past a level-dependent trigger, and applied later by splicing the summary
 * over exactly the lines that were handed to the job.
 *
 * The background inference is not modelled: the job's outcome reaches
 * `ApplyPendingOptimizations` as a parameter (`None` while the job is still
 * running, `Some(summary)` once it is ready).
 */
module OptChatMem {
  import opened StdString

  /** Per-conversation tuning; a default-constructed profile is (0, 10, false). */
  datatype OptimizationProfile = OptimizationProfile(level: int, tokensPerSecondLimit: int, isActive: bool)

  const DefaultProfile: OptimizationProfile := OptimizationProfile(0, 10, false)

  /** What the background summariser was started with. */
  datatype SummaryJob = SummaryJob(lines: seq<string>, npcName: string, playerName: string, throttle: int)

  /** Lines at the end of the history that are never summarised. */
  const FreshLines: int := 4

  /**
   * When a history of `size` lines starts a job at `level`: light (1) and any
   * unknown level above 10 lines, aggressive (2) above 6, auto (3) above 15,
   * off (0) never.
   */
  predicate Triggers(level: int, size: int): (t: bool)
    ensures level == 0 ==> !t
    ensures t ==> size > 6
    ensures level == 1 ==> (t <==> size > 10)
  {
    || (level == 2 && size > 6)
    || (level == 3 && size > 15)
    || (level != 0 && level != 2 && level != 3 && size > 10)
  }

  /** A triggering history always leaves a chunk of at least two lines besides line 0 and the four fresh lines. */
  lemma TriggerLeavesChunk(level: int, size: int)
    requires Triggers(level, size)
    ensures size - FreshLines - 1 >= 2
  {
  }

  /** The lines handed to the summariser: everything between line 0 and the last four lines. */
  function Chunk(h: seq<string>): (c: seq<string>)
    requires |h| >= FreshLines + 1
    ensures |c| == |h| - FreshLines - 1
    ensures forall i :: 0 <= i < |c| ==> c[i] == h[i + 1]
  {
    h[1..|h| - FreshLines]
  }

  /** Background throttle: slow for level 1, fast otherwise. */
  function Throttle(level: int): (t: int)
    ensures level == 1 <==> t == 20
    ensures level != 1 <==> t == 100
  {
    if level == 1 then 20 else 100
  }

  const SystemTag: string := "<|system|>\n"
  const EndTag: string := "\n<|end|>"

  /** The history line a summary becomes: the summary enclosed in a system tag and an end tag. */
  function SummaryLine(summary: string): (line: string)
    ensures |line| == |SystemTag| + |summary| + |EndTag|
    ensures line[..|SystemTag|] == SystemTag && line[|line| - |EndTag|..] == EndTag
    ensures line[|SystemTag|..|line| - |EndTag|] == summary
  {
    SystemTag + summary + EndTag
  }

  /**
   * Line 0 kept, the `k` lines after it replaced by the summary line, the rest
   * kept in order.
   */
  function Spliced(h: seq<string>, k: nat, summary: string): (r: seq<string>)
    requires |h| > k + 1
    ensures |r| == |h| - k + 1
    ensures r[0] == h[0] && r[1] == SummaryLine(summary)
    ensures r[2..] == h[k + 1..]
  {
    var r := [h[0], SummaryLine(summary)] + h[k + 1..];
    assert r[2..] == h[k + 1..];
    r
  }

  /**
   * When the history at apply time only grew at the end after the job was
   * started on `t`, the splice removes exactly the chunk given to the job:
   * line 0, then the summary, then the four lines kept fresh, then the new lines.
   */
  lemma SpliceReplacesChunk(t: seq<string>, extra: seq<string>, summary: string)
    requires |t| >= FreshLines + 3
    ensures var h := t + extra;
      && |h| > |Chunk(t)| + 1
      && h[1..1 + |Chunk(t)|] == Chunk(t)
      && Spliced(h, |Chunk(t)|, summary) == [t[0], SummaryLine(summary)] + t[|t| - FreshLines..] + extra
  {
    var h := t + extra;
    var k := |Chunk(t)|;
    assert h[1..1 + k] == t[1..|t| - FreshLines];
    var r := Spliced(h, k, summary);
    assert h[k + 1..] == t[|t| - FreshLines..] + extra;
    assert r == r[..2] + r[2..];
    assert r[..2] == [t[0], SummaryLine(summary)];
  }

  class ChatOptimizer {
    var isOptimizing: bool
    var linesBeingSummarized: int
    var profiles: map<int, OptimizationProfile>
    /** The pending background job (the future). */
    var pending: Option<SummaryJob>

    /** A job is pending exactly while the optimizer is busy, and the line count matches its chunk. */
    ghost predicate Valid()
      reads this
    {
      && (isOptimizing <==> pending.Some?)
      && (pending.Some? ==> linesBeingSummarized == |pending.value.lines| >= 2)
    }

    constructor ()
      ensures !isOptimizing && linesBeingSummarized == 0 && profiles == map[] && pending == None
      ensures Valid()
    {
      isOptimizing := false;
      linesBeingSummarized := 0;
      profiles := map[];
      pending := None;
    }

    /**
     * Starts a summarisation job for `history` when none is running and the
     * conversation's level triggers on its length.  The level is the
     * conversation's profile level if it has a profile, else `globalLevel`.
     */
    method CheckAndOptimize(convId: int, history: seq<string>, npcName: string, playerName: string,
                            globalLevel: int)
      returns (started: bool)
      modifies this`isOptimizing, this`linesBeingSummarized, this`pending
      ensures var level := if convId in profiles then profiles[convId].level else globalLevel;
        started <==> !old(isOptimizing) && Triggers(level, |history|)
      ensures !started ==> unchanged(this)
      ensures started ==>
        var level := if convId in profiles then profiles[convId].level else globalLevel;
        && isOptimizing
        && |history| >= FreshLines + 3
        && pending == Some(SummaryJob(Chunk(history), npcName, playerName, Throttle(level)))
        && linesBeingSummarized == |history| - FreshLines - 1
      ensures old(Valid()) ==> Valid()
    {
      if isOptimizing {
        return false;
      }
      var level := globalLevel;
      if convId in profiles {
        level := profiles[convId].level;
      }
      if level == 0 {
        return false;
      }
      var historySize := |history|;
      var triggerLineCount := 10;
      if level == 2 {
        triggerLineCount := 6;
      }
      if level == 3 {
        if historySize > 15 {
          triggerLineCount := 10;
        } else {
          return false;
        }
      }
      if historySize <= triggerLineCount {
        return false;
      }
      var startIdx := 1;
      var endIdx := historySize - FreshLines;
      if endIdx <= startIdx {
        return false;
      }
      var chunk: seq<string> := [];
      for i := startIdx to endIdx
        invariant chunk == history[startIdx..i]
      {
        chunk := chunk + [history[i]];
      }
      linesBeingSummarized := endIdx - startIdx;
      isOptimizing := true;
      var throttle := if level == 1 then 20 else 100;
      pending := Some(SummaryJob(chunk, npcName, playerName, throttle));
      return true;
    }

    /**
     * Collects a finished job (`outcome` is `Some` once it is ready): the
     * optimizer becomes idle, and a non-empty summary replaces lines
     * 1 .. linesBeingSummarized of `history` when the history is long enough.
     */
    method ApplyPendingOptimizations(history: seq<string>, outcome: Option<string>)
      returns (newHistory: seq<string>, ghost changed: bool)
      requires Valid()
      modifies this`isOptimizing, this`pending
      ensures Valid()
      // whether the history was rewritten: the flag the frame loop reads before writing it back
      ensures changed <==> old(isOptimizing) && outcome.Some? && outcome.value != "" && |history| > linesBeingSummarized + 1
      ensures !changed ==> newHistory == history
      ensures !old(isOptimizing) || outcome.None? ==> newHistory == history && unchanged(this)
      ensures old(isOptimizing) && outcome.Some? ==> !isOptimizing && pending.None?
      ensures old(isOptimizing) && outcome.Some? && outcome.value != "" && |history| > linesBeingSummarized + 1 ==>
        newHistory == Spliced(history, linesBeingSummarized, outcome.value)
      ensures old(isOptimizing) && outcome.Some? && (outcome.value == "" || |history| <= linesBeingSummarized + 1) ==>
        newHistory == history
    {
      newHistory, changed := history, false;
      if !isOptimizing {
        return;
      }
      if outcome.Some? {
        var summary := outcome.value;
        isOptimizing := false;
        pending := None;
        if summary == "" {
          return;
        }
        var removeCount := linesBeingSummarized;
        if |history| > removeCount + 1 {
          newHistory := history[..1] + history[1 + removeCount..];
          newHistory := newHistory[..1] + [SummaryLine(summary)] + newHistory[1..];
          changed := true;
        }
      }
    }

    /** Sets a conversation's level and marks its profile active, creating a default profile first if needed. */
    method SetConversationProfile(conversationId: int, level: int)
      modifies this`profiles
      ensures conversationId in profiles
      ensures profiles[conversationId].level == level && profiles[conversationId].isActive
      ensures profiles[conversationId].tokensPerSecondLimit ==
        if conversationId in old(profiles) then old(profiles)[conversationId].tokensPerSecondLimit
        else DefaultProfile.tokensPerSecondLimit
      ensures forall c :: c != conversationId ==> (c in profiles <==> c in old(profiles))
      ensures forall c :: c != conversationId && c in profiles ==> profiles[c] == old(profiles)[c]
    {
      var p := if conversationId in profiles then profiles[conversationId] else DefaultProfile;
      profiles := profiles[conversationId := p.(level := level)];
      profiles := profiles[conversationId := profiles[conversationId].(isActive := true)];
    }
  }
}
