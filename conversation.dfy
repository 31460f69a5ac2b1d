/** The chunked translation conversation with the language model, shared by
    SubtitleService._translate_subtitle_anthropic
    (api/apps/services/subtitle_service.py) and its older copy in
    api/apps/services.py.

    The history starts with one user turn holding the SRT text.  Each round
    sends the whole history, reads the reply as JSON, appends its stripped
    "text" as a chunk, and then looks at "command": NEXT extends the history by
    the raw reply and a user CONTINUE turn, END stops, anything else is an
    error.  At most a fixed number of rounds run; the chunks are joined with
    blank lines.

    The model's replies are a parameter: replies(k) is the reply to the k-th
    request (counting from 0), or the error that request raised. */
module Conversation {
  import opened Wrappers
  import opened Errors
  import opened PyStr
  import opened Models

  /** MAX_ITERATIONS of api/apps/constants.py. */
  const MAX_ITERATIONS: nat := 100

  const MODEL := "claude-3-5-sonnet-20241022"
  const MAX_TOKENS: nat := 4096
  const CONTINUE := "CONTINUE"
  const CHUNK_SEPARATOR := "\n\n"

  const PROMPT_INSTRUCTIONS :=
    "Translate only 20 entries at a time and say 'NEXT'. "
    + "If I reply with 'CONTINUE', then continue with the next 20 entries. "
    + "If you've finished the job, then say 'END'. "
    + "Output should be in JSON format with keys: \"text\", \"command\". "
    + "Example: {\"text\": \"Translated SRT (must escape newlines)\", \"command\": \"NEXT\"}"

  /** The system prompt for a target language. */
  function SystemPrompt(language: string): (r: string)
    ensures StartsWith(r, "Translate the following SRT subtitles into " + language + ". ")
  {
    "Translate the following SRT subtitles into " + language + ". " + PROMPT_INSTRUCTIONS
  }

  datatype Role = User | Assistant

  datatype Turn = Turn(role: Role, content: string)

  datatype Request = Request(
    model: string,
    system: string,
    maxTokens: nat,
    temperature: Option<real>,
    messages: seq<Turn>)

  /** A reply as the loop sees it: the exception messages.create raised
      (network, API or rate-limit errors), text that is not JSON, JSON that is
      not an object (an array, a string, a number, true, false or null), or a
      JSON object with its "text" and "command" members (None when the key is
      missing). */
  datatype Reply =
    | RequestFailed(message: string)
    | NotJson(raw: string)
    | NotObject(raw: string)
    | Json(raw: string, text: Option<string>, command: Option<string>)

  datatype Status = Running | Ended | Failed(error: Error)

  /** The loop's variables: histories, the "text" members read so far (the
      translated chunks are these stripped), iteration_count, and whether the
      loop goes on. */
  datatype LoopState = LoopState(history: seq<Turn>, texts: seq<string>, count: nat, status: Status)

  /** translated_chunks for the texts read: each one stripped, in order. */
  function Chunks(texts: seq<string>): (r: seq<string>)
    ensures |r| == |texts|
    decreases |texts|
  {
    if texts == [] then [] else Chunks(texts[..|texts| - 1]) + [Strip(texts[|texts| - 1])]
  }

  lemma {:induction false} ChunksAt(texts: seq<string>, j: nat)
    requires j < |texts|
    ensures Chunks(texts)[j] == Strip(texts[j])
    decreases |texts|
  {
    if j < |texts| - 1 {
      ChunksAt(texts[..|texts| - 1], j);
    }
  }

  function Start(content: string): LoopState {
    LoopState([Turn(User, content)], [], 0, Running)
  }

  /** A reply that keeps the conversation going. */
  predicate IsNext(r: Reply) {
    r.Json? && r.text.Some? && r.command == Some("NEXT")
  }

  /** A reply that ends the conversation normally. */
  predicate IsEnd(r: Reply) {
    r.Json? && r.text.Some? && r.command == Some("END")
  }

  /** The error a reply raises, if any (the request itself, JSON decoding,
      subscripting a value that is not an object, the "text" key, the
      "command" key, an unknown command, in that order). */
  function ReplyError(r: Reply): (e: Option<Error>)
    ensures e.None? <==> IsNext(r) || IsEnd(r)
  {
    match r
    case RequestFailed(m) => Some(ExternalError("anthropic", m))
    case NotJson(_) => Some(JsonDecodeError)
    case NotObject(_) => Some(TypeError)
    case Json(_, text, command) =>
      if text.None? then Some(KeyError("text"))
      else if command.None? then Some(KeyError("command"))
      else if command.value == "NEXT" || command.value == "END" then None
      else Some(ValueError("Unsupported command: " + command.value))
  }

  /** Whether the reply's text becomes a chunk: it does once "text" is read. */
  predicate GivesChunk(r: Reply) {
    r.Json? && r.text.Some?
  }

  /** What the loop does after a reply: go on (NEXT), stop (END), or raise. */
  function Verdict(r: Reply): (st: Status)
    ensures st == Running <==> IsNext(r)
    ensures st == Ended <==> IsEnd(r)
    ensures st.Failed? ==> Some(st.error) == ReplyError(r)
  {
    if IsNext(r) then Running else if IsEnd(r) then Ended else Failed(ReplyError(r).value)
  }

  /** The history after a reply: a NEXT reply adds the raw reply and CONTINUE. */
  function NextHistory(history: seq<Turn>, r: Reply): seq<Turn> {
    if IsNext(r) then history + [Turn(Assistant, r.raw), Turn(User, CONTINUE)] else history
  }

  /** The texts after a reply: its "text" member once it has been read. */
  function NextTexts(texts: seq<string>, r: Reply): seq<string> {
    if GivesChunk(r) then texts + [r.text.value] else texts
  }

  /** One round of the loop body, for the reply to the request just sent. */
  function Step(st: LoopState, reply: Reply): LoopState {
    LoopState(NextHistory(st.history, reply), NextTexts(st.texts, reply), st.count + 1, Verdict(reply))
  }

  /** The state after n passes of the loop test (a finished loop stays). */
  function Trace(content: string, replies: nat -> Reply, n: nat): LoopState
    decreases n
  {
    if n == 0 then Start(content)
    else
      var p := Trace(content, replies, n - 1);
      if p.status == Running then Step(p, replies(p.count)) else p
  }

  /** What the function returns or raises for a final state. */
  function Outcome(st: LoopState): Result<string, Error> {
    if st.status.Failed? then Err(st.status.error) else Ok(Join(CHUNK_SEPARATOR, Chunks(st.texts)))
  }

  function RequestOf(system: string, temperature: Option<real>, history: seq<Turn>): Request {
    Request(MODEL, system, MAX_TOKENS, temperature, history)
  }

  /** The first n requests of the conversation, in order. */
  function Requests(content: string, system: string, temperature: Option<real>,
                    replies: nat -> Reply, n: nat): (r: seq<Request>)
    ensures |r| == n
    decreases n
  {
    if n == 0 then []
    else Requests(content, system, temperature, replies, n - 1)
         + [RequestOf(system, temperature, Trace(content, replies, n - 1).history)]
  }

  /** Sending the request for the current history extends the requests by one. */
  lemma RequestsNext(content: string, system: string, temperature: Option<real>,
                     replies: nat -> Reply, n: nat, sent: seq<Request>, history: seq<Turn>)
    requires sent == Requests(content, system, temperature, replies, n)
    requires history == Trace(content, replies, n).history
    ensures sent + [RequestOf(system, temperature, history)] == Requests(content, system, temperature, replies, n + 1)
  {
  }

  /** The requests sent are the first requests of the conversation. */
  predicate SentRequests(sent: seq<Request>, content: string, system: string,
                         temperature: Option<real>, replies: nat -> Reply)
  {
    sent == Requests(content, system, temperature, replies, |sent|)
  }

  /** Request k carries the model, the system prompt, the token limit, the
      temperature and the whole history before round k. */
  lemma {:induction false} SentRequestAt(sent: seq<Request>, content: string, system: string,
                                         temperature: Option<real>, replies: nat -> Reply, k: nat)
    requires SentRequests(sent, content, system, temperature, replies) && k < |sent|
    ensures sent[k] == Request(MODEL, system, MAX_TOKENS, temperature, Trace(content, replies, k).history)
    decreases |sent|
  {
    if k < |sent| - 1 {
      var prefix := sent[..|sent| - 1];
      assert prefix == Requests(content, system, temperature, replies, |prefix|);
      SentRequestAt(prefix, content, system, temperature, replies, k);
    }
  }

  /** The body of one round after the reply has arrived: decode it, keep its
      stripped text, then act on its command.  stop is None when the loop goes
      on, and otherwise what the function returns or raises. */
  method HandleReply(reply: Reply, histories: seq<Turn>, translatedChunks: seq<string>)
    returns (nextHistories: seq<Turn>, nextChunks: seq<string>, stop: Option<Result<string, Error>>)
    ensures nextHistories == NextHistory(histories, reply)
    ensures nextChunks == if GivesChunk(reply) then translatedChunks + [Strip(reply.text.value)] else translatedChunks
    ensures stop.None? <==> IsNext(reply)
    ensures stop.Some? && IsEnd(reply) ==> stop.value == Ok(Join(CHUNK_SEPARATOR, nextChunks))
    ensures stop.Some? && !IsEnd(reply) ==> stop.value == Err(ReplyError(reply).value)
  {
    nextHistories, nextChunks, stop := histories, translatedChunks, None;
    if reply.RequestFailed? {
      return nextHistories, nextChunks, Some(Err(ExternalError("anthropic", reply.message)));
    }
    if reply.NotJson? {
      return nextHistories, nextChunks, Some(Err(JsonDecodeError));
    }
    if reply.NotObject? {
      return nextHistories, nextChunks, Some(Err(TypeError));
    }
    if reply.text.None? {
      return nextHistories, nextChunks, Some(Err(KeyError("text")));
    }
    nextChunks := translatedChunks + [Strip(reply.text.value)];
    if reply.command == Some("NEXT") {
      nextHistories := histories + [Turn(Assistant, reply.raw), Turn(User, CONTINUE)];
    } else if reply.command == Some("END") {
      stop := Some(Ok(Join(CHUNK_SEPARATOR, nextChunks)));
    } else if reply.command.None? {
      stop := Some(Err(KeyError("command")));
    } else {
      stop := Some(Err(ValueError("Unsupported command: " + reply.command.value)));
    }
  }

  /** The loop: sends at most limit requests, returns the requests it sent and
      what the function returns or raises. */
  method Converse(content: string, system: string, temperature: Option<real>, limit: nat,
                  replies: nat -> Reply)
    returns (sent: seq<Request>, result: Result<string, Error>)
    ensures var fin := Trace(content, replies, limit);
            |sent| == fin.count && result == Outcome(fin)
    ensures SentRequests(sent, content, system, temperature, replies)
  {
    var histories := [Turn(User, content)];
    var translatedChunks: seq<string> := [];
    ghost var texts: seq<string> := [];
    var iterationCount := 0;
    sent := [];
    while iterationCount < limit
      invariant iterationCount <= limit
      invariant Trace(content, replies, iterationCount) == LoopState(histories, texts, iterationCount, Running)
      invariant translatedChunks == Chunks(texts)
      invariant sent == Requests(content, system, temperature, replies, iterationCount)
    {
      var round := iterationCount;
      RequestsNext(content, system, temperature, replies, round, sent, histories);
      iterationCount := iterationCount + 1;
      sent := sent + [RequestOf(system, temperature, histories)];
      var reply := replies(round);
      var nextHistories, nextChunks, stop := HandleReply(reply, histories, translatedChunks);
      if GivesChunk(reply) {
        ChunksSnoc(texts, reply.text.value);
      }
      if stop.Some? {
        StopsAfter(content, replies, round, limit, histories, texts);
        return sent, stop.value;
      }
      GoesOnAfter(content, replies, round, histories, texts);
      histories, translatedChunks := nextHistories, nextChunks;
      texts := texts + [reply.text.value];
    }
    result := Ok(Join(CHUNK_SEPARATOR, translatedChunks));
  }

  lemma TraceNext(content: string, replies: nat -> Reply, n: nat)
    requires Trace(content, replies, n).status == Running && Trace(content, replies, n).count == n
    ensures Trace(content, replies, n + 1) == Step(Trace(content, replies, n), replies(n))
  {
  }

  /** A reply other than NEXT to request n settles the final state. */
  lemma StopsAfter(content: string, replies: nat -> Reply, n: nat, limit: nat,
                   history: seq<Turn>, texts: seq<string>)
    requires n < limit && !IsNext(replies(n))
    requires Trace(content, replies, n) == LoopState(history, texts, n, Running)
    ensures Trace(content, replies, limit) ==
              LoopState(history, NextTexts(texts, replies(n)), n + 1, Verdict(replies(n)))
  {
    TraceNext(content, replies, n);
    TraceStays(content, replies, n + 1, limit);
  }

  /** A NEXT reply to request n extends the history and the texts. */
  lemma GoesOnAfter(content: string, replies: nat -> Reply, n: nat,
                    history: seq<Turn>, texts: seq<string>)
    requires IsNext(replies(n))
    requires Trace(content, replies, n) == LoopState(history, texts, n, Running)
    ensures Trace(content, replies, n + 1) ==
              LoopState(history + [Turn(Assistant, replies(n).raw), Turn(User, CONTINUE)],
                        texts + [replies(n).text.value], n + 1, Running)
  {
    TraceNext(content, replies, n);
  }

  lemma ChunksSnoc(texts: seq<string>, t: string)
    ensures Chunks(texts + [t]) == Chunks(texts) + [Strip(t)]
  {
    assert (texts + [t])[..|texts|] == texts;
  }

  // ---------------------------------------------------------------------
  // Properties of the conversation

  /** Once the loop has stopped, later passes change nothing. */
  lemma {:induction false} TraceStays(content: string, replies: nat -> Reply, n: nat, m: nat)
    requires n <= m && Trace(content, replies, n).status != Running
    ensures Trace(content, replies, m) == Trace(content, replies, n)
    decreases m - n
  {
    if n < m {
      TraceStays(content, replies, n, m - 1);
    }
  }

  /** The counter never exceeds the number of passes, and equals it while the
      loop runs. */
  lemma {:induction false} TraceCount(content: string, replies: nat -> Reply, n: nat)
    ensures Trace(content, replies, n).count <= n
    ensures Trace(content, replies, n).status == Running ==> Trace(content, replies, n).count == n
    ensures Trace(content, replies, n).status != Running ==> Trace(content, replies, n).count >= 1
    decreases n
  {
    if n > 0 {
      TraceCount(content, replies, n - 1);
    }
  }

  /** The loop is still running after n rounds exactly when the first n
      replies all said NEXT (with a text). */
  lemma {:induction false} RunningIffAllNext(content: string, replies: nat -> Reply, n: nat)
    ensures Trace(content, replies, n).status == Running <==> forall j :: 0 <= j < n ==> IsNext(replies(j))
    decreases n
  {
    if n > 0 {
      RunningIffAllNext(content, replies, n - 1);
      TraceCount(content, replies, n - 1);
      var p := Trace(content, replies, n - 1);
      if p.status != Running {
        TraceStays(content, replies, n - 1, n);
        assert !(forall j :: 0 <= j < n - 1 ==> IsNext(replies(j)));
      }
    }
  }

  /** The number of NEXT replies so far, which is the number of rounds that
      extended the history. */
  function NextRounds(st: LoopState): nat {
    if st.status == Running then st.count else if st.count == 0 then 0 else st.count - 1
  }

  /** The history has 1 + 2k turns after k NEXT replies: the source text as a
      user turn, then for each NEXT reply the raw reply as an assistant turn
      and a user CONTINUE turn. */
  lemma {:induction false} HistoryShape(content: string, replies: nat -> Reply, n: nat)
    ensures ShapedHistory(Trace(content, replies, n), content, replies)
    decreases n
  {
    if n > 0 {
      HistoryShape(content, replies, n - 1);
      var p := Trace(content, replies, n - 1);
      if p.status == Running {
        HistoryStep(p, content, replies);
      }
    }
  }

  predicate ShapedHistory(st: LoopState, content: string, replies: nat -> Reply) {
    && |st.history| == 1 + 2 * NextRounds(st)
    && st.history[0] == Turn(User, content)
    && HistoryPairs(st.history, replies, NextRounds(st))
  }

  /** One round keeps the shape of the history. */
  lemma HistoryStep(p: LoopState, content: string, replies: nat -> Reply)
    requires p.status == Running && ShapedHistory(p, content, replies)
    ensures ShapedHistory(Step(p, replies(p.count)), content, replies)
  {
    if IsNext(replies(p.count)) {
      HistoryPairsExtend(p.history, replies, p.count);
    }
  }

  /** The first k replies are NEXT, and turns 1 + 2j and 2 + 2j of h are the
      j-th of them and CONTINUE. */
  predicate HistoryPairs(h: seq<Turn>, replies: nat -> Reply, k: nat)
    requires |h| == 1 + 2 * k
  {
    forall j :: 0 <= j < k ==>
      IsNext(replies(j)) && h[1 + 2 * j] == Turn(Assistant, replies(j).raw) && h[2 + 2 * j] == Turn(User, CONTINUE)
  }

  lemma HistoryPairsExtend(h: seq<Turn>, replies: nat -> Reply, k: nat)
    requires |h| == 1 + 2 * k && HistoryPairs(h, replies, k) && IsNext(replies(k))
    ensures HistoryPairs(h + [Turn(Assistant, replies(k).raw), Turn(User, CONTINUE)], replies, k + 1)
  {
    var h2 := h + [Turn(Assistant, replies(k).raw), Turn(User, CONTINUE)];
    forall j | 0 <= j < k + 1
      ensures IsNext(replies(j)) && h2[1 + 2 * j] == Turn(Assistant, replies(j).raw) && h2[2 + 2 * j] == Turn(User, CONTINUE)
    {
      if j < k {
        assert h2[1 + 2 * j] == h[1 + 2 * j] && h2[2 + 2 * j] == h[2 + 2 * j];
      }
    }
  }

  /** So the roles in the history alternate, starting with the user. */
  lemma HistoryAlternates(content: string, replies: nat -> Reply, n: nat)
    ensures var h := Trace(content, replies, n).history;
            forall i :: 0 <= i < |h| ==> h[i].role == if i % 2 == 0 then User else Assistant
  {
    var st := Trace(content, replies, n);
    var h := st.history;
    HistoryShape(content, replies, n);
    forall i | 0 <= i < |h| ensures h[i].role == if i % 2 == 0 then User else Assistant {
      if i > 0 {
        var j := (i - 1) / 2;
        assert i == 1 + 2 * j || i == 2 + 2 * j;
        assert h[1 + 2 * j].role == Assistant && h[2 + 2 * j].role == User;
      }
    }
  }

  /** Every reply whose text was read contributed that text, in turn order;
      their number is the request count, or one less when the last reply gave
      no text (not JSON, or no "text"). */
  lemma {:induction false} TextsInOrder(content: string, replies: nat -> Reply, n: nat)
    ensures TextsFrom(Trace(content, replies, n), replies)
    decreases n
  {
    if n > 0 {
      TextsInOrder(content, replies, n - 1);
      var p := Trace(content, replies, n - 1);
      if p.status == Running {
        TraceCount(content, replies, n - 1);
        RunningIffAllNext(content, replies, n - 1);
        if n - 1 > 0 {
          assert IsNext(replies(n - 2));
        }
        TextsStep(p, replies);
      }
    }
  }

  /** The texts of a state are the "text" members of the replies in reply
      order: one per round, except a final reply that had no readable text. */
  predicate TextsFrom(st: LoopState, replies: nat -> Reply) {
    && |st.texts| == (if st.count >= 1 && !GivesChunk(replies(st.count - 1)) then st.count - 1 else st.count)
    && (forall j :: 0 <= j < |st.texts| ==> GivesChunk(replies(j)) && st.texts[j] == replies(j).text.value)
  }

  /** One round keeps the texts in reply order. */
  lemma TextsStep(p: LoopState, replies: nat -> Reply)
    requires p.status == Running && TextsFrom(p, replies)
    requires p.count >= 1 ==> GivesChunk(replies(p.count - 1))
    ensures TextsFrom(Step(p, replies(p.count)), replies)
  {
  }

  /** How the conversation ends, for the first reply e that is not NEXT: the
      loop sent e + 1 requests and returns the joined chunks on END or raises
      the error that reply causes. */
  lemma {:induction false} StopsAtFirstNonNext(content: string, replies: nat -> Reply, e: nat, limit: nat)
    requires e < limit
    requires forall j :: 0 <= j < e ==> IsNext(replies(j))
    requires !IsNext(replies(e))
    ensures var fin := Trace(content, replies, limit);
            && fin.count == e + 1
            && (IsEnd(replies(e)) ==> Outcome(fin) == Ok(Join(CHUNK_SEPARATOR, Chunks(fin.texts))))
            && (!IsEnd(replies(e)) ==> Outcome(fin) == Err(ReplyError(replies(e)).value))
  {
    RunningIffAllNext(content, replies, e);
    TraceCount(content, replies, e);
    TraceStays(content, replies, e + 1, limit);
  }

  /** When every one of the limit replies says NEXT the loop stops at the
      ceiling and returns the limit chunks joined, without an error. */
  lemma CeilingReturnsChunks(content: string, replies: nat -> Reply, limit: nat)
    requires forall j :: 0 <= j < limit ==> IsNext(replies(j))
    ensures var fin := Trace(content, replies, limit);
            && fin.count == limit && |fin.texts| == limit
            && Outcome(fin) == Ok(Join(CHUNK_SEPARATOR, Chunks(fin.texts)))
  {
    RunningIffAllNext(content, replies, limit);
    TraceCount(content, replies, limit);
    TextsInOrder(content, replies, limit);
  }

  /** A stopped loop stopped because of its last reply. */
  lemma {:induction false} LastReplyDecides(content: string, replies: nat -> Reply, n: nat)
    ensures var st := Trace(content, replies, n);
            st.status != Running ==> st.count >= 1 && st.status == Verdict(replies(st.count - 1))
    decreases n
  {
    if n > 0 {
      LastReplyDecides(content, replies, n - 1);
    }
  }

  /** The error raised is always the one caused by the last reply read, and a
      successful return means the last reply said END or the ceiling was
      reached. */
  lemma ErrorComesFromLastReply(content: string, replies: nat -> Reply, limit: nat)
    ensures var fin := Trace(content, replies, limit);
            && (Outcome(fin).Err? ==> fin.count >= 1 && Some(Outcome(fin).error) == ReplyError(replies(fin.count - 1)))
            && (Outcome(fin).Ok? ==> fin.count == limit || (fin.count >= 1 && IsEnd(replies(fin.count - 1))))
  {
    TraceCount(content, replies, limit);
    LastReplyDecides(content, replies, limit);
  }

  // ---------------------------------------------------------------------
  // The translation function: the settings checks, then the loop

  const ANTHROPIC_KEY_NOT_FOUND := "Anthropic API Key not found"

  /** Whether the Settings row allows the conversation to start. */
  predicate Ready(settings: Option<SettingsRecord>) {
    settings.Some? && IsSet(settings.value.anthropicApiKey)
  }

  /** What the translation returns or raises for a Settings row (None when
      there is none). */
  function TranslationOutcome(settings: Option<SettingsRecord>, content: string, limit: nat,
                              replies: nat -> Reply): (r: Result<string, Error>)
    ensures settings.None? ==> r == Err(ValidationError(SETTINGS_NOT_FOUND))
    ensures settings.Some? && !IsSet(settings.value.anthropicApiKey) ==> r == Err(ValidationError(ANTHROPIC_KEY_NOT_FOUND))
    ensures Ready(settings) ==> r == Outcome(Trace(content, replies, limit))
  {
    if settings.None? then Err(ValidationError(SETTINGS_NOT_FOUND))
    else if !IsSet(settings.value.anthropicApiKey) then Err(ValidationError(ANTHROPIC_KEY_NOT_FOUND))
    else Outcome(Trace(content, replies, limit))
  }

  /** The requests a translation sends: none unless the settings are ready,
      otherwise one per round, each with the system prompt for the language. */
  predicate TranslationRequests(settings: Option<SettingsRecord>, content: string, language: string,
                                temperature: Option<real>, limit: nat, replies: nat -> Reply,
                                sent: seq<Request>)
  {
    if !Ready(settings) then sent == []
    else |sent| == Trace(content, replies, limit).count
         && SentRequests(sent, content, SystemPrompt(language), temperature, replies)
  }

  /** _translate_subtitle_anthropic for a Settings row, a temperature and an
      iteration ceiling. */
  method Translate(settings: Option<SettingsRecord>, content: string, language: string,
                   temperature: Option<real>, limit: nat, replies: nat -> Reply)
    returns (sent: seq<Request>, result: Result<string, Error>)
    ensures result == TranslationOutcome(settings, content, limit, replies)
    ensures TranslationRequests(settings, content, language, temperature, limit, replies, sent)
  {
    if settings.None? {
      return [], Err(ValidationError(SETTINGS_NOT_FOUND));
    }
    if !IsSet(settings.value.anthropicApiKey) {
      return [], Err(ValidationError(ANTHROPIC_KEY_NOT_FOUND));
    }
    sent, result := Converse(content, SystemPrompt(language), temperature, limit, replies);
  }

  /** At most limit requests are sent, whatever the replies. */
  lemma RequestsBounded(settings: Option<SettingsRecord>, content: string, language: string,
                        temperature: Option<real>, limit: nat, replies: nat -> Reply, sent: seq<Request>)
    requires TranslationRequests(settings, content, language, temperature, limit, replies, sent)
    ensures |sent| <= limit
  {
    TraceCount(content, replies, limit);
  }
}
