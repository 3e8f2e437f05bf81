/** One round of play on a single lobby: starting the game, beginning a
    round with a scenario, collecting actions, and closing the round with
    the adjudication's result. The chat messages the handlers send are
    reduced to the one notice that carries information: what the players
    are told at the end of the round. */
module Rounds {
  import opened Basics
  import opened Models
  import opened Validation
  import opened Identifiers
  import opened Adjudication

  /** The start-game handlers' guard: only the captain may start, and the
      player-count test is `< 1` (so it never refuses a member). No state is
      checked. */
  datatype StartResult = NotCaptain | TooFewPlayers | Started(lobby: Lobby)

  function StartGame(l: Lobby, u: UserId): (r: StartResult)
    requires Has(l, u)
    ensures !PlayerOf(l, u).isCaptain <==> r == NotCaptain
    ensures r.Started? ==> r.lobby == l.(state := WaitingForScenario)
    ensures r != TooFewPlayers
  {
    if !PlayerOf(l, u).isCaptain then NotCaptain
    else if |l.players| < 1 then TooFewPlayers
    else Started(l.(state := WaitingForScenario))
  }

  /** A new round: the scenario is stored, the lobby waits for actions, and
      every player's action is cleared and every player revived. */
  function BeginRound(l: Lobby, scenario: string): (r: Lobby)
    ensures r.scenario == Some(scenario) && r.state == WaitingForActions
    ensures r.id == l.id && r.mode == l.mode && r.captainId == l.captainId
    ensures Ids(r.players) == Ids(l.players)
    ensures forall i :: 0 <= i < |r.players| ==>
              r.players[i] == l.players[i].(action := None, isAlive := true)
  {
    ResetActions(l.(scenario := Some(scenario), state := WaitingForActions))
  }

  /** A scenario typed by the captain is taken only if it validates. */
  function AcceptScenario(l: Lobby, text: string): (r: Result<Lobby>)
    ensures r.Ok? <==> ValidateScenario(text).ok
    ensures r.Err? ==> r.message == ValidateScenario(text).reason.value
    ensures r.Ok? ==> r.value == BeginRound(l, text)
  {
    var v := ValidateScenario(text);
    if v.ok then Ok(BeginRound(l, text)) else Err(v.reason.value)
  }

  lemma BeginRoundPreservesValid(l: Lobby, scenario: string)
    requires Valid(l)
    ensures Valid(BeginRound(l, scenario))
    ensures |BeginRound(l, scenario).players| > 0 ==> !AllSubmitted(BeginRound(l, scenario))
  {
    ResetPreservesValid(l.(scenario := Some(scenario), state := WaitingForActions));
  }

  /** `lobby.players[user_id].action = text`. */
  function SetAction(l: Lobby, u: UserId, text: string): (r: Lobby)
    requires Has(l, u)
    ensures r.(players := l.players) == l
    ensures |r.players| == |l.players|
    ensures var i := IndexOf(l.players, u);
            && r.players[i] == l.players[i].(action := Some(text))
            && forall j :: 0 <= j < |l.players| && j != i ==> r.players[j] == l.players[j]
  {
    var i := IndexOf(l.players, u);
    l.(players := l.players[i := l.players[i].(action := Some(text))])
  }

  lemma SetActionKeepsIds(l: Lobby, u: UserId, text: string)
    requires Has(l, u)
    ensures Ids(SetAction(l, u, text).players) == Ids(l.players)
    ensures Valid(l) ==> Valid(SetAction(l, u, text))
  {
    var r := SetAction(l, u, text);
    var i := IndexOf(l.players, u);
    assert forall j :: 0 <= j < |l.players| ==> r.players[j].userId == l.players[j].userId && r.players[j].isCaptain == l.players[j].isCaptain;
  }

  /** The last missing action completes the round exactly when every other
      player has acted already. */
  lemma CompletesExactlyWhenOthersActed(l: Lobby, u: UserId, text: string)
    requires Has(l, u)
    ensures var i := IndexOf(l.players, u);
            AllSubmitted(SetAction(l, u, text)) <==>
              forall j :: 0 <= j < |l.players| && j != i ==> l.players[j].action.Some?
  {
  }

  /** What the players are told when the round closes: the service's reply,
      or the error that stopped the processing. */
  datatype Notice = Results(reply: Reply) | Failure(error: string)

  /** The lobby after the round and the notice sent to every player. */
  datatype RoundEnd = RoundEnd(lobby: Lobby, notice: Notice)

  /** The position of the first player, in insertion order, without an
      action; `|ps|` when every player acted. */
  function FirstMissing(ps: seq<Player>): (i: nat)
    ensures i <= |ps|
    ensures forall j :: 0 <= j < i ==> ps[j].action.Some?
    ensures i < |ps| ==> ps[i].action.None?
  {
    if ps == [] || ps[0].action.None? then 0 else 1 + FirstMissing(ps[1..])
  }

  /** The first player without an action, if any. */
  function FirstWithoutAction(ps: seq<Player>): (p: Option<Player>)
    ensures p.None? <==> AllActed(ps)
    ensures p.Some? ==> p.value.action.None?
    ensures p.Some? ==> exists i :: 0 <= i < |ps| && ps[i] == p.value
                          && forall j :: 0 <= j < i ==> ps[j].action.Some?
  {
    var i := FirstMissing(ps);
    if i < |ps| then Some(ps[i]) else None
  }

  /** The `ValueError` raised for a player without an action. */
  function NoActionMessage(p: Player): string {
    "У игрока " + p.firstName + " " + p.lastName + " нет действия"
  }

  /** `process_game_results`: every player must have an action, then the
      service is asked; whatever happens, the lobby goes back to waiting for
      a scenario, and players learn either the result or the error. */
  function ProcessGameResults(l: Lobby, backend: Backend): (r: RoundEnd)
    ensures r.lobby == l.(state := WaitingForScenario)
    ensures !AllSubmitted(l) ==>
              r.notice == Failure(NoActionMessage(FirstWithoutAction(l.players).value))
    ensures AllSubmitted(l) ==>
              match EvaluateSurvival(l.scenario, l.players, l.mode, backend)
              case Ok(reply) => r.notice == Results(reply)
              case Err(e) => r.notice == Failure(e)
  {
    var after := l.(state := WaitingForScenario);
    match FirstWithoutAction(l.players)
    case Some(p) => RoundEnd(after, Failure(NoActionMessage(p)))
    case None =>
      match EvaluateSurvival(l.scenario, l.players, l.mode, backend)
      case Ok(reply) => RoundEnd(after, Results(reply))
      case Err(e) => RoundEnd(after, Failure(e))
  }

  /** A complete round with a scenario always ends with results, and offline
      survivors are members of the lobby. */
  lemma CompleteRoundHasResults(l: Lobby, backend: Backend)
    requires AllSubmitted(l) && l.scenario.Some?
    ensures var n := ProcessGameResults(l, backend).notice;
            && n.Results?
            && (n.reply.Pair? ==> forall v :: v in n.reply.survivors ==> Has(l, v))
  {
    EvaluateNeverFailsOnCompleteRound(l.scenario.value, l.players, l.mode, backend);
    var r := EvaluateSurvival(l.scenario, l.players, l.mode, backend);
    if r.value.Pair? {
      FallbackSurvivorsArePlayers(l.scenario.value, l.players, l.mode);
    }
  }

  /** What a message from a lobby member does while no scenario is awaited. */
  datatype Submission =
    | NotAwaited
    | NoSuchPlayer
    | Refused(reason: string)
    | Recorded(lobby: Lobby)
    | Completed(fired: Lobby, end: RoundEnd)

  /** The action branch of `message_handler`: only in `WAITING_FOR_ACTIONS`
      and only for a player without an action; the text must validate; the
      submission that completes the set moves the lobby to
      `PROCESSING_RESULTS` and the results are processed at once. */
  function SubmitAction(l: Lobby, u: UserId, text: string, backend: Backend): (r: Submission)
    ensures l.state != WaitingForActions ==> r == NotAwaited
    ensures l.state == WaitingForActions && !Has(l, u) ==> r == NoSuchPlayer
    ensures l.state == WaitingForActions && Has(l, u) && PlayerOf(l, u).action.Some? ==> r == NotAwaited
    ensures r.Refused? <==>
              l.state == WaitingForActions && Has(l, u) && PlayerOf(l, u).action.None? && !ValidateAction(text).ok
    ensures r.Refused? ==> r.reason == ValidateAction(text).reason.value
    ensures r.Recorded? || r.Completed? <==>
              l.state == WaitingForActions && Has(l, u) && PlayerOf(l, u).action.None? && ValidateAction(text).ok
    ensures r.Recorded? ==> r.lobby == SetAction(l, u, text) && !AllSubmitted(r.lobby)
    ensures r.Completed? ==>
              && r.fired == SetAction(l, u, text).(state := ProcessingResults)
              && AllSubmitted(r.fired)
              && !AllSubmitted(l)
              && r.end == ProcessGameResults(r.fired, backend)
              && r.end.lobby.state == WaitingForScenario
  {
    if l.state != WaitingForActions then NotAwaited
    else if !Has(l, u) then NoSuchPlayer
    else if PlayerOf(l, u).action.Some? then NotAwaited
    else
      var v := ValidateAction(text);
      if !v.ok then Refused(v.reason.value)
      else
        var recorded := SetAction(l, u, text);
        if AllSubmitted(recorded) then
          var fired := recorded.(state := ProcessingResults);
          Completed(fired, ProcessGameResults(fired, backend))
        else Recorded(recorded)
  }

  /** A round closes at most once: after it closes the lobby no longer waits
      for actions, so every further message is ignored until a new round
      begins; and a player who already acted cannot act again. */
  lemma RoundFiresOnce(l: Lobby, u: UserId, text: string, backend: Backend, v: UserId, more: string, backend2: Backend)
    requires SubmitAction(l, u, text, backend).Completed?
    ensures SubmitAction(SubmitAction(l, u, text, backend).end.lobby, v, more, backend2) == NotAwaited
    ensures SubmitAction(SetAction(l, u, text), u, more, backend2) == NotAwaited
  {
    var r := SetAction(l, u, text);
    assert PlayerOf(r, u).userId == u;
    assert IndexOf(r.players, u) == IndexOf(l.players, u) by {
      SetActionKeepsIds(l, u, text);
    }
  }

  /** `"%x"`-style escapes need at least this many hex digits. */
  function HexEscape(prefix: string, c: char, width: nat): string {
    prefix + HexWidth(c as int, width)
  }

  /** Characters `repr` writes as an escape because Python does not count
      them as printable, restricted to those a validated text can contain:
      the C0 and C1 controls, the no-break and other space separators, and
      the line and paragraph separators. */
  predicate NotPrintable(c: char) {
    c < ' ' || ('\U{7F}' <= c <= '\U{A0}') || c == '\U{AD}'
    || (c > '\U{FF}' && IsSpace(c))
  }

  /** One character as `repr` writes it inside quotes `q`. */
  function EscapeChar(c: char, q: char): string {
    if c == '\\' then "\\\\"
    else if c == q then ['\\', q]
    else if c == '\t' then "\\t"
    else if c == '\n' then "\\n"
    else if c == '\r' then "\\r"
    else if NotPrintable(c) then
      if c <= '\U{FF}' then HexEscape("\\x", c, 2) else HexEscape("\\u", c, 4)
    else [c]
  }

  function Escaped(s: string, q: char): (r: string)
    ensures |s| > 0 && !NotPrintable(s[0]) && s[0] !in "\\\t\n\r" && s[0] != q ==> |r| > 0 && r[0] == s[0]
  {
    if s == [] then [] else EscapeChar(s[0], q) + Escaped(s[1..], q)
  }

  /** Python's `repr` of a `str`: single quotes unless the text holds a
      single quote and no double quote. */
  function StrRepr(s: string): string {
    var q := if '\'' in s && '"' !in s then '"' else '\'';
    [q] + Escaped(s, q) + [q]
  }

  /** `str(list_of_ints)`. */
  function IdsRepr(ids: seq<UserId>): string {
    "[" + Join(seq(|ids|, i requires 0 <= i < |ids| => NatToDecimal(ids[i])), ", ") + "]"
  }

  /** `str((narrative, ids))`. */
  function TupleText(narrative: string, ids: seq<UserId>): string {
    "(" + StrRepr(narrative) + ", " + IdsRepr(ids) + ")"
  }

  /** `f"{narrative}"` as the handler writes it: the service's text when it
      answered with a string, and `str` of the whole `(narrative, ids)`
      tuple when it fell back. */
  function DeliveredAsWritten(reply: Reply): string {
    match reply
    case ModelText(t) => t
    case Pair(st, ids) => TupleText(StoryText(st), ids)
  }

  /** The text the players are evidently meant to read: the narrative in
      both cases. */
  function Delivered(reply: Reply): string {
    match reply
    case ModelText(t) => t
    case Pair(st, _) => StoryText(st)
  }

  const RESULTS_ERROR_PREFIX: string :=
    "Произошла ошибка при обработке результатов. Пожалуйста, попробуйте еще раз.\n"

  /** The message every player receives when the round closes, as the
      handler writes it: `f"{narrative}"` on success, so an offline verdict
      arrives as the tuple's text, and the error text after a fixed line on
      failure. */
  function NoticeTextAsWritten(n: Notice): (t: string)
    ensures n.Failure? ==> RESULTS_ERROR_PREFIX <= t && EndsWith(t, n.error)
    ensures n.Results? && n.reply.ModelText? ==> t == n.reply.text
    ensures n.Results? && n.reply.Pair? ==>
              |t| >= 4 && t[..4] == "('In" && t != StoryText(n.reply.story)
  {
    match n
    case Results(ModelText(text)) => DeliveredAsWritten(ModelText(text))
    case Results(Pair(st, ids)) =>
      OfflineDeliveryAsWrittenShowsTuple(st, ids);
      DeliveredAsWritten(Pair(st, ids))
    case Failure(e) =>
      EndsWithConcat(RESULTS_ERROR_PREFIX, e);
      RESULTS_ERROR_PREFIX + e
  }

  /** The message every player is evidently meant to receive: the story
      itself on success, offline or not, and the error text after a fixed
      line on failure. */
  function NoticeText(n: Notice): (t: string)
    ensures n.Failure? ==> RESULTS_ERROR_PREFIX <= t && EndsWith(t, n.error)
    ensures n.Results? && n.reply.ModelText? ==> t == n.reply.text
    ensures n.Results? && n.reply.Pair? ==>
              && t == StoryText(n.reply.story)
              && Opening(n.reply.story.scenario) <= t
              && EndsWith(t, OFFLINE_MARKER)
  {
    match n
    case Results(reply) => Delivered(reply)
    case Failure(e) =>
      EndsWithConcat(RESULTS_ERROR_PREFIX, e);
      RESULTS_ERROR_PREFIX + e
  }

  /** A text that opens with `In` and holds a double quote is shown by
      `repr` in single quotes, so the tuple's text opens with `('In`. */
  lemma TupleTextOpening(t: string, ids: seq<UserId>)
    requires |t| > 16 && t[0] == 'I' && t[1] == 'n' && t[16] == '"'
    ensures TupleText(t, ids)[..4] == "('In"
    ensures TupleText(t, ids) != t
  {
    assert '"' in t;
    var q := '\'';
    assert Escaped(t, q) == EscapeChar(t[0], q) + Escaped(t[1..], q);
    assert Escaped(t[1..], q) == EscapeChar(t[1], q) + Escaped(t[2..], q);
    assert StrRepr(t) == [q] + Escaped(t, q) + [q];
    var shown := TupleText(t, ids);
    assert shown[0] == '(' && shown[1] == q && shown[2] == 'I' && shown[3] == 'n';
  }

  /** As written, an offline verdict reaches the players as a tuple's
      `repr`: it opens with `('In` where the narrative opens with `In`, so
      the players never see the narrative itself. */
  lemma OfflineDeliveryAsWrittenShowsTuple(st: Story, ids: seq<UserId>)
    ensures DeliveredAsWritten(Pair(st, ids))[..4] == "('In"
    ensures DeliveredAsWritten(Pair(st, ids)) != StoryText(st)
  {
    StoryOpensWithIn(st);
    TupleTextOpening(StoryText(st), ids);
  }

  /** Corrected, the players receive the narrative: a model story verbatim,
      or the offline narrative with its marker. */
  lemma OfflineDeliveryShowsNarrative(st: Story, ids: seq<UserId>)
    ensures Delivered(Pair(st, ids)) == StoryText(st)
    ensures EndsWith(Delivered(Pair(st, ids)), OFFLINE_MARKER)
    ensures Opening(st.scenario) <= Delivered(Pair(st, ids))
  {
  }
}
