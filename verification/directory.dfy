/** The bot's process-wide state and the command handlers as transitions on
    it. Three dictionaries make up the state: `lobbies` (id to lobby),
    `user_to_lobby` (user to lobby id) and `user_states` (the per-user
    conversation scratch pad). Each handler, with its messages and keyboards
    removed, is a pure function from one state to the next plus the kind of
    answer the user receives. A `KeyError` that a handler raises before it
    has changed anything is the `Crash` answer with the state unchanged. */
module Directory {
  import opened Basics
  import opened Models
  import opened Validation
  import opened Identifiers
  import opened Adjudication
  import Rounds

  /** The name a user typed, split at the first whitespace run. */
  datatype FullName = FullName(first: string, last: string)

  /** `user_states[user_id]`: the stored name, the lobby a `/join` is waiting
      to enter once the name is known, and whether the next message is the
      captain's scenario. */
  datatype Session = Session(name: Option<FullName>, joinTarget: Option<string>, awaitingScenario: bool)

  /** The empty dictionary `{}`. */
  const BLANK_SESSION: Session := Session(None, None, false)

  datatype Directory = Directory(
    lobbies: map<string, Lobby>,
    userToLobby: map<UserId, string>,
    sessions: map<UserId, Session>)

  const EMPTY_DIRECTORY: Directory := Directory(map[], map[], map[])

  /** The test every in-lobby handler starts with. */
  predicate InLobby(d: Directory, u: UserId) {
    u in d.userToLobby && d.userToLobby[u] in d.lobbies
  }

  function LobbyOf(d: Directory, u: UserId): Lobby
    requires InLobby(d, u)
  {
    d.lobbies[d.userToLobby[u]]
  }

  /** The stored name, if the session has one. */
  function NameOf(d: Directory, u: UserId): Option<FullName> {
    if u in d.sessions then d.sessions[u].name else None
  }

  datatype JoinRefusal = NoSuchLobby | LobbyFull | AlreadyStarted

  /** What the user is told, stripped of wording. */
  datatype Response =
    | AlreadyInLobby
    | AskName
    | NameRejected(reason: string)
    | NameAccepted(name: FullName)
    | Created(id: string)
    | CreatedInstead(cause: JoinRefusal, id: string)
    | Joined(id: string)
    | JoinRefused(cause: JoinRefusal)
    | JoinUsage
    | AlreadyThere
    | OfferSwitch(current: string, requested: string)
    | NotInLobby
    | Left
    | OnlyCaptain
    | TooFewPlayers
    | GameStarted
    | AwaitingScenario
    | ModeChosen(mode: GameMode)
    | ScenarioRejected(reason: string)
    | RoundStarted(scenario: string)
    | ActionRejected(reason: string)
    | ActionRecorded
    | RoundPlayed(notice: Rounds.Notice)
    | Ignored
    | Crash

  datatype Step = Step(dir: Directory, response: Response)

  /** The capacity and phase guards every join path applies, in order. */
  function Refusal(l: Lobby): (r: Option<JoinRefusal>)
    ensures r.None? <==> |l.players| < 10 && l.state == WaitingForPlayers
    ensures r == Some(LobbyFull) <==> |l.players| >= 10
  {
    if |l.players| >= 10 then Some(LobbyFull)
    else if l.state != WaitingForPlayers then Some(AlreadyStarted)
    else None
  }

  /** `full_name.split(maxsplit=1)` with an empty last name when there is
      only one word. */
  function SplitName(full: string): (n: FullName)
    requires |full| > 0 && !IsSpace(full[0])
    ensures |n.first| > 0 && NoSpace(n.first)
    ensures n.last == [] || !IsSpace(n.last[0])
    ensures exists gap :: AllSpace(gap) && full == n.first + gap + n.last
    ensures |n.first| == |full| || IsSpace(full[|n.first|])
  {
    var parts := SplitOnce(full);
    FullName(parts.0, parts.1)
  }

  /** An accepted name is non-empty and starts with a non-space character
      once stripped, so it can be split. */
  lemma AcceptedNameSplits(text: string)
    requires ValidateName(Strip(text)).ok
    ensures |Strip(text)| > 0 && !IsSpace(Strip(text)[0])
  {
  }

  /** A lobby as `create_new_lobby` builds it for its founder. */
  function Founded(id: string, u: UserId, n: FullName): (l: Lobby)
    ensures l == Lobby(id, [Player(u, n.first, n.last, true, None, true)],
                       EveryManForHimself, WaitingForPlayers, None, Some(u))
  {
    AddPlayer(NewLobby(id), NewPlayer(u, n.first, n.last)).lobby
  }

  /** What a join that passed its guards leaves behind: the user is a
      member of `id` and mapped to it, the lobby's earlier members stay, and
      every other lobby is as it was. */
  ghost predicate Admitted(d: Directory, r: Directory, u: UserId, id: string) {
    && id in d.lobbies && id in r.lobbies
    && r.lobbies.Keys == d.lobbies.Keys
    && (forall k :: k in d.lobbies && k != id ==> r.lobbies[k] == d.lobbies[k])
    && r.userToLobby == d.userToLobby[u := id]
    && Has(r.lobbies[id], u)
    && (forall v :: Has(d.lobbies[id], v) ==> Has(r.lobbies[id], v))
  }

  /** `lobby.add_player(player)` followed by `user_to_lobby[user_id] = lobby_id`;
      the result of `add_player` is not looked at. */
  function Admit(d: Directory, u: UserId, id: string, n: FullName): (r: Directory)
    requires id in d.lobbies
    ensures Admitted(d, r, u, id) && r.sessions == d.sessions
    ensures Has(d.lobbies[id], u) ==> r.lobbies[id] == d.lobbies[id]
    ensures !Has(d.lobbies[id], u) ==> |r.lobbies[id].players| == |d.lobbies[id].players| + 1
  {
    var l := d.lobbies[id];
    var joined := AddPlayer(l, NewPlayer(u, n.first, n.last)).lobby;
    forall v | Has(l, v)
      ensures Has(joined, v)
    {
      AddKeepsMembers(l, NewPlayer(u, n.first, n.last), v);
    }
    AddKeepsMembers(l, NewPlayer(u, n.first, n.last), u);
    d.(lobbies := d.lobbies[id := joined], userToLobby := d.userToLobby[u := id])
  }

  // ---------------------------------------------------------------------
  // Handlers
  // ---------------------------------------------------------------------

  /** `/start`: a user already in a lobby is told so; anyone else gets a
      fresh, empty session and is asked for a name. */
  function StartCommand(d: Directory, u: UserId): (r: Step)
    ensures InLobby(d, u) ==> r == Step(d, AlreadyInLobby)
    ensures !InLobby(d, u) ==>
              && r.response == AskName
              && r.dir.lobbies == d.lobbies && r.dir.userToLobby == d.userToLobby
              && r.dir.sessions.Keys == d.sessions.Keys + {u}
              && r.dir.sessions[u] == BLANK_SESSION
              && forall v :: v in d.sessions && v != u ==> r.dir.sessions[v] == d.sessions[v]
  {
    if InLobby(d, u) then Step(d, AlreadyInLobby)
    else Step(d.(sessions := d.sessions[u := BLANK_SESSION]), AskName)
  }

  /** `create_new_lobby`: reads the stored name (a `KeyError` without one),
      takes the id from the UUID, founds the lobby, registers it and maps the
      founder to it. An id already in use is overwritten. */
  function CreateNewLobby(d: Directory, u: UserId, uuid: Uuid): (r: Step)
    ensures NameOf(d, u).None? ==> r == Step(d, Crash)
    ensures NameOf(d, u).Some? ==>
              var id := LobbyIdOf(uuid);
              && r.response == Created(id)
              && r.dir.lobbies.Keys == d.lobbies.Keys + {id}
              && (forall k :: k in d.lobbies && k != id ==> r.dir.lobbies[k] == d.lobbies[k])
              && r.dir.lobbies[id].players == [Player(u, NameOf(d, u).value.first, NameOf(d, u).value.last, true, None, true)]
              && r.dir.lobbies[id].captainId == Some(u)
              && r.dir.lobbies[id].state == WaitingForPlayers
              && r.dir.userToLobby == d.userToLobby[u := id]
              && r.dir.sessions == d.sessions
  {
    match NameOf(d, u)
    case None => Step(d, Crash)
    case Some(n) =>
      var id := LobbyIdOf(uuid);
      Step(d.(lobbies := d.lobbies[id := Founded(id, u, n)], userToLobby := d.userToLobby[u := id]),
           Created(id))
  }

  /** The join path's fallback: the lobby is created and the answer says why. */
  function CreateInstead(d: Directory, u: UserId, uuid: Uuid, cause: JoinRefusal): (r: Step)
    requires NameOf(d, u).Some?
    ensures r.dir == CreateNewLobby(d, u, uuid).dir
    ensures r.response == CreatedInstead(cause, LobbyIdOf(uuid))
  {
    Step(CreateNewLobby(d, u, uuid).dir, CreatedInstead(cause, LobbyIdOf(uuid)))
  }

  /** The pending-join half of `enter_full_name`, once the name is valid:
      the name is stored, then the join is attempted, falling back to
      creating a lobby when the target is gone, full or started; a
      successful join clears the pending target. */
  function JoinPending(d: Directory, u: UserId, n: FullName, uuid: Uuid): (r: Step)
    requires u in d.sessions && d.sessions[u].joinTarget.Some?
    ensures var target := d.sessions[u].joinTarget.value;
            var named := d.(sessions := d.sessions[u := d.sessions[u].(name := Some(n))]);
            && (target !in d.lobbies ==> r == CreateInstead(named, u, uuid, NoSuchLobby))
            && (target in d.lobbies && Refusal(d.lobbies[target]).Some? ==>
                  r == CreateInstead(named, u, uuid, Refusal(d.lobbies[target]).value))
            && (target in d.lobbies && Refusal(d.lobbies[target]).None? ==>
                  && r.response == Joined(target)
                  && Admitted(d, r.dir, u, target)
                  && r.dir.sessions == d.sessions[u := Session(Some(n), None, d.sessions[u].awaitingScenario)])
  {
    var s := d.sessions[u];
    var named := d.(sessions := d.sessions[u := s.(name := Some(n))]);
    var target := s.joinTarget.value;
    if target !in d.lobbies then CreateInstead(named, u, uuid, NoSuchLobby)
    else match Refusal(d.lobbies[target])
      case Some(cause) => CreateInstead(named, u, uuid, cause)
      case None =>
        var joined := Admit(named, u, target, n);
        Step(joined.(sessions := joined.sessions[u := s.(name := Some(n), joinTarget := None)]), Joined(target))
  }

  /** Whether a `/join` is waiting for the user's name. */
  predicate JoinIsPending(d: Directory, u: UserId) {
    u in d.sessions && d.sessions[u].joinTarget.Some?
  }

  /** `enter_full_name`: the text is stripped and validated, and a rejected
      name changes nothing. With a `/join` pending, the join is attempted as
      `JoinPending` describes; otherwise the name is stored in the existing
      session (a `KeyError` when there is none). */
  function EnterFullName(d: Directory, u: UserId, text: string, uuid: Uuid): (r: Step)
    ensures !ValidateName(Strip(text)).ok ==>
              r == Step(d, NameRejected(ValidateName(Strip(text)).reason.value))
    ensures ValidateName(Strip(text)).ok && JoinIsPending(d, u) ==>
              r == JoinPending(d, u, SplitName(Strip(text)), uuid)
    ensures ValidateName(Strip(text)).ok && !JoinIsPending(d, u) && u !in d.sessions ==>
              r == Step(d, Crash)
    ensures ValidateName(Strip(text)).ok && !JoinIsPending(d, u) && u in d.sessions ==>
              var n := SplitName(Strip(text));
              && r.response == NameAccepted(n)
              && r.dir == d.(sessions := d.sessions[u := d.sessions[u].(name := Some(n))])
  {
    var full := Strip(text);
    var v := ValidateName(full);
    if !v.ok then Step(d, NameRejected(v.reason.value))
    else
      AcceptedNameSplits(text);
      var n := SplitName(full);
      if JoinIsPending(d, u) then JoinPending(d, u, n, uuid)
      else if u !in d.sessions then Step(d, Crash)
      else Step(d.(sessions := d.sessions[u := d.sessions[u].(name := Some(n))]), NameAccepted(n))
  }

  /** `wait_for_lobby_id`: the stripped text is a lobby id; it must exist,
      have room and still be gathering players. The stored name is read only
      after those checks (a `KeyError` without one). */
  function WaitForLobbyId(d: Directory, u: UserId, text: string): (r: Step)
    ensures var id := Strip(text);
            && (id !in d.lobbies ==> r == Step(d, JoinRefused(NoSuchLobby)))
            && (id in d.lobbies && Refusal(d.lobbies[id]).Some? ==>
                  r == Step(d, JoinRefused(Refusal(d.lobbies[id]).value)))
            && (id in d.lobbies && Refusal(d.lobbies[id]).None? && NameOf(d, u).None? ==>
                  r == Step(d, Crash))
            && (id in d.lobbies && Refusal(d.lobbies[id]).None? && NameOf(d, u).Some? ==>
                  && r.response == Joined(id)
                  && Admitted(d, r.dir, u, id)
                  && r.dir.sessions == d.sessions)
  {
    var id := Strip(text);
    if id !in d.lobbies then Step(d, JoinRefused(NoSuchLobby))
    else match Refusal(d.lobbies[id])
      case Some(cause) => Step(d, JoinRefused(cause))
      case None =>
        match NameOf(d, u)
        case None => Step(d, Crash)
        case Some(n) => Step(Admit(d, u, id, n), Joined(id))
  }

  /** `/join <id>`: exactly one argument; the lobby must exist; a user
      already mapped is either told so (same lobby) or offered a switch,
      with nothing changed; a user without a name gets a session holding only
      the pending target; otherwise the capacity and phase guards apply
      before the player is added and mapped. */
  function JoinCommand(d: Directory, u: UserId, args: seq<string>): (r: Step)
    ensures |args| != 1 ==> r == Step(d, JoinUsage)
    ensures |args| == 1 && args[0] !in d.lobbies ==> r == Step(d, JoinRefused(NoSuchLobby))
    ensures |args| == 1 && args[0] in d.lobbies && u in d.userToLobby ==>
              r == Step(d, if d.userToLobby[u] == args[0] then AlreadyThere
                           else OfferSwitch(d.userToLobby[u], args[0]))
    ensures |args| == 1 && args[0] in d.lobbies && u !in d.userToLobby ==>
              var id := args[0];
              && (NameOf(d, u).None? ==>
                    && r.response == AskName
                    && r.dir == d.(sessions := d.sessions[u := Session(None, Some(id), false)]))
              && (NameOf(d, u).Some? && Refusal(d.lobbies[id]).Some? ==>
                    r == Step(d, JoinRefused(Refusal(d.lobbies[id]).value)))
              && (NameOf(d, u).Some? && Refusal(d.lobbies[id]).None? ==>
                    && r.response == Joined(id)
                    && Admitted(d, r.dir, u, id)
                    && r.dir.sessions == d.sessions)
  {
    if |args| != 1 then Step(d, JoinUsage)
    else
      var id := args[0];
      if id !in d.lobbies then Step(d, JoinRefused(NoSuchLobby))
      else if u in d.userToLobby then
        if d.userToLobby[u] == id then Step(d, AlreadyThere)
        else Step(d, OfferSwitch(d.userToLobby[u], id))
      else match NameOf(d, u)
        case None => Step(d.(sessions := d.sessions[u := Session(None, Some(id), false)]), AskName)
        case Some(n) =>
          match Refusal(d.lobbies[id])
          case Some(cause) => Step(d, JoinRefused(cause))
          case None => Step(Admit(d, u, id, n), Joined(id))
  }

  /** `/leave` and the leave button: the player is removed, the mapping
      deleted, and the lobby deleted when nobody is left. */
  function LeaveCommand(d: Directory, u: UserId): (r: Step)
    ensures !InLobby(d, u) ==> r == Step(d, NotInLobby)
    ensures InLobby(d, u) ==>
              var id := d.userToLobby[u];
              var rest := RemovePlayer(d.lobbies[id], u).lobby;
              && r.response == Left
              && r.dir.userToLobby == d.userToLobby - {u}
              && r.dir.sessions == d.sessions
              && (forall k :: k in d.lobbies && k != id ==> k in r.dir.lobbies && r.dir.lobbies[k] == d.lobbies[k])
              && (id in r.dir.lobbies <==> |rest.players| > 0)
              && (id in r.dir.lobbies ==> r.dir.lobbies[id] == rest)
              && r.dir.lobbies.Keys <= d.lobbies.Keys
  {
    if !InLobby(d, u) then Step(d, NotInLobby)
    else
      var id := d.userToLobby[u];
      var rest := RemovePlayer(d.lobbies[id], u).lobby;
      var lobbies := if rest.players == [] then d.lobbies - {id} else d.lobbies[id := rest];
      Step(d.(lobbies := lobbies, userToLobby := d.userToLobby - {u}), Left)
  }

  /** The guard the captain-only handlers share: in a lobby, then a member
      (`lobby.players[user_id]` raises otherwise), then the captain. */
  function CaptainCheck(d: Directory, u: UserId): (r: Option<Response>)
    ensures r.None? <==> InLobby(d, u) && Has(LobbyOf(d, u), u) && PlayerOf(LobbyOf(d, u), u).isCaptain
    ensures !InLobby(d, u) ==> r == Some(NotInLobby)
    ensures InLobby(d, u) && !Has(LobbyOf(d, u), u) ==> r == Some(Crash)
    ensures InLobby(d, u) && Has(LobbyOf(d, u), u) && !PlayerOf(LobbyOf(d, u), u).isCaptain ==> r == Some(OnlyCaptain)
  {
    if !InLobby(d, u) then Some(NotInLobby)
    else if !Has(LobbyOf(d, u), u) then Some(Crash)
    else if !PlayerOf(LobbyOf(d, u), u).isCaptain then Some(OnlyCaptain)
    else None
  }

  /** Replaces the caller's lobby. */
  function Update(d: Directory, u: UserId, l: Lobby): (r: Directory)
    requires InLobby(d, u)
    ensures r.lobbies == d.lobbies[d.userToLobby[u] := l]
    ensures r.userToLobby == d.userToLobby && r.sessions == d.sessions
  {
    d.(lobbies := d.lobbies[d.userToLobby[u] := l])
  }

  /** `/startgame` and the start button: only the captain moves the lobby to
      waiting for a scenario; the `< 1` size guard never fires for a member. */
  function StartGameCommand(d: Directory, u: UserId): (r: Step)
    ensures CaptainCheck(d, u).Some? ==> r == Step(d, CaptainCheck(d, u).value)
    ensures CaptainCheck(d, u).None? ==>
              && r.response == GameStarted
              && r.dir == Update(d, u, LobbyOf(d, u).(state := WaitingForScenario))
    ensures r.dir != d ==> InLobby(d, u) && Has(LobbyOf(d, u), u) && PlayerOf(LobbyOf(d, u), u).isCaptain
  {
    match CaptainCheck(d, u)
    case Some(refusal) => Step(d, refusal)
    case None =>
      match Rounds.StartGame(LobbyOf(d, u), u)
      case NotCaptain => Step(d, OnlyCaptain)
      case TooFewPlayers => Step(d, TooFewPlayers)
      case Started(l) => Step(Update(d, u, l), GameStarted)
  }

  /** The "enter scenario" button: the captain's session is flagged so the
      next message is taken as the scenario (a `KeyError` without a session). */
  function EnterScenarioCallback(d: Directory, u: UserId): (r: Step)
    ensures CaptainCheck(d, u).Some? ==> r == Step(d, CaptainCheck(d, u).value)
    ensures CaptainCheck(d, u).None? && u !in d.sessions ==> r == Step(d, Crash)
    ensures CaptainCheck(d, u).None? && u in d.sessions ==>
              && r.response == AwaitingScenario
              && r.dir == d.(sessions := d.sessions[u := d.sessions[u].(awaitingScenario := true)])
  {
    match CaptainCheck(d, u)
    case Some(refusal) => Step(d, refusal)
    case None =>
      if u !in d.sessions then Step(d, Crash)
      else Step(d.(sessions := d.sessions[u := d.sessions[u].(awaitingScenario := true)]), AwaitingScenario)
  }

  /** The "random scenario" button, with the drawn scenario as a parameter:
      the captain's lobby starts a round whatever its phase. */
  function RandomScenarioCallback(d: Directory, u: UserId, scenario: string): (r: Step)
    ensures CaptainCheck(d, u).Some? ==> r == Step(d, CaptainCheck(d, u).value)
    ensures CaptainCheck(d, u).None? ==>
              && r.response == RoundStarted(scenario)
              && r.dir == Update(d, u, Rounds.BeginRound(LobbyOf(d, u), scenario))
  {
    match CaptainCheck(d, u)
    case Some(refusal) => Step(d, refusal)
    case None => Step(Update(d, u, Rounds.BeginRound(LobbyOf(d, u), scenario)), RoundStarted(scenario))
  }

  /** The mode buttons: `mode_brotherhood` selects the cooperative mode and
      any other data the competitive one. */
  function GameModeCallback(d: Directory, u: UserId, data: string): (r: Step)
    ensures CaptainCheck(d, u).Some? ==> r == Step(d, CaptainCheck(d, u).value)
    ensures CaptainCheck(d, u).None? ==>
              && (r.response == ModeChosen(Brotherhood) <==> data == "mode_brotherhood")
              && r.response.ModeChosen?
              && r.dir == Update(d, u, LobbyOf(d, u).(mode := r.response.mode))
  {
    match CaptainCheck(d, u)
    case Some(refusal) => Step(d, refusal)
    case None =>
      var mode := if data == "mode_brotherhood" then Brotherhood else EveryManForHimself;
      Step(Update(d, u, LobbyOf(d, u).(mode := mode)), ModeChosen(mode))
  }

  /** The session's scenario flag. */
  predicate AwaitsScenario(d: Directory, u: UserId) {
    u in d.sessions && d.sessions[u].awaitingScenario
  }

  /** The scenario branch of the plain-text handler: a flagged session's
      message is validated and, when accepted, starts a round in the caller's
      lobby whatever its phase, and the flag is cleared. */
  function ScenarioMessage(d: Directory, u: UserId, msg: string): (r: Step)
    requires InLobby(d, u) && AwaitsScenario(d, u)
    ensures !ValidateScenario(msg).ok ==> r == Step(d, ScenarioRejected(ValidateScenario(msg).reason.value))
    ensures ValidateScenario(msg).ok ==>
              && r.response == RoundStarted(msg)
              && r.dir.lobbies == d.lobbies[d.userToLobby[u] := Rounds.BeginRound(LobbyOf(d, u), msg)]
              && r.dir.userToLobby == d.userToLobby
              && r.dir.sessions == d.sessions[u := d.sessions[u].(awaitingScenario := false)]
  {
    match Rounds.AcceptScenario(LobbyOf(d, u), msg)
    case Err(reason) => Step(d, ScenarioRejected(reason))
    case Ok(started) =>
      Step(Update(d, u, started).(sessions := d.sessions[u := d.sessions[u].(awaitingScenario := false)]), RoundStarted(msg))
  }

  /** The action branch of the plain-text handler: only a member without an
      action, while actions are awaited, has a validated action recorded;
      the submission that completes the set plays the round, which leaves
      the lobby waiting for the next scenario. */
  function ActionMessage(d: Directory, u: UserId, msg: string, backend: Backend): (r: Step)
    requires InLobby(d, u)
    ensures r.dir.userToLobby == d.userToLobby && r.dir.sessions == d.sessions
    ensures var l := LobbyOf(d, u);
            && (l.state != WaitingForActions ==> r == Step(d, Ignored))
            && (l.state == WaitingForActions && !Has(l, u) ==> r == Step(d, Crash))
            && (l.state == WaitingForActions && Has(l, u) && PlayerOf(l, u).action.Some? ==> r == Step(d, Ignored))
    ensures var l := LobbyOf(d, u);
            l.state == WaitingForActions && Has(l, u) && PlayerOf(l, u).action.None? ==>
              && (!ValidateAction(msg).ok ==> r == Step(d, ActionRejected(ValidateAction(msg).reason.value)))
              && (ValidateAction(msg).ok && !AllSubmitted(Rounds.SetAction(l, u, msg)) ==>
                    r == Step(Update(d, u, Rounds.SetAction(l, u, msg)), ActionRecorded))
              && (ValidateAction(msg).ok && AllSubmitted(Rounds.SetAction(l, u, msg)) ==>
                    var fired := Rounds.SetAction(l, u, msg).(state := ProcessingResults);
                    var end := Rounds.ProcessGameResults(fired, backend);
                    && r == Step(Update(d, u, end.lobby), RoundPlayed(end.notice))
                    && end.lobby.state == WaitingForScenario)
  {
    match Rounds.SubmitAction(LobbyOf(d, u), u, msg, backend)
    case NotAwaited => Step(d, Ignored)
    case NoSuchPlayer => Step(d, Crash)
    case Refused(reason) => Step(d, ActionRejected(reason))
    case Recorded(l) => Step(Update(d, u, l), ActionRecorded)
    case Completed(fired, end) => Step(Update(d, u, end.lobby), RoundPlayed(end.notice))
  }

  /** The plain-text handler: the text is stripped; outside a lobby it is
      ignored; a flagged session takes it as the scenario (no phase or
      captain check); otherwise it is an action. */
  function MessageHandler(d: Directory, u: UserId, text: string, backend: Backend): (r: Step)
    ensures !InLobby(d, u) ==> r == Step(d, Ignored)
    ensures InLobby(d, u) && AwaitsScenario(d, u) ==> r == ScenarioMessage(d, u, Strip(text))
    ensures InLobby(d, u) && !AwaitsScenario(d, u) ==> r == ActionMessage(d, u, Strip(text), backend)
  {
    var msg := Strip(text);
    if !InLobby(d, u) then Step(d, Ignored)
    else if AwaitsScenario(d, u) then ScenarioMessage(d, u, msg)
    else ActionMessage(d, u, msg, backend)
  }

  // ---------------------------------------------------------------------
  // The consistency invariant
  // ---------------------------------------------------------------------

  /** What every registered lobby satisfies: it is stored under its own id,
      its membership invariant holds, it is non-empty and within capacity,
      it is in one of the three resting phases, and it has a scenario while
      actions are awaited. */
  ghost predicate LobbyOk(id: string, l: Lobby) {
    && l.id == id
    && Valid(l)
    && 0 < |l.players| <= 10
    && (l.state == WaitingForPlayers || l.state == WaitingForScenario || l.state == WaitingForActions)
    && (l.state == WaitingForActions ==> l.scenario.Some?)
  }

  ghost predicate LobbiesOk(lobbies: map<string, Lobby>) {
    forall id :: id in lobbies ==> LobbyOk(id, lobbies[id])
  }

  /** The cross-map invariant: a mapped user's lobby exists and has the user
      as a member. */
  ghost predicate MappingOk(lobbies: map<string, Lobby>, userToLobby: map<UserId, string>) {
    forall u :: u in userToLobby ==> userToLobby[u] in lobbies && Has(lobbies[userToLobby[u]], u)
  }

  ghost predicate Consistent(d: Directory) {
    LobbiesOk(d.lobbies) && MappingOk(d.lobbies, d.userToLobby)
  }

  lemma EmptyIsConsistent()
    ensures Consistent(EMPTY_DIRECTORY)
  {
  }

  /** Replacing a lobby by a well-formed one that keeps its members keeps
      the directory consistent. */
  lemma ReplaceKeepsConsistent(d: Directory, id: string, l: Lobby)
    requires Consistent(d) && id in d.lobbies
    requires LobbyOk(id, l)
    requires forall v :: Has(d.lobbies[id], v) ==> Has(l, v)
    ensures Consistent(d.(lobbies := d.lobbies[id := l]))
  {
    var lobbies := d.lobbies[id := l];
    forall v | v in d.userToLobby
      ensures d.userToLobby[v] in lobbies && Has(lobbies[d.userToLobby[v]], v)
    {
      assert Has(d.lobbies[d.userToLobby[v]], v);
    }
  }

  /** Replacing the caller's lobby by one with the same members. */
  lemma UpdateKeepsConsistent(d: Directory, u: UserId, l: Lobby)
    requires Consistent(d) && InLobby(d, u)
    requires LobbyOk(d.userToLobby[u], l)
    requires Ids(l.players) == Ids(LobbyOf(d, u).players)
    ensures Consistent(Update(d, u, l))
  {
    ReplaceKeepsConsistent(d, d.userToLobby[u], l);
  }

  /** A join that passed the guards keeps the directory consistent. */
  lemma AdmitKeepsConsistent(d: Directory, u: UserId, id: string, n: FullName)
    requires Consistent(d) && id in d.lobbies && Refusal(d.lobbies[id]).None?
    ensures Consistent(Admit(d, u, id, n))
  {
    var l := d.lobbies[id];
    AddPreservesValid(l, NewPlayer(u, n.first, n.last));
    var r := Admit(d, u, id, n);
    assert LobbyOk(id, r.lobbies[id]);
    ReplaceKeepsConsistent(d, id, r.lobbies[id]);
    assert r == d.(lobbies := d.lobbies[id := r.lobbies[id]], userToLobby := d.userToLobby[u := id]);
  }

  lemma StartKeepsConsistent(d: Directory, u: UserId)
    requires Consistent(d)
    ensures Consistent(StartCommand(d, u).dir)
  {
  }

  /** Creating a lobby keeps the directory consistent when the new id is not
      already registered. */
  lemma CreateKeepsConsistent(d: Directory, u: UserId, uuid: Uuid)
    requires Consistent(d) && LobbyIdOf(uuid) !in d.lobbies
    ensures Consistent(CreateNewLobby(d, u, uuid).dir)
  {
    if NameOf(d, u).Some? {
      var id := LobbyIdOf(uuid);
      var r := CreateNewLobby(d, u, uuid).dir;
      assert Ids(r.lobbies[id].players) == [u];
      assert LobbyOk(id, r.lobbies[id]);
      forall v | v in r.userToLobby
        ensures r.userToLobby[v] in r.lobbies && Has(r.lobbies[r.userToLobby[v]], v)
      {
        if v != u {
          assert Has(d.lobbies[d.userToLobby[v]], v);
        }
      }
    }
  }

  lemma JoinPendingKeepsConsistent(d: Directory, u: UserId, n: FullName, uuid: Uuid)
    requires Consistent(d) && LobbyIdOf(uuid) !in d.lobbies && JoinIsPending(d, u)
    ensures Consistent(JoinPending(d, u, n, uuid).dir)
  {
    var s := d.sessions[u];
    var named := d.(sessions := d.sessions[u := s.(name := Some(n))]);
    var target := s.joinTarget.value;
    if target !in d.lobbies || Refusal(d.lobbies[target]).Some? {
      CreateKeepsConsistent(named, u, uuid);
    } else {
      AdmitKeepsConsistent(named, u, target, n);
    }
  }

  lemma EnterFullNameKeepsConsistent(d: Directory, u: UserId, text: string, uuid: Uuid)
    requires Consistent(d) && LobbyIdOf(uuid) !in d.lobbies
    ensures Consistent(EnterFullName(d, u, text, uuid).dir)
  {
    if ValidateName(Strip(text)).ok && JoinIsPending(d, u) {
      AcceptedNameSplits(text);
      JoinPendingKeepsConsistent(d, u, SplitName(Strip(text)), uuid);
    }
  }

  lemma WaitForLobbyIdKeepsConsistent(d: Directory, u: UserId, text: string)
    requires Consistent(d)
    ensures Consistent(WaitForLobbyId(d, u, text).dir)
  {
    var id := Strip(text);
    if id in d.lobbies && Refusal(d.lobbies[id]).None? && NameOf(d, u).Some? {
      AdmitKeepsConsistent(d, u, id, NameOf(d, u).value);
    }
  }

  lemma JoinKeepsConsistent(d: Directory, u: UserId, args: seq<string>)
    requires Consistent(d)
    ensures Consistent(JoinCommand(d, u, args).dir)
  {
    if |args| == 1 && args[0] in d.lobbies && u !in d.userToLobby && NameOf(d, u).Some?
       && Refusal(d.lobbies[args[0]]).None? {
      AdmitKeepsConsistent(d, u, args[0], NameOf(d, u).value);
    }
  }

  /** Dropping a user's mapping and replacing their lobby by what is left
      (deleting it when nobody is) keeps the directory consistent, provided
      everyone else stays a member. */
  lemma DepartureKeepsConsistent(d: Directory, u: UserId, id: string, rest: Lobby)
    requires Consistent(d) && id in d.lobbies
    requires forall v :: v != u && Has(d.lobbies[id], v) ==> Has(rest, v)
    requires rest.players != [] ==> LobbyOk(id, rest)
    ensures var lobbies := if rest.players == [] then d.lobbies - {id} else d.lobbies[id := rest];
            Consistent(d.(lobbies := lobbies, userToLobby := d.userToLobby - {u}))
  {
    var lobbies := if rest.players == [] then d.lobbies - {id} else d.lobbies[id := rest];
    var map' := d.userToLobby - {u};
    forall v | v in map'
      ensures map'[v] in lobbies && Has(lobbies[map'[v]], v)
    {
      assert Has(d.lobbies[d.userToLobby[v]], v);
      if d.userToLobby[v] == id {
        assert Has(rest, v);
      }
    }
  }

  lemma LeaveKeepsConsistent(d: Directory, u: UserId)
    requires Consistent(d)
    ensures Consistent(LeaveCommand(d, u).dir)
  {
    if InLobby(d, u) {
      var id := d.userToLobby[u];
      var l := d.lobbies[id];
      var rest := RemovePlayer(l, u).lobby;
      RemovePreservesValid(l, u);
      forall v | v != u && Has(l, v)
        ensures Has(rest, v)
      {
        RemoveKeepsOthers(l, u, v);
      }
      DepartureKeepsConsistent(d, u, id, rest);
    }
  }

  /** Changing only the phase or the mode of the caller's lobby. */
  lemma RestyleKeepsConsistent(d: Directory, u: UserId, l: Lobby)
    requires Consistent(d) && InLobby(d, u)
    requires l.players == LobbyOf(d, u).players && l.captainId == LobbyOf(d, u).captainId && l.id == LobbyOf(d, u).id
    requires l.state == WaitingForPlayers || l.state == WaitingForScenario
    ensures Consistent(Update(d, u, l))
  {
    ValidIgnoresRoundFields(LobbyOf(d, u), l);
    UpdateKeepsConsistent(d, u, l);
  }

  lemma StartGameKeepsConsistent(d: Directory, u: UserId)
    requires Consistent(d)
    ensures Consistent(StartGameCommand(d, u).dir)
  {
    if CaptainCheck(d, u).None? {
      RestyleKeepsConsistent(d, u, LobbyOf(d, u).(state := WaitingForScenario));
    }
  }

  lemma EnterScenarioKeepsConsistent(d: Directory, u: UserId)
    requires Consistent(d)
    ensures Consistent(EnterScenarioCallback(d, u).dir)
  {
  }

  /** Starting a round keeps the caller's lobby well-formed. */
  lemma BeginRoundKeepsConsistent(d: Directory, u: UserId, scenario: string)
    requires Consistent(d) && InLobby(d, u)
    ensures Consistent(Update(d, u, Rounds.BeginRound(LobbyOf(d, u), scenario)))
  {
    Rounds.BeginRoundPreservesValid(LobbyOf(d, u), scenario);
    UpdateKeepsConsistent(d, u, Rounds.BeginRound(LobbyOf(d, u), scenario));
  }

  lemma RandomScenarioKeepsConsistent(d: Directory, u: UserId, scenario: string)
    requires Consistent(d)
    ensures Consistent(RandomScenarioCallback(d, u, scenario).dir)
  {
    if CaptainCheck(d, u).None? {
      BeginRoundKeepsConsistent(d, u, scenario);
    }
  }

  lemma GameModeKeepsConsistent(d: Directory, u: UserId, data: string)
    requires Consistent(d)
    ensures Consistent(GameModeCallback(d, u, data).dir)
  {
    if CaptainCheck(d, u).None? {
      var l := LobbyOf(d, u);
      var mode := GameModeCallback(d, u, data).response.mode;
      ValidIgnoresRoundFields(l, l.(mode := mode));
      UpdateKeepsConsistent(d, u, l.(mode := mode));
    }
  }

  lemma ScenarioMessageKeepsConsistent(d: Directory, u: UserId, msg: string)
    requires Consistent(d) && InLobby(d, u) && AwaitsScenario(d, u)
    ensures Consistent(ScenarioMessage(d, u, msg).dir)
  {
    if ValidateScenario(msg).ok {
      BeginRoundKeepsConsistent(d, u, msg);
    }
  }

  /** Recording an action keeps the caller's lobby well-formed, and so does
      the round that recording completes. */
  lemma RecordKeepsConsistent(d: Directory, u: UserId, msg: string, backend: Backend)
    requires Consistent(d) && InLobby(d, u)
    requires LobbyOf(d, u).state == WaitingForActions && Has(LobbyOf(d, u), u)
    ensures Consistent(Update(d, u, Rounds.SetAction(LobbyOf(d, u), u, msg)))
    ensures var fired := Rounds.SetAction(LobbyOf(d, u), u, msg).(state := ProcessingResults);
            Consistent(Update(d, u, Rounds.ProcessGameResults(fired, backend).lobby))
  {
    var l := LobbyOf(d, u);
    var acted := Rounds.SetAction(l, u, msg);
    Rounds.SetActionKeepsIds(l, u, msg);
    UpdateKeepsConsistent(d, u, acted);
    var ended := acted.(state := WaitingForScenario);
    ValidIgnoresRoundFields(acted, ended);
    UpdateKeepsConsistent(d, u, ended);
  }

  lemma ActionMessageKeepsConsistent(d: Directory, u: UserId, msg: string, backend: Backend)
    requires Consistent(d) && InLobby(d, u)
    ensures Consistent(ActionMessage(d, u, msg, backend).dir)
  {
    var l := LobbyOf(d, u);
    var r := ActionMessage(d, u, msg, backend);
    if l.state == WaitingForActions && Has(l, u) && PlayerOf(l, u).action.None? && ValidateAction(msg).ok {
      RecordKeepsConsistent(d, u, msg, backend);
      var acted := Rounds.SetAction(l, u, msg);
      if AllSubmitted(acted) {
        assert r.dir == Update(d, u, Rounds.ProcessGameResults(acted.(state := ProcessingResults), backend).lobby);
      } else {
        assert r.dir == Update(d, u, acted);
      }
    } else {
      assert r.dir == d;
    }
  }

  lemma MessageKeepsConsistent(d: Directory, u: UserId, text: string, backend: Backend)
    requires Consistent(d)
    ensures Consistent(MessageHandler(d, u, text, backend).dir)
  {
    if InLobby(d, u) {
      if AwaitsScenario(d, u) {
        ScenarioMessageKeepsConsistent(d, u, Strip(text));
      } else {
        ActionMessageKeepsConsistent(d, u, Strip(text), backend);
      }
    }
  }

  // ---------------------------------------------------------------------
  // Runs of handler calls
  // ---------------------------------------------------------------------

  /** One handler invocation with its inputs. */
  datatype Event =
    | StartPressed(user: UserId)
    | NameEntered(user: UserId, text: string, uuid: Uuid)
    | LobbyIdEntered(user: UserId, text: string)
    | CreatePressed(user: UserId, uuid: Uuid)
    | JoinEntered(user: UserId, args: seq<string>)
    | LeavePressed(user: UserId)
    | StartGamePressed(user: UserId)
    | EnterScenarioPressed(user: UserId)
    | RandomScenarioPressed(user: UserId, scenario: string)
    | ModePressed(user: UserId, data: string)
    | MessageEntered(user: UserId, text: string, backend: Backend)

  function Handle(d: Directory, e: Event): Step {
    match e
    case StartPressed(u) => StartCommand(d, u)
    case NameEntered(u, text, uuid) => EnterFullName(d, u, text, uuid)
    case LobbyIdEntered(u, text) => WaitForLobbyId(d, u, text)
    case CreatePressed(u, uuid) => CreateNewLobby(d, u, uuid)
    case JoinEntered(u, args) => JoinCommand(d, u, args)
    case LeavePressed(u) => LeaveCommand(d, u)
    case StartGamePressed(u) => StartGameCommand(d, u)
    case EnterScenarioPressed(u) => EnterScenarioCallback(d, u)
    case RandomScenarioPressed(u, scenario) => RandomScenarioCallback(d, u, scenario)
    case ModePressed(u, data) => GameModeCallback(d, u, data)
    case MessageEntered(u, text, backend) => MessageHandler(d, u, text, backend)
  }

  /** The UUID an event may found a lobby with does not name a registered
      lobby. Version-4 UUIDs make a clash unlikely, not impossible. */
  predicate FreshId(d: Directory, e: Event) {
    (e.NameEntered? || e.CreatePressed?) ==> LobbyIdOf(e.uuid) !in d.lobbies
  }

  function Run(d: Directory, es: seq<Event>): Directory
    decreases |es|
  {
    if es == [] then d else Run(Handle(d, es[0]).dir, es[1..])
  }

  /** Every lobby-founding event along the run draws an unused id. */
  ghost predicate FreshAlong(d: Directory, es: seq<Event>)
    decreases |es|
  {
    es == [] || (FreshId(d, es[0]) && FreshAlong(Handle(d, es[0]).dir, es[1..]))
  }

  /** Each handler keeps the directory consistent. */
  lemma HandleKeepsConsistent(d: Directory, e: Event)
    requires Consistent(d) && FreshId(d, e)
    ensures Consistent(Handle(d, e).dir)
  {
    match e
    case StartPressed(u) => StartKeepsConsistent(d, u);
    case NameEntered(u, text, uuid) => EnterFullNameKeepsConsistent(d, u, text, uuid);
    case LobbyIdEntered(u, text) => WaitForLobbyIdKeepsConsistent(d, u, text);
    case CreatePressed(u, uuid) => CreateKeepsConsistent(d, u, uuid);
    case JoinEntered(u, args) => JoinKeepsConsistent(d, u, args);
    case LeavePressed(u) => LeaveKeepsConsistent(d, u);
    case StartGamePressed(u) => StartGameKeepsConsistent(d, u);
    case EnterScenarioPressed(u) => EnterScenarioKeepsConsistent(d, u);
    case RandomScenarioPressed(u, scenario) => RandomScenarioKeepsConsistent(d, u, scenario);
    case ModePressed(u, data) => GameModeKeepsConsistent(d, u, data);
    case MessageEntered(u, text, backend) => MessageKeepsConsistent(d, u, text, backend);
  }

  /** Every run from a consistent directory whose lobby ids never clash ends
      in a consistent directory. */
  lemma {:induction false} RunKeepsConsistent(d: Directory, es: seq<Event>)
    requires Consistent(d) && FreshAlong(d, es)
    ensures Consistent(Run(d, es))
    decreases |es|
  {
    if es != [] {
      HandleKeepsConsistent(d, es[0]);
      RunKeepsConsistent(Handle(d, es[0]).dir, es[1..]);
    }
  }

  /** An id clash breaks the invariant: the founder's lobby replaces one
      whose member is still mapped to it. */
  lemma CollisionBreaksConsistency()
    ensures var host := Lobby(LobbyIdOf(0), [Player(1, "A", "", true, None, true)],
                              EveryManForHimself, WaitingForPlayers, None, Some(1));
            var d := Directory(map[LobbyIdOf(0) := host], map[1 := LobbyIdOf(0)],
                               map[2 := Session(Some(FullName("B", "")), None, false)]);
            Consistent(d) && !Consistent(CreateNewLobby(d, 2, 0).dir)
  {
    var id := LobbyIdOf(0);
    var host := Lobby(id, [Player(1, "A", "", true, None, true)],
                      EveryManForHimself, WaitingForPlayers, None, Some(1));
    var d := Directory(map[id := host], map[1 := id],
                       map[2 := Session(Some(FullName("B", "")), None, false)]);
    assert Ids(host.players) == [1];
    assert LobbyOk(id, host);
    assert LobbiesOk(d.lobbies);
    assert MappingOk(d.lobbies, d.userToLobby);
    var r := CreateNewLobby(d, 2, 0).dir;
    assert NameOf(d, 2) == Some(FullName("B", ""));
    assert Ids(r.lobbies[id].players) == [2];
    assert r.userToLobby[1] == id;
    assert !Has(r.lobbies[id], 1);
  }
}
