# Survival-game lobby engine in Dafny

This project is a model of the core of a Telegram bot that runs a
multiplayer survival party game. Users gather in lobbies. The first user
to join a lobby is its captain, who picks a game mode and poses a
scenario. Every player then answers with a free-text action, and a
language-model service (or, when that fails, a deterministic keyword
rule) decides who survives and tells the story.

The model covers these parts of the bot:

- the `Lobby` record with its membership and round bookkeeping (`models.py`);
- the name, scenario and action validators, and the shapes of lobby ids and invite codes (`utils/helpers.py`);
- the offline adjudication `_generate_fallback_response`, the two prompt builders, and `evaluate_survival` with the model call as a parameter (`services/ai/`);
- the command handlers as pure transitions on the bot's three dictionaries: `lobbies`, `user_to_lobby` and the per-user `user_states` (`handlers/command_handlers.py`).

Files and modules:

| file | module | contents |
|---|---|---|
| `basics.dfy` | `Basics` | `Option`/`Result`; Python's `isspace`, `strip`, `split(maxsplit=1)`, `[:n]`, `join`, `in` on strings; decimal rendering |
| `validation.dfy` | `Config`, `Validation` | limits from `config.py`; the three validators |
| `identifiers.dfy` | `Identifiers` | `uuid4()[:8]` lobby ids and six-character invite codes, with the random source as a parameter |
| `models.dfy` | `Models` | `Player`, `Lobby` and their operations; the lobby invariant `Valid` |
| `adjudication.dfy` | `Adjudication` | keyword rule, offline narratives, prompts, `evaluate_survival` |
| `rounds.dfy` | `Rounds` | start game, begin a round, collect actions, `process_game_results`, what the players are sent |
| `directory.dfy` | `Directory` | the handlers, the cross-map invariant `Consistent`, and its preservation over any run of handler calls |

Modelling choices:

- A Python dict keeps insertion order. The players of a lobby are therefore a `seq<Player>`, and "the earliest-inserted remaining player" is the head of that sequence.
- A `KeyError` that a handler raises before it has changed anything becomes the `Crash` response with the state unchanged.
- Randomness and the model call are parameters:
  - a lobby id comes from a `Uuid` value;
  - the random scenario is an arbitrary string;
  - the backend is a `Backend` value, which says whether a model was found and what it answers to a prompt request.
- Where the code's own text disagrees with what it does, the model follows what it does:
  - the start guard is `len(lobby.players) < 1` (handlers/command_handlers.py:421), although the message it sends says at least two players are needed (:423), so a lone captain can start;
  - `evaluate_survival` is annotated to return a `(narrative, ids)` tuple (services/ai/gemini_service.py:57) and does so on its fallback paths, but returns a plain `str` on the model path (:119); its caller treats the result as text (handlers/command_handlers.py:910, :926), which is the Finding below.

## Model

| member | source | states |
|---|---|---|
| `Basics.Strip` | handlers/command_handlers.py:41 | `str.strip()`: the result is a contiguous piece of the input with only whitespace removed on both sides, and it neither starts nor ends with whitespace |
| `Basics.SplitOnce` | handlers/command_handlers.py:52-54 | `split(maxsplit=1)` on a stripped name: a non-empty first word without whitespace that ends at whitespace or at the end of the input, then a remainder that is empty or starts with a non-space, with the input equal to word + whitespace gap + remainder |
| `Basics.SplitOnceIsUnique` | handlers/command_handlers.py:52-54 | any maximal first word, whitespace gap and remainder that rebuild the input are exactly the parts `SplitOnce` returns, so its contract determines the split |
| `Basics.Take` | services/ai/base_service.py:179 | `scenario[:50]`: a prefix of the scenario of length min(50, len) |
| `Basics.ContainsIsInfix` | services/ai/base_service.py:166-168 | the scanning `keyword in action` test holds exactly when the keyword occurs at some position of the action |
| `Basics.DecimalRoundTrip` | utils/helpers.py:57 | the decimal text a length limit is rendered with reads back as the same number |
| `Validation.PatternMatchesIff` | config.py:22-24 | `re.match('^[C]+$', s)`, where `$` also matches before a final newline, accepts exactly the non-empty strings of class characters, because the newline is in every class |
| `Validation.Validate` | utils/helpers.py:43-62 | the checks run in a fixed order (empty, too long, bad character); ok holds iff the reason is absent iff the text is non-empty, within the limit and all in the class |
| `Validation.ValidateName` | utils/helpers.py:43-62 | `validate_name` with its three exact messages and the 30-character limit; ok iff 1..30 name-class characters |
| `Validation.ValidateScenario` | utils/helpers.py:65-84 | `validate_scenario` with its messages and the 500 limit; ok iff 1..500 text-class characters |
| `Validation.ValidateAction` | utils/helpers.py:87-106 | `validate_action` with its messages and the 500 limit; ok iff 1..500 text-class characters |
| `Validation.ScenarioAndActionAgree` | config.py:23-24 | the scenario and action validators accept exactly the same texts |
| `Validation.NameClassWithinTextClass` | config.py:22-24 | every character a name may hold may also appear in a scenario or action |
| `Validation.AcceptedNameExamples` | tests/test_helpers.py:62-64 | `Иван`, `John` and `Иван-Петр` are accepted with no reason |
| `Validation.RejectedNameExamples` | tests/test_helpers.py:67-72 | the empty name, `Иван123` and a 31-letter name are refused with the tests' exact messages |
| `Validation.AcceptedScenarioExamples` | tests/test_helpers.py:77-78 | the tests' two plain scenarios are accepted with no reason |
| `Validation.RejectedScenarioExamples` | tests/test_helpers.py:82-86 | the empty and the 501-character scenario are refused with the tests' exact messages |
| `Validation.AcceptedActionExamples` | tests/test_helpers.py:91 | the tests' plain action is accepted with no reason |
| `Validation.PunctuatedActionExample` | tests/test_helpers.py:92 | `Run and hide! Quickly.` is accepted with no reason |
| `Validation.RejectedActionExamples` | tests/test_helpers.py:96-100 | the empty and the 501-character action are refused with the tests' exact messages |
| `Identifiers.LobbyIdOf` | utils/helpers.py:15-17 | the id is eight lower-case hex digits that read back as the UUID's top 32 bits |
| `Identifiers.HexRoundTrip` | utils/helpers.py:17 | fixed-width hex rendering inverts to the number when it fits the width |
| `Identifiers.HexParseRoundTrip` | utils/helpers.py:17 | reading a hex string and rendering it at its width gives the string back |
| `Identifiers.EveryHexIdIsReachable` | utils/helpers.py:15-17 | every eight-hex-digit string is the id of some UUID, so the id shape is exactly "8 lower-case hex digits" |
| `Identifiers.InviteCodeOf` | utils/helpers.py:20-22 | the code has six characters, each `A`-`Z` or `0`-`9`, each the alphabet entry the draw picked |
| `Identifiers.InviteCodesAreExactlyTheValidCodes` | utils/helpers.py:20-22 | every six-character upper-case-or-digit code is produced by some draws |
| `Identifiers.InviteDrawsAreUnique` | utils/helpers.py:22 | different draws give different codes |
| `Models.AddPlayer` | models.py:45-56 | a present id is refused with nothing changed; otherwise the player is appended; the first player into an empty lobby becomes captain and `captain_id`; later joiners leave the captain alone |
| `Models.RemovePlayer` | models.py:58-72 | an absent id is refused with nothing changed; otherwise the player is deleted in order; a departing captain with others left hands captaincy to the earliest remaining player; a non-captain leaving changes nothing else |
| `Models.GetCaptain` | models.py:74-78 | answers the player whose id is `captain_id` iff that id is set and a current member |
| `Models.AllActed` | models.py:80-82 | all submitted iff every player's action is present; vacuously true with no players |
| `Models.ResetActions` | models.py:84-88 | every action cleared and every player alive; ids, order, first and last names, captain flags and the lobby's own fields unchanged; a non-empty lobby is then not all-submitted |
| `Models.WithActions` | models.py:90-92 | a player is in the result iff it is a lobby player with an action |
| `Models.WithoutActions` | models.py:94-96 | a player is in the result iff it is a lobby player without an action |
| `Models.ActionSplitIsPartition` | models.py:90-96 | the two subsets together are the players, as a multiset |
| `Models.AllSubmittedIffNoneWaiting` | models.py:80-96 | all submitted iff nobody is without an action |
| `Models.ValidAtMostOneCaptain` | models.py:50-70 | in a valid lobby at most one player is captain |
| `Models.ValidNonEmptyHasCaptain` | models.py:74-78 | a valid non-empty lobby has a captain who is a member and carries the flag |
| `Models.AddPreservesValid` | models.py:45-56 | adding keeps ids distinct and the captain flag and `captain_id` in agreement |
| `Models.RemovePreservesValid` | models.py:58-72 | removing keeps the lobby valid, and the user is gone afterwards |
| `Models.CaptainStaysAfterOtherLeaves` | models.py:63-70 | when a non-captain leaves, the captain is still a member |
| `Models.WithoutDropsUser` | models.py:64 | deleting a position keeps ids distinct and removes that id |
| `Models.AddKeepsMembers` | models.py:45-56 | adding keeps every earlier member and makes the new user a member |
| `Models.RemoveKeepsOthers` | models.py:58-72 | removing one user keeps every other member |
| `Models.ResetPreservesValid` | models.py:84-88 | a reset keeps the lobby valid |
| `Models.LastPlayerLeavingClearsCaptain` | models.py:58-78 | after the last player leaves, `captain_id` still holds the old id but `get_captain` answers nothing |
| `Adjudication.SomeoneMentionsIff` | services/ai/base_service.py:164-169 | the flag set by the scan over players and keywords holds iff some keyword occurs in some lower-cased action |
| `Adjudication.TeamSurvivesIff` | services/ai/base_service.py:172 | the team survives iff no selfish keyword occurs or some team-play keyword does |
| `Adjudication.StoryText` | services/ai/base_service.py:178-227 | every offline narrative opens with `In the scenario "` and the first 50 scenario characters, ends with `(AI сервис недоступен)`, and quotes every survivor name |
| `Adjudication.StoryOpensWithIn` | services/ai/base_service.py:179 | every offline narrative starts with `In` and has a double quote at position 16 |
| `Adjudication.Fallback` | services/ai/base_service.py:134-227 | cooperative mode lower-cases every action, so a missing action raises; otherwise everyone survives when the team survives and nobody when it does not; competitive mode has exactly the first player survive (nobody with no players); survivor names follow the survivors |
| `Adjudication.FallbackSurvivorsArePlayers` | services/ai/base_service.py:148-213 | the survivors are a prefix of the player ids, so they are members and repeat-free |
| `Adjudication.BrotherhoodAllOrNothing` | services/ai/base_service.py:153-203 | with every action present, cooperative mode never fails and is all-or-nothing, decided by where the keywords occur |
| `Adjudication.FallbackNarrativeNamesSurvivors` | services/ai/base_service.py:178-227 | the offline narrative is non-empty, opens with the scenario, carries the offline marker and names every survivor as `first last` |
| `Adjudication.PlayerInfoCarriesFields` | services/ai/base_service.py:42-45 | a player's block contains the first name, the last name and the action text |
| `Adjudication.PromptCarries` | services/ai/base_service.py:48-56 | a prompt of the builders' shape contains the scenario and every player's names and action, whatever the fixed text |
| `Adjudication.PromptCarriesEverything` | services/ai/base_service.py:29-132 | both prompt builders produce text containing the scenario and each player's first name, last name and action |
| `Adjudication.OfflineReply` | services/ai/gemini_service.py:78-80 | the fallback path fails exactly on a missing cooperative action or a missing scenario, and otherwise returns the offline pair |
| `Adjudication.EvaluateSurvival` | services/ai/gemini_service.py:57-124 | the model's text for the mode's prompt when a model is configured and answers text; the offline result when none is configured, the call raises, or it answers nothing |
| `Adjudication.EvaluateNeverFailsOnCompleteRound` | services/ai/gemini_service.py:57-124 | with a scenario and every action present, the service never fails, and its answer is either the model's text for that prompt or the offline verdict |
| `Rounds.StartGame` | handlers/command_handlers.py:414-428 | a non-captain is refused; the `< 1` guard never fires for a member; the captain's lobby moves to waiting for a scenario with nothing else changed |
| `Rounds.BeginRound` | handlers/command_handlers.py:756-763 | the scenario is stored, the lobby waits for actions, every action is cleared and every player revived; membership, captaincy and mode unchanged |
| `Rounds.AcceptScenario` | handlers/command_handlers.py:801-814 | a typed scenario starts a round iff it validates; a rejection carries the validator's reason |
| `Rounds.BeginRoundPreservesValid` | handlers/command_handlers.py:807-814 | a new round keeps the lobby valid, and a non-empty lobby is not all-submitted afterwards |
| `Rounds.SetAction` | handlers/command_handlers.py:847 | only the caller's action is set; every other player and field is unchanged |
| `Rounds.SetActionKeepsIds` | handlers/command_handlers.py:847 | recording an action keeps the ids and the lobby's validity |
| `Rounds.CompletesExactlyWhenOthersActed` | handlers/command_handlers.py:857 | the submission completes the round iff every other player has acted already |
| `Rounds.FirstWithoutAction` | handlers/command_handlers.py:902-904 | finds a player without an action iff not all acted, and it is the first such player in order |
| `Rounds.ProcessGameResults` | handlers/command_handlers.py:873-974 | the lobby always returns to waiting for a scenario; a missing action gives the `ValueError` text; otherwise the service's reply or its error is what the players receive |
| `Rounds.CompleteRoundHasResults` | handlers/command_handlers.py:893-932 | a complete round with a scenario always ends with results, and offline survivors are lobby members |
| `Rounds.SubmitAction` | handlers/command_handlers.py:837-865 | an action is taken only while actions are awaited and only from a member without one; it must validate; the lobby becomes `PROCESSING_RESULTS` exactly when the submission completes the set, and processing then leaves it waiting for a scenario |
| `Rounds.RoundFiresOnce` | handlers/command_handlers.py:837-865 | after a round closes every further message is ignored, and a player who acted cannot act again |
| `Rounds.OfflineDeliveryAsWrittenShowsTuple` | handlers/command_handlers.py:909-926 | as written, an offline verdict reaches players as the tuple's text starting `('In`, never as the narrative |
| `Rounds.TupleTextOpening` | handlers/command_handlers.py:926 | a narrative starting `In` with a double quote is shown by `str` of the pair in single quotes, so the text differs from the narrative |
| `Rounds.OfflineDeliveryShowsNarrative` | handlers/command_handlers.py:926 | corrected, the players receive the offline narrative itself, with its opening and marker |
| `Rounds.NoticeTextAsWritten` | handlers/command_handlers.py:909-968 | as written, players receive the model's text unchanged, an offline verdict as the tuple's text opening `('In` (never the narrative), and a failure as the fixed error line followed by the error text |
| `Rounds.NoticeText` | handlers/command_handlers.py:909-968 | corrected, players receive the model's text unchanged, an offline verdict as the narrative itself (opening with the scenario, ending with the offline marker), and a failure as the fixed error line followed by the error text |
| `Directory.Refusal` | handlers/command_handlers.py:325-331 | a join is refused as full iff there are 10 or more players, and admitted iff fewer than 10 and still gathering players |
| `Directory.SplitName` | handlers/command_handlers.py:52-54 | first name the maximal non-empty leading word (it ends at whitespace or at the end of the name), last name the rest after the whitespace run (possibly empty), with the name equal to first + gap + last |
| `Directory.Founded` | handlers/command_handlers.py:219-221 | the new lobby holds only its founder, as captain and `captain_id`, gathering players in the competitive mode |
| `Directory.Admit` | handlers/command_handlers.py:333-334 | after a join the user is a member and mapped to the lobby, earlier members stay, other lobbies and sessions are untouched |
| `Directory.StartCommand` | handlers/command_handlers.py:12-35 | a user already in a lobby changes nothing; anyone else gets an empty session and only that session changes |
| `Directory.CreateNewLobby` | handlers/command_handlers.py:208-225 | without a stored name it crashes with nothing changed; otherwise the UUID's id is registered with the founder as its only player and captain, the founder is mapped to it, and every other lobby is unchanged |
| `Directory.CreateInstead` | handlers/command_handlers.py:58-74 | the join path's fallback creates the lobby and reports why the join was refused |
| `Directory.JoinPending` | handlers/command_handlers.py:52-97 | a missing, full or started target falls back to creating a lobby; an open target is joined, the user mapped to it, and the pending target cleared |
| `Directory.EnterFullName` | handlers/command_handlers.py:38-129 | an invalid name changes nothing; with a join pending it proceeds as `JoinPending`; otherwise it stores the split name in the existing session, or crashes when there is none |
| `Directory.WaitForLobbyId` | handlers/command_handlers.py:132-195 | a missing, full or started lobby is refused with nothing changed; without a stored name it crashes; otherwise the user joins and is mapped |
| `Directory.JoinCommand` | handlers/command_handlers.py:261-343 | a wrong argument count or unknown id changes nothing; joining one's own lobby changes nothing; another lobby is only offered; a nameless user gets a session holding the pending target; full or started lobbies refuse with nothing changed; otherwise the user joins and is mapped |
| `Directory.LeaveCommand` | handlers/command_handlers.py:366-396 | for `/leave` and for the leave button (`leave_callback`, the same transition): the player is removed and unmapped, the lobby is deleted iff nobody is left, and every other lobby is untouched |
| `Directory.CaptainCheck` | handlers/command_handlers.py:414-416 | a captain-only handler proceeds iff the user is in a lobby, is a member (else `KeyError`) and is its captain |
| `Directory.StartGameCommand` | handlers/command_handlers.py:399-447 | for `/startgame` and for the start button (`start_game_callback`, the same transition): only the captain changes anything, moving the lobby to waiting for a scenario; any other caller leaves the directory unchanged |
| `Directory.EnterScenarioCallback` | handlers/command_handlers.py:697-728 | the captain's session is flagged to take the next message as the scenario; a missing session crashes |
| `Directory.RandomScenarioCallback` | handlers/command_handlers.py:731-783 | the captain's lobby starts a round with the drawn scenario, whatever its phase |
| `Directory.GameModeCallback` | handlers/command_handlers.py:977-1024 | the captain's lobby becomes cooperative iff the data is `mode_brotherhood`, competitive otherwise |
| `Directory.ScenarioMessage` | handlers/command_handlers.py:799-814 | a flagged session's message starts a round iff it validates, whatever the phase and without a captain check, and clears the flag |
| `Directory.ActionMessage` | handlers/command_handlers.py:837-870 | actions are taken only while awaited from members without one; a completing action plays the round, leaving the lobby waiting for a scenario |
| `Directory.MessageHandler` | handlers/command_handlers.py:786-870 | the text is stripped; outside a lobby it is ignored; a flagged session's message is the scenario, any other is an action |
| `Directory.ReplaceKeepsConsistent` | handlers/command_handlers.py:381-391 | replacing a lobby by a well-formed one that keeps its members keeps the directory consistent |
| `Directory.AdmitKeepsConsistent` | handlers/command_handlers.py:325-334 | a guarded join keeps every lobby within 10 players, valid, and the cross-map invariant |
| `Directory.CreateKeepsConsistent` | handlers/command_handlers.py:219-225 | creating a lobby under an unused id keeps the directory consistent |
| `Directory.JoinPendingKeepsConsistent` | handlers/command_handlers.py:57-88 | the join-or-create step of name entry keeps the directory consistent |
| `Directory.EnterFullNameKeepsConsistent` | handlers/command_handlers.py:38-129 | name entry keeps the directory consistent |
| `Directory.WaitForLobbyIdKeepsConsistent` | handlers/command_handlers.py:165-186 | joining by typed id keeps the directory consistent |
| `Directory.JoinKeepsConsistent` | handlers/command_handlers.py:261-343 | `/join` keeps the directory consistent |
| `Directory.DepartureKeepsConsistent` | handlers/command_handlers.py:381-391 | unmapping a user and shrinking or deleting their lobby keeps the directory consistent while every other member stays |
| `Directory.LeaveKeepsConsistent` | handlers/command_handlers.py:366-396 | leaving keeps the directory consistent, including when the lobby is deleted |
| `Directory.RestyleKeepsConsistent` | handlers/command_handlers.py:428 | changing only a lobby's phase or mode keeps the directory consistent |
| `Directory.StartGameKeepsConsistent` | handlers/command_handlers.py:414-428 | starting a game keeps the directory consistent |
| `Directory.BeginRoundKeepsConsistent` | handlers/command_handlers.py:756-763 | starting a round keeps the directory consistent |
| `Directory.RandomScenarioKeepsConsistent` | handlers/command_handlers.py:731-783 | the random-scenario button keeps the directory consistent |
| `Directory.GameModeKeepsConsistent` | handlers/command_handlers.py:977-1074 | choosing a mode keeps the directory consistent |
| `Directory.ScenarioMessageKeepsConsistent` | handlers/command_handlers.py:799-814 | a typed scenario keeps the directory consistent |
| `Directory.RecordKeepsConsistent` | handlers/command_handlers.py:847-865 | recording an action, and the round it completes, keep the directory consistent |
| `Directory.ActionMessageKeepsConsistent` | handlers/command_handlers.py:837-870 | the action branch keeps the directory consistent |
| `Directory.MessageKeepsConsistent` | handlers/command_handlers.py:786-870 | the message handler keeps the directory consistent |
| `Directory.HandleKeepsConsistent` | handlers/command_handlers.py:12-1074 | every handler keeps the directory consistent, provided a lobby it founds gets an unused id |
| `Directory.RunKeepsConsistent` | handlers/command_handlers.py:12-1074 | any sequence of handler calls from a consistent directory, with unused ids for new lobbies, ends in a consistent directory |
| `Directory.CollisionBreaksConsistency` | handlers/command_handlers.py:219-225 | a lobby id that clashes with a registered one overwrites that lobby and leaves its members mapped to a lobby they are not in |

## Left out

- Telegram transport is left out because it is I/O and rendering, not logic. This covers message texts, keyboards, Markdown, `send_lobby_info`, `broadcast_lobby_update`, `/lobby`, and `message_id`/`chat_id`. The per-recipient broadcast of the scenario and of the results is reduced to the one notice every player receives.
- The Gemini client is reduced to the `Backend` parameter: whether a model was found, and what it answers for a prompt request. Model discovery, the network call and the stitching of response parts are foreign calls.
- `Adjudication.PromptCarriesEverything`: prompt text is represented by its section headings, not the full instructions. The backend receives the structured `PromptRequest` that `PromptText` renders. Only "the prompt contains the scenario, every name and every action" is proved, not the exact prose.
- `Adjudication.LowerChar`: models `str.lower()` only for ASCII and Cyrillic capitals. Every other character is left as is, which covers every character a validated action can hold.
- `Rounds.TupleTextOpening`: models Python's `repr` of a string only for the characters a validated text or narrative can hold.
- `get_random_scenario` is left out because it does file I/O and a random choice. The drawn scenario is a parameter of `RandomScenarioCallback`.
- Lobby ids and invite codes come from explicit `Uuid` values and draws rather than real randomness, so uniqueness is not modelled. A clashing lobby id is modelled as the code behaves (`Directory.CollisionBreaksConsistency`).
- `Directory.Consistent` is the forward invariant: a mapped user's lobby exists and has them as a member. The reverse direction is not kept. The code can add a user who is already mapped elsewhere to a second lobby through `create_new_lobby` or `wait_for_lobby_id`, and only the conversation routing, which is not modelled, keeps that from happening.
- Which handler receives an update (the conversation states returned, the `ConversationHandler` wiring in `handlers/setup.py`) is left out. Every handler is modelled as callable at any time.
- The `username` and `is_alive` bookkeeping beyond resets is left out, because nothing in the core reads them.
- Concurrency is left out. Each handler is modelled as one atomic transition. That holds because the application is built without concurrent update processing (main.py:19), so updates are handled one at a time. The handlers themselves are not atomic: the action branch records the action (handlers/command_handlers.py:847), awaits replies and broadcasts (:849, :854), and only then tests for completion (:857). With concurrent updates, two last submissions could both see the set complete and both start the round's processing.
- The tests' two longer punctuated texts (tests/test_helpers.py:79 and :93) are not restated as example lemmas, because they need a character-by-character membership proof over long literals. The character class they exercise is covered by the contracts of `Validation.ValidateScenario` and `Validation.ValidateAction`, and `Validation.PunctuatedActionExample` restates the shorter punctuated action.
- Process wiring (`main.py`, `run.py`, the service factory, configuration loading) is left out. The limits in `config.py` are constants.

## Findings

| source | as written | input that shows it | evidently intended | confidence | as-written member | corrected member |
|---|---|---|---|---|---|---|
| handlers/command_handlers.py:909-926 | `evaluate_survival` returns a `(narrative, survivor_ids)` tuple on its fallback path, and `process_game_results` sends `f"{narrative}"`, so players receive the tuple's `str`, e.g. `('In the scenario "…" …', [1, 2])` | no model configured, or a model call that raises, with every action present | players receive the narrative text, as on the model path | not executed | `Rounds.OfflineDeliveryAsWrittenShowsTuple` | `Rounds.OfflineDeliveryShowsNarrative` |
