/** Players and lobbies: membership in insertion order, the captain, and the
    per-round action bookkeeping. A lobby keeps the captain twice, as a flag on
    the player and as `captainId`, exactly as the repository's data classes do. */
module Models {
  import opened Basics

  /** Chat user ids are positive, so the source's "`captain_id` is falsy"
      test coincides with "`captain_id` is unset". */
  type UserId = x: int | x > 0 witness 1

  datatype GameMode = EveryManForHimself | Brotherhood

  datatype GameState =
    | WaitingForPlayers
    | WaitingForScenario
    | WaitingForActions
    | ProcessingResults
    | GameOver

  datatype Player = Player(
    userId: UserId,
    firstName: string,
    lastName: string,
    isCaptain: bool,
    action: Option<string>,
    isAlive: bool)

  datatype Lobby = Lobby(
    id: string,
    players: seq<Player>,
    mode: GameMode,
    state: GameState,
    scenario: Option<string>,
    captainId: Option<UserId>)

  /** A player as the handlers construct one: not captain, no action, alive. */
  function NewPlayer(u: UserId, first: string, last: string): Player {
    Player(u, first, last, false, None, true)
  }

  /** A lobby as `Lobby(id=...)` constructs one. */
  function NewLobby(id: string): Lobby {
    Lobby(id, [], EveryManForHimself, WaitingForPlayers, None, None)
  }

  /** The user ids of `ps`, in order: the keys of the players dictionary. */
  function Ids(ps: seq<Player>): (ids: seq<UserId>)
    ensures |ids| == |ps|
    ensures forall i :: 0 <= i < |ps| ==> ids[i] == ps[i].userId
  {
    if ps == [] then [] else [ps[0].userId] + Ids(ps[1..])
  }

  predicate Has(l: Lobby, u: UserId) {
    u in Ids(l.players)
  }

  predicate Distinct(ids: seq<UserId>) {
    forall i, j :: 0 <= i < j < |ids| ==> ids[i] != ids[j]
  }

  /** Position of `u` among the players. */
  function IndexOf(ps: seq<Player>, u: UserId): (i: nat)
    requires u in Ids(ps)
    ensures i < |ps| && ps[i].userId == u
    ensures forall j :: 0 <= j < i ==> ps[j].userId != u
  {
    if ps[0].userId == u then 0 else 1 + IndexOf(ps[1..], u)
  }

  /** `lobby.players[user_id]`. */
  function PlayerOf(l: Lobby, u: UserId): (p: Player)
    requires Has(l, u)
    ensures p in l.players && p.userId == u
  {
    l.players[IndexOf(l.players, u)]
  }

  /** The players with the one at index `i` taken out, order kept. */
  function Without(ps: seq<Player>, i: nat): (qs: seq<Player>)
    requires i < |ps|
    ensures |qs| == |ps| - 1
    ensures forall j :: 0 <= j < |qs| ==> qs[j] == ps[if j < i then j else j + 1]
  {
    ps[..i] + ps[i + 1..]
  }

  /** A membership change: whether it happened, and the lobby afterwards. */
  datatype Change = Change(ok: bool, lobby: Lobby)

  /** `Lobby.add_player`: refuses a user already present; otherwise appends,
      and the first player into an empty lobby becomes captain. */
  function AddPlayer(l: Lobby, p: Player): (r: Change)
    ensures Has(l, p.userId) ==> r == Change(false, l)
    ensures !Has(l, p.userId) ==>
              && r.ok
              && |r.lobby.players| == |l.players| + 1
              && r.lobby.players[..|l.players|] == l.players
              && r.lobby.players[|l.players|].(isCaptain := p.isCaptain) == p
              && r.lobby.(players := l.players, captainId := l.captainId) == l
    ensures !Has(l, p.userId) && |l.players| == 0 ==>
              r.lobby.players[0].isCaptain && r.lobby.captainId == Some(p.userId)
    ensures !Has(l, p.userId) && |l.players| > 0 ==>
              r.lobby.players[|l.players|] == p && r.lobby.captainId == l.captainId
  {
    if Has(l, p.userId) then Change(false, l)
    else if |l.players| == 0 then
      Change(true, l.(players := [p.(isCaptain := true)], captainId := Some(p.userId)))
    else
      Change(true, l.(players := l.players + [p]))
  }

  /** `Lobby.remove_player`: refuses an absent user; otherwise deletes the
      player and, when the captain left and others remain, hands captaincy to
      the earliest-inserted remaining player. */
  function RemovePlayer(l: Lobby, u: UserId): (r: Change)
    ensures !Has(l, u) ==> r == Change(false, l)
    ensures Has(l, u) ==>
              var i := IndexOf(l.players, u);
              && r.ok
              && Ids(r.lobby.players) == Ids(Without(l.players, i))
              && r.lobby.(players := l.players, captainId := l.captainId) == l
    ensures Has(l, u) && !PlayerOf(l, u).isCaptain ==>
              r.lobby == l.(players := Without(l.players, IndexOf(l.players, u)))
    ensures Has(l, u) && PlayerOf(l, u).isCaptain && |l.players| > 1 ==>
              var rest := Without(l.players, IndexOf(l.players, u));
              && r.lobby.players[0] == rest[0].(isCaptain := true)
              && r.lobby.players[1..] == rest[1..]
              && r.lobby.captainId == Some(rest[0].userId)
    ensures Has(l, u) && |l.players| == 1 ==>
              r.lobby.players == [] && r.lobby.captainId == l.captainId
  {
    if !Has(l, u) then Change(false, l)
    else
      var i := IndexOf(l.players, u);
      var rest := Without(l.players, i);
      if l.players[i].isCaptain && |rest| > 0 then
        Change(true, l.(players := [rest[0].(isCaptain := true)] + rest[1..], captainId := Some(rest[0].userId)))
      else
        Change(true, l.(players := rest))
  }

  /** `Lobby.get_captain`: the player `captainId` names, if still a member. */
  function GetCaptain(l: Lobby): (c: Option<Player>)
    ensures c.Some? <==> l.captainId.Some? && Has(l, l.captainId.value)
    ensures c.Some? ==> c.value in l.players && c.value.userId == l.captainId.value
  {
    if l.captainId.Some? && Has(l, l.captainId.value) then Some(PlayerOf(l, l.captainId.value)) else None
  }

  /** Every player in `ps` has an action. */
  function AllActed(ps: seq<Player>): (b: bool)
    ensures b <==> forall i :: 0 <= i < |ps| ==> ps[i].action.Some?
  {
    if ps == [] then true else ps[0].action.Some? && AllActed(ps[1..])
  }

  /** `Lobby.all_players_submitted_actions`. */
  function AllSubmitted(l: Lobby): bool {
    AllActed(l.players)
  }

  /** One player as `reset_actions` leaves it. */
  function Revived(p: Player): Player {
    p.(action := None, isAlive := true)
  }

  function ResetPlayers(ps: seq<Player>): (qs: seq<Player>)
    ensures |qs| == |ps|
    ensures forall i :: 0 <= i < |ps| ==>
              && qs[i].userId == ps[i].userId
              && qs[i].firstName == ps[i].firstName
              && qs[i].lastName == ps[i].lastName
              && qs[i].isCaptain == ps[i].isCaptain
              && qs[i].action.None?
              && qs[i].isAlive
  {
    if ps == [] then [] else [Revived(ps[0])] + ResetPlayers(ps[1..])
  }

  /** `Lobby.reset_actions`: clears every action and revives everyone, keeping
      membership, order, captaincy and every other field. */
  function ResetActions(l: Lobby): (r: Lobby)
    ensures r.(players := l.players) == l
    ensures Ids(r.players) == Ids(l.players)
    ensures forall i :: 0 <= i < |r.players| ==>
              && r.players[i].firstName == l.players[i].firstName
              && r.players[i].lastName == l.players[i].lastName
              && r.players[i].isCaptain == l.players[i].isCaptain
              && r.players[i].action.None?
              && r.players[i].isAlive
    ensures |l.players| > 0 ==> !AllSubmitted(r)
  {
    l.(players := ResetPlayers(l.players))
  }

  /** `get_players_with_actions`: the players that have an action. */
  function WithActions(ps: seq<Player>): (qs: seq<Player>)
    ensures forall p :: p in qs <==> p in ps && p.action.Some?
    ensures |qs| <= |ps|
  {
    if ps == [] then []
    else if ps[0].action.Some? then [ps[0]] + WithActions(ps[1..])
    else WithActions(ps[1..])
  }

  /** `get_players_without_actions`: the players still without one. */
  function WithoutActions(ps: seq<Player>): (qs: seq<Player>)
    ensures forall p :: p in qs <==> p in ps && p.action.None?
    ensures |qs| <= |ps|
  {
    if ps == [] then []
    else if ps[0].action.None? then [ps[0]] + WithoutActions(ps[1..])
    else WithoutActions(ps[1..])
  }

  /** The two subsets partition the players: together they hold every player
      exactly as often as the lobby does. */
  lemma {:induction false} ActionSplitIsPartition(ps: seq<Player>)
    ensures multiset(WithActions(ps)) + multiset(WithoutActions(ps)) == multiset(ps)
    ensures |WithActions(ps)| + |WithoutActions(ps)| == |ps|
  {
    if ps != [] {
      ActionSplitIsPartition(ps[1..]);
      assert ps == [ps[0]] + ps[1..];
    }
  }

  /** Everybody submitted exactly when nobody is still awaited. */
  lemma AllSubmittedIffNoneWaiting(l: Lobby)
    ensures AllSubmitted(l) <==> WithoutActions(l.players) == []
  {
    if !AllSubmitted(l) {
      var i :| 0 <= i < |l.players| && l.players[i].action.None?;
      assert l.players[i] in WithoutActions(l.players);
    }
    if WithoutActions(l.players) != [] {
      var p := WithoutActions(l.players)[0];
      assert p in l.players && p.action.None?;
    }
  }

  /** The lobby invariants: ids are distinct; a player carries the captain flag
      exactly when `captainId` names it; a non-empty lobby has a captain who
      is a member. */
  ghost predicate Valid(l: Lobby) {
    && Distinct(Ids(l.players))
    && (forall i :: 0 <= i < |l.players| ==>
          (l.players[i].isCaptain <==> l.captainId == Some(l.players[i].userId)))
    && (|l.players| > 0 ==> l.captainId.Some? && Has(l, l.captainId.value))
  }

  /** In a valid lobby at most one player carries the captain flag. */
  lemma ValidAtMostOneCaptain(l: Lobby, i: nat, j: nat)
    requires Valid(l)
    requires i < |l.players| && j < |l.players|
    requires l.players[i].isCaptain && l.players[j].isCaptain
    ensures i == j
  {
  }

  /** A valid non-empty lobby answers `get_captain` with a member that
      carries the captain flag. */
  lemma ValidNonEmptyHasCaptain(l: Lobby)
    requires Valid(l) && |l.players| > 0
    ensures GetCaptain(l).Some? && GetCaptain(l).value.isCaptain
  {
  }

  /** Adding a fresh, non-captain player keeps the lobby valid. */
  lemma AddPreservesValid(l: Lobby, p: Player)
    requires Valid(l) && !p.isCaptain
    ensures Valid(AddPlayer(l, p).lobby)
  {
    var r := AddPlayer(l, p).lobby;
    if !Has(l, p.userId) {
      assert Ids(r.players) == Ids(l.players) + [p.userId];
      if |l.players| > 0 {
        assert Has(r, r.captainId.value) by {
          assert Ids(l.players) <= Ids(r.players);
        }
      } else {
        assert Ids(r.players) == [p.userId];
      }
    }
  }

  lemma {:induction false} IdsOfWithout(ps: seq<Player>, i: nat)
    requires i < |ps|
    ensures Ids(Without(ps, i)) == Ids(ps)[..i] + Ids(ps)[i + 1..]
  {
    var a := Ids(Without(ps, i));
    var b := Ids(ps)[..i] + Ids(ps)[i + 1..];
    assert |a| == |b|;
    forall k | 0 <= k < |a|
      ensures a[k] == b[k]
    {
      if k < i {
        assert b[k] == Ids(ps)[k];
      } else {
        assert b[k] == Ids(ps)[k + 1];
      }
    }
  }

  /** A user whose id occurs once is absent after its position is dropped. */
  lemma {:induction false} WithoutDropsUser(ps: seq<Player>, i: nat)
    requires i < |ps| && Distinct(Ids(ps))
    ensures Distinct(Ids(Without(ps, i)))
    ensures ps[i].userId !in Ids(Without(ps, i))
  {
    var rest := Without(ps, i);
    forall a, b | 0 <= a < b < |rest|
      ensures Ids(rest)[a] != Ids(rest)[b]
    {
      var a' := if a < i then a else a + 1;
      var b' := if b < i then b else b + 1;
      assert Ids(ps)[a'] != Ids(ps)[b'];
    }
    forall k | 0 <= k < |rest|
      ensures Ids(rest)[k] != ps[i].userId
    {
      var k' := if k < i then k else k + 1;
      assert Ids(rest)[k] == Ids(ps)[k'];
    }
  }

  /** The captain survives the removal of someone else. */
  lemma {:induction false} CaptainStaysAfterOtherLeaves(l: Lobby, i: nat)
    requires Valid(l) && i < |l.players| && !l.players[i].isCaptain
    ensures l.captainId.value in Ids(Without(l.players, i))
  {
    var c := l.captainId.value;
    var k := IndexOf(l.players, c);
    assert k != i;
    var rest := Without(l.players, i);
    var k' := if k < i then k else k - 1;
    assert rest[k'] == l.players[k];
    assert Ids(rest)[k'] == c;
  }

  /** Removing any user keeps the lobby valid, and the user is gone. */
  lemma RemovePreservesValid(l: Lobby, u: UserId)
    requires Valid(l)
    ensures Valid(RemovePlayer(l, u).lobby)
    ensures !Has(RemovePlayer(l, u).lobby, u)
  {
    var r := RemovePlayer(l, u).lobby;
    if Has(l, u) {
      var i := IndexOf(l.players, u);
      var rest := Without(l.players, i);
      WithoutDropsUser(l.players, i);
      assert Ids(r.players) == Ids(rest);
      if l.players[i].isCaptain && |rest| > 0 {
        assert r.players[0].userId == rest[0].userId;
        assert Ids(r.players)[0] == r.captainId.value;
        forall j | 0 < j < |r.players|
          ensures !r.players[j].isCaptain
        {
          assert r.players[j] == rest[j];
          var j' := if j < i then j else j + 1;
          assert rest[j] == l.players[j'];
        }
      } else if |rest| > 0 {
        CaptainStaysAfterOtherLeaves(l, i);
      }
    }
  }

  /** Validity only looks at the players and the captain id. */
  lemma ValidIgnoresRoundFields(l: Lobby, m: Lobby)
    requires m.players == l.players && m.captainId == l.captainId
    ensures Valid(m) == Valid(l)
  {
  }

  /** Adding keeps every member and makes the added user one. */
  lemma AddKeepsMembers(l: Lobby, p: Player, v: UserId)
    ensures Has(AddPlayer(l, p).lobby, p.userId)
    ensures Has(l, v) ==> Has(AddPlayer(l, p).lobby, v)
  {
    var r := AddPlayer(l, p).lobby;
    if !Has(l, p.userId) {
      assert Ids(r.players)[|l.players|] == p.userId;
    }
    if Has(l, v) {
      var i := IndexOf(l.players, v);
      if !Has(l, p.userId) {
        assert r.players[..|l.players|][i] == l.players[i];
        assert Ids(r.players)[i] == v;
      }
    }
  }

  /** Removing a user keeps every other member. */
  lemma RemoveKeepsOthers(l: Lobby, u: UserId, v: UserId)
    requires v != u && Has(l, v)
    ensures Has(RemovePlayer(l, u).lobby, v)
  {
    if Has(l, u) {
      var i := IndexOf(l.players, u);
      var k := IndexOf(l.players, v);
      var rest := Without(l.players, i);
      var k' := if k < i then k else k - 1;
      assert rest[k'] == l.players[k];
      assert Ids(rest)[k'] == v;
      assert Ids(RemovePlayer(l, u).lobby.players) == Ids(rest);
    }
  }

  /** `reset_actions` keeps the lobby valid. */
  lemma ResetPreservesValid(l: Lobby)
    requires Valid(l)
    ensures Valid(ResetActions(l))
  {
  }

  /** When the last player leaves, `get_captain` answers nothing, even though
      `captainId` keeps the departed user's id. */
  lemma LastPlayerLeavingClearsCaptain(l: Lobby)
    requires Valid(l) && |l.players| == 1
    ensures var r := RemovePlayer(l, l.players[0].userId).lobby;
            r.players == [] && r.captainId == l.captainId && GetCaptain(r) == None
  {
    assert Has(l, l.players[0].userId);
  }
}
