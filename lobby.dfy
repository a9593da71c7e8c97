/** The lobby directory of server/src/lobbyManager.ts: lobbies keyed by their
    six-character join code, and the code each player was last placed under. */
module Lobbies {
  import opened Types

  /** A lobby never holds more than six players. */
  const MAX_PLAYERS: nat := 6
  const CODE_LENGTH: nat := 6
  const CODE_CHARS: string := "ABCDEFGHIJKLMNOPQRSTUVWXYZ0123456789"
  const ADJECTIVES: seq<string> := ["Swift", "Clever", "Lucky", "Brave", "Wise", "Bold", "Quick", "Sharp"]
  const NOUNS: seq<string> := ["Fox", "Eagle", "Tiger", "Wolf", "Bear", "Hawk", "Lion", "Panda"]

  // ---------------------------------------------------------------------
  // Code and name generation. The random draws come in as parameters: each
  // entry of `picks` is one value of Math.floor(Math.random() * n).

  /** The characters of the code alphabet: upper-case letters and digits. */
  predicate IsCodeChar(c: char)
  {
    'A' <= c <= 'Z' || '0' <= c <= '9'
  }

  predicate IsLobbyCode(s: string)
  {
    |s| == CODE_LENGTH && forall i :: 0 <= i < |s| ==> IsCodeChar(s[i])
  }

  lemma AlphabetChars(k: nat)
    requires k < |CODE_CHARS|
    ensures IsCodeChar(CODE_CHARS[k])
  {
  }

  /** One draw of Math.floor(Math.random() * 36): an index into the alphabet. */
  type CodeDraw = k: nat | k < 36

  /** A code takes six draws. */
  predicate CodePicks(picks: seq<CodeDraw>)
  {
    |picks| == CODE_LENGTH
  }

  /** The code the draws spell out, one alphabet character per draw. */
  function CodeOf(picks: seq<CodeDraw>): (s: string)
    ensures |s| == |picks|
  {
    if picks == [] then [] else [CODE_CHARS[picks[0]]] + CodeOf(picks[1..])
  }

  /** Character i of the code is the alphabet character at draw i. */
  lemma {:induction false} CodeOfChars(picks: seq<CodeDraw>)
    ensures forall i :: 0 <= i < |picks| ==> CodeOf(picks)[i] == CODE_CHARS[picks[i]]
  {
    if picks != [] {
      CodeOfChars(picks[1..]);
    }
  }

  /** generateLobbyCode: the code is built one character per iteration. */
  method GenerateLobbyCode(picks: seq<CodeDraw>) returns (code: string)
    requires CodePicks(picks)
    ensures code == CodeOf(picks) && IsLobbyCode(code)
  {
    code := "";
    for i := 0 to CODE_LENGTH
      invariant code == CodeOf(picks[..i])
    {
      assert picks[..i + 1] == picks[..i] + [picks[i]];
      CodeOfAppend(picks[..i], picks[i]);
      code := code + [CODE_CHARS[picks[i]]];
    }
    assert picks[..CODE_LENGTH] == picks;
    CodeOfChars(picks);
    forall i | 0 <= i < |code| ensures IsCodeChar(code[i]) {
      AlphabetChars(picks[i]);
    }
  }

  lemma {:induction false} CodeOfAppend(picks: seq<CodeDraw>, p: CodeDraw)
    ensures CodeOf(picks + [p]) == CodeOf(picks) + [CODE_CHARS[p]]
  {
    CodeOfChars(picks + [p]);
    CodeOfChars(picks);
    assert (picks + [p])[|picks|] == p;
    assert forall i :: 0 <= i < |picks| ==> (picks + [p])[i] == picks[i];
  }

  /** The index of the first candidate whose code is not taken. */
  function FirstFresh(taken: set<string>, candidates: seq<seq<CodeDraw>>, from: nat): (k: nat)
    requires exists j :: from <= j < |candidates| && CodeOf(candidates[j]) !in taken
    ensures from <= k < |candidates| && CodeOf(candidates[k]) !in taken
    ensures forall j :: from <= j < k ==> CodeOf(candidates[j]) in taken
    decreases |candidates| - from
  {
    if CodeOf(candidates[from]) !in taken then from else FirstFresh(taken, candidates, from + 1)
  }

  /** FirstFresh is the least fresh index. */
  lemma {:induction false} FirstFreshIs(taken: set<string>, candidates: seq<seq<CodeDraw>>, from: nat, i: nat)
    requires from <= i < |candidates| && CodeOf(candidates[i]) !in taken
    requires forall j :: from <= j < i ==> CodeOf(candidates[j]) in taken
    ensures FirstFresh(taken, candidates, from) == i
    decreases i - from
  {
    if from < i {
      assert CodeOf(candidates[from]) in taken;
      FirstFreshIs(taken, candidates, from + 1, i);
    }
  }

  /** The decimal digits of n, as a template literal prints a number. */
  function Decimal(n: nat): (s: string)
    ensures |s| > 0 && (n < 10 <==> |s| == 1)
    ensures forall i :: 0 <= i < |s| ==> '0' <= s[i] <= '9'
    ensures n > 0 ==> s[0] != '0'
  {
    if n < 10 then [('0' as int + n) as char]
    else Decimal(n / 10) + [('0' as int + n % 10) as char]
  }

  /** generateUsername: an adjective, a noun and a number below 100. */
  function GenerateUsername(adjective: nat, noun: nat, number: nat): (name: string)
    requires adjective < |ADJECTIVES| && noun < |NOUNS| && number < 100
    ensures |name| > |ADJECTIVES[adjective]|
    ensures name[..|ADJECTIVES[adjective]|] == ADJECTIVES[adjective]
    ensures '0' <= name[|name| - 1] <= '9'
    ensures Trim(name) == name
  {
    var name := ADJECTIVES[adjective] + NOUNS[noun] + Decimal(number);
    assert name[0] == ADJECTIVES[adjective][0];
    assert name[|name| - 1] == Decimal(number)[|Decimal(number)| - 1];
    TrimUnchanged(name);
    name
  }

  /** The name a newcomer gets: the one given, or else a generated one. */
  function NameOrDefault(username: string, generated: string): (name: string)
    ensures username != "" ==> name == username
    ensures username == "" ==> name == generated
  {
    if username != "" then username else generated
  }

  // ---------------------------------------------------------------------
  // String helpers: upper-casing for join codes, trimming for names.

  function UpperChar(c: char): (u: char)
    ensures 'a' <= c <= 'z' ==> 'A' <= u <= 'Z' && u as int == c as int - 32
    ensures !('a' <= c <= 'z') ==> u == c
  {
    if 'a' <= c <= 'z' then (c as int - 32) as char else c
  }

  /** String.prototype.toUpperCase on the ASCII letters. */
  function ToUpper(s: string): (u: string)
    ensures |u| == |s|
    ensures forall i :: 0 <= i < |s| ==> u[i] == UpperChar(s[i])
  {
    if s == [] then [] else [UpperChar(s[0])] + ToUpper(s[1..])
  }

  lemma ToUpperIdempotent(s: string)
    ensures ToUpper(ToUpper(s)) == ToUpper(s)
  {
    var u := ToUpper(s);
    assert forall i :: 0 <= i < |s| ==> ToUpper(u)[i] == u[i];
  }

  /** Every generated code is already upper case, so it is found as typed. */
  lemma CodeIsUpper(c: string)
    requires IsLobbyCode(c)
    ensures ToUpper(c) == c
  {
    assert forall i :: 0 <= i < |c| ==> ToUpper(c)[i] == c[i];
  }

  /** The ECMAScript white space and line terminators that trim removes. */
  predicate IsSpace(c: char)
  {
    || c == '\t' || c == '\n' || c == '\U{000B}' || c == '\U{000C}' || c == '\r' || c == ' '
    || c == '\U{00A0}' || c == '\U{1680}' || ('\U{2000}' <= c <= '\U{200A}')
    || c == '\U{2028}' || c == '\U{2029}' || c == '\U{202F}' || c == '\U{205F}'
    || c == '\U{3000}' || c == '\U{FEFF}'
  }

  /** s with its leading white space removed. */
  function TrimStart(s: string): (r: string)
    ensures |r| <= |s| && r == s[|s| - |r|..]
    ensures forall i :: 0 <= i < |s| - |r| ==> IsSpace(s[i])
    ensures r != [] ==> !IsSpace(r[0])
  {
    if s != [] && IsSpace(s[0]) then TrimStart(s[1..]) else s
  }

  /** s with its trailing white space removed. */
  function TrimEnd(s: string): (r: string)
    ensures |r| <= |s| && r == s[..|r|]
    ensures forall i :: |r| <= i < |s| ==> IsSpace(s[i])
    ensures r != [] ==> !IsSpace(r[|r| - 1])
  {
    if s != [] && IsSpace(s[|s| - 1]) then TrimEnd(s[..|s| - 1]) else s
  }

  /** String.prototype.trim. */
  function Trim(s: string): (r: string)
  {
    TrimEnd(TrimStart(s))
  }

  /** A trimmed name is empty exactly when the name was all white space. */
  lemma TrimEmpty(s: string)
    ensures Trim(s) == [] <==> forall i :: 0 <= i < |s| ==> IsSpace(s[i])
  {
    var t := TrimStart(s);
    if forall i :: 0 <= i < |s| ==> IsSpace(s[i]) {
      assert t == [];
    }
  }

  /** A string with no white space at either end trims to itself. */
  lemma TrimUnchanged(s: string)
    requires s != [] && !IsSpace(s[0]) && !IsSpace(s[|s| - 1])
    ensures Trim(s) == s
  {
  }

  /** Trimming twice changes nothing more. */
  lemma TrimIdempotent(s: string)
    ensures Trim(Trim(s)) == Trim(s)
  {
    var r := Trim(s);
    if r != [] {
      var t := TrimStart(s);
      assert r[0] == t[0];
      TrimUnchanged(r);
    }
  }

  // ---------------------------------------------------------------------
  // Player lists.

  predicate HasPlayer(players: seq<LobbyPlayer>, id: string)
  {
    exists p <- players :: p.id == id
  }

  predicate DistinctIds(players: seq<LobbyPlayer>)
  {
    forall i, j :: 0 <= i < j < |players| ==> players[i].id != players[j].id
  }

  /** players.filter(p => p.id !== id): every other player, in order. */
  function RemovePlayer(players: seq<LobbyPlayer>, id: string): (r: seq<LobbyPlayer>)
    ensures !HasPlayer(r, id)
    ensures forall p <- r :: p in players
    ensures forall p <- players :: p.id != id ==> p in r
    ensures DistinctIds(players) ==> DistinctIds(r)
    ensures DistinctIds(players) && HasPlayer(players, id) ==> |r| == |players| - 1
    ensures !HasPlayer(players, id) ==> r == players
  {
    if players == [] then []
    else
      var rest := RemovePlayer(players[1..], id);
      if players[0].id == id then rest else [players[0]] + rest
  }

  /** players.find(p => p.id === id), as the index of the first match. */
  function FindPlayer(players: seq<LobbyPlayer>, id: string): (r: Option<nat>)
    ensures r.Some? <==> HasPlayer(players, id)
    ensures r.Some? ==> r.value < |players| && players[r.value].id == id
    ensures r.Some? ==> forall j :: 0 <= j < r.value ==> players[j].id != id
  {
    if players == [] then None
    else if players[0].id == id then Some(0)
    else
      var r := FindPlayer(players[1..], id);
      if r.Some? then Some(r.value + 1) else None
  }

  // ---------------------------------------------------------------------
  // The directory invariant.

  /** Only the player whose id is the lobby's hostId may carry the host flag. */
  predicate HostFlag(l: Lobby)
  {
    forall p <- l.players :: p.isHost ==> p.id == l.hostId
  }

  ghost predicate LobbyOk(code: string, l: Lobby)
  {
    && l.code == code && IsLobbyCode(code)
    && l.maxPlayers == MAX_PLAYERS && |l.players| <= MAX_PLAYERS
    && DistinctIds(l.players) && HostFlag(l)
  }

  ghost predicate Directory(lobbies: map<string, Lobby>)
  {
    forall c :: c in lobbies ==> LobbyOk(c, lobbies[c])
  }

  lemma DirectoryStore(lobbies: map<string, Lobby>, code: string, l: Lobby)
    requires Directory(lobbies) && LobbyOk(code, l)
    ensures Directory(lobbies[code := l])
  {
  }

  lemma DirectoryDelete(lobbies: map<string, Lobby>, code: string)
    requires Directory(lobbies)
    ensures Directory(lobbies - {code})
  {
  }

  /** A code with a lower-case letter is never a key of the directory. */
  lemma LowerCodeAbsent(lobbies: map<string, Lobby>, code: string)
    requires Directory(lobbies) && ToUpper(code) != code
    ensures code !in lobbies
  {
    if code in lobbies {
      CodeIsUpper(code);
    }
  }

  /** A new lobby holding its host alone is well-formed. */
  lemma NewLobbyOk(code: string, hostId: string, name: string)
    requires IsLobbyCode(code)
    ensures LobbyOk(code, Lobby(code, hostId, [LobbyPlayer(hostId, name, true)], MAX_PLAYERS))
  {
  }

  /** Removing players keeps a lobby well-formed. */
  lemma RemoveKeeps(code: string, l: Lobby, id: string)
    requires LobbyOk(code, l)
    ensures LobbyOk(code, l.(players := RemovePlayer(l.players, id)))
  {
  }

  /** So does adding a non-host newcomer to a lobby with room. */
  lemma JoinKeeps(code: string, l: Lobby, p: LobbyPlayer)
    requires LobbyOk(code, l) && |l.players| < l.maxPlayers
    requires !HasPlayer(l.players, p.id) && !p.isHost
    ensures LobbyOk(code, l.(players := l.players + [p]))
  {
    var ps := l.players + [p];
    forall i, j | 0 <= i < j < |ps| ensures ps[i].id != ps[j].id {
      if j == |l.players| {
        assert ps[i] in l.players;
      }
    }
  }

  /** And so does renaming one player. */
  lemma RenameKeeps(code: string, l: Lobby, k: nat, name: string)
    requires LobbyOk(code, l) && k < |l.players|
    ensures LobbyOk(code, l.(players := l.players[k := l.players[k].(name := name)]))
  {
    var ps := l.players[k := l.players[k].(name := name)];
    assert forall i :: 0 <= i < |ps| ==> ps[i].id == l.players[i].id && ps[i].isHost == l.players[i].isHost;
  }

  /** The loop of createLobby: draw codes until one is not taken. */
  method FreshCode(taken: set<string>, candidates: seq<seq<CodeDraw>>) returns (code: string)
    requires forall j :: 0 <= j < |candidates| ==> CodePicks(candidates[j])
    requires exists j :: 0 <= j < |candidates| && CodeOf(candidates[j]) !in taken
    ensures code == CodeOf(candidates[FirstFresh(taken, candidates, 0)])
    ensures code !in taken && IsLobbyCode(code)
  {
    var i := 0;
    code := GenerateLobbyCode(candidates[0]);
    while code in taken
      invariant 0 <= i < |candidates| && code == CodeOf(candidates[i]) && IsLobbyCode(code)
      invariant forall j :: 0 <= j < i ==> CodeOf(candidates[j]) in taken
      decreases |candidates| - i
    {
      i := i + 1;
      code := GenerateLobbyCode(candidates[i]);
    }
    FirstFreshIs(taken, candidates, 0, i);
  }

  /** The code a player is mapped to, when the mapping is present and
      not the empty string (which JavaScript treats as absent). */
  function MappedCode(playerToLobby: map<string, string>, id: string): (c: Option<string>)
    ensures c.Some? <==> id in playerToLobby && playerToLobby[id] != ""
    ensures c.Some? ==> c.value == playerToLobby[id]
  {
    if id in playerToLobby && playerToLobby[id] != "" then Some(playerToLobby[id]) else None
  }

  /** getLobbyByPlayerId: the lobby under the player's mapped code, if any. */
  function LobbyOf(lobbies: map<string, Lobby>, playerToLobby: map<string, string>, id: string): (r: Option<Lobby>)
    ensures Directory(lobbies) ==>
      (r.Some? <==> id in playerToLobby && playerToLobby[id] in lobbies)
    ensures Directory(lobbies) && r.Some? ==> r.value.code == playerToLobby[id]
  {
    var c := MappedCode(playerToLobby, id);
    if c.Some? && c.value in lobbies then Some(lobbies[c.value]) else None
  }

  /** A player mapped under a code with a lower-case letter (as joinLobby
      stores a code typed in lower case) finds no lobby. */
  lemma LowerCodeFindsNothing(lobbies: map<string, Lobby>, playerToLobby: map<string, string>, id: string)
    requires Directory(lobbies) && id in playerToLobby
    requires ToUpper(playerToLobby[id]) != playerToLobby[id]
    ensures LobbyOf(lobbies, playerToLobby, id) == None
  {
    LowerCodeAbsent(lobbies, playerToLobby[id]);
  }

  /** The ids of a player list. */
  function IdsOf(players: seq<LobbyPlayer>): (ids: set<string>)
    ensures forall p <- players :: p.id in ids
    ensures forall id <- ids :: HasPlayer(players, id)
  {
    set p | p in players :: p.id
  }

  datatype LeaveReply = LeaveReply(lobby: Option<Lobby>, wasHost: bool, code: string)

  class LobbyManager {
    var lobbies: map<string, Lobby>
    var playerToLobby: map<string, string>

    ghost predicate Valid()
      reads this
    {
      Directory(lobbies)
    }

    constructor ()
      ensures lobbies == map[] && playerToLobby == map[] && Valid()
    {
      lobbies := map[];
      playerToLobby := map[];
    }

    /** createLobby: open a lobby under a fresh code holding the host
        alone, and map the host to it. `candidates` are the successive draws
        of generateLobbyCode, one of which gives a code not yet taken. */
    method CreateLobby(hostId: string, username: string, candidates: seq<seq<CodeDraw>>, generated: string)
      returns (lobby: Lobby)
      requires Valid()
      requires forall j :: 0 <= j < |candidates| ==> CodePicks(candidates[j])
      requires exists j :: 0 <= j < |candidates| && CodeOf(candidates[j]) !in lobbies
      modifies this
      ensures lobby.code == CodeOf(candidates[FirstFresh(old(lobbies).Keys, candidates, 0)])
      ensures lobby.code !in old(lobbies)
      ensures lobby == Lobby(lobby.code, hostId, [LobbyPlayer(hostId, NameOrDefault(username, generated), true)], MAX_PLAYERS)
      ensures lobbies == old(lobbies)[lobby.code := lobby]
      ensures playerToLobby == old(playerToLobby)[hostId := lobby.code]
      ensures Valid()
    {
      var code := FreshCode(lobbies.Keys, candidates);
      lobby := Lobby(code, hostId, [LobbyPlayer(hostId, NameOrDefault(username, generated), true)], MAX_PLAYERS);
      NewLobbyOk(code, hostId, NameOrDefault(username, generated));
      DirectoryStore(lobbies, code, lobby);
      lobbies := lobbies[code := lobby];
      playerToLobby := playerToLobby[hostId := code];
    }
    /** joinLobby: look the code up upper-cased; refuse a missing or full
        lobby (a member of a full lobby is refused too), give a member the
        lobby back unchanged, and otherwise append the newcomer and map them
        to the code as typed. */
    method JoinLobby(code: string, playerId: string, username: string, generated: string)
      returns (r: Option<Lobby>)
      requires Valid()
      modifies this
      ensures var key := ToUpper(code);
        key !in old(lobbies) || |old(lobbies)[key].players| >= old(lobbies)[key].maxPlayers ==>
          r == None && unchanged(this)
      ensures var key := ToUpper(code);
        key in old(lobbies) && |old(lobbies)[key].players| < old(lobbies)[key].maxPlayers &&
        HasPlayer(old(lobbies)[key].players, playerId) ==>
          r == Some(old(lobbies)[key]) && unchanged(this)
      ensures var key := ToUpper(code);
        key in old(lobbies) && |old(lobbies)[key].players| < old(lobbies)[key].maxPlayers &&
        !HasPlayer(old(lobbies)[key].players, playerId) ==>
          var l := old(lobbies)[key];
          var joined := l.(players := l.players + [LobbyPlayer(playerId, NameOrDefault(username, generated), false)]);
          && r == Some(joined)
          && lobbies == old(lobbies)[key := joined]
          && playerToLobby == old(playerToLobby)[playerId := code]
          && (key != code ==> GetLobbyByPlayerId(playerId) == None)
      ensures r.Some? ==> HasPlayer(r.value.players, playerId) && |r.value.players| <= MAX_PLAYERS
      ensures Valid()
    {
      var key := ToUpper(code);
      if key !in lobbies {
        return None;
      }
      var l := lobbies[key];
      if |l.players| >= l.maxPlayers {
        return None;
      }
      if HasPlayer(l.players, playerId) {
        return Some(l);
      }
      var player := LobbyPlayer(playerId, NameOrDefault(username, generated), false);
      var joined := l.(players := l.players + [player]);
      JoinKeeps(key, l, player);
      assert player in joined.players;
      DirectoryStore(lobbies, key, joined);
      lobbies := lobbies[key := joined];
      playerToLobby := playerToLobby[playerId := code];
      if key != code {
        LowerCodeFindsNothing(lobbies, playerToLobby, playerId);
      }
      r := Some(joined);
    }

    /** leaveLobby: drop the player from the lobby they are mapped to and
        unmap them; the lobby is deleted when the leaver was its host or it
        is left empty. The other members keep their mappings. */
    method LeaveLobby(playerId: string) returns (reply: LeaveReply)
      requires Valid()
      modifies this
      ensures var c := MappedCode(old(playerToLobby), playerId);
        c.None? ==> reply == LeaveReply(None, false, "") && unchanged(this)
      ensures var c := MappedCode(old(playerToLobby), playerId);
        c.Some? && c.value !in old(lobbies) ==> reply == LeaveReply(None, false, c.value) && unchanged(this)
      ensures var c := MappedCode(old(playerToLobby), playerId);
        c.Some? && c.value in old(lobbies) ==>
          var l := old(lobbies)[c.value];
          var rest := RemovePlayer(l.players, playerId);
          var wasHost := l.hostId == playerId;
          && playerToLobby == old(playerToLobby) - {playerId}
          && reply.code == c.value && reply.wasHost == wasHost
          && (wasHost || rest == [] ==> reply.lobby == None && lobbies == old(lobbies) - {c.value})
          && (!wasHost && rest != [] ==>
                reply.lobby == Some(l.(players := rest)) && lobbies == old(lobbies)[c.value := l.(players := rest)])
      ensures reply.lobby.Some? ==> !HasPlayer(reply.lobby.value.players, playerId) && reply.lobby.value.hostId != playerId
      ensures Valid()
    {
      var c := MappedCode(playerToLobby, playerId);
      if c.None? {
        return LeaveReply(None, false, "");
      }
      var code := c.value;
      if code !in lobbies {
        return LeaveReply(None, false, code);
      }
      var l := lobbies[code];
      var wasHost := l.hostId == playerId;
      var left := l.(players := RemovePlayer(l.players, playerId));
      playerToLobby := playerToLobby - {playerId};
      if wasHost || left.players == [] {
        DirectoryDelete(lobbies, code);
        lobbies := lobbies - {code};
        return LeaveReply(None, wasHost, code);
      }
      RemoveKeeps(code, l, playerId);
      DirectoryStore(lobbies, code, left);
      lobbies := lobbies[code := left];
      reply := LeaveReply(Some(left), false, code);
    }

    /** kickPlayer: only the host of the lobby the caller is mapped to may
        kick; the target is dropped from its players and unmapped, whichever
        lobby the target was mapped to. */
    method KickPlayer(hostId: string, target: string) returns (r: Option<Lobby>)
      requires Valid()
      modifies this
      ensures var c := MappedCode(old(playerToLobby), hostId);
        c.None? || c.value !in old(lobbies) || old(lobbies)[c.value].hostId != hostId ==>
          r == None && unchanged(this)
      ensures var c := MappedCode(old(playerToLobby), hostId);
        c.Some? && c.value in old(lobbies) && old(lobbies)[c.value].hostId == hostId ==>
          var l := old(lobbies)[c.value];
          var kept := l.(players := RemovePlayer(l.players, target));
          && r == Some(kept)
          && lobbies == old(lobbies)[c.value := kept]
          && playerToLobby == old(playerToLobby) - {target}
      ensures r.Some? ==> !HasPlayer(r.value.players, target) && target !in playerToLobby
      ensures Valid()
    {
      var c := MappedCode(playerToLobby, hostId);
      if c.None? {
        return None;
      }
      var code := c.value;
      if code !in lobbies || lobbies[code].hostId != hostId {
        return None;
      }
      var l := lobbies[code];
      var kept := l.(players := RemovePlayer(l.players, target));
      RemoveKeeps(code, l, target);
      DirectoryStore(lobbies, code, kept);
      lobbies := lobbies[code := kept];
      playerToLobby := playerToLobby - {target};
      r := Some(kept);
    }

    /** disbandLobby: only the host may disband; every member is unmapped,
        one at a time, and the lobby is deleted. */
    method DisbandLobby(hostId: string) returns (r: Option<string>)
      requires Valid()
      modifies this
      ensures var c := MappedCode(old(playerToLobby), hostId);
        c.None? || c.value !in old(lobbies) || old(lobbies)[c.value].hostId != hostId ==>
          r == None && unchanged(this)
      ensures var c := MappedCode(old(playerToLobby), hostId);
        c.Some? && c.value in old(lobbies) && old(lobbies)[c.value].hostId == hostId ==>
          && r == c
          && lobbies == old(lobbies) - {c.value}
          && playerToLobby == old(playerToLobby) - IdsOf(old(lobbies)[c.value].players)
      ensures Valid()
    {
      var c := MappedCode(playerToLobby, hostId);
      if c.None? {
        return None;
      }
      var code := c.value;
      if code !in lobbies || lobbies[code].hostId != hostId {
        return None;
      }
      var players := lobbies[code].players;
      var m := playerToLobby;
      for i := 0 to |players|
        invariant m == playerToLobby - IdsOf(players[..i])
      {
        assert IdsOf(players[..i + 1]) == IdsOf(players[..i]) + {players[i].id} by {
          assert players[..i + 1] == players[..i] + [players[i]];
        }
        m := m - {players[i].id};
      }
      assert players[..|players|] == players;
      playerToLobby := m;
      DirectoryDelete(lobbies, code);
      lobbies := lobbies - {code};
      r := Some(code);
    }

    /** changeName: rename the first player with the id in the lobby the
        player is mapped to, to the trimmed name; a name that trims to
        nothing is refused. */
    method ChangeName(playerId: string, newName: string) returns (r: Option<Lobby>)
      requires Valid()
      modifies this
      ensures var c := MappedCode(old(playerToLobby), playerId);
        c.None? || c.value !in old(lobbies) || !HasPlayer(old(lobbies)[c.value].players, playerId) ||
        Trim(newName) == [] ==>
          r == None && unchanged(this)
      ensures var c := MappedCode(old(playerToLobby), playerId);
        c.Some? && c.value in old(lobbies) && HasPlayer(old(lobbies)[c.value].players, playerId) &&
        Trim(newName) != [] ==>
          var l := old(lobbies)[c.value];
          var k := FindPlayer(l.players, playerId).value;
          var renamed := l.(players := l.players[k := l.players[k].(name := Trim(newName))]);
          && r == Some(renamed)
          && lobbies == old(lobbies)[c.value := renamed]
          && unchanged(this`playerToLobby)
      ensures Valid()
    {
      var c := MappedCode(playerToLobby, playerId);
      if c.None? {
        return None;
      }
      var code := c.value;
      if code !in lobbies {
        return None;
      }
      var l := lobbies[code];
      var found := FindPlayer(l.players, playerId);
      if found.None? {
        return None;
      }
      if newName == "" || |Trim(newName)| < 1 {
        return None;
      }
      var k := found.value;
      var renamed := l.(players := l.players[k := l.players[k].(name := Trim(newName))]);
      RenameKeeps(code, l, k, Trim(newName));
      DirectoryStore(lobbies, code, renamed);
      lobbies := lobbies[code := renamed];
      r := Some(renamed);
    }

    /** getLobby: the lobby under the upper-cased code. */
    function GetLobby(code: string): (r: Option<Lobby>)
      reads this
      ensures r.Some? <==> ToUpper(code) in lobbies
      ensures Valid() && r.Some? ==> r.value.code == ToUpper(code) && |r.value.players| <= MAX_PLAYERS
    {
      if ToUpper(code) in lobbies then Some(lobbies[ToUpper(code)]) else None
    }

    /** getLobbyByPlayerId. */
    function GetLobbyByPlayerId(playerId: string): (r: Option<Lobby>)
      reads this
      ensures Valid() ==> (r.Some? <==> playerId in playerToLobby && playerToLobby[playerId] in lobbies)
      ensures Valid() && r.Some? ==> r.value == lobbies[playerToLobby[playerId]]
    {
      LobbyOf(lobbies, playerToLobby, playerId)
    }
  }
}
