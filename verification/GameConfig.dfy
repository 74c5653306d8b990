/** The game-configuration blob that starts a game: teams, roster and emitter configuration. */
module GameConfig {
  import opened Bytes
  import opened GameState
  import opened Protocol

  const MAX_TEAMS := 6
  const CONFIG_SIZE := 14
  const RAW_SIZE := 256

  /** What the blob sets: the local team (also as known to the mesh), the team table,
      the friendly list and the emitter configuration. */
  datatype Setup = Setup(playerId: byte, teamId: byte, meshPlayer: byte, meshTeam: byte,
                         numTeams: nat, teamIds: seq<byte>, teamKills: seq<u16>, friendlies: seq<byte>, cfg: Config)

  datatype Entry = Entry(pid: byte, tid: byte)

  // ----- what the bytes mean -----

  function ParseConfig(b: seq<byte>): Config
    requires |b| >= CONFIG_SIZE
  {
    Config(b[0], b[1], GetLe16(b[2], b[3]), GetLe16(b[4], b[5]), GetLe16(b[6], b[7]), b[8], b[9],
           GetLe16(b[10], b[11]), b[12], b[13])
  }

  /** The team ids read from `pos` on, and the position after the section unless it is truncated. */
  function TeamsFrom(data: seq<byte>, pos: nat, n: nat): (r: (seq<byte>, Option<nat>))
    decreases n
    ensures r.1.Some? ==> pos <= r.1.value && |r.0| == n
    ensures r.1.Some? && pos <= |data| ==> r.1.value <= |data|
  {
    if n == 0 then ([], Some(pos))
    else if pos + 2 > |data| then ([], None)
    else if pos + 2 + data[pos + 1] > |data| then ([data[pos]], None)
    else
      var (ids, end) := TeamsFrom(data, pos + 2 + data[pos + 1], n - 1);
      ([data[pos]] + ids, end)
  }

  /** The roster entries read from `pos` on, and the position after the section unless it is truncated. */
  function RosterFrom(data: seq<byte>, pos: nat, n: nat): (r: (seq<Entry>, Option<nat>))
    decreases n
    ensures r.1.Some? ==> pos <= r.1.value
    ensures r.1.Some? && pos <= |data| ==> r.1.value <= |data|
  {
    if n == 0 then ([], Some(pos))
    else if pos + 3 > |data| || pos + 3 + data[pos + 2] > |data| then ([], None)
    else
      var (entries, end) := RosterFrom(data, pos + 3 + data[pos + 2], n - 1);
      ([Entry(data[pos], data[pos + 1])] + entries, end)
  }

  /** The team of the last entry for `pid`. */
  function LastTeam(entries: seq<Entry>, pid: byte, otherwise: byte): byte {
    if |entries| == 0 then otherwise
    else LastTeam(entries[1..], pid, if entries[0].pid == pid then entries[0].tid else otherwise)
  }

  /** The ids of the other players on `team`, in roster order. */
  function Teammates(entries: seq<Entry>, pid: byte, team: byte): seq<byte> {
    if |entries| == 0 then []
    else (if IsTeammate(entries[0], pid, team) then [entries[0].pid] else []) + Teammates(entries[1..], pid, team)
  }

  predicate IsTeammate(e: Entry, pid: byte, team: byte) {
    e.tid == team && e.pid != pid
  }

  function First<T>(s: seq<T>, n: nat): seq<T> {
    if |s| <= n then s else s[..n]
  }

  function Record<T>(table: seq<T>, i: nat, v: T): (r: seq<T>)
    ensures |r| == |table|
  {
    if i < |table| then table[i := v] else table
  }

  /** The table after recording the values from row `i` on; those that do not fit are ignored. */
  function RecordFrom<T>(table: seq<T>, i: nat, values: seq<T>): (r: seq<T>)
    ensures |r| == |table|
    decreases |values|
  {
    if |values| == 0 then table else RecordFrom(Record(table, i, values[0]), i + 1, values[1..])
  }

  function Zeros(n: nat): seq<u16> { seq(n, _ => 0) }

  function AfterTeams(s: Setup, ids: seq<byte>, n: nat): Setup {
    s.(numTeams := if n > MAX_TEAMS then MAX_TEAMS else n,
       teamIds := RecordFrom(s.teamIds, 0, ids),
       teamKills := RecordFrom(s.teamKills, 0, Zeros(|ids|)))
  }

  function AfterRoster(s: Setup, data: seq<byte>, entries: seq<Entry>, end: nat): Setup {
    var team := s.teamId;
    var s' := s.(meshPlayer := s.playerId, meshTeam := team,
                 friendlies := First(Teammates(entries, s.playerId, team), MAX_PLAYERS));
    if end + CONFIG_SIZE <= |data| then s'.(cfg := ParseConfig(data[end..]).(userId := s.playerId)) else s'
  }

  /** The sections after the fixed header. Every read stays below the length of the blob. */
  function ApplySections(s: Setup, data: seq<byte>, nTeams: byte, nPlayers: byte): Setup {
    var (ids, teamsEnd) := TeamsFrom(data, 11, nTeams);
    var s1 := AfterTeams(s, ids, nTeams);
    if teamsEnd == None then s1
    else
      var (entries, end) := RosterFrom(data, teamsEnd.value, nPlayers);
      var s2 := s1.(teamId := LastTeam(entries, s.playerId, s.teamId));
      if end == None then s2 else AfterRoster(s2, data, entries, end.value)
  }

  /** The whole blob: the first `len` bytes of the 256-byte buffer. A 10-byte blob passes the length
      guard although its player count is then whatever the buffer held at index 10 before. */
  function ApplyBlob(s: Setup, raw: seq<byte>, len: nat): Setup
    requires |raw| == RAW_SIZE && len <= RAW_SIZE
  {
    if len < 10 then s else ApplySections(s, raw[..len], raw[9], raw[10])
  }

  // ----- the loops, one iteration at a time -----

  /** The team loop from entry `i` on: the team tables it leaves and where it stops. */
  function TeamLoop(data: seq<byte>, pos: nat, i: nat, n: nat, ids: seq<byte>, kills: seq<u16>)
    : (seq<byte>, seq<u16>, Option<nat>)
    decreases n - i
  {
    if i >= n then (ids, kills, Some(pos))
    else if pos + 2 > |data| then (ids, kills, None)
    else
      var ids', kills' := Record(ids, i, data[pos]), Record(kills, i, 0);
      if pos + 2 + data[pos + 1] > |data| then (ids', kills', None)
      else TeamLoop(data, pos + 2 + data[pos + 1], i + 1, n, ids', kills')
  }

  /** The first roster pass with `n` entries left. */
  function TeamPass(data: seq<byte>, pos: nat, n: nat, pid: byte, team: byte): (byte, Option<nat>)
    decreases n
  {
    if n == 0 then (team, Some(pos))
    else if pos + 3 > |data| || pos + 3 + data[pos + 2] > |data| then (team, None)
    else TeamPass(data, pos + 3 + data[pos + 2], n - 1, pid, if data[pos] == pid then data[pos + 1] else team)
  }

  /** The second roster pass with `n` entries left. */
  function FriendPass(data: seq<byte>, pos: nat, n: nat, pid: byte, team: byte, list: seq<byte>)
    : (seq<byte>, Option<nat>)
    decreases n
  {
    if n == 0 then (list, Some(pos))
    else if pos + 3 > |data| || pos + 3 + data[pos + 2] > |data| then (list, None)
    else
      var friend := data[pos + 1] == team && data[pos] != pid && |list| < MAX_PLAYERS;
      FriendPass(data, pos + 3 + data[pos + 2], n - 1, pid, team, if friend then list + [data[pos]] else list)
  }

  lemma {:induction false} TeamLoopIsTeamsFrom(data: seq<byte>, pos: nat, i: nat, n: nat, ids: seq<byte>,
      kills: seq<u16>)
    requires i <= n
    ensures var (rest, end) := TeamsFrom(data, pos, n - i);
            TeamLoop(data, pos, i, n, ids, kills)
            == (RecordFrom(ids, i, rest), RecordFrom(kills, i, Zeros(|rest|)), end)
    decreases n - i
  {
    if i < n && pos + 2 <= |data| {
      var ids', kills' := Record(ids, i, data[pos]), Record(kills, i, 0);
      RecordOne(kills, i, TeamsFrom(data, pos, n - i).0);
      if pos + 2 + data[pos + 1] <= |data| {
        TeamLoopIsTeamsFrom(data, pos + 2 + data[pos + 1], i + 1, n, ids', kills');
      }
    }
  }

  lemma RecordOne(kills: seq<u16>, i: nat, rest: seq<byte>)
    requires |rest| > 0
    ensures RecordFrom(kills, i, Zeros(|rest|)) == RecordFrom(Record(kills, i, 0), i + 1, Zeros(|rest| - 1))
  {
    assert Zeros(|rest|)[1..] == Zeros(|rest| - 1);
  }

  lemma {:induction false} TeamPassIsLastTeam(data: seq<byte>, pos: nat, n: nat, pid: byte, team: byte)
    ensures var (rest, end) := RosterFrom(data, pos, n);
            TeamPass(data, pos, n, pid, team) == (LastTeam(rest, pid, team), end)
    decreases n
  {
    if n > 0 && pos + 3 <= |data| && pos + 3 + data[pos + 2] <= |data| {
      TeamPassIsLastTeam(data, pos + 3 + data[pos + 2], n - 1, pid, if data[pos] == pid then data[pos + 1] else team);
    }
  }

  lemma {:induction false} FriendPassIsTeammates(data: seq<byte>, pos: nat, n: nat, pid: byte, team: byte,
      list: seq<byte>)
    requires |list| <= MAX_PLAYERS
    ensures var (rest, end) := RosterFrom(data, pos, n);
            FriendPass(data, pos, n, pid, team, list) == (First(list + Teammates(rest, pid, team), MAX_PLAYERS), end)
    decreases n
  {
    assert list + [] == list;
    if n > 0 && pos + 3 <= |data| && pos + 3 + data[pos + 2] <= |data| {
      var e, next := Entry(data[pos], data[pos + 1]), pos + 3 + data[pos + 2];
      var rest := RosterFrom(data, next, n - 1).0;
      var longer := if IsTeammate(e, pid, team) && |list| < MAX_PLAYERS then list + [e.pid] else list;
      FriendPassIsTeammates(data, next, n - 1, pid, team, longer);
      NextTeammate(list, e, rest, pid, team);
    }
  }

  lemma NextTeammate(list: seq<byte>, e: Entry, rest: seq<Entry>, pid: byte, team: byte)
    requires |list| <= MAX_PLAYERS
    ensures First(list + Teammates([e] + rest, pid, team), MAX_PLAYERS)
         == First((if IsTeammate(e, pid, team) && |list| < MAX_PLAYERS then list + [e.pid] else list)
                  + Teammates(rest, pid, team), MAX_PLAYERS)
  {
    assert ([e] + rest)[1..] == rest;
  }

  /** The roster and configuration sections processed by the two passes. */
  function RosterByLoops(s: Setup, data: seq<byte>, start: nat, nPlayers: byte): Setup {
    var (team, scan) := TeamPass(data, start, nPlayers, s.playerId, s.teamId);
    if scan == None then s.(teamId := team)
    else
      var (list, pos) := FriendPass(data, start, nPlayers, s.playerId, team, []);
      var s' := s.(teamId := team, meshPlayer := s.playerId, meshTeam := team, friendlies := list);
      if pos == None || pos.value + CONFIG_SIZE > |data| then s'
      else s'.(cfg := ParseConfig(data[pos.value..]).(userId := s.playerId))
  }

  /** All sections processed by the three loops. */
  function SectionsByLoops(s: Setup, data: seq<byte>, nTeams: byte, nPlayers: byte): Setup {
    var (ids, kills, teamsEnd) := TeamLoop(data, 11, 0, nTeams, s.teamIds, s.teamKills);
    var s' := s.(numTeams := if nTeams > MAX_TEAMS then MAX_TEAMS else nTeams, teamIds := ids, teamKills := kills);
    if teamsEnd == None then s' else RosterByLoops(s', data, teamsEnd.value, nPlayers)
  }

  /** Both roster passes agree on where the roster ends, and the loops compute what the bytes mean. */
  lemma LoopsMeanSections(s: Setup, data: seq<byte>, nTeams: byte, nPlayers: byte)
    ensures SectionsByLoops(s, data, nTeams, nPlayers) == ApplySections(s, data, nTeams, nPlayers)
  {
    TeamLoopIsTeamsFrom(data, 11, 0, nTeams, s.teamIds, s.teamKills);
    var teamsEnd := TeamsFrom(data, 11, nTeams).1;
    if teamsEnd.Some? {
      TeamPassIsLastTeam(data, teamsEnd.value, nPlayers, s.playerId, s.teamId);
      var entries := RosterFrom(data, teamsEnd.value, nPlayers).0;
      var team := LastTeam(entries, s.playerId, s.teamId);
      FriendPassIsTeammates(data, teamsEnd.value, nPlayers, s.playerId, team, []);
      assert [] + Teammates(entries, s.playerId, team) == Teammates(entries, s.playerId, team);
    }
  }

  // ----- the program -----

  class SetupStore {
    var playerId: byte
    var teamId: byte
    var meshPlayer: byte
    var meshTeam: byte
    var numTeams: nat
    var teamIds: array<byte>
    var teamKills: array<u16>
    var friendlyIds: array<byte>
    var friendlyCount: nat
    var game: GameStore

    ghost predicate Valid()
      reads this
    {
      && teamIds.Length == teamKills.Length == MAX_TEAMS
      && friendlyIds.Length == MAX_PLAYERS && friendlyCount <= MAX_PLAYERS
      && friendlyIds != teamIds
    }

    ghost function Abs(): Setup
      requires Valid()
      reads this, teamIds, teamKills, friendlyIds, game
    {
      Setup(playerId, teamId, meshPlayer, meshTeam, numTeams, teamIds[..], teamKills[..],
            friendlyIds[..friendlyCount], game.cfg)
    }

    constructor (game: GameStore)
      ensures Valid() && this.game == game && fresh(teamIds) && fresh(teamKills) && fresh(friendlyIds)
      ensures Abs() == Setup(0, 0, 0, 0, 0, seq(MAX_TEAMS, _ => 0), seq(MAX_TEAMS, _ => 0), [], game.cfg)
    {
      playerId, teamId, meshPlayer, meshTeam := 0, 0, 0, 0;
      numTeams, friendlyCount := 0, 0;
      teamIds := new byte[MAX_TEAMS](_ => 0);
      teamKills := new u16[MAX_TEAMS](_ => 0);
      friendlyIds := new byte[MAX_PLAYERS](_ => 0);
      this.game := game;
      new;
      assert teamIds[..] == seq(MAX_TEAMS, _ => 0);
      assert teamKills[..] == seq(MAX_TEAMS, _ => 0);
    }

    /** The team section; the result is the position after it, or None when it is truncated. */
    method ReadTeams(data: seq<byte>, nTeams: byte) returns (end: Option<nat>)
      requires Valid()
      modifies this`numTeams, teamIds, teamKills
      ensures numTeams == if nTeams > MAX_TEAMS then MAX_TEAMS else nTeams
      ensures (teamIds[..], teamKills[..], end)
           == TeamLoop(data, 11, 0, nTeams, old(teamIds[..]), old(teamKills[..]))
    {
      numTeams := if nTeams > MAX_TEAMS then MAX_TEAMS else nTeams;
      var pos: nat := 11;
      var i := 0;
      while i < nTeams
        invariant 0 <= i <= nTeams
        invariant numTeams == if nTeams > MAX_TEAMS then MAX_TEAMS else nTeams
        invariant TeamLoop(data, pos, i, nTeams, teamIds[..], teamKills[..])
               == TeamLoop(data, 11, 0, nTeams, old(teamIds[..]), old(teamKills[..]))
      {
        if pos + 2 > |data| {
          return None;
        }
        RecordTeam(i, data[pos]);
        pos := pos + 1;
        var nameLen := data[pos];
        pos := pos + 1;
        if pos + nameLen > |data| {
          return None;
        }
        pos := pos + nameLen;
        i := i + 1;
      }
      return Some(pos);
    }

    /** One row of the team table; rows beyond its end are ignored. */
    method RecordTeam(i: nat, id: byte)
      requires Valid()
      modifies teamIds, teamKills
      ensures teamIds[..] == Record(old(teamIds[..]), i, id) && teamKills[..] == Record(old(teamKills[..]), i, 0)
    {
      if i < MAX_TEAMS {
        teamIds[i] := id;
        teamKills[i] := 0;
      }
    }

    /** First pass over the roster: adopts the local player's team entry by entry. */
    method AdoptTeam(data: seq<byte>, start: nat, nPlayers: byte) returns (end: Option<nat>)
      modifies this`teamId
      ensures (teamId, end) == TeamPass(data, start, nPlayers, playerId, old(teamId))
    {
      var scan: nat := start;
      var i := 0;
      while i < nPlayers
        invariant 0 <= i <= nPlayers
        invariant TeamPass(data, scan, nPlayers - i, playerId, teamId)
               == TeamPass(data, start, nPlayers, playerId, old(teamId))
      {
        if scan + 3 > |data| {
          return None;
        }
        var pid := data[scan];
        scan := scan + 1;
        var tid := data[scan];
        scan := scan + 1;
        var ulen := data[scan];
        scan := scan + 1;
        if scan + ulen > |data| {
          return None;
        }
        scan := scan + ulen;
        if pid == playerId {
          teamId := tid;
        }
        i := i + 1;
      }
      return Some(scan);
    }

    /** Second pass: the first 16 other players on the local team. */
    method BuildFriendlyList(data: seq<byte>, start: nat, nPlayers: byte) returns (end: Option<nat>)
      requires Valid()
      modifies this`friendlyCount, friendlyIds
      ensures Valid()
      ensures (friendlyIds[..friendlyCount], end) == FriendPass(data, start, nPlayers, playerId, teamId, [])
    {
      friendlyCount := 0;
      var pos: nat := start;
      var i := 0;
      assert friendlyIds[..friendlyCount] == [];
      while i < nPlayers
        invariant 0 <= i <= nPlayers && friendlyCount <= MAX_PLAYERS
        invariant FriendPass(data, pos, nPlayers - i, playerId, teamId, friendlyIds[..friendlyCount])
               == FriendPass(data, start, nPlayers, playerId, teamId, [])
      {
        if pos + 3 > |data| {
          return None;
        }
        var pid := data[pos];
        pos := pos + 1;
        var tid := data[pos];
        pos := pos + 1;
        var ulen := data[pos];
        pos := pos + 1;
        if pos + ulen > |data| {
          return None;
        }
        pos := pos + ulen;
        if tid == teamId && pid != playerId {
          if friendlyCount < MAX_PLAYERS {
            AddFriendly(pid);
          }
        }
        i := i + 1;
      }
      return Some(pos);
    }

    method AddFriendly(pid: byte)
      requires Valid() && friendlyCount < MAX_PLAYERS
      modifies this`friendlyCount, friendlyIds
      ensures Valid() && friendlyIds[..friendlyCount] == old(friendlyIds[..friendlyCount]) + [pid]
    {
      friendlyIds[friendlyCount] := pid;
      friendlyCount := friendlyCount + 1;
    }

    /** Applies the first `len` bytes of the raw configuration buffer. */
    method ApplyGameConfig(raw: array<byte>, len: nat)
      requires Valid() && raw.Length == RAW_SIZE && len <= RAW_SIZE
      requires raw != teamIds && raw != friendlyIds
      modifies this`numTeams, this`teamId, this`meshPlayer, this`meshTeam, this`friendlyCount
      modifies teamIds, teamKills, friendlyIds, game`cfg
      ensures Valid() && Abs() == ApplyBlob(old(Abs()), raw[..], len)
    {
      if len < 10 {
        return;
      }
      var data := raw[..len];
      var nTeams := raw[9];
      var nPlayers := raw[10];
      LoopsMeanSections(Abs(), data, nTeams, nPlayers);
      assert raw[..][..len] == data;
      var teamsEnd := ReadTeams(data, nTeams);
      if teamsEnd == None {
        return;
      }
      ApplyRoster(data, teamsEnd.value, nPlayers);
    }

    method ApplyRoster(data: seq<byte>, start: nat, nPlayers: byte)
      requires Valid()
      modifies this`teamId, this`meshPlayer, this`meshTeam, this`friendlyCount, friendlyIds, game`cfg
      ensures Valid() && Abs() == RosterByLoops(old(Abs()), data, start, nPlayers)
    {
      var scan := AdoptTeam(data, start, nPlayers);
      if scan == None {
        return;
      }
      meshPlayer, meshTeam := playerId, teamId;
      var pos := BuildFriendlyList(data, start, nPlayers);
      if pos == None {
        return;
      }
      if pos.value + CONFIG_SIZE <= |data| {
        game.Configure(ParseConfig(data[pos.value..]).(userId := playerId));
      }
    }
  }
}
