/** The configuration blob against its encoding: a well-formed blob sets exactly what it encodes,
    and a blob cut off inside the teams or the roster leaves friends and configuration alone. */
module GameConfigEncoding {
  import opened Bytes
  import opened GameState
  import opened GameConfig
  import opened Protocol

  datatype Team = Team(id: byte, name: seq<byte>)
  datatype Player = Player(pid: byte, tid: byte, name: seq<byte>)

  predicate TeamsFit(teams: seq<Team>) {
    |teams| < 0x100 && forall i :: 0 <= i < |teams| ==> |teams[i].name| < 0x100
  }

  predicate PlayersFit(players: seq<Player>) {
    |players| < 0x100 && forall i :: 0 <= i < |players| ==> |players[i].name| < 0x100
  }

  function EncodeTeams(teams: seq<Team>): seq<byte>
    requires TeamsFit(teams)
  {
    if |teams| == 0 then []
    else [teams[0].id, |teams[0].name|] + teams[0].name + EncodeTeams(teams[1..])
  }

  function EncodePlayers(players: seq<Player>): seq<byte>
    requires PlayersFit(players)
  {
    if |players| == 0 then []
    else [players[0].pid, players[0].tid, |players[0].name|] + players[0].name + EncodePlayers(players[1..])
  }

  function EncodeConfig(c: Config): (b: seq<byte>)
    ensures |b| == CONFIG_SIZE
  {
    [c.userId, c.damage] + PutLe16(c.magSize) + PutLe16(c.fireRateMs) + PutLe16(c.reloadSpeedMs)
    + [c.fullAuto, c.ammoType] + PutLe16(c.initialTotalAmmo) + [c.maxHealth, c.friendlyFire]
  }

  lemma ConfigRoundTrip(c: Config, rest: seq<byte>)
    ensures ParseConfig(EncodeConfig(c) + rest) == c
  {
    Le16RoundTrip(c.magSize);
    Le16RoundTrip(c.fireRateMs);
    Le16RoundTrip(c.reloadSpeedMs);
    Le16RoundTrip(c.initialTotalAmmo);
  }

  /** A blob: nine header bytes, the two counts, the sections, and whatever follows. */
  function Blob(header: seq<byte>, teams: seq<Team>, players: seq<Player>, rest: seq<byte>): seq<byte>
    requires |header| == 9 && TeamsFit(teams) && PlayersFit(players)
  {
    Prefix(header, |teams|, |players|) + EncodeTeams(teams) + EncodePlayers(players) + rest
  }

  function Prefix(header: seq<byte>, nTeams: byte, nPlayers: byte): (p: seq<byte>)
    requires |header| == 9
    ensures |p| == 11 && p[9] == nTeams && p[10] == nPlayers
  {
    header + [nTeams, nPlayers]
  }

  function TeamIds(teams: seq<Team>): seq<byte> {
    seq(|teams|, i requires 0 <= i < |teams| => teams[i].id)
  }

  function Entries(players: seq<Player>): seq<Entry> {
    seq(|players|, i requires 0 <= i < |players| => Entry(players[i].pid, players[i].tid))
  }

  lemma TeamIdsFront(t: Team, rest: seq<Team>)
    ensures TeamIds([t] + rest) == [t.id] + TeamIds(rest)
  {
  }

  lemma EntriesFront(p: Player, rest: seq<Player>)
    ensures Entries([p] + rest) == [Entry(p.pid, p.tid)] + Entries(rest)
  {
  }

  lemma EncodeTeamFront(t: Team, rest: seq<Team>)
    requires TeamsFit([t] + rest) && TeamsFit(rest)
    ensures EncodeTeams([t] + rest) == [t.id, |t.name|] + t.name + EncodeTeams(rest)
  {
    assert ([t] + rest)[1..] == rest;
  }

  lemma EncodeFront(p: Player, rest: seq<Player>)
    requires PlayersFit([p] + rest) && PlayersFit(rest)
    ensures EncodePlayers([p] + rest) == [p.pid, p.tid, |p.name|] + p.name + EncodePlayers(rest)
  {
    assert ([p] + rest)[1..] == rest;
  }

  // ----- reading back what was encoded -----

  lemma {:induction false} TeamsReadBack(pre: seq<byte>, teams: seq<Team>, rest: seq<byte>)
    requires TeamsFit(teams)
    ensures TeamsFrom(pre + EncodeTeams(teams) + rest, |pre|, |teams|)
         == (TeamIds(teams), Some(|pre| + |EncodeTeams(teams)|))
    decreases |teams|
  {
    if |teams| > 0 {
      var t := teams[0];
      var row := [t.id, |t.name|] + t.name;
      TeamsReadBack(pre + row, teams[1..], rest);
      var data := pre + EncodeTeams(teams) + rest;
      assert data == pre + row + EncodeTeams(teams[1..]) + rest;
      assert data[|pre|] == row[0] && data[|pre| + 1] == row[1];
      assert TeamIds(teams) == [t.id] + TeamIds(teams[1..]);
    }
  }

  lemma {:induction false} RosterReadsBack(pre: seq<byte>, players: seq<Player>, rest: seq<byte>)
    requires PlayersFit(players)
    ensures RosterFrom(pre + EncodePlayers(players) + rest, |pre|, |players|)
         == (Entries(players), Some(|pre| + |EncodePlayers(players)|))
    decreases |players|
  {
    if |players| > 0 {
      var p := players[0];
      var row := [p.pid, p.tid, |p.name|] + p.name;
      RosterReadsBack(pre + row, players[1..], rest);
      var data := pre + EncodePlayers(players) + rest;
      assert data == pre + row + EncodePlayers(players[1..]) + rest;
      assert data[|pre|] == row[0] && data[|pre| + 1] == row[1] && data[|pre| + 2] == row[2];
      assert Entries(players) == [Entry(p.pid, p.tid)] + Entries(players[1..]);
    }
  }

  /** In the first `n` bytes of encoded teams the two leading bytes of the first `k` are there, and no more. */
  predicate TeamsCutAfter(teams: seq<Team>, n: nat, k: nat)
    requires TeamsFit(teams)
  {
    && k <= |teams|
    && (k > 0 ==> |EncodeTeams(teams[..k - 1])| + 2 <= n)
    && (k < |teams| ==> n < |EncodeTeams(teams[..k])| + 2)
  }

  lemma TeamsCutAfterOne(teams: seq<Team>, n: nat, k: nat)
    requires TeamsFit(teams) && |teams| > 0 && n >= 2 + |teams[0].name|
    requires TeamsCutAfter(teams[1..], n - 2 - |teams[0].name|, k)
    ensures TeamsCutAfter(teams, n, k + 1)
  {
    var t, rest := teams[0], teams[1..];
    assert teams[..k + 1] == [t] + rest[..k];
    EncodeTeamFront(t, rest[..k]);
    if k > 0 {
      assert teams[..k] == [t] + rest[..k - 1];
      EncodeTeamFront(t, rest[..k - 1]);
    } else {
      assert teams[..0] == [];
    }
  }

  lemma TeamsCutInFirst(teams: seq<Team>, n: nat)
    requires TeamsFit(teams) && |teams| > 0 && n < 2 + |teams[0].name|
    ensures TeamsCutAfter(teams, n, if n >= 2 then 1 else 0)
  {
    assert teams[..0] == [] && teams[..1] == [teams[0]] + [];
    EncodeTeamFront(teams[0], []);
  }

  /** The two leading bytes of the first team. */
  lemma HeadOfTeams(pre: seq<byte>, teams: seq<Team>, data: seq<byte>)
    requires TeamsFit(teams) && |teams| > 0 && data <= pre + EncodeTeams(teams) && |data| >= |pre| + 2
    ensures data[|pre|] == teams[0].id && data[|pre| + 1] == |teams[0].name|
  {
    var t := teams[0];
    var whole := pre + [t.id, |t.name|] + (t.name + EncodeTeams(teams[1..]));
    assert pre + EncodeTeams(teams) == whole;
    assert whole[|pre|] == t.id && whole[|pre| + 1] == |t.name|;
  }

  lemma CutInFirstTeam(pre: seq<byte>, teams: seq<Team>, data: seq<byte>) returns (k: nat)
    requires TeamsFit(teams) && |teams| > 0 && data <= pre + EncodeTeams(teams)
    requires |pre| <= |data| < |pre| + 2 + |teams[0].name|
    ensures TeamsCutAfter(teams, |data| - |pre|, k)
    ensures TeamsFrom(data, |pre|, |teams|) == (TeamIds(teams[..k]), None)
  {
    TeamsCutInFirst(teams, |data| - |pre|);
    if |data| >= |pre| + 2 {
      k := 1;
      HeadOfTeams(pre, teams, data);
      assert TeamIds(teams[..1]) == [teams[0].id];
    } else {
      k := 0;
      assert TeamIds(teams[..0]) == [];
    }
  }

  lemma OneMoreTeam(data: seq<byte>, pos: nat, teams: seq<Team>, more: nat)
    requires |teams| > 0 && more < |teams| && |teams[0].name| < 0x100 && pos + 2 + |teams[0].name| <= |data|
    requires data[pos] == teams[0].id && data[pos + 1] == |teams[0].name|
    requires TeamsFrom(data, pos + 2 + |teams[0].name|, |teams| - 1) == (TeamIds(teams[1..][..more]), None)
    ensures TeamsFrom(data, pos, |teams|) == (TeamIds(teams[..more + 1]), None)
  {
    TeamIdsFront(teams[0], teams[1..][..more]);
    assert teams[..more + 1] == [teams[0]] + teams[1..][..more];
  }

  /** Of a blob cut inside the team section exactly the ids are read of those teams whose two leading
      bytes are still there. */
  lemma {:induction false} CutTeams(pre: seq<byte>, teams: seq<Team>, data: seq<byte>) returns (k: nat)
    requires TeamsFit(teams) && |pre| <= |data| < |pre + EncodeTeams(teams)|
    requires data <= pre + EncodeTeams(teams)
    ensures TeamsCutAfter(teams, |data| - |pre|, k)
    ensures TeamsFrom(data, |pre|, |teams|) == (TeamIds(teams[..k]), None)
    decreases |teams|
  {
    var t, rest := teams[0], teams[1..];
    var row := [t.id, |t.name|] + t.name;
    if |data| < |pre + row| {
      k := CutInFirstTeam(pre, teams, data);
    } else {
      assert pre + EncodeTeams(teams) == pre + row + EncodeTeams(rest);
      var more := CutTeams(pre + row, rest, data);
      k := more + 1;
      HeadOfTeams(pre, teams, data);
      OneMoreTeam(data, |pre|, teams, more);
      TeamsCutAfterOne(teams, |data| - |pre|, more);
    }
  }

  /** The three leading bytes of the first entry. */
  lemma HeadOfRoster(pre: seq<byte>, players: seq<Player>, data: seq<byte>)
    requires PlayersFit(players) && |players| > 0 && data <= pre + EncodePlayers(players) && |data| >= |pre| + 3
    ensures data[|pre|] == players[0].pid && data[|pre| + 1] == players[0].tid
    ensures data[|pre| + 2] == |players[0].name|
  {
    var p := players[0];
    var whole := pre + [p.pid, p.tid, |p.name|] + (p.name + EncodePlayers(players[1..]));
    assert pre + EncodePlayers(players) == whole;
    assert whole[|pre|] == p.pid && whole[|pre| + 1] == p.tid && whole[|pre| + 2] == |p.name|;
  }

  lemma FirstEntryMissing(data: seq<byte>, pos: nat, n: nat)
    requires n > 0 && (pos + 3 > |data| || pos + 3 + data[pos + 2] > |data|)
    ensures RosterFrom(data, pos, n) == ([], None)
  {
  }

  lemma FirstEntryRead(data: seq<byte>, pos: nat, n: nat)
    requires n > 0 && pos + 3 <= |data| && pos + 3 + data[pos + 2] <= |data|
    ensures var (entries, end) := RosterFrom(data, pos + 3 + data[pos + 2], n - 1);
            RosterFrom(data, pos, n) == ([Entry(data[pos], data[pos + 1])] + entries, end)
  {
  }

  lemma OneMoreEntry(data: seq<byte>, pos: nat, players: seq<Player>, more: nat)
    requires |players| > 0 && more < |players| && |players[0].name| < 0x100
    requires pos + 3 + |players[0].name| <= |data|
    requires data[pos] == players[0].pid && data[pos + 1] == players[0].tid && data[pos + 2] == |players[0].name|
    requires RosterFrom(data, pos + 3 + |players[0].name|, |players| - 1) == (Entries(players[1..][..more]), None)
    ensures RosterFrom(data, pos, |players|) == (Entries(players[..more + 1]), None)
  {
    FirstEntryRead(data, pos, |players|);
    EntriesFront(players[0], players[1..][..more]);
    assert players[..more + 1] == [players[0]] + players[1..][..more];
  }

  /** The first `k` entries are complete in the first `n` bytes of an encoded roster, and no more. */
  predicate CutAfter(players: seq<Player>, n: nat, k: nat)
    requires PlayersFit(players)
  {
    k < |players| && |EncodePlayers(players[..k])| <= n < |EncodePlayers(players[..k + 1])|
  }

  lemma CutAfterOne(players: seq<Player>, n: nat, k: nat)
    requires PlayersFit(players) && |players| > 0 && n >= 3 + |players[0].name|
    requires CutAfter(players[1..], n - 3 - |players[0].name|, k)
    ensures CutAfter(players, n, k + 1)
  {
    var p, rest := players[0], players[1..];
    assert players[..k + 1] == [p] + rest[..k] && players[..k + 2] == [p] + rest[..k + 1];
    EncodeFront(p, rest[..k]);
    EncodeFront(p, rest[..k + 1]);
  }

  lemma CutAfterNone(players: seq<Player>, n: nat)
    requires PlayersFit(players) && |players| > 0 && n < 3 + |players[0].name|
    ensures CutAfter(players, n, 0)
  {
    assert players[..0] == [] && players[..1] == [players[0]] + [];
    EncodeFront(players[0], []);
  }

  /** Of a blob cut inside the roster exactly the complete entries are read. */
  lemma {:induction false} CutRoster(pre: seq<byte>, players: seq<Player>, data: seq<byte>) returns (k: nat)
    requires PlayersFit(players) && |pre| <= |data| < |pre + EncodePlayers(players)|
    requires data <= pre + EncodePlayers(players)
    ensures CutAfter(players, |data| - |pre|, k)
    ensures RosterFrom(data, |pre|, |players|) == (Entries(players[..k]), None)
    decreases |players|
  {
    var p, rest := players[0], players[1..];
    var row := [p.pid, p.tid, |p.name|] + p.name;
    if |data| < |pre| + |row| {
      k := 0;
      if |data| >= |pre| + 3 {
        HeadOfRoster(pre, players, data);
      }
      FirstEntryMissing(data, |pre|, |players|);
      CutAfterNone(players, |data| - |pre|);
      assert Entries(players[..0]) == [];
    } else {
      assert pre + EncodePlayers(players) == pre + row + EncodePlayers(rest);
      var more := CutRoster(pre + row, rest, data);
      k := more + 1;
      HeadOfRoster(pre, players, data);
      OneMoreEntry(data, |pre|, players, more);
      CutAfterOne(players, |data| - |pre|, more);
    }
  }

  // ----- what the tables and the team mean -----

  lemma {:induction false} RecordedRows<T>(table: seq<T>, i: nat, values: seq<T>, k: nat)
    requires k < |table|
    ensures RecordFrom(table, i, values)[k] == if i <= k < i + |values| then values[k - i] else table[k]
    decreases |values|
  {
    if |values| > 0 {
      RecordedRows(Record(table, i, values[0]), i + 1, values[1..], k);
    }
  }

  lemma {:induction false} LastTeamIsLast(entries: seq<Entry>, pid: byte, otherwise: byte, i: nat)
    requires i < |entries| && entries[i].pid == pid
    requires forall j :: i < j < |entries| ==> entries[j].pid != pid
    ensures LastTeam(entries, pid, otherwise) == entries[i].tid
    decreases |entries|
  {
    var next := if entries[0].pid == pid then entries[0].tid else otherwise;
    if i == 0 {
      NoTeam(entries[1..], pid, next);
    } else {
      LastTeamIsLast(entries[1..], pid, next, i - 1);
    }
  }

  lemma {:induction false} NoTeam(entries: seq<Entry>, pid: byte, otherwise: byte)
    requires forall j :: 0 <= j < |entries| ==> entries[j].pid != pid
    ensures LastTeam(entries, pid, otherwise) == otherwise
    decreases |entries|
  {
    if |entries| > 0 {
      NoTeam(entries[1..], pid, otherwise);
    }
  }

  // ----- the blob -----

  /** What a game start is meant to set up: the local team from the roster's last entry for this
      player, the first six team rows, the first sixteen other players of that team as friends,
      and the configuration with the local player's id. */
  function Configured(s: Setup, teams: seq<Team>, players: seq<Player>, cfg: Config): Setup {
    var team := LastTeam(Entries(players), s.playerId, s.teamId);
    s.(teamId := team, meshPlayer := s.playerId, meshTeam := team,
       numTeams := if |teams| > MAX_TEAMS then MAX_TEAMS else |teams|,
       teamIds := RecordFrom(s.teamIds, 0, TeamIds(teams)),
       teamKills := RecordFrom(s.teamKills, 0, Zeros(|teams|)),
       friendlies := First(Teammates(Entries(players), s.playerId, team), MAX_PLAYERS),
       cfg := cfg.(userId := s.playerId))
  }

  lemma WellFormedBlob(s: Setup, raw: seq<byte>, len: nat, header: seq<byte>, teams: seq<Team>, players: seq<Player>,
                       cfg: Config, rest: seq<byte>)
    requires |raw| == RAW_SIZE && len <= RAW_SIZE && |header| == 9 && TeamsFit(teams) && PlayersFit(players)
    requires raw[..len] == Blob(header, teams, players, EncodeConfig(cfg) + rest)
    ensures ApplyBlob(s, raw, len) == Configured(s, teams, players, cfg)
  {
    var tail := EncodeConfig(cfg) + rest;
    SameBlob(header, teams, players, tail);
    HeaderCounts(raw, len, header, |teams|, |players|, EncodeTeams(teams) + EncodePlayers(players) + tail);
    ConfigRoundTrip(cfg, rest);
    SectionsReadBack(s, Prefix(header, |teams|, |players|), teams, players, tail);
  }

  lemma SameBlob(header: seq<byte>, teams: seq<Team>, players: seq<Player>, tail: seq<byte>)
    requires |header| == 9 && TeamsFit(teams) && PlayersFit(players)
    ensures Blob(header, teams, players, tail)
         == Prefix(header, |teams|, |players|) + (EncodeTeams(teams) + EncodePlayers(players) + tail)
  {
  }

  lemma SectionsReadBack(s: Setup, pre: seq<byte>, teams: seq<Team>, players: seq<Player>, tail: seq<byte>)
    requires |pre| == 11 && |tail| >= CONFIG_SIZE && TeamsFit(teams) && PlayersFit(players)
    ensures ApplySections(s, pre + EncodeTeams(teams) + EncodePlayers(players) + tail, |teams|, |players|)
         == Configured(s, teams, players, ParseConfig(tail))
  {
    var before, roster := pre + EncodeTeams(teams), EncodePlayers(players);
    Regroup(before, roster, tail);
    SectionsIn(s, before + roster + tail, pre, teams, players, tail, before, roster + tail);
  }

  lemma SectionsIn(s: Setup, data: seq<byte>, pre: seq<byte>, teams: seq<Team>, players: seq<Player>,
                   tail: seq<byte>, before: seq<byte>, behind: seq<byte>)
    requires |pre| == 11 && |tail| >= CONFIG_SIZE && TeamsFit(teams) && PlayersFit(players)
    requires before == pre + EncodeTeams(teams) && data == before + behind
    requires data == before + EncodePlayers(players) + tail
    requires data[|before| + |EncodePlayers(players)|..] == tail
    ensures ApplySections(s, data, |teams|, |players|) == Configured(s, teams, players, ParseConfig(tail))
  {
    TeamsReadBack(pre, teams, behind);
    RosterReadsBack(before, players, tail);
    SectionsRead(s, data, teams, players, |before|, |before| + |EncodePlayers(players)|);
  }

  lemma Regroup(a: seq<byte>, b: seq<byte>, c: seq<byte>)
    ensures a + b + c == a + (b + c) && (a + b + c)[|a| + |b|..] == c
  {
  }

  lemma SectionsRead(s: Setup, data: seq<byte>, teams: seq<Team>, players: seq<Player>, teamsEnd: nat, end: nat)
    requires |teams| < 0x100 && |players| < 0x100 && end + CONFIG_SIZE <= |data|
    requires TeamsFrom(data, 11, |teams|) == (TeamIds(teams), Some(teamsEnd))
    requires RosterFrom(data, teamsEnd, |players|) == (Entries(players), Some(end))
    ensures ApplySections(s, data, |teams|, |players|) == Configured(s, teams, players, ParseConfig(data[end..]))
  {
  }

  lemma HeaderCounts(raw: seq<byte>, len: nat, header: seq<byte>, nTeams: byte, nPlayers: byte, rest: seq<byte>)
    requires |raw| == RAW_SIZE && len <= RAW_SIZE && |header| == 9
    requires raw[..len] == Prefix(header, nTeams, nPlayers) + rest
    ensures len >= 11 && raw[9] == nTeams && raw[10] == nPlayers
  {
    assert raw[..len][9] == nTeams && raw[..len][10] == nPlayers;
  }

  /** What a blob cut inside the teams leaves behind: the number of teams announced and the rows read. */
  function CutInTeams(s: Setup, teams: seq<Team>, k: nat): Setup
    requires k <= |teams|
  {
    AfterTeams(s, TeamIds(teams[..k]), |teams|)
  }

  /** What a blob cut inside the roster leaves behind: all teams, and the local team of the last complete
      entry for the player. */
  function CutInRoster(s: Setup, teams: seq<Team>, players: seq<Player>, k: nat): Setup
    requires k <= |players|
  {
    AfterTeams(s, TeamIds(teams), |teams|).(teamId := LastTeam(Entries(players[..k]), s.playerId, s.teamId))
  }

  /** The exact result of a blob cut anywhere inside the team or roster section: friendly list, mesh
      identity and configuration stay as they were. */
  lemma TruncatedBlob(s: Setup, raw: seq<byte>, len: nat, header: seq<byte>, teams: seq<Team>, players: seq<Player>)
    returns (k: nat)
    requires |raw| == RAW_SIZE && 11 <= len <= RAW_SIZE && |header| == 9 && TeamsFit(teams) && PlayersFit(players)
    requires len < |Blob(header, teams, players, [])| && raw[..len] <= Blob(header, teams, players, [])
    ensures var s' := ApplyBlob(s, raw, len);
            var before := |Prefix(header, |teams|, |players|) + EncodeTeams(teams)|;
            && (if len < before then TeamsCutAfter(teams, len - 11, k) && s' == CutInTeams(s, teams, k)
                else CutAfter(players, len - before, k) && s' == CutInRoster(s, teams, players, k))
            && s'.friendlies == s.friendlies && s'.cfg == s.cfg
            && s'.meshPlayer == s.meshPlayer && s'.meshTeam == s.meshTeam
  {
    var data := raw[..len];
    var pre := Prefix(header, |teams|, |players|);
    var before := pre + EncodeTeams(teams);
    WholeBlob(raw, data, header, teams, players);
    if len < |before| {
      k := CutTeams(pre, teams, data);
    } else {
      TeamsReadBack(pre, teams, data[|before|..]);
      k := CutRoster(before, players, data);
    }
  }

  lemma WholeBlob(raw: seq<byte>, data: seq<byte>, header: seq<byte>, teams: seq<Team>, players: seq<Player>)
    requires |header| == 9 && TeamsFit(teams) && PlayersFit(players) && 11 <= |data| <= |raw|
    requires data == raw[..|data|] && data <= Blob(header, teams, players, [])
    ensures var before := Prefix(header, |teams|, |players|) + EncodeTeams(teams);
            && raw[9] == |teams| && raw[10] == |players|
            && Blob(header, teams, players, []) == before + EncodePlayers(players)
            && (if |data| < |before| then data <= before else data == before + data[|before|..])
  {
    var whole := Blob(header, teams, players, []);
    var pre := Prefix(header, |teams|, |players|);
    assert whole == pre + EncodeTeams(teams) + EncodePlayers(players);
    assert data[9] == whole[9] == pre[9] && data[10] == whole[10] == pre[10];
  }

  /** The teams are complete, the roster is cut: the player moves to the team of its last complete entry,
      but the mesh is not told. */
  predicate CutsRoster(raw: seq<byte>, len: nat)
    requires |raw| == RAW_SIZE && len <= RAW_SIZE
  {
    && len >= 10
    && var teamsEnd := TeamsFrom(raw[..len], 11, raw[9]).1;
    teamsEnd.Some? && RosterFrom(raw[..len], teamsEnd.value, raw[10]).1 == None
  }

  predicate Completes(raw: seq<byte>, len: nat)
    requires |raw| == RAW_SIZE && len <= RAW_SIZE
  {
    && len >= 10
    && var teamsEnd := TeamsFrom(raw[..len], 11, raw[9]).1;
    teamsEnd.Some? && RosterFrom(raw[..len], teamsEnd.value, raw[10]).1.Some?
  }

  /** The player's team after a cut roster. */
  function MovedTeam(s: Setup, raw: seq<byte>, len: nat): byte
    requires |raw| == RAW_SIZE && len <= RAW_SIZE && CutsRoster(raw, len)
  {
    var teamsEnd := TeamsFrom(raw[..len], 11, raw[9]).1.value;
    LastTeam(RosterFrom(raw[..len], teamsEnd, raw[10]).0, s.playerId, s.teamId)
  }

  /** What a blob makes of the local team and the team known to the mesh: complete sections make them
      one, a cut roster moves the player alone, anything else changes neither. */
  lemma IdentitiesPart(s: Setup, raw: seq<byte>, len: nat)
    requires |raw| == RAW_SIZE && len <= RAW_SIZE
    ensures var s' := ApplyBlob(s, raw, len);
            && s'.playerId == s.playerId && (s'.meshPlayer == s.meshPlayer || s'.meshPlayer == s.playerId)
            && (s'.meshTeam != s'.teamId <==>
                  !Completes(raw, len)
                  && s.meshTeam != if CutsRoster(raw, len) then MovedTeam(s, raw, len) else s.teamId)
  {
  }

  /** A blob that makes them part, in fourteen bytes: no teams, two players announced, and only the entry
      of the local player there. */
  lemma IdentitiesCanPart(s: Setup, raw: seq<byte>, tid: byte)
    requires |raw| == RAW_SIZE && s.meshTeam == s.teamId && tid != s.teamId
    requires raw[9..14] == [0, 2, s.playerId, tid, 0]
    ensures ApplyBlob(s, raw, 14).teamId == tid && ApplyBlob(s, raw, 14).meshTeam == s.teamId
  {
    var data := raw[..14];
    assert raw[9..14][0] == raw[9] && raw[9..14][1] == raw[10] && raw[9..14][2] == raw[11];
    assert raw[9..14][3] == raw[12] && raw[9..14][4] == raw[13];
    assert RosterFrom(data, 14, 1) == ([], None);
    var entries := [Entry(s.playerId, tid)];
    assert RosterFrom(data, 11, 2) == (entries + [], None);
    assert entries + [] == entries && entries[1..] == [];
    assert LastTeam(entries, s.playerId, s.teamId) == LastTeam([], s.playerId, tid);
  }

  /** A ten-byte blob passes the length guard. It sets the number of teams, and only if that is zero
      and the buffer still holds a zero at index 10, beyond the blob, does it also clear the friendly
      list and pass on the local identity. */
  lemma TenByteBlob(s: Setup, raw: seq<byte>)
    requires |raw| == RAW_SIZE
    ensures ApplyBlob(s, raw, 10)
         == if raw[9] == 0 && raw[10] == 0 then
              s.(numTeams := 0, meshPlayer := s.playerId, meshTeam := s.teamId, friendlies := [])
            else s.(numTeams := if raw[9] > MAX_TEAMS then MAX_TEAMS else raw[9])
  {
    var data := raw[..10];
    assert TeamsFrom(data, 11, raw[9]) == ([], if raw[9] == 0 then Some(11) else None);
    assert RosterFrom(data, 11, raw[10]) == ([], if raw[10] == 0 then Some(11) else None);
  }
}
