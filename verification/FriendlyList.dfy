/** From the roster in a game configuration to the vest's decision about a shooter. */
module FriendlyList {
  import opened Bytes
  import opened GameState
  import opened GameConfig
  import opened Protocol
  import E = GameConfigEncoding
  import Emitter
  import Vest

  /** The vest after a sequence of commands delivered in order. */
  function Deliver(v: Vest.Vest, cmds: seq<seq<byte>>): (v': Vest.Vest)
    requires Vest.Shape(v)
    ensures Vest.Shape(v')
    decreases |cmds|
  {
    if |cmds| == 0 then v else Deliver(Vest.OnCommand(v, cmds[0]), cmds[1..])
  }

  lemma DeliverTwo(v: Vest.Vest, a: seq<byte>, b: seq<byte>)
    requires Vest.Shape(v)
    ensures Deliver(v, [a, b]) == Vest.OnCommand(Vest.OnCommand(v, a), b)
  {
    assert [a, b][1..] == [b];
    DeliverOne(Vest.OnCommand(v, a), b);
  }

  lemma DeliverOne(v: Vest.Vest, cmd: seq<byte>)
    requires Vest.Shape(v)
    ensures Deliver(v, [cmd]) == Vest.OnCommand(v, cmd)
  {
    assert [cmd][1..] == [];
  }

  /** The friendly list survives its encoding, whatever list the vest had before. */
  lemma ListArrives(v: Vest.Vest, ids: seq<byte>)
    requires Vest.Shape(v) && |ids| <= MAX_PLAYERS
    ensures var v' := Vest.OnCommand(v, Emitter.FriendlyListCmd(ids));
            && v'.friends.ids[..v'.friends.count] == ids && v'.friends.fire == v.friends.fire
            && v'.state == (if v.state == Vest.PairedIdle then Vest.GameActive else v.state)
            && v'.hit == v.hit && v'.connected == v.connected
  {
    assert Emitter.FriendlyListCmd(ids)[2..2 + |ids|] == ids;
  }

  /** A list with fewer ids than it announces changes the number of friends but not the ids. */
  lemma CutListKeepsIds(v: Vest.Vest, data: seq<byte>)
    requires Vest.Shape(v) && |data| >= 2 && data[0] == VEST_CMD_FRIENDLY_LIST
    requires |data| < 2 + if data[1] > MAX_PLAYERS then MAX_PLAYERS else data[1]
    ensures var v' := Vest.OnCommand(v, data);
            && v'.friends.ids == v.friends.ids && v'.friends.fire == v.friends.fire
            && v'.friends.count == (if data[1] > MAX_PLAYERS then MAX_PLAYERS else data[1])
            && v'.state == (if v.state == Vest.PairedIdle then Vest.GameActive else v.state)
  {
  }

  /** The two writes of a game start make the vest treat exactly the listed players as friends,
      unless friendly fire is on, and put an idle vest into the game. */
  lemma SetupArrives(e: Emitter.Emitter, v: Vest.Vest, p: byte)
    requires Emitter.Shape(e) && e.vestReady && Vest.Shape(v)
    ensures var v' := Deliver(v, Emitter.GameSetup(e));
            && (Vest.IsFriendly(v'.friends, p) <==> e.game.cfg.friendlyFire == 0 && p in e.setup.friendlies)
            && v'.state == (if v.state == Vest.PairedIdle then Vest.GameActive else v.state)
            && v'.hit == v.hit && v'.connected == v.connected
  {
    var list, fire := Emitter.FriendlyListCmd(e.setup.friendlies), Emitter.FriendlyFireCmd(e.game.cfg.friendlyFire);
    ListArrives(v, e.setup.friendlies);
    DeliverTwo(v, list, fire);
  }

  /** A vest follows its emitter into a game exactly if it is paired and not dead: a vest left dead by
      the previous game stays dead through the start of the next one. */
  lemma VestJoinsUnlessDead(e: Emitter.Emitter, v: Vest.Vest)
    requires Emitter.Shape(e) && e.vestReady && Vest.Shape(v)
    ensures Deliver(v, Emitter.GameSetup(e)).state == Vest.GameActive
       <==> v.state == Vest.PairedIdle || v.state == Vest.GameActive
  {
    SetupArrives(e, v, 0);
  }

  /** The team of the local player according to the roster. */
  function LocalTeam(e: Emitter.Emitter, players: seq<E.Player>): byte {
    LastTeam(E.Entries(players), e.setup.playerId, e.setup.teamId)
  }

  function Mates(e: Emitter.Emitter, players: seq<E.Player>): seq<byte> {
    First(Teammates(E.Entries(players), e.setup.playerId, LocalTeam(e, players)), MAX_PLAYERS)
  }

  lemma StartedSetup(e: Emitter.Emitter, header: seq<byte>, teams: seq<E.Team>, players: seq<E.Player>, cfg: Config,
                     rest: seq<byte>)
    requires Emitter.Shape(e) && |header| == 9 && E.TeamsFit(teams) && E.PlayersFit(players)
    requires |E.Blob(header, teams, players, E.EncodeConfig(cfg) + rest)| <= RAW_SIZE
    ensures var e' := Emitter.StartGameLocal(e, E.Blob(header, teams, players, E.EncodeConfig(cfg) + rest)).0;
            && e'.setup.friendlies == Mates(e, players) && e'.game.cfg == cfg.(userId := e.setup.playerId)
            && e'.setup.playerId == e.setup.playerId && e'.setup.teamId == LocalTeam(e, players)
            && e'.setup.meshPlayer == e.setup.playerId && e'.setup.meshTeam == LocalTeam(e, players)
            && e'.mode == Emitter.GameActive && e'.vestReady == e.vestReady
  {
    var blob := E.Blob(header, teams, players, E.EncodeConfig(cfg) + rest);
    var raw := Emitter.StoreRaw(e.raw, blob);
    assert raw[..|blob|] == blob;
    E.WellFormedBlob(e.setup, raw, |blob|, header, teams, players, cfg, rest);
  }

  // ----- who is among the mates -----

  lemma {:induction false} TeammateAt(entries: seq<Entry>, pid: byte, team: byte, j: nat) returns (i: nat)
    requires j < |Teammates(entries, pid, team)|
    ensures i < |entries| && IsTeammate(entries[i], pid, team)
    ensures |Teammates(entries[..i], pid, team)| == j && Teammates(entries, pid, team)[j] == entries[i].pid
    decreases |entries|
  {
    var mate := IsTeammate(entries[0], pid, team);
    if mate && j == 0 {
      i := 0;
    } else {
      var k := TeammateAt(entries[1..], pid, team, if mate then j - 1 else j);
      i := k + 1;
      PrefixTeammates(entries, pid, team, i);
    }
  }

  lemma PrefixTeammates(entries: seq<Entry>, pid: byte, team: byte, i: nat)
    requires 0 < i <= |entries|
    ensures |Teammates(entries[..i], pid, team)|
         == |Teammates(entries[1..][..i - 1], pid, team)| + if IsTeammate(entries[0], pid, team) then 1 else 0
  {
    assert entries[..i][1..] == entries[1..][..i - 1];
  }

  lemma {:induction false} RankOf(entries: seq<Entry>, pid: byte, team: byte, i: nat)
    requires i < |entries| && IsTeammate(entries[i], pid, team)
    ensures var j := |Teammates(entries[..i], pid, team)|;
            j < |Teammates(entries, pid, team)| && Teammates(entries, pid, team)[j] == entries[i].pid
    decreases |entries|
  {
    if i > 0 {
      RankOf(entries[1..], pid, team, i - 1);
      PrefixTeammates(entries, pid, team, i);
    }
  }

  /** How many of the first `i` roster entries are for other players on the team. */
  function MatesBefore(entries: seq<Entry>, pid: byte, team: byte, i: nat): nat
    requires i <= |entries|
    decreases i
  {
    if i == 0 then 0
    else
      MatesBefore(entries, pid, team, i - 1)
      + if entries[i - 1].tid == team && entries[i - 1].pid != pid then 1 else 0
  }

  lemma {:induction false} MatesCounted(entries: seq<Entry>, pid: byte, team: byte, i: nat)
    requires i <= |entries|
    ensures MatesBefore(entries, pid, team, i) == |Teammates(entries[..i], pid, team)|
    decreases i
  {
    if i > 0 {
      MatesCounted(entries, pid, team, i - 1);
      LastTeammate(entries[..i - 1], entries[i - 1], pid, team);
      assert entries[..i] == entries[..i - 1] + [entries[i - 1]];
    }
  }

  lemma {:induction false} LastTeammate(entries: seq<Entry>, last: Entry, pid: byte, team: byte)
    ensures |Teammates(entries + [last], pid, team)|
         == |Teammates(entries, pid, team)| + if last.tid == team && last.pid != pid then 1 else 0
    decreases |entries|
  {
    if |entries| == 0 {
      assert [last][1..] == [] && entries + [last] == [last];
    } else {
      assert (entries + [last])[1..] == entries[1..] + [last];
      LastTeammate(entries[1..], last, pid, team);
    }
  }

  /** Roster entry `i` is another player on the team, with fewer than `n` such entries before it. */
  predicate Listed(entries: seq<Entry>, pid: byte, team: byte, n: nat, i: nat)
    requires i < |entries|
  {
    entries[i].tid == team && entries[i].pid != pid && MatesBefore(entries, pid, team, i) < n
  }

  lemma AmongFirst(entries: seq<Entry>, pid: byte, team: byte, n: nat, p: byte)
    ensures p in First(Teammates(entries, pid, team), n)
       <==> exists i :: 0 <= i < |entries| && entries[i].pid == p && Listed(entries, pid, team, n, i)
  {
    var mates := Teammates(entries, pid, team);
    if p in First(mates, n) {
      var j :| 0 <= j < |First(mates, n)| && First(mates, n)[j] == p;
      var i := TeammateAt(entries, pid, team, j);
      MatesCounted(entries, pid, team, i);
      assert Listed(entries, pid, team, n, i);
    }
    if i :| 0 <= i < |entries| && entries[i].pid == p && Listed(entries, pid, team, n, i) {
      MatesCounted(entries, pid, team, i);
      RankOf(entries, pid, team, i);
      assert First(mates, n)[|Teammates(entries[..i], pid, team)|] == p;
    }
  }

  // ----- end to end -----

  /** Player `p` has a roster entry on the local team that at most fifteen other players' entries precede. */
  predicate Friend(e: Emitter.Emitter, players: seq<E.Player>, p: byte) {
    var entries := E.Entries(players);
    exists i :: 0 <= i < |entries| && entries[i].pid == p
                && Listed(entries, e.setup.playerId, LocalTeam(e, players), MAX_PLAYERS, i)
  }

  /** End to end: after a game start from a well-formed configuration whose two writes reach the vest
      in order, the vest counts a shooter as a friend exactly when friendly fire is off and the shooter
      is among the first sixteen other players of the local team in the roster. */
  lemma FriendsEndToEnd(e: Emitter.Emitter, v: Vest.Vest, header: seq<byte>, teams: seq<E.Team>, players: seq<E.Player>,
                        cfg: Config, rest: seq<byte>, p: byte)
    requires Emitter.Shape(e) && e.vestReady && Vest.Shape(v)
    requires |header| == 9 && E.TeamsFit(teams) && E.PlayersFit(players)
    requires |E.Blob(header, teams, players, E.EncodeConfig(cfg) + rest)| <= RAW_SIZE
    ensures var blob := E.Blob(header, teams, players, E.EncodeConfig(cfg) + rest);
            var v' := Deliver(v, Emitter.StartGameLocal(e, blob).1);
            && (Vest.IsFriendly(v'.friends, p) <==> cfg.friendlyFire == 0 && Friend(e, players, p))
            && v'.state == (if v.state == Vest.PairedIdle then Vest.GameActive else v.state)
            && v'.hit == v.hit && v'.connected == v.connected
  {
    StartedSetup(e, header, teams, players, cfg, rest);
    var blob := E.Blob(header, teams, players, E.EncodeConfig(cfg) + rest);
    SetupArrives(Emitter.StartGameLocal(e, blob).0, v, p);
    AmongFirst(E.Entries(players), e.setup.playerId, LocalTeam(e, players), MAX_PLAYERS, p);
  }
}
