/** A game started by the host and joined over the mesh: which configurations survive the trip, and
    what the joiner's emitter makes of them. */
module MeshGameStart {
  import opened Bytes
  import opened MeshNode
  import opened Protocol
  import opened DedupRing
  import AdRecords
  import MeshFlood
  import E = Emitter
  import C = GameConfigEncoding
  import G = GameConfig
  import F = FriendlyList
  import R = EmitterReports
  import S = GameState

  /** Among all configurations the emitter stores, exactly those of at most 250 bytes are broadcast as
      they are: 251 to 255 bytes are not sent at all, and 256 are sent as none. */
  lemma CarriedExactly(n: Node, config: seq<byte>, count: byte)
    requires |config| <= G.RAW_SIZE
    ensures var out := BroadcastGameStart(n, config, count).1;
            && ((exists f :: f in out && |f| >= HEADER_SIZE && StartConfig(f) == Some(config)) <==> |config| <= 250)
            && (250 < |config| < 256 ==> out == [])
            && (|config| == 256 ==> |out| == 1 && |out[0]| == HEADER_SIZE && StartConfig(out[0]) == Some([]))
  {
    var payload := config[..|config| % 0x100];
    var out := BroadcastGameStart(n, config, count).1;
    if HEADER_SIZE + |payload| <= BUF_SIZE {
      StartFrame(n, payload);
      var f := StartFrameOf(n, payload);
      assert out == [f];
      if |config| <= 250 {
        assert payload == config && f in out;
      }
    }
  }

  /** The host's frame for a configuration. */
  function StartFrameOf(host: Node, config: seq<byte>): Frame
    requires |config| <= 250
  {
    PacketHeader(host.player, host.seqCounter, GAME_START, |config|) + config
  }

  lemma StartFrame(n: Node, payload: seq<byte>)
    requires |payload| <= 250
    ensures var f := StartFrameOf(n, payload);
            |f| == HEADER_SIZE + |payload| && StartConfig(f) == Some(payload)
            && f[0] == GAME_START && f[1] == n.player && f[4] == DEFAULT_TTL
  {
    var f := StartFrameOf(n, payload);
    assert f[HEADER_SIZE..HEADER_SIZE + |payload|] == payload;
  }

  /** Relaying does not touch the configuration. */
  lemma RelaysKeepConfig(orig: Frame, hops: nat, f: Frame)
    requires |orig| >= HEADER_SIZE && MeshFlood.AfterHops(orig, hops, f)
    ensures |f| == |orig| && StartConfig(f) == StartConfig(orig)
  {
    if hops > 0 && StartConfig(orig).Some? {
      assert f[HEADER_SIZE..HEADER_SIZE + f[5]] == orig[HEADER_SIZE..HEADER_SIZE + orig[5]];
    }
  }

  /** A joiner that hears any copy of the host's frame for the first time is handed the host's
      configuration; hearing a repetition or another relayed copy right after hands it nothing. */
  lemma JoinerHears(host: Node, config: seq<byte>, joiner: Node, hops: nat, f: Frame, overrun: byte)
    requires |config| <= 250 && joiner.player != host.player
    requires MeshFlood.AfterHops(StartFrameOf(host, config), hops, f)
    requires Key(host.player, host.seqCounter) !in joiner.window
    ensures Process(joiner, f, overrun).1.gameStart == Some(config)
    ensures forall hops': nat, f', overrun' ::
              MeshFlood.AfterHops(StartFrameOf(host, config), hops', f')
              ==> Process(Process(joiner, f, overrun).0, f', overrun') == (Process(joiner, f, overrun).0, NOTHING)
  {
    var orig := StartFrameOf(host, config);
    StartFrame(host, config);
    RelaysKeepConfig(orig, hops, f);
    Le16RoundTrip(host.seqCounter);
    SameKey(orig, hops, f);
    var n1 := Process(joiner, f, overrun).0;
    assert KeyOf(orig) == Key(host.player, host.seqCounter);
    NewestKey(joiner.window, KeyOf(f));
    forall hops': nat, f', overrun' | MeshFlood.AfterHops(orig, hops', f')
      ensures Process(n1, f', overrun') == (n1, NOTHING)
    {
      SameKey(orig, hops', f');
    }
  }

  lemma SameKey(orig: Frame, hops: nat, f: Frame)
    requires |orig| >= HEADER_SIZE && MeshFlood.AfterHops(orig, hops, f)
    ensures |f| == |orig| && KeyOf(f) == KeyOf(orig) && f[1] == orig[1] && f[0] == orig[0]
  {
  }

  lemma NewestKey(window: seq<Key>, k: Key)
    ensures k in Push(window, k, DEDUP_SIZE)
  {
    var w := Push(window, k, DEDUP_SIZE);
    assert w[|w| - 1] == k;
  }

  /** The emitter `e'` has entered the game of this configuration as the player of `e`: on that player's
      own team from the roster, with that team's friends. */
  predicate Entered(e: E.Emitter, e': E.Emitter, players: seq<C.Player>, cfg: S.Config) {
    && e'.mode == E.GameActive && e'.game.alive && e'.game.health == cfg.maxHealth
    && e'.game.cfg == cfg.(userId := e.setup.playerId)
    && e'.setup.playerId == e'.setup.meshPlayer == e.setup.playerId
    && e'.setup.teamId == e'.setup.meshTeam == F.LocalTeam(e, players)
    && e'.setup.friendlies == F.Mates(e, players)
  }

  // ----- through the air -----

  /** What a received advertisement makes of the node: the scanner takes its first manufacturer record. */
  function OnAdvertisement(n: Node, adv: seq<byte>, overrun: byte): (Node, Effects) {
    match AdRecords.ManufacturerData(AdRecords.Parse(adv, 0))
    case Some(f) => OnScan(n, f, overrun)
    case None => (n, NOTHING)
  }

  /** The advertisement carries a copy of the frame. */
  predicate Carries(adv: seq<byte>, orig: Frame, hops: nat, f: Frame) {
    AdRecords.ManufacturerData(AdRecords.Parse(adv, 0)) == Some(f) && MeshFlood.AfterHops(orig, hops, f)
  }

  lemma CarriedFramesAreShort(adv: seq<byte>, orig: Frame, hops: nat, f: Frame)
    requires Carries(adv, orig, hops, f) && |orig| >= HEADER_SIZE
    ensures |orig| <= 254
  {
    AdRecords.RecordsAreShort(adv, 0);
    AdRecords.ManufacturerDataIsShort(AdRecords.Parse(adv, 0));
    SameKey(orig, hops, f);
  }

  /** Whatever advertisement brings a copy of the host's frame for the first time, the joiner is handed the
      configuration exactly if its phone is connected; the configuration then has at most 248 bytes. */
  lemma ScannerHears(host: Node, config: seq<byte>, joiner: Node, adv: seq<byte>, hops: nat, f: Frame, overrun: byte)
    requires |config| <= 250 && joiner.player != host.player
    requires Key(host.player, host.seqCounter) !in joiner.window && Carries(adv, StartFrameOf(host, config), hops, f)
    ensures |config| <= 248
    ensures OnAdvertisement(joiner, adv, overrun).1.gameStart == if joiner.phone then Some(config) else None
  {
    CarriedFramesAreShort(adv, StartFrameOf(host, config), hops, f);
    JoinerHears(host, config, joiner, hops, f, overrun);
  }

  /** Some advertisement hands the joiner this configuration as the host's. */
  ghost predicate CanHear(host: Node, config: seq<byte>, joiner: Node)
    requires |config| <= 250
  {
    exists adv, hops: nat, f, overrun :: Carries(adv, StartFrameOf(host, config), hops, f)
                                         && OnAdvertisement(joiner, adv, overrun).1.gameStart == Some(config)
  }

  /** So of the configurations that are broadcast as they are, those of at most 248 bytes reach a joiner whose
      phone is connected, and no others. */
  lemma HeardExactly(host: Node, config: seq<byte>, joiner: Node)
    requires |config| <= 250 && joiner.player != host.player && Key(host.player, host.seqCounter) !in joiner.window
    ensures CanHear(host, config, joiner) <==> joiner.phone && |config| <= 248
  {
    var f := StartFrameOf(host, config);
    if CanHear(host, config, joiner) {
      var adv, hops: nat, f', overrun :| Carries(adv, f, hops, f')
                                         && OnAdvertisement(joiner, adv, overrun).1.gameStart == Some(config);
      ScannerHears(host, config, joiner, adv, hops, f', overrun);
    }
    if joiner.phone && |config| <= 248 {
      var adv := AdRecords.Encode([AdRecords.Record(AdRecords.MANUFACTURER_DATA, f)]);
      AdRecords.FrameThroughAdvertisement(f);
      assert Carries(adv, f, 0, f);
      ScannerHears(host, config, joiner, adv, 0, f, 0);
    }
  }

  /** A joiner not yet in a game that scans any copy of the broadcast of a well-formed configuration enters
      the game, exactly if its phone is connected. Its mesh node is known by the player its emitter has
      set. */
  lemma JoinerEntersTheGame(host: Node, joiner: Node, e: E.Emitter, adv: seq<byte>, hops: nat, f: Frame, overrun: byte,
                            header: seq<byte>, teams: seq<C.Team>, players: seq<C.Player>, cfg: S.Config,
                            rest: seq<byte>)
    requires E.Shape(e) && e.mode != E.GameActive && e.mode != E.Dead && joiner.player == e.setup.meshPlayer
    requires |header| == 9 && C.TeamsFit(teams) && C.PlayersFit(players)
    requires |C.Blob(header, teams, players, C.EncodeConfig(cfg) + rest)| <= 250
    requires joiner.player != host.player && Key(host.player, host.seqCounter) !in joiner.window
    requires Carries(adv, StartFrameOf(host, C.Blob(header, teams, players, C.EncodeConfig(cfg) + rest)), hops, f)
    ensures var start := OnAdvertisement(joiner, adv, overrun).1.gameStart;
            && (start.Some? <==> joiner.phone)
            && (start.Some? ==> Entered(e, E.OnMeshGameStart(e, start.value).0, players, cfg))
  {
    ScannerHears(host, C.Blob(header, teams, players, C.EncodeConfig(cfg) + rest), joiner, adv, hops, f, overrun);
    F.StartedSetup(e.(timers := e.timers.(announce := false)), header, teams, players, cfg, rest);
  }

  /** The host's phone command starts the game at the host and hands the configuration to the mesh. */
  lemma HostStartsTheGame(e: E.Emitter, header: seq<byte>, teams: seq<C.Team>, players: seq<C.Player>, cfg: S.Config,
                          rest: seq<byte>)
    requires E.Shape(e) && |header| == 9 && C.TeamsFit(teams) && C.PlayersFit(players)
    requires |C.Blob(header, teams, players, C.EncodeConfig(cfg) + rest)| <= G.RAW_SIZE
    ensures var blob := C.Blob(header, teams, players, C.EncodeConfig(cfg) + rest);
            && Entered(e, E.OnPhone(e, [CMD_BROADCAST_GAME_CFG] + blob).0, players, cfg)
            && R.PhoneReport(e, [CMD_BROADCAST_GAME_CFG] + blob).mesh == [R.GameStart(blob)]
  {
    var blob := C.Blob(header, teams, players, C.EncodeConfig(cfg) + rest);
    var quiet := e.(timers := e.timers.(announce := false));
    assert ([CMD_BROADCAST_GAME_CFG] + blob)[1..] == blob;
    F.StartedSetup(quiet, header, teams, players, cfg, rest);
    assert E.StoreRaw(e.raw, blob)[..|blob|] == blob;
  }

  /** End to end: the host's phone sends a well-formed configuration of at most 250 bytes. The host enters
      the game, and so does every joiner with a connected phone that scans a copy of the frame the host's
      node broadcasts for it. */
  lemma EveryoneEntersTheGame(hostEmitter: E.Emitter, host: Node, joiner: Node, e: E.Emitter, orig: Frame,
                              adv: seq<byte>, hops: nat, f: Frame, overrun: byte, header: seq<byte>,
                              teams: seq<C.Team>, players: seq<C.Player>, cfg: S.Config, rest: seq<byte>,
                              config: seq<byte>)
    requires E.Shape(hostEmitter) && E.Shape(e) && e.mode != E.GameActive && e.mode != E.Dead
    requires joiner.player == e.setup.meshPlayer && joiner.player != host.player
    requires Key(host.player, host.seqCounter) !in joiner.window
    requires |header| == 9 && C.TeamsFit(teams) && C.PlayersFit(players)
    requires |C.Blob(header, teams, players, C.EncodeConfig(cfg) + rest)| <= 250
    requires var blob := C.Blob(header, teams, players, C.EncodeConfig(cfg) + rest);
             R.GameStart(config) in R.PhoneReport(hostEmitter, [CMD_BROADCAST_GAME_CFG] + blob).mesh
    requires orig in BroadcastGameStart(host, config, 5).1 && Carries(adv, orig, hops, f)
    ensures var blob := C.Blob(header, teams, players, C.EncodeConfig(cfg) + rest);
            var start := OnAdvertisement(joiner, adv, overrun).1.gameStart;
            && Entered(hostEmitter, E.OnPhone(hostEmitter, [CMD_BROADCAST_GAME_CFG] + blob).0, players, cfg)
            && (start.Some? <==> joiner.phone)
            && (start.Some? ==> Entered(e, E.OnMeshGameStart(e, start.value).0, players, cfg))
  {
    var blob := C.Blob(header, teams, players, C.EncodeConfig(cfg) + rest);
    HostStartsTheGame(hostEmitter, header, teams, players, cfg, rest);
    assert config == blob;
    BroadcastFrame(host, blob, orig);
    JoinerEntersTheGame(host, joiner, e, adv, hops, f, overrun, header, teams, players, cfg, rest);
  }

  lemma BroadcastFrame(n: Node, config: seq<byte>, orig: Frame)
    requires |config| <= 250 && orig in BroadcastGameStart(n, config, 5).1
    ensures orig == StartFrameOf(n, config)
  {
    assert config[..|config| % 0x100] == config;
  }
}
