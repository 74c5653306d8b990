# A verified model of the laser-tag firmware

The firmware runs on two kinds of device. An *emitter* (the gun) talks to the player's phone, shoots
infrared frames, keeps the player's game state and floods messages through a radio mesh of emitters.
A *vest* receives infrared frames and reports hits to the one emitter it is paired with. This project
models both devices and what connects them, and proves what the code promises about them.

Each part is first written as functions on values (the states and the steps of the protocol), then as
the classes and loops of the program, whose methods are proved to take exactly those steps; the
theorems are about all runs of the steps.

| part | files |
|---|---|
| infrared link | `Octets`, `Crc8`, `CrcDetection`, `IrLink`, `IrRoundTrip`, `IrDeliveries`, `IrNoise`, `IrBackToBack` |
| game state and configuration | `GameState`, `GameRuns`, `GameConfig`, `GameConfigEncoding` |
| vest | `Vest`, `VestPairing` |
| emitter | `Emitter`, `EmitterReports`, `EmitterProgram`, `EmitterRuns`, `TriggerRuns`, `PhoneView`, `EmitterMessages`, `EmitterCounters`, `Identities` |
| vest and emitter together | `FriendlyList`, `HitDelivery`, `HitRuns`, `HitVerdicts`, `HitAcks`, `FreshIds`, `RepeatedIds`, `HitFrames`, `DeadVest`, `Respawns` |
| mesh | `TxQueue`, `TxPump`, `Transmitter`, `AdRecords`, `MeshNode`, `MeshRepeats`, `MeshHistory`, `MeshFlood`, `MeshRuns`, `MeshRelays`, `MeshReach`, `MeshGameStart` |
| shared | `Bytes`, `Protocol`, `Sequences`, `DedupRing` |

`dafny verify dfyconfig.toml` checks everything.

## What the model says about the code

The main results, and the places where the code does something its comments do not lead one to expect:

- **Infrared link.** Every hit or pairing frame is decoded exactly, once, for every pulse jitter inside
  the receiver's windows and every schedule of polls; conversely whatever is delivered was such a frame,
  with every mark and space in its window. Without the stop mark nothing is ever delivered; after any
  noise one long silence makes the receiver usable again. Two frames need a poll that sees more
  than 10 ms of silence between them. Without it *both* are lost if they are less than 0.5 ms or at least
  5 ms apart, because the second one then loses its first bit. In between they are read as one frame; no
  hit is delivered, but for a first shooter 0xFE a pairing frame can come out, and the model says exactly
  when.
- **CRC-8.** The byte loop computes the remainder of polynomial division. It detects every odd number
  of flipped bits and every burst within eight consecutive bits (in the order the CRC processes them,
  most significant bit first) at any length, and misses two flipped bits exactly when they are a
  multiple of 127 bits apart; so the 4- and 5-byte frames of the link have minimum distance four.
- **Hits.** In every run of vest, emitter and two lossy in-order channels no infrared hit lowers the
  player's health twice, every loss of health has its own valid, non-friendly infrared frame, and the
  first copy of a hit that the emitter hears in a game decides about the hit for good: one heard by a
  dead player is never applied later, even if it was taken for a duplicate of another hit with the same
  id. This needs no assumption on the random ids. Within a life health is exactly what the applied hits
  leave. Every loss is reported with the shooter of its frame, and the killer named to phone and mesh is
  the shooter of the fatal one. An unanswered hit is sent ten times over a lasting link.
- **Repeated ids.** With fresh ids an acknowledged hit was accepted exactly once, and every hit that
  reaches an emitter in a game is accepted. Freshness (the id is not in the emitter's ring, nor in a
  notification or an acknowledgement under way) is exactly what is needed: after any other draw over a
  working link the acknowledgement can end a hit that was never accepted. Such a run is given from
  power-on for every id.
- **Configuration.** A well-formed game configuration sets exactly what it encodes; a cut one leaves
  friends and configuration alone, but a roster cut behind the local player's entry moves the player to
  the new team while the mesh still knows the old one, and drops the new team-mates' states. In every run
  from power-on player and mesh agree on the team until such a start, and only such a start parts them.
  A ten-byte configuration passes the length guard and then depends on a byte that an earlier
  configuration left in the buffer.
- **Vest and game starts.** The friendly list takes only an idle vest into the game: a vest left dead by
  the last game stays dead when the next one starts. That happens from power-on under every
  configuration under which a player can die, and from there the player can neither be hit nor die, and
  no respawn is sent, until the vest loses its link; after a new connection it joins the next game. A
  respawn in the same game revives both devices, and the next hit counts again.
- **Who is linked.** Over every run the peer linked to a vest is the one it is bound to, whose address ends
  in the bytes of the window's first pairing frame; a bound vest lets in that peer and nobody else.
- **Ammunition and fire rate.** Ammunition is conserved modulo 2^16 over every run of a life, and exactly
  if and only if no counter overflowed on the way. The magazine stays within its size exactly if no
  plain configuration command carries a size below the rounds then in the magazine. Any interval holds
  at most its length over the fire rate plus one shots. A held automatic weapon is handled again until its
  magazine is empty or its player dead.
- **Reports.** The phone's picture of health and ammunition is right after every run. The emitter reports
  a death to the mesh exactly when its player dies; but the phone can have any bytes broadcast, so what
  the mesh takes for a death is either one or such a frame. Deaths are counted modulo 2^16. Kills are
  never counted: in every run all players' and teams' kills that are sent are zero.
- **Game starts over the mesh.** One phone command brings the host into the game, and with it every joiner
  with a connected phone that scans any copy of its frame, each with its own team and friends. A
  configuration of at most 250 bytes is broadcast as it is, but only one of at most 248 bytes fits an
  advertising record and can be heard; 251 to 255 bytes are not sent, and 256 are sent as none.
- **Mesh.** The transmit pump never loses a wake-up, every accepted frame is dealt with in order, and at
  most one frame is on the air. A repeated broadcast is sent as often as its count says, unless another one
  takes the repeat slot first. Within the reach of the duplicate filter each node relays a frame at most
  once, however often it is repeated. A flood ends after a number of steps bounded by a polynomial in the size
  of the network, copies are faithful but for the time to live, and player states are sent on and
  forwarded only inside the team they name. A phone is told exactly the frames that its node accepts, other
  teams' player states and frames over 254 bytes excepted, byte for byte but for the time to live; and a
  frame reaches the end of every path of listening nodes that its time to live allows. The team filter goes
  by the frame alone exactly if the frame is long enough to hold the team byte; a shorter one is judged by
  the memory behind it.

## Assumptions

They are hypotheses of the theorems, visible in their `requires` clauses or in the enabling conditions
of steps:

- Interrupt handlers, work items and callbacks are atomic steps, except in the transmit pump, where
  every access to shared state is a step of its own.
- A work item runs only when it is scheduled; when it runs is arbitrary.
- Each channel between vest and emitter keeps its order, may lose anything, and is emptied when the link
  drops; the devices connect again only after both have noticed.
- Vest pairing: commands come over the bound emitter's link, none between an unpair and the disconnect
  it causes, and the vest has at most one connection. The hit theorems do not need this.
- Random numbers are arbitrary. Only `HitAcks` and `FreshIds` speak of ids that are not in use.
- In the mesh, a transmission is heard at most once by each node, and identities stay fixed in the
  network runs.

## Model

| member | source | states |
|---|---|---|
| Crc8.FeedByte | common/src/ir_protocol.c:15-23 | the inner loop shifts the register eight times and adds the polynomial whenever a one leaves it |
| Crc8.Calc | common/src/ir_protocol.c:11-25 | the nested loops compute the CRC of the whole message |
| Crc8.CrcIsLinear | common/src/ir_protocol.c:11-25 | the CRC of the combination of two messages of equal length is the combination of their CRCs |
| Crc8.CheckIsZeroRemainder | common/src/ir_protocol.c:293-308 | comparing the last byte with the CRC of the rest accepts exactly the frames whose whole CRC is zero |
| CrcDetection.CrcIsRemainder | common/src/ir_protocol.c:11-25 | a byte is the CRC of a message if and only if it is the remainder of dividing the message, times x^8, by x^8 + x^2 + x + 1 |
| CrcDetection.DivisionIsUnique | common/src/ir_protocol.c:11-25 | quotient and remainder of that division are unique |
| CrcDetection.RegisterIsCrc | common/src/ir_protocol.c:13-24 | feeding the bits one by one, most significant first, gives the same CRC as the byte loop |
| CrcDetection.RegisterKeepsParity | common/src/ir_protocol.c:16-22 | the register's parity is the parity of all bits fed to it |
| CrcDetection.PeriodIs127 | common/src/ir_protocol.c:16-22 | d multiplications by x act on the generator residue as none exactly if 127 divides d |
| CrcDetection.DetectsOddFlips | common/src/ir_protocol.c:11-25 | any odd number of flipped bits is detected at any length |
| CrcDetection.DetectsPairs | common/src/ir_protocol.c:11-25 | two flipped bits go unnoticed if and only if their distance is a multiple of 127 |
| CrcDetection.DetectsUpToThreeFlips | common/src/ir_protocol.c:11-25 | one to three flipped bits in a valid frame of at most 127 bits make the check fail |
| CrcDetection.DetectsBursts | common/src/ir_protocol.c:11-25 | damage within eight consecutive bits goes unnoticed only if there is none |
| IrLink.TxByte | common/src/ir_protocol.c:58-64 | one byte is sent least significant bit first, a 1 ms mark and a 3 ms or 1 ms space for each bit |
| IrLink.TxRaw | common/src/ir_protocol.c:50-78 | the pulses are those of all bytes in order followed by the stop mark |
| IrLink.IrReceiver.Store | common/src/ir_protocol.c:136-145 | a bit is stored in its place of the buffer, and bits beyond 40 are dropped |
| IrLink.IrReceiver.Reset | common/src/ir_protocol.c:147-152 | the decoder is idle with an empty, zeroed buffer |
| IrLink.IrReceiver.IrTriggered | common/src/ir_protocol.c:154-192 | the interrupt takes the decoder's step for the edge, and the buffer stays the packing of the stored bits |
| IrLink.IrReceiver.CutFrame | common/src/ir_protocol.c:255-280 | after more than 10 ms in the space state a frame of whole bytes is copied out and the decoder reset |
| IrLink.IrReceiver.RxLoop | common/src/ir_protocol.c:250-326 | one poll takes the decoder's poll step and makes exactly its callback |
| IrLink.DispatchFrame | common/src/ir_protocol.c:286-325 | four bytes are a hit with the result of its check, five with preamble and valid check a pairing frame, anything else nothing |
| IrRoundTrip.FrameRoundTrip | common/src/ir_protocol.c:50-192 | for every jitter within the windows and every poll schedule an idle decoder delivers the sent bits once, at the first poll that sees over 10 ms of silence, and not before |
| IrRoundTrip.HitRoundTrip | common/src/ir_protocol.c:80-85 | every hit packet arrives as sent, with a valid check, exactly once |
| IrRoundTrip.PairingRoundTrip | common/src/ir_protocol.c:87-96 | every pairing packet arrives as sent, exactly once |
| IrRoundTrip.NominalTimingIsInTime | common/src/ir_protocol.c:60-63 | the durations the transmitter asks for lie in the receiver's windows |
| IrRoundTrip.NoStopMarkNoDelivery | common/src/ir_protocol.c:66-77 | without the stop mark a frame of whole bytes is never delivered |
| IrDeliveries.DeliveredWasMade | common/src/ir_protocol.c:154-192 | whatever an idle decoder delivers after any trace was made by the line since some transition: all marks and spaces in their windows, no other transition between them, then more than 10 ms of silence |
| IrDeliveries.WhatIsDelivered | common/src/ir_protocol.c:286-325 | of all frames of at most five bytes four bytes are a hit, valid exactly if the whole CRC is zero, five are a pairing frame exactly if preamble and whole CRC are right, and nothing else is delivered |
| IrRoundTrip.DecodeWireBits | common/src/ir_protocol.c:136-145 | unpacking the stored bits gives back the bytes sent |
| IrBackToBack.SecondFrameLosesFirstBit | common/src/ir_protocol.c:172-181 | a frame that begins less than 0.5 ms or at least 5 ms after one whose end was not yet seen loses its first bit, and the earlier frame is forgotten |
| IrBackToBack.PollBetweenFramesDecides | common/src/ir_protocol.c:260-279 | of two frames at such a distance both are delivered if a poll between them sees over 10 ms of silence, and neither if none does |
| IrBackToBack.CloseFramesMerge | common/src/ir_protocol.c:136-192 | of two frames 0.5 to 5 ms apart what is delivered is the one frame made of both frames' bits with the gap read as a bit between them, cut at 40 bits |
| IrBackToBack.CloseHitsAreLost | common/src/ir_protocol.c:286-325 | two such hit frames are lost as hits; in their place a pairing frame is delivered if and only if the first shooter is 0xFE, the gap is below 2.2 ms and the second shooter has none of the low seven bits set |
| IrNoise.AlwaysConsistent | common/src/ir_protocol.c:154-192 | after any trace the mark state means the line was last seen marked, the space state that it was last seen in a space, and at most 40 bits are stored |
| IrNoise.SilenceRecovers | common/src/ir_protocol.c:260-279 | after any noise that ends in a space one poll seeing over 10 ms of silence leaves the decoder idle |
| IrNoise.HitAfterNoise | common/src/ir_protocol.c:154-279 | after any noise and one such poll the next hit frame is delivered exactly |
| IrNoise.PairingAfterNoise | common/src/ir_protocol.c:154-279 | the same for a pairing frame |
| IrNoise.WrongHitIsInvalid | common/src/ir_protocol.c:293-306 | a hit frame received with one to three wrong bits is handed on as invalid |
| IrNoise.WrongPairingIsDropped | common/src/ir_protocol.c:307-319 | a pairing frame received with one to three wrong bits is dropped |
| DedupRing.Ring.CheckAndInsert | emitter/src/main.c:303-314 | the answer is "duplicate" exactly if the key is in the window of accepted keys; otherwise the key enters and the oldest leaves a full window |
| DedupRing.Ring.Insert | emitter/src/mesh.c:80-83 | the new key overwrites the oldest entry, and the ring still holds the window in order |
| DedupRing.LayoutInsert | emitter/src/mesh.c:80-83 | writing at the index and advancing it pushes the key onto the window |
| DedupRing.WindowIsRecentHistory | emitter/src/main.c:303-314 | over any arrivals the window is the last keys accepted in the whole history, all distinct |
| DedupRing.RepeatIsDuplicate | emitter/src/mesh.c:71-79 | a key that returns before as many others were accepted as the ring holds is a duplicate |
| DedupRing.AcceptedOnce | emitter/src/mesh.c:71-85 | if that holds of every two copies of a key, the key is accepted exactly once |
| GameState.GameStore.Start | emitter/src/game_state.c:43-56 | a game start sets health, ammunition and counters from the configuration and keeps the configuration |
| GameState.GameStore.Fire | emitter/src/game_state.c:58-69 | a shot takes one round and is recorded, or nothing changes |
| GameState.GameStore.Hit | emitter/src/game_state.c:71-86 | damage is subtracted, or the player dies with no health left and the death is counted |
| GameState.GameStore.BeginReload | emitter/src/game_state.c:88-102 | a reload is marked as under way when it may start |
| GameState.GameStore.FinishReload | emitter/src/game_state.c:104-112 | ammunition moves from reserve to magazine with 16-bit arithmetic |
| GameState.GameStore.Revive | emitter/src/game_state.c:114-124 | a respawn restores health and ammunition but neither counters nor the time of the last shot |
| GameState.GameStore.Resupply | emitter/src/game_state.c:126-130 | ammunition is added to the reserve modulo 2^16 |
| GameState.GameStore.CountKill | emitter/src/game_state.c:132-135 | a kill is counted modulo 2^16 |
| GameState.GameStore.Configure | emitter/src/game_state.c:30-36 | only the configuration changes |
| GameRuns.AmmoIsConserved | emitter/src/game_state.c:43-130 | within a life magazine, reserve, shots fired and 2^16 for every overflow together equal the initial and the supplied ammunition |
| GameRuns.ConservedExactly | emitter/src/game_state.c:43-130 | within a life ammunition is conserved modulo 2^16, exactly if and only if nothing overflowed, and nothing overflows while the total fits 16 bits |
| GameRuns.LifeStartsAsConfigured | emitter/src/game_state.c:43-56 | a life starts with all configured ammunition, the magazine as full as possible, full health; only a game start clears the counters and the fire-rate gate |
| GameRuns.ReloadFills | emitter/src/game_state.c:104-112 | a completed reload leaves the magazine at its size or the reserve empty, and keeps the total exactly if the magazine fitted or the total fits 16 bits; for every game |
| GameRuns.ReloadStartsWhenUseful | emitter/src/game_state.c:88-102 | for every game a reload starts exactly if none is under way and it would change the magazine or the magazine is empty though it has a size |
| GameRuns.DeathKills | emitter/src/game_state.c:71-86 | a hit counts as a death exactly if it takes a living player, who then has no health left |
| GameRuns.CountersCount | emitter/src/game_state.c:71-135 | within a game the counters are the deaths and the counted kills so far, modulo 2^16 |
| GameRuns.MagazineFits | emitter/src/game_state.c:43-130 | with the configuration unchanged the magazine stays within its size |
| GameRuns.StepFits | emitter/src/game_state.c:30-130 | an operation makes a fitting magazine exceed its size if and only if it sets a size below the rounds in it |
| GameRuns.AlwaysFitsExactly | emitter/src/game_state.c:30-130 | over any operations the magazine always fits if and only if every new size has room for the rounds then in it |
| GameRuns.ReloadFits | emitter/src/game_state.c:104-112 | after a change to a smaller magazine a reload leaves a fitting magazine exactly if it fitted already or magazine and reserve together overflow 16 bits |
| GameRuns.ShotsAreSpaced | emitter/src/game_state.c:58-69 | the shots of one game, respawns included, are at least the fire rate apart |
| GameRuns.RefusedForAReason | emitter/src/game_state.c:58-69 | a shot is refused exactly if the player is dead, reloading or out of ammunition, or the latest shot of the game is less than the fire rate ago |
| GameRuns.FireRateBound | emitter/src/game_state.c:58-69 | an interval [a, b] holds at most (b - a) / fire_rate_ms + 1 shots |
| GameConfig.SetupStore.ReadTeams | emitter/src/main.c:184-202 | the team loop fills the table with the first six teams, clears their kills and stops where the section ends or is cut |
| GameConfig.SetupStore.AdoptTeam | emitter/src/main.c:204-223 | the first roster pass adopts the local player's team |
| GameConfig.SetupStore.BuildFriendlyList | emitter/src/main.c:226-246 | the second pass lists the first sixteen other players of the local team |
| GameConfig.SetupStore.ApplyGameConfig | emitter/src/main.c:172-256 | the whole parser sets what the bytes mean; every read stays inside the buffer |
| GameConfig.TeamLoopIsTeamsFrom | emitter/src/main.c:188-202 | the loop over the cursor reads exactly the team rows the bytes encode |
| GameConfig.TeamPassIsLastTeam | emitter/src/main.c:208-223 | the first pass finds the team of the last roster entry for the local player |
| GameConfig.FriendPassIsTeammates | emitter/src/main.c:226-246 | the second pass finds the first sixteen teammates in roster order |
| GameConfig.LoopsMeanSections | emitter/src/main.c:172-256 | both roster passes end at the same place, and the loops together compute what the sections mean |
| GameConfigEncoding.ConfigRoundTrip | emitter/src/main.c:158-170 | the 14 configuration bytes are read back as written |
| GameConfigEncoding.TeamsReadBack | emitter/src/main.c:188-202 | encoded teams are read back, wherever they start and whatever follows |
| GameConfigEncoding.RosterReadsBack | emitter/src/main.c:208-223 | an encoded roster is read back likewise |
| GameConfigEncoding.RecordedRows | emitter/src/main.c:192-195 | row k of the team table is the k-th recorded value, or the old one if none was recorded |
| GameConfigEncoding.LastTeamIsLast | emitter/src/main.c:220-222 | the adopted team is that of the last entry for the player |
| GameConfigEncoding.NoTeam | emitter/src/main.c:220-222 | a player not in the roster keeps the team |
| GameConfigEncoding.WellFormedBlob | emitter/src/main.c:172-256 | a well-formed configuration sets exactly the encoded teams, team, friends and configuration |
| GameConfigEncoding.CutTeams | emitter/src/main.c:188-202 | of a cut team section exactly the teams are read whose two leading bytes are there, and the section counts as cut |
| GameConfigEncoding.CutRoster | emitter/src/main.c:204-223 | of a cut roster exactly the complete entries are read and the section counts as cut |
| GameConfigEncoding.TruncatedBlob | emitter/src/main.c:189-238 | the exact result of a configuration cut anywhere in teams or roster: which ids reach the team table, which team is adopted; friends, mesh identity and configuration stay |
| GameConfigEncoding.IdentitiesPart | emitter/src/main.c:204-248 | after any stored bytes the player's team and the mesh's differ exactly if the sections are not complete and they differed before, or the roster is cut and its last complete entry for the player names another team than the mesh's |
| GameConfigEncoding.IdentitiesCanPart | emitter/src/main.c:204-248 | fourteen bytes that make them differ, for every player and team |
| GameConfigEncoding.TenByteBlob | emitter/src/main.c:174-187 | what a ten-byte configuration does, depending on the stale byte at index 10 |
| Vest.VestStore.constructor | reciever/src/main.c:42-71 | the vest powers on unpaired, unlinked, with no friends and no pending hit |
| Vest.VestStore.CheckFriendly | reciever/src/main.c:128-139 | a player is friendly exactly if friendly fire is off and the id is in the list |
| Vest.VestStore.IrRx | reciever/src/main.c:221-258 | the frame is handled as the vest's step says: taken up, notified and scheduled, or ignored (see HitFrames.TakenUpExactly) |
| Vest.VestStore.SendHitNotification | reciever/src/main.c:195-202 | the pending payload goes to the link, or the hit is dropped if there is none |
| Vest.VestStore.QueueHit | reciever/src/main.c:250-257 | a new hit becomes pending with no retries yet, is sent, and its retry is scheduled |
| Vest.VestStore.HitRetry | reciever/src/main.c:204-217 | a retry counts, resends and reschedules, or gives up at the tenth |
| Vest.VestStore.EmitterCmd | reciever/src/main.c:262-329 | every command and length guard has its effect on the vest |
| Vest.VestStore.FriendlyList | reciever/src/main.c:280-294 | count and list are taken over as far as they are complete, and an idle vest enters the game |
| Vest.VestStore.ForgetEmitter | reciever/src/main.c:315-327 | binding, pairing window, friends and pending hit are forgotten |
| Vest.VestStore.IrPairing | reciever/src/main.c:166-191 | the first pairing frame of an unpaired vest opens the window and names the expected address bytes |
| Vest.VestStore.PairPendingTimeout | reciever/src/main.c:143-155 | the window closes unless the vest is paired |
| Vest.VestStore.Connected | reciever/src/main.c:360-418 | the peer is let in, bound or turned away as the vest's step says (see VestPairing.ConnectsExactly) |
| Vest.VestStore.Disconnected | reciever/src/main.c:420-432 | the pending hit is dropped and the vest leaves the game |
| Vest.VestStore.UnpairPressed | reciever/src/main.c:333-347 | the button forgets the binding |
| VestPairing.RunIsSafe | reciever/src/main.c:143-446 | in every run paired means not in the unpaired state, an open window means unpaired with the timeout scheduled, a hit is pending only in the game with a retry scheduled and fewer than ten made, and an unpaired vest has no friends left |
| VestPairing.WindowHasOpener | reciever/src/main.c:162-190 | an open window was opened by its first pairing frame, and later frames do not change the expected bytes |
| VestPairing.BoundToFirstFrame | reciever/src/main.c:360-410 | a paired vest is bound to a peer that connected in the window and whose low address bytes equal those of the window's first pairing frame |
| VestPairing.ConnectsExactly | reciever/src/main.c:370-410 | a bound vest lets in its emitter and nobody else, an unbound one with an open window exactly the peers with the expected low address bytes, whom it binds |
| VestPairing.ConnectedIsBound | reciever/src/main.c:360-432 | over every run the peer linked to a connected vest is the one whose address the vest stores |
| VestPairing.ConnectedIsAnnounced | reciever/src/main.c:360-432 | over every run the peer linked to a paired vest is the one bound, and its address ends in the bytes of the window's first pairing frame |
| VestPairing.UnpairForgets | reciever/src/main.c:315-347 | after unpairing nobody is bound, no friend and no hit is left, and the next pairing frame opens a window |
| VestPairing.DropLeavesTheGame | reciever/src/main.c:420-432 | a dropped link takes the vest out of the game, alive or dead, but leaves it bound: its emitter can connect again and nobody else |
| VestPairing.PairingEndToEnd | reciever/src/main.c:382-409 | after an emitter's frame has crossed the infrared link the vest admits exactly the peers with its low address bytes and binds the emitter itself when it connects |
| VestPairing.RetriesAreBounded | reciever/src/main.c:204-217 | sends plus remaining budget never exceed the budget, and a hit still pending has counted every run of its retry |
| VestPairing.EachHitSentAtMostTenTimes | reciever/src/main.c:204-217 | a hit is sent at most ten times and is no longer pending once its retry has run ten times |
| VestPairing.UnansweredIsSentTenTimes | reciever/src/main.c:204-217 | over a lasting link an unanswered hit is sent once and at every run of its retry but the tenth, ten times in all, and is pending until the tenth |
| EmitterProgram.EmitterStore.constructor | emitter/src/main.c:41-74 | the emitter powers on idle with the saved configuration and nothing scheduled |
| EmitterProgram.EmitterStore.HitNotified | emitter/src/ble_vest.c:66-87 | a notification shorter than a hit is ignored; any other is decoded and handled, with everything written to the vest and reported |
| EmitterProgram.EmitterStore.VestHit | emitter/src/main.c:316-352 | outside a game nothing happens; otherwise the hit is acknowledged, then filtered, then applied and reported if the game is active |
| EmitterProgram.EmitterStore.Damage | emitter/src/main.c:333-351 | damage is applied, the phone told the new state and the mesh the hit; a death is also told to the vest, the phone and the mesh |
| EmitterProgram.EmitterStore.Fall | emitter/src/main.c:342-350 | the state becomes dead, the vest is told and both periodic broadcasts stop |
| EmitterProgram.EmitterStore.SendGameSetup | emitter/src/main.c:275-279 | friendly list and friendly-fire setting are written in this order if the vest is ready |
| EmitterProgram.EmitterStore.StartLocal | emitter/src/main.c:263-284 | the configuration is stored and applied, the game started, the vest set up and the phone told the new state |
| EmitterProgram.EmitterStore.CopyRaw | emitter/src/main.c:265-269 | at most 256 bytes are stored, the rest of the buffer keeps its contents |
| EmitterProgram.EmitterStore.MeshGameStart | emitter/src/main.c:291-299 | a mesh start joins unless the player is in a game; the lobby announcement stops |
| EmitterProgram.EmitterStore.PhoneRx | emitter/src/main.c:577-758 | every phone command and length guard has its effect on the emitter, its writes to the vest, its answer to the phone and its mesh messages; the unpair command also drops the vest |
| EmitterProgram.EmitterStore.GameCommand | emitter/src/main.c:595-758 | the commands that start or end games and lives, with their acknowledgements, state updates and mesh messages |
| EmitterProgram.EmitterStore.StartCommand | emitter/src/main.c:595-609 | the game starts under the configuration in force, the vest is set up, and the phone gets the acknowledgement and the new state |
| EmitterProgram.EmitterStore.HostStart | emitter/src/main.c:672-679 | the host starts the game, the lobby announcement stops, and the stored configuration is handed to the mesh and acknowledged |
| EmitterProgram.EmitterStore.ComeBack | emitter/src/main.c:734-749 | a respawn is obeyed only by a dead player, who is revived; vest, mesh and phone are told |
| EmitterProgram.EmitterStore.OtherCommand | emitter/src/main.c:585-758 | the commands that change settings, ammunition, reload or lobby, and their answers |
| EmitterProgram.EmitterStore.LobbyCommand | emitter/src/main.c:651-722 | lobby and pairing commands set the state and the announcement; hosting stores code, mode and host |
| EmitterProgram.EmitterStore.OpenLobby | emitter/src/main.c:651-659 | code, game mode and host are decoded and stored, the state is hosting and the announcement is scheduled |
| EmitterProgram.EmitterStore.LobbyReport | emitter/src/main.c:629-722 | the answers of these commands and the messages they pass on to the mesh |
| EmitterProgram.EmitterStore.Ammo | emitter/src/main.c:611-618 | in an active game the reserve grows by the decoded amount, and the phone is told; otherwise nothing happens |
| EmitterProgram.EmitterStore.PlayerInfo | emitter/src/main.c:636-648 | player, team and mesh identity are set and the name is stored, cut to its limit after its length was narrowed to eight bits |
| EmitterProgram.EmitterStore.Reload | emitter/src/main.c:751-758 | a reload that starts has its completion scheduled |
| EmitterProgram.EmitterStore.ReloadWork | emitter/src/main.c:526-530 | the completion finishes the reload and tells the phone |
| EmitterProgram.EmitterStore.LobbyAnnounceWork | emitter/src/main.c:534-542 | while hosting the lobby is announced and the announcement reschedules itself; otherwise it stops |
| EmitterProgram.EmitterStore.PlayerStateWork | emitter/src/main.c:544-564 | in an active game the player state goes to the mesh and is rescheduled; otherwise it stops |
| EmitterProgram.EmitterStore.ScoreboardWork | emitter/src/main.c:566-573 | in a game the team scores go to the mesh and are rescheduled; otherwise they stop |
| EmitterProgram.EmitterStore.TriggerWork | emitter/src/main.c:450-508 | a shot leaves exactly if state, ammunition, trigger mode and fire rate allow it, and is reported; while pairing, frames are sent instead; the handler runs again when the fire rate refused the shot or automatic fire goes on |
| EmitterRuns.RunAgrees | emitter/src/main.c:263-758 | every run keeps state and work items in agreement |
| EmitterRuns.AgreesFromPowerOn | emitter/src/main.c:263-758 | from power-on an active game is alive with both broadcasts scheduled, a dead player has no health and neither, a reload is never stuck, and a hosted lobby is announced |
| EmitterRuns.HealthOnlyFalls | emitter/src/main.c:316-352 | without the debug commands health falls only through a new hit notification in an active game, and rises only when a life begins |
| EmitterRuns.MeshStartsNeverReset | emitter/src/main.c:291-299 | while in a game, a legal run with any mesh starts ends as the same run without them, which is legal too |
| EmitterRuns.GameRefines | emitter/src/main.c:450-758 | the game state of every legal run is that of a sequence of game operations |
| EmitterRuns.AmmoConservedInRuns | emitter/src/main.c:450-758 | whatever happens in a legal run within a life, magazine, reserve, shots and 2^16 for every overflow equal the initial and the supplied ammunition |
| EmitterRuns.MagazineFitsInRuns | emitter/src/main.c:595-758 | without the plain configuration command the magazine never exceeds its size, whatever games start |
| EmitterRuns.AlwaysFitsExactly | emitter/src/main.c:585-593 | over any events the magazine always fits if and only if every configuration command of full length carries a size of at least the rounds then in the magazine |
| EmitterRuns.ConfigCommandDecides | emitter/src/main.c:585-593 | the command made of the opcode and an encoded configuration sets that configuration, and the magazine fits afterwards exactly if the size has room for it |
| EmitterRuns.MagazineOverflowsInARun | emitter/src/main.c:585-608 | from power-on, configuring, starting and configuring a size below the starting magazine is a run that ends with more rounds than the size |
| EmitterRuns.FireRateInRuns | emitter/src/main.c:450-508 | the fire-rate bound holds of every run within one game |
| EmitterRuns.SemiAutomaticNeedsRelease | emitter/src/main.c:463-501 | in a legal run with the trigger of a semi-automatic weapon held at most one round leaves the magazine when the trigger is handled |
| TriggerRuns.PressedInGame | emitter/src/main.c:478-507 | a pressed trigger with rounds fires unless the last shot is less than the fire rate ago; it is handled again exactly if rounds are left (automatic) or the shot was refused (semi-automatic) |
| TriggerRuns.OtherwiseNothing | emitter/src/main.c:450-485 | in every other case no shot leaves and nothing is scheduled, but pairing frames while pairing |
| TriggerRuns.HeldAutomaticGoesOn | emitter/src/main.c:450-508 | over runs with the trigger of an automatic weapon held the handler stays scheduled until the magazine is empty or the player dead, whatever hits, supplies and mesh messages come |
| TriggerRuns.MagazineIsEmptied | emitter/src/main.c:490-507 | handled at the fire rate, an automatic weapon spends one round each time until the magazine is empty |
| TriggerRuns.ReleaseRearms | emitter/src/main.c:463-466 | a released trigger is ready again, and nothing else changes |
| TriggerRuns.FirstPressFires | emitter/src/main.c:490-501 | from power-on the first press in a game with ammunition fires |
| TriggerRuns.PairingCommandAims | emitter/src/main.c:718-722 | after the pairing command a pressed trigger sends pairing frames and no shot |
| TriggerRuns.GameOverEndsIt | emitter/src/main.c:620-627 | after the end of a game and until a life begins no game is on, no broadcast or reload of one is scheduled, the game state changes in nothing but the configuration, and no hit is accepted |
| PhoneView.PhoneStaysInSync | emitter/src/main.c:140-148 | after every run a phone that decodes every notification has the emitter's health, magazine and reserve |
| PhoneView.DeathIsReported | emitter/src/main.c:333-351 | the emitter reports a death to the mesh exactly when its player dies, which only a notified hit can cause, and then the phone learns the killer, the mesh the killer and the counters, and a ready vest its death |
| PhoneView.DeathOnAir | emitter/src/main.c:629-634 | a frame that reads as a death is handed to the mesh if and only if the player dies or the phone has bytes broadcast that begin as one |
| PhoneView.DeathCanBeFeigned | emitter/src/main.c:629-634 | from every state the phone can have such a frame broadcast while nobody dies |
| EmitterMessages.PlayerStateIsTrue | emitter/src/main.c:544-564 | in an active game the player state carries player, team, health and counters as they are and the ammunition as whole per cent of the configured total while that is below 256 |
| EmitterMessages.ScoreboardIsTrue | emitter/src/main.c:566-573 | the scoreboard's handler sends the team table in every game and never outside one |
| EmitterMessages.PeriodicGoesOn | emitter/src/main.c:534-573 | the periodic handlers reschedule themselves exactly in the modes in which they send |
| EmitterMessages.DeadAreSilent | emitter/src/main.c:342-351 | in every run a dead player sends neither player states nor scoreboards, although the scoreboard's handler would |
| EmitterMessages.RespawnIsTold | emitter/src/main.c:734-749 | a dead player's respawn restores life and health and is told to mesh and phone; a living player's command changes nothing |
| EmitterMessages.AcksEcho | emitter/src/main.c:577-760 | an acknowledgement is the opcode with the top bit set, sent exactly if the command is obeyed; no other one-byte message goes to the phone |
| EmitterMessages.LobbyIsAnnounced | emitter/src/main.c:534-542 | a lobby is announced with code and game mode as the phone sent them and the player's name as far as it is kept (length counted in eight bits, at most sixteen bytes, up to a zero), and the announcement scheduled again |
| EmitterMessages.LobbyEnds | emitter/src/main.c:662-679 | a game start sent or joined and the stop command end the lobby's announcements; stopping and scanning set their states |
| EmitterMessages.JoinIsPassedOn | emitter/src/main.c:681-695 | a join is passed on with code and player as the phone sent them and the name as far as it is kept |
| EmitterMessages.BytesArePassedOn | emitter/src/main.c:629-703 | bytes to be broadcast are handed to the mesh unchanged |
| EmitterMessages.UnpairReachesVest | emitter/src/main.c:724-732 | the unpair command reaches the vest, which forgets binding, friends and hit, and the link is dropped |
| EmitterMessages.OnlyUnpairDrops | emitter/src/main.c:724-732 | the vest's link is dropped by the unpair command and by nothing else |
| EmitterCounters.NobodyScores | emitter/src/game_state.c:132-135 | in every run from power-on no kill is counted, and every player state, death and scoreboard sent carries zero kills |
| EmitterCounters.DeathsAreCounted | emitter/src/game_state.c:71-86 | within a game, respawns included, the counter of the emitter is the number of its player's deaths, modulo 2^16 |
| Identities.StepParts | emitter/src/main.c:204-248 | while player and mesh agree on the team, a step makes them disagree if and only if it starts a game with complete teams and a cut roster whose last complete entry for the player names another team |
| Identities.TogetherFromPowerOn | emitter/src/main.c:204-248 | from power-on player and mesh agree on the team throughout a run if and only if no event of the run is such a start |
| Identities.SamePlayerInRuns | emitter/src/main.c:636-648 | the player's id is always the one the mesh node goes by |
| Identities.PartInARun | emitter/src/main.c:204-248 | a run of two phone commands from power-on ends in a game with the player in one team and its mesh node in another |
| Identities.TeammatesAreDropped | emitter/src/mesh.c:487-493 | after that the node neither forwards nor relays the player states of the player's own team |
| Identities.StaleByteDecides | emitter/src/main.c:172-187 | a ten-byte configuration that announces no teams clears the friendly list exactly if the earlier configuration announced no players |
| FriendlyList.ListArrives | emitter/src/ble_vest.c:336-344 | the friendly list survives its encoding, whatever the vest had before |
| FriendlyList.CutListKeepsIds | reciever/src/main.c:280-294 | a list with fewer ids than announced changes the number of friends but not the ids |
| FriendlyList.SetupArrives | emitter/src/main.c:275-279 | after both writes the vest's friends are the emitter's list unless friendly fire is on |
| FriendlyList.VestJoinsUnlessDead | reciever/src/main.c:289-291 | the vest is in the game after a game start exactly if it was idle or in the game before |
| DeadVest.DeadVestFromPowerOn | reciever/src/main.c:289-303 | under every configuration under which a player can die, a run from power-on through a death and a second game start leaves a living player in the game with a dead vest |
| DeadVest.NobodyCanHit | reciever/src/main.c:221-258 | in every run from such a state, until the vest notices a lost link, no frame is taken up, no hit accepted and the player cannot die |
| Respawns.RespawnRevivesBoth | emitter/src/main.c:734-741 | the phone's respawn command, delivered to the vest, puts both devices back into the game with full health |
| Respawns.RespawnedCanBeHit | reciever/src/main.c:303-306 | after a respawn the next frame of a hostile shooter is taken up and, delivered, costs health |
| Respawns.RespawnFromPowerOn | emitter/src/main.c:734-741 | from power-on: death, respawn and the next hit, under every configuration under which a player can die |
| Respawns.NewLinkRevives | reciever/src/main.c:420-432 | a dead vest whose link drops joins the next game after its emitter has connected again, and can be hit |
| Respawns.DeafnessEnds | reciever/src/main.c:420-432 | the state in which nobody can hit the player, reached from power-on, is left by a new connection |
| FriendlyList.AmongFirst | emitter/src/main.c:241-245 | a player is listed exactly if it has a roster entry on the team with fewer than the limit before it |
| FriendlyList.FriendsEndToEnd | reciever/src/main.c:128-139 | after a game start from a well-formed configuration the vest takes a shooter for a friend exactly if friendly fire is off and the shooter is among the first sixteen other players of the team |
| HitDelivery.StepIsSafe | reciever/src/main.c:195-329 | every step of vest, emitter, channels and link keeps copies of hits in order and nothing accepted or under way before the last accepted hit |
| HitDelivery.ReceiveIsSafe | emitter/src/main.c:316-352 | a delivered notification is either a duplicate or later than everything accepted |
| HitRuns.AcceptedAtMostOnce | emitter/src/main.c:303-327 | of two accepting deliveries the later one carries a later hit |
| HitRuns.EachLossHasItsOwnFrame | emitter/src/main.c:316-352 | every loss of health is due to an infrared frame with a valid check, seen while the vest was in the game with no hit pending, from a shooter not in its list unless friendly fire was on, whose id, shooter, weapon and team the delivered notification carried; and different losses are due to different frames |
| HitFrames.TakenUpExactly | reciever/src/main.c:221-258 | a vest takes up a frame, and notifies id, shooter, weapon and team, exactly if its check is valid, the vest is in the game with no hit pending and the shooter is no friend or friendly fire is on; any other frame changes nothing |
| HitFrames.WrongHitIsIgnored | reciever/src/main.c:221-226 | a hit frame received with one to three wrong bits, whatever its timing, leaves the vest as it was |
| HitFrames.RightHitIsTakenUp | reciever/src/main.c:221-258 | a hit frame received without error from a hostile shooter is taken up once the silence behind it was seen |
| HitFrames.FriendsAreSpared | reciever/src/main.c:232-235 | after a game start whose writes have arrived the vest takes up the frames of exactly those shooters who are not among the first sixteen other players of the team, or of all under friendly fire |
| HitFrames.ShooterIsNamed | emitter/src/main.c:333-341 | over every run each loss of health is reported to the mesh with the shooter of its infrared frame, the local player, the damage and the health left |
| HitFrames.KillerIsShooter | emitter/src/main.c:342-349 | over every run, when the player dies, the killer named to phone and mesh is the shooter of the infrared frame that the vest took up |
| HitVerdicts.FirstCopyDecides | emitter/src/main.c:303-331 | once any copy of a hit was heard in a game, accepted or taken for a duplicate, only later hits are ever accepted; no assumption on the ids |
| HitVerdicts.DeadHitNeverApplied | emitter/src/main.c:325-331 | a hit of which a copy reached a dead player, accepted or taken for a duplicate, is never applied later |
| HitRuns.HealthIsAccounted | emitter/src/game_state.c:71-86 | within a life under one configuration health is exactly what the applied hits leave |
| HitRuns.LeftIsDifference | emitter/src/game_state.c:71-86 | k hits leave the health less k damages, and nothing once that is used up |
| HitAcks.AtIsSound | reciever/src/main.c:242-257 | with fresh ids every acknowledgement under way answers a hit that was accepted, and hits under way have different ids |
| RepeatedIds.GameFromPowerOn | reciever/src/main.c:382-409 | for every saved configuration pairing, connecting, discovery, a game start and its two writes lead from power-on into a running game |
| RepeatedIds.RepeatedIdEndsLostHit | reciever/src/main.c:242-278 | for every id there is a run from power-on whose only two hits have that id, and in which the answer to the first ends the second, which the emitter never accepted |
| HitAcks.AckIsSound | reciever/src/main.c:269-278 | with fresh ids a hit ended by an acknowledgement was accepted by exactly one delivery, and was applied exactly if the game was active then |
| HitAcks.NoFalseDuplicate | emitter/src/main.c:303-327 | with hits apart a notification in a game is taken for a duplicate only if its own hit was accepted before |
| HitAcks.DeliveredIsAccepted | emitter/src/main.c:316-331 | with fresh ids every hit that reaches an emitter in a game is accepted, by exactly one delivery |
| FreshIds.FreshIsHarmless | reciever/src/main.c:242-278 | a hit taken up over a working link in a game has a fresh id if and only if no continuation with fresh ids ends a hit the emitter never accepted |
| FreshIds.StaleDrawIsHarmful | reciever/src/main.c:242-278 | after a draw that is not fresh some continuation without any further repeated id ends a hit the emitter never accepted; so from every safe state, even one where ids repeated before |
| TxQueue.Queue.Push | emitter/src/mesh.c:87-103 | a frame of 1 to 256 bytes is appended if fewer than four are queued; otherwise nothing changes |
| TxQueue.Queue.Pop | emitter/src/mesh.c:105-118 | the oldest frame is taken, if any |
| TxPump.NoLostWakeUp | emitter/src/mesh.c:120-185 | in every interleaving a queued frame means that pump or stop handler is pending or running or a caller is about to test or submit; accepted frames are dealt with, in hand or queued, in order |
| TxPump.OneFrameOnAir | emitter/src/mesh.c:134-185 | a frame is taken to the radio only while none is on the air |
| TxPump.StepsRunOut | emitter/src/mesh.c:120-185 | every step but a new broadcast uses up a bounded supply |
| TxPump.AcceptedFramesAreDealtWith | emitter/src/mesh.c:120-185 | when callers stop, boundedly many steps remain, and then the queue is empty and every accepted frame was sent or failed on the radio, in order |
| TxPump.AcceptedExactly | emitter/src/mesh.c:87-127 | a broadcast is accepted exactly if the radio is set up, the frame has 1 to 256 bytes and fewer than four are queued |
| TxPump.WorkingRadioSendsAll | emitter/src/mesh.c:134-185 | if the radio never fails every accepted frame is sent, in order |
| Transmitter.Radio.DoCodedBroadcast | emitter/src/mesh.c:120-132 | a broadcast queues the frame and submits the pump unless a broadcast is on |
| Transmitter.Radio.TxPumpHandler | emitter/src/mesh.c:134-178 | the pump sends the oldest frame, or drops it on a radio error and runs again |
| Transmitter.Radio.StopAdvHandler | emitter/src/mesh.c:180-185 | the stop handler clears the flag and submits the pump |
| Transmitter.BroadcastAloneIsRun | emitter/src/mesh.c:120-132 | an uninterrupted broadcast is one of the pump's runs |
| Transmitter.PumpAloneIsRun | emitter/src/mesh.c:134-178 | an uninterrupted pump handler is one of the pump's runs |
| Transmitter.StopAloneIsRun | emitter/src/mesh.c:180-185 | an uninterrupted stop handler is one of the pump's runs |
| AdRecords.FindManufacturerData | emitter/src/main.c:848-864 | the walk finds the first manufacturer record of the advertisement |
| AdRecords.FindsVest | emitter/src/ble_vest.c:292-315 | the walk finds a vest if and only if some record of the advertisement is a name that starts with the vest prefix |
| AdRecords.ParseEncode | emitter/src/main.c:849-863 | encoded records are read back, wherever they start |
| AdRecords.RecordsAreShort | emitter/src/main.c:849-863 | no advertisement holds a record of more than 254 bytes |
| AdRecords.FrameThroughAdvertisement | emitter/src/main.c:843-860 | a frame of at most 254 bytes comes out of its advertisement as it went in |
| MeshNode.MeshStore.BuildMeshPacket | emitter/src/mesh.c:203-220 | a frame that fits is built with the node's id and the next sequence number; one that does not changes nothing |
| MeshNode.MeshStore.BroadcastWithRepeat | emitter/src/mesh.c:222-238 | the frame is sent once and kept for the repetitions |
| MeshNode.MeshStore.GameStart | emitter/src/mesh.c:375-379 | the configuration is broadcast with its length narrowed to eight bits |
| MeshNode.MeshStore.RepeatWork | emitter/src/mesh.c:187-196 | a repetition is sent and counted |
| MeshNode.MeshStore.RelayMessage | emitter/src/mesh.c:256-271 | the frame replaces the one in the relay slot, with the time to live one lower |
| MeshNode.MeshStore.RelayWork | emitter/src/mesh.c:251-254 | the frame in the relay slot is sent |
| MeshNode.MeshStore.ProcessReceived | emitter/src/mesh.c:459-511 | the frame is handled as the node's step says (see MeshReach.HearExactly) |
| MeshRepeats.SentExactly | emitter/src/mesh.c:187-238 | whatever a node sends, hears and relays in between, a broadcast is sent once and once more for every run of the repeat item before another repeated broadcast takes the slot, at most as often as its count, always as the same frame; exactly that often if none takes the slot and the item runs out |
| MeshRepeats.NotSentAgain | emitter/src/mesh.c:232-237 | once another broadcast has the repeat slot the earlier one is never sent again |
| MeshRepeats.BroadcastsDiffer | emitter/src/mesh.c:198-215 | over every run two broadcasts of a node fewer than 2^16 apart have different keys |
| MeshHistory.FilterIsSlidingWindow | emitter/src/mesh.c:71-85 | over any history a node's filter is the window of the last 64 accepted keys of other players' frames |
| MeshFlood.StepIsFaithful | emitter/src/mesh.c:256-271 | every step keeps all copies equal to what was originated, but for the time to live |
| MeshFlood.StepIsConfined | emitter/src/mesh.c:483-510 | every step keeps player states within their team |
| MeshRuns.FloodsEnd | emitter/src/mesh.c:459-511 | a run is no longer than the originated frames allow |
| MeshRuns.FloodsAreBounded | emitter/src/mesh.c:203-220 | each frame built with time to live three causes at most 1 + 2n + 2n^2 + 2n^3 + n^4 steps among n nodes |
| MeshRuns.HopsAreBounded | emitter/src/mesh.c:256-271 | every transmission equals its origin in every byte but the time to live and was relayed no more often than that allowed |
| MeshRuns.PhonesHearFaithfully | emitter/src/mesh.c:240-249 | everything notified to a phone in a run is the opcode followed by the frame as originated, byte for byte but for the time to live, which is lower by the number of relays |
| MeshRuns.PlayerStatesStayInTheTeam | emitter/src/mesh.c:483-510 | in every run player states were sent by their originator or a node of the team they name, and forwarded only by nodes of that team |
| MeshRuns.FilterGoesByTheFrame | emitter/src/mesh.c:487-493 | the team filter depends on the frame alone exactly if the frame holds the team byte or is no such player state |
| MeshRuns.OwnFramesAreIgnored | emitter/src/mesh.c:472-474 | a node takes no notice of any copy of a frame it built |
| MeshRelays.RelaysAreAcceptances | emitter/src/mesh.c:256-271 | in every run a node relays a key at most as often as its filter accepted it |
| MeshRelays.RelayedAtMostOnce | emitter/src/mesh.c:71-85 | a node relays a key at most once if fewer than 64 keys are accepted between any two copies it hears |
| MeshRelays.OneRelayPerNode | emitter/src/mesh.c:459-511 | if that holds at every node, all copies and repetitions of a frame together cause at most one relay for each node |
| MeshRelays.FewKeysFewRelays | emitter/src/mesh.c:459-511 | it holds whenever the frames originated in the run have at most 64 keys |
| MeshReach.HearExactly | emitter/src/mesh.c:459-511 | a heard frame is notified exactly if it is accepted, not a player state of another team and at most 254 bytes; taken for relaying exactly if accepted, not such a state, at most 256 bytes and with time to live; and remembered exactly if accepted |
| MeshReach.RelaySends | emitter/src/mesh.c:251-254 | the frame taken for relaying is transmitted once, one hop further |
| MeshReach.Reaches | emitter/src/mesh.c:256-271 | a frame reaches the end of every path of listening nodes that its time to live allows, relayed once by each node before |
| MeshGameStart.CarriedExactly | emitter/src/mesh.c:375-379 | a configuration is handed to the transmitter as it is if and only if it has at most 250 bytes; 251 to 255 bytes are not, and 256 are as none |
| MeshGameStart.JoinerHears | emitter/src/mesh.c:499-502 | a joiner's node that processes any copy for the first time hands on the host's configuration, whatever its hops, and nothing by further copies |
| MeshGameStart.ScannerHears | emitter/src/main.c:843-864 | an advertisement that brings a copy for the first time hands the configuration on exactly if the joiner's phone is connected, and the configuration has at most 248 bytes |
| MeshGameStart.HeardExactly | emitter/src/main.c:843-864 | some advertisement can hand a joiner the host's configuration if and only if its phone is connected and the configuration has at most 248 bytes |
| MeshGameStart.HostStartsTheGame | emitter/src/main.c:672-679 | the host's phone command brings the host into the game and hands the same bytes to the mesh |
| MeshGameStart.JoinerEntersTheGame | emitter/src/main.c:291-299 | a joiner not in a game that scans any copy enters it exactly if its phone is connected, with the host's configuration, its own team, mesh identity and friends |
| MeshGameStart.EveryoneEntersTheGame | emitter/src/main.c:672-679 | from the bytes of the host's phone: the host enters the game, and so does, exactly if its phone is connected, a joiner that scans a copy of the frame |

## Left out

- Zephyr itself: GATT, advertising, scanning, PWM, GPIO, logging and settings appear only as events, parameters or nondeterministic success and failure.
- GATT discovery and the service tables of `ble_vest.c`, `ble_phone.c` and `vest_ble.c`.
- Locations, and with them the location fields of mesh messages; the phone log relay, LED patterns and device names.
- The phone's notices that the vest is paired or disconnected, and the state update when a phone connects.
- The encoding of the emitter's own mesh messages other than game starts, and how often each is repeated: what they carry is modelled (`EmitterReports`), and that a repeat count is kept (`MeshRepeats`).
- The order of what one event sends to vest, phone and mesh: each of the three keeps its own order.
- The trigger's work item: when it runs is arbitrary, and what it reschedules is a result of `EmitterProgram.EmitterStore.TriggerWork`.
- EmitterProgram.EmitterStore.PhoneRx: the two debug commands, which synthesise shots and hits for a board without a vest, do nothing in the model; they are no enabled events, and every theorem about steps and runs excludes them.
- The free-running cycle counter, its wrap-around and the conversion to microseconds: intervals are given in microseconds.
- The delays of work items: a scheduled item may run at any time.
- Races of cancelling a work item that has already started: cancelling takes effect at once.
- The settings handler of the vest, which the program never lets run.
- The link from the configuration parser to the mesh identity is recorded in `Setup`, but identities are fixed in the network runs.
- What the radio makes of frames of 255 and 256 bytes: no advertisement can hold one (`AdRecords.RecordsAreShort`), so no node hears them.
- The emitter's side of an infrared pairing attempt (repeating the frame while the trigger is held): each frame is an event of its own.
- The player id in a pairing frame, which the vest only logs.
- EMITTER_GAME_OVER is never entered by the program and has no counterpart.
- The radio ending a broadcast by itself before the stop handler runs: until then a frame counts as on the air.
- HitRuns.HealthIsAccounted: the configured damage is assumed not to change, because the plain configuration command may change it in mid-life.
- MeshRuns.PlayerStatesStayInTheTeam: covers only frames that contain the team byte, because shorter ones are filtered by memory contents.
