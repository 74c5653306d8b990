/** Opcodes and sizes shared by the phone, the emitter and the vest. */
module Protocol {
  import opened Bytes

  const MAX_PLAYERS := 16
  const HIT_PAYLOAD_SIZE := 5
  const MAX_USERNAME_LEN := 16

  // Phone to emitter
  const CMD_CONFIG: byte := 0x01
  const CMD_START: byte := 0x02
  const CMD_AMMO_INCREASE: byte := 0x03
  const CMD_GAME_OVER: byte := 0x04
  const CMD_BROADCAST_CODED_PHY: byte := 0x05
  const CMD_SET_PLAYER_INFO: byte := 0x10
  const CMD_START_LOBBY_HOST: byte := 0x11
  const CMD_START_LOBBY_SCAN: byte := 0x12
  const CMD_STOP_LOBBY: byte := 0x13
  const CMD_BROADCAST_GAME_CFG: byte := 0x14
  const CMD_UPDATE_LOCATION: byte := 0x15
  const CMD_REQUEST_MESH_STATS: byte := 0x16
  const CMD_ENTER_PAIRING: byte := 0x17
  const CMD_UNPAIR_VEST: byte := 0x18
  const CMD_RESPAWN: byte := 0x19
  const CMD_RELOAD: byte := 0x1A
  const CMD_DEBUG_FIRE: byte := 0x1B
  const CMD_DEBUG_HIT: byte := 0x1C
  const CMD_BROADCAST_LOBBY_JOIN: byte := 0x1D
  const CMD_BROADCAST_LOBBY_STATE: byte := 0x1E

  // Emitter to phone
  const RSP_CONFIG_ACK: byte := 0x81
  const RSP_START_ACK: byte := 0x82
  const RSP_AMMO_ACK: byte := 0x83
  const RSP_GAME_OVER_ACK: byte := 0x84
  const RSP_BROADCAST_ACK: byte := 0x85
  const RSP_PLAYER_INFO_ACK: byte := 0x90
  const RSP_LOBBY_HOST_ACK: byte := 0x91
  const RSP_LOBBY_SCAN_ACK: byte := 0x92
  const RSP_GAME_CFG_ACK: byte := 0x94
  const RSP_LOCATION_ACK: byte := 0x95
  const RSP_MESH_STATS_ACK: byte := 0x96
  const RSP_PAIRING_ACK: byte := 0x97
  const RSP_RESPAWN_ACK: byte := 0x99
  const RSP_STATE_UPDATE: byte := 0xA0
  const RSP_DEATH_NOTIFY: byte := 0xA1

  // Emitter to vest
  const VEST_CMD_HIT_ACK: byte := 0x01
  const VEST_CMD_FRIENDLY_LIST: byte := 0x02
  const VEST_CMD_DEATH: byte := 0x03
  const VEST_CMD_RESPAWN: byte := 0x04
  const VEST_CMD_FRIENDLY_FIRE: byte := 0x05
  const VEST_CMD_UNPAIR: byte := 0x07

  // Mesh message type
  const MESH_PLAYER_DEATH: byte := 0x12
}
