/** The sizes of p2p_signaling.h. */
module SignalingLimits {

  const MAX_PEER_ID: nat := 64
  const MAX_ROOM_ID: nat := 64
  const MAX_MSG_SIZE: nat := 8192
  const POST_QUEUE_SIZE: nat := 32
  const MAX_SDP_SIZE: nat := 4096
  const TURN_CRED_SIZE: nat := 128
  const TURN_SERVER_SIZE: nat := 256
  const MAX_CANDIDATES: nat := 16
  const MAX_CAND_SIZE: nat := 256
}
