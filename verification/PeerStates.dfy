/** The states of a peer and of its media session, as p2p_adapter.h declares them. */
module PeerStates {

  const IDLE: int := 0
  const ICE_GATHERING: int := 1
  const ICE_CONNECTING: int := 2
  const ICE_CONNECTED: int := 3
  const QUIC_HANDSHAKING: int := 4
  const QUIC_CONNECTED: int := 5
  const FAILED: int := 6
  const CLOSED: int := 7

  /** Session, tracks, subscriptions (-1 for none) and data channel over one connection. */
  datatype Moq = Moq(session: bool, videoTrack: bool, audioTrack: bool, videoSub: int, audioSub: int,
                     channelReady: bool)

  const NO_MOQ: Moq := Moq(false, false, false, -1, -1, false)
}
