/** Numbers the two record layers and the DTLS handshake transport share. */
module Protocol {
  import opened Bytes

  // record types, and the one message of a change of cipher
  const RT_CHANGE_CIPHER_SPEC: byte := 20
  const RT_ALERT: byte := 21
  const RT_HANDSHAKE: byte := 22
  const RT_APPLICATION_DATA: byte := 23
  const MT_CCS: byte := 1

  const MAX_PLAIN_LENGTH: nat := 16384
  // epochs are 16-bit numbers
  const EPOCHS: nat := 0x1_0000
  // sequence numbers have 48 bits
  const SEQUENCES: nat := 0x1_0000_0000_0000
  // the most messages in a flight
  const MAX_FLIGHT: nat := 7
}
