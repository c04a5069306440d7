/** Command strobes, status registers, FIFO/PATABLE addresses and main radio
    control (MARC) states of the CC1101, as listed in the CC1101 datasheet
    (command strobes table, status register table and MARCSTATE encoding).
    The configuration register addresses live in `Registers`. */
module Addresses {
  import opened Bits

  // Command strobes.
  const SRES: nat := 0x30
  const SRX: nat := 0x34
  const STX: nat := 0x35
  const SIDLE: nat := 0x36
  const SFRX: nat := 0x3A
  const SFTX: nat := 0x3B

  // Status registers (read with the burst bit set).
  const PARTNUM: nat := 0x30
  const VERSION: nat := 0x31
  const RSSI: nat := 0x34
  const MARCSTATE: nat := 0x35
  const TXBYTES: nat := 0x3A
  const RXBYTES: nat := 0x3B

  // Multi-byte targets.
  const PATABLE: nat := 0x3E
  const TXFIFO: nat := 0x3F
  const RXFIFO: nat := 0x3F

  // MARCSTATE values.
  const MARCSTATE_IDLE: Byte := 0x01
  const MARCSTATE_RX: Byte := 0x0D
  const MARCSTATE_RX_END: Byte := 0x0E
  const MARCSTATE_TX: Byte := 0x13
}
