/** The flat byte-addressed memory the picture-processing unit shares with the CPU. */
module Memory {

  /** One byte of the address space. */
  type Byte = bv8

  /** Size of the 16-bit address space. */
  const ADDRESS_SPACE: nat := 0x1_0000

  /** The whole address space, as the bus presents it to the PPU. */
  type Ram = r: seq<Byte> | |r| == ADDRESS_SPACE witness seq(ADDRESS_SPACE, _ => 0)
}
