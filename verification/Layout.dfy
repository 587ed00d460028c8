// What the ROM's routines agree on: the address space, the catalogue pages and the
// size of a sector.

module Layout {
  const MEMORY_SIZE := 0x10000

  const NAMES := 0x0E08        // eight bytes a file: seven of name, one of directory
  const INFO := 0x0F08         // eight bytes a file: load, exec, length, packed, start
  const COUNT := 0x0F05        // eight times the number of files

  const MAX_FILES := 31

  // Zero page: the length in the block of a file operation.
  const LENGTH_LOW := 0xC2
  const LENGTH_MID := 0xC3

  const DIRECTORY_PARAM := 0xCE
  const CUR_DRV := 0xCF
  const TUBE_ADDR := 0x1074    // two bytes
  const CURRENT := 0x10C2      // the offset of the file worked on

  // A bit for each open file; and per open file, at an offset of $20 to $a0.
  const OPEN_FILES := 0x10C0
  const DIRECTORY := 0x110E
  const FILE_PTR := 0x1110     // three bytes
  const BUFFER := 0x1113       // page of the buffer
  const EXTENT := 0x1114       // three bytes: the file's length
  const FLAGS := 0x1117        // 7: buffer holds PTR's sector; 6: dirty; 5: longer; 4: end of file reported; 0-1: drive
  const ALLOCATED := 0x1119    // two bytes: sectors it owns
  const OWN_MASK := 0x111B     // its bit
  const BUFFERED := 0x111C     // two bytes: the sector in the buffer

  predicate IsOffset(y: int) { y in {0x20, 0x40, 0x60, 0x80, 0xA0} }

  // Sectors that hold n bytes.
  function Sectors(n: nat): nat { (n + 255) / 256 }
}
