/** Machine integers and the records shared by every component. */
module Types {
  type byte = x: int | 0 <= x < 0x100
  type uint32 = x: int | 0 <= x < 0x1_0000_0000
  type uint64 = x: int | 0 <= x < 0x1_0000_0000_0000_0000

  const UINT32_MAX: uint32 := 0xFFFF_FFFF

  datatype Option<+T> = None | Some(value: T)

  /** A hash-table key: the identity that stat reports for a file. */
  datatype Key = Key(device: uint64, inode: uint64)

  /** One slot of the shared file table. A slot whose inode is 0 is empty. */
  datatype FileOwner = FileOwner(
    device: uint64, inode: uint64,
    birthSeconds: uint64, birthNanoseconds: uint32,
    uid: uint32, gid: uint32, mode: uint32)
  {
    function Id(): Key { Key(device, inode) }

    predicate HasBirth() { birthSeconds != 0 || birthNanoseconds != 0 }
  }

  const EMPTY_OWNER := FileOwner(0, 0, 0, 0, 0, 0, 0)

  predicate SameBirth(a: FileOwner, b: FileOwner) {
    a.birthSeconds == b.birthSeconds && a.birthNanoseconds == b.birthNanoseconds
  }
}
