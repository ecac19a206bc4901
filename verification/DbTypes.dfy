/** Values, blocks and locations shared by the transaction and query layers. */
module DbTypes {

  datatype Option<+T> = None | Some(value: T) {
    function GetOr(default: T): T {
      if Some? then value else default
    }
  }

  /** A field value: the engine stores integers and strings. */
  datatype Value = IntVal(i: int) | StrVal(s: string)

  /** Where a table record is: block number and slot. */
  datatype Rid = Rid(blk: int, slot: int)

  datatype Block = Block(file: string, num: int)

  /** A byte offset inside a block. */
  datatype Loc = Loc(blk: Block, off: int)

  /** What a page holds, offset by offset. Reading past the end of a file yields zeros. */
  type Page = map<int, Value>

  const Zero := IntVal(0)

  function At(p: Page, off: int): Value {
    if off in p then p[off] else Zero
  }

  type Store = map<Loc, Value>

  function Get(st: Store, l: Loc): Value {
    if l in st then st[l] else Zero
  }

  type Disk = map<Block, Page>

  function PageOf(d: Disk, b: Block): Page {
    if b in d then d[b] else map[]
  }

  function OnDisk(d: Disk, l: Loc): Value {
    At(PageOf(d, l.blk), l.off)
  }
}
