/**
 * The ELF32 records of WalkerZero's model: the header, whose `Kind`
 * clamps `e_type` to the six kinds the program names, and the symbol,
 * whose constructor splits `st_info` into its type (low four bits) and
 * binding (high four bits), as ELF32_ST_TYPE and ELF32_ST_BIND do in the
 * System V ABI's symbol table chapter.  An enum cast of C# keeps values
 * it has no name for, so the symbol's type, binding and visibility are
 * kept as the numbers the casts hold.
 */
module Elf {
  newtype UInt16 = x: int | 0 <= x < 0x1_0000
  newtype UInt32 = x: int | 0 <= x < 0x1_0000_0000

  /** `T_Elf`: the kinds of ELF file the header names, in the enum's order. */
  datatype ElfKind = NoKind | Rel | Exec | Dyn | Core | Proc

  /** The enum's underlying value of each kind. */
  function Ordinal(k: ElfKind): (n: nat)
    ensures n < 6
  {
    match k
    case NoKind => 0
    case Rel => 1
    case Exec => 2
    case Dyn => 3
    case Core => 4
    case Proc => 5
  }

  /** `(T_Elf)n` for a value the enum names. */
  function FromOrdinal(n: nat): (k: ElfKind)
    requires n < 6
    ensures Ordinal(k) == n
  {
    [NoKind, Rel, Exec, Dyn, Core, Proc][n]
  }

  /** Casting to the enum and back is the identity on every kind. */
  lemma OrdinalRoundTrip(k: ElfKind)
    ensures FromOrdinal(Ordinal(k)) == k
  {
  }

  /** `elf32_hdr`: the constructor stores each of its thirteen arguments in its own property. */
  datatype ElfHeader = ElfHeader(
    elfType: UInt16,
    machine: UInt16,
    version: UInt32,
    entryPoint: UInt32,
    programHdrOffset: UInt32,
    sectionHdrOffset: UInt32,
    flags: UInt32,
    elfHdrSize: UInt16,
    programHdrEntrySize: UInt16,
    programHdrEntryNum: UInt16,
    sectionHdrEntrySize: UInt16,
    sectionHdrEntryNum: UInt16,
    sectionHdrStrTableIndex: UInt16)
  {
    /**
     * `Kind`: a type below PROC's value is cast to the kind it names, and
     * every other type, whatever its value, is PROC.
     */
    function Kind(): (k: ElfKind)
      ensures elfType < 5 ==> Ordinal(k) == elfType as int
      ensures elfType >= 5 <==> k == Proc
    {
      if elfType < Ordinal(Proc) as UInt16 then FromOrdinal(elfType as nat) else Proc
    }
  }

  /** Reading the kind never loses a named type below PROC, and never yields a value past it. */
  lemma KindClamps(h: ElfHeader)
    ensures Ordinal(h.Kind()) == if h.elfType < 5 then h.elfType as int else 5
    ensures Ordinal(h.Kind()) <= h.elfType as int
  {
  }

  /**
   * `Symbol`: the name, address, size and section are stored as given;
   * the type and binding are the two halves of `info`, and the visibility
   * is `other` whole.
   */
  datatype Symbol<S> = Symbol(
    name: string,
    address: UInt32,
    size: UInt32,
    symbolType: nat,
    bind: nat,
    visibility: nat,
    section: S)

  /** The `Symbol` constructor's decoding of `info` and `other`. */
  function NewSymbol<S>(name: string, address: UInt32, size: UInt32, info: bv8, other: bv8, section: S): (s: Symbol<S>)
    ensures s.symbolType < 16 && s.bind < 16
    ensures s.bind * 16 + s.symbolType == info as int
    ensures s.visibility == other as int
    ensures s.name == name && s.address == address && s.size == size && s.section == section
  {
    Symbol(name, address, size, (info & 0x0f) as int, (info >> 4) as int, other as int, section)
  }

  /** The type and binding are `info` modulo and divided by sixteen. */
  lemma SymbolInfoSplit<S>(name: string, address: UInt32, size: UInt32, info: bv8, other: bv8, section: S)
    ensures NewSymbol(name, address, size, info, other, section).symbolType == info as int % 16
    ensures NewSymbol(name, address, size, info, other, section).bind == info as int / 16
  {
  }

  /** Two `info` bytes that decode to the same type and binding are the same byte. */
  lemma SymbolInfoInjective<S>(name: string, address: UInt32, size: UInt32, info1: bv8, info2: bv8, other: bv8, section: S)
    requires NewSymbol(name, address, size, info1, other, section) == NewSymbol(name, address, size, info2, other, section)
    ensures info1 == info2
  {
  }
}
