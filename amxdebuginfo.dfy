/**
 * The view of a script's debug information that the crash reporter uses:
 * the raw records of the debug section, the wrapper classes over them with
 * their truth values and accessors, the tables with indexing and iteration,
 * and the debug-info object itself. The lookups that search the tables are
 * only declared (see `Queries`).
 */
module AmxDebugInfo {
  import opened Optional

  // Records of the debug section (AMX_DBG_FILE, AMX_DBG_LINE, AMX_DBG_TAG,
  // AMX_DBG_SYMBOL, AMX_DBG_SYMDIM), with the fields the wrappers read.
  datatype DbgFile = DbgFile(address: nat, name: string)
  datatype DbgLine = DbgLine(address: nat, line: int)
  datatype DbgTag = DbgTag(tag: int, name: string)
  datatype DbgSymbol = DbgSymbol(address: nat, tag: int, codeStart: nat, codeEnd: nat,
                                 ident: int, vclass: int, dim: int, name: string)
  datatype DbgSymDim = DbgSymDim(tag: int, size: nat)

  /** A File wraps a possibly null pointer to a file record; it is true when the pointer is set. */
  datatype File = File(file: Option<DbgFile>)
  {
    predicate IsTrue() { file.Some? }
    function GetName(): string requires IsTrue() { file.value.name }
    function GetAddress(): nat requires IsTrue() { file.value.address }
  }

  /** The default File holds a null pointer. */
  const NoFile: File := File(None)

  /**
   * A Line wraps a line record by value; it is true when its address is not
   * zero, so a line record at address 0 reads as no line at all.
   */
  datatype Line = Line(line: DbgLine)
  {
    predicate IsTrue() { line.address != 0 }
    function GetNumber(): int { line.line }
    function GetAddress(): nat { line.address }
  }

  /**
   * The default Line: address 0 and a line number the constructor leaves
   * uninitialised, which is `number` here.
   */
  function NoLine(number: int): (l: Line)
    ensures !l.IsTrue() && l.GetAddress() == 0
  {
    Line(DbgLine(0, number))
  }

  /** A Tag wraps a possibly null pointer to a tag record. */
  datatype Tag = Tag(tag: Option<DbgTag>)
  {
    predicate IsTrue() { tag.Some? }
    function GetID(): int requires IsTrue() { tag.value.tag }
    function GetName(): string requires IsTrue() { tag.value.name }
  }

  const NoTag: Tag := Tag(None)

  // Symbol::VClass.
  const Global: int := 0
  const Local: int := 1
  const StaticLocal: int := 2

  // Symbol::Kind.
  const Variable: int := 1
  const Reference: int := 2
  const Array: int := 3
  const ArrayRef: int := 4
  const Function: int := 9
  const FunctionRef: int := 10

  /** A Symbol wraps a possibly null pointer to a symbol record. */
  datatype Symbol = Symbol(symbol: Option<DbgSymbol>)
  {
    predicate IsTrue() { symbol.Some? }

    function GetAddress(): nat requires IsTrue() { symbol.value.address }
    function GetTag(): int requires IsTrue() { symbol.value.tag }
    function GetCodeStartAddress(): nat requires IsTrue() { symbol.value.codeStart }
    function GetCodeEndAddress(): nat requires IsTrue() { symbol.value.codeEnd }
    function GetKind(): int requires IsTrue() { symbol.value.ident }
    function GetVClass(): int requires IsTrue() { symbol.value.vclass }
    function GetArrayDim(): int requires IsTrue() { symbol.value.dim }
    function GetNumDims(): int requires IsTrue() { symbol.value.dim }
    function GetName(): string requires IsTrue() { symbol.value.name }

    predicate IsGlobal() requires IsTrue() { GetVClass() == Global }
    predicate IsLocal() requires IsTrue() { GetVClass() == Local }
    predicate IsStaticLocal() requires IsTrue() { GetVClass() == StaticLocal }

    predicate IsVariable() requires IsTrue() { GetKind() == Variable }
    predicate IsReference() requires IsTrue() { GetKind() == Reference }
    predicate IsArray() requires IsTrue() { GetKind() == Array }
    predicate IsArrayRef() requires IsTrue() { GetKind() == ArrayRef }
    predicate IsFunction() requires IsTrue() { GetKind() == Function }
    predicate IsFunctionRef() requires IsTrue() { GetKind() == FunctionRef }
  }

  const NoSymbol: Symbol := Symbol(None)

  /** A SymbolDim wraps a possibly null pointer to a dimension record. */
  datatype SymbolDim = SymbolDim(symdim: Option<DbgSymDim>)
  {
    predicate IsTrue() { symdim.Some? }
    function GetTag(): int requires IsTrue() { symdim.value.tag }
    function GetSize(): nat requires IsTrue() { symdim.value.size }
  }

  const NoSymbolDim: SymbolDim := SymbolDim(None)

  function Count(b: bool): nat { if b then 1 else 0 }

  /** How many of the kind predicates hold for `s`. */
  function KindsHolding(s: Symbol): nat
    requires s.IsTrue()
  {
    Count(s.IsVariable()) + Count(s.IsReference()) + Count(s.IsArray())
      + Count(s.IsArrayRef()) + Count(s.IsFunction()) + Count(s.IsFunctionRef())
  }

  /** How many of the storage-class predicates hold for `s`. */
  function VClassesHolding(s: Symbol): nat
    requires s.IsTrue()
  {
    Count(s.IsGlobal()) + Count(s.IsLocal()) + Count(s.IsStaticLocal())
  }

  /**
   * At most one kind predicate holds for a symbol, and exactly one does when
   * its identifier is one of the six Kind values.
   */
  lemma KindsExclusive(s: Symbol)
    requires s.IsTrue()
    ensures KindsHolding(s) <= 1
    ensures KindsHolding(s) == 1 <==> s.GetKind() in {Variable, Reference, Array, ArrayRef, Function, FunctionRef}
  {
  }

  /**
   * At most one storage-class predicate holds, and exactly one does when the
   * class is Global, Local or StaticLocal.
   */
  lemma VClassesExclusive(s: Symbol)
    requires s.IsTrue()
    ensures VClassesHolding(s) <= 1
    ensures VClassesHolding(s) == 1 <==> 0 <= s.GetVClass() <= 2
  {
  }

  /** GetArrayDim and GetNumDims are two names for the same field. */
  lemma ArrayDimIsNumDims(s: Symbol)
    requires s.IsTrue()
    ensures s.GetArrayDim() == s.GetNumDims() == s.symbol.value.dim
  {
  }

  /**
   * The truth value of every pointer wrapper is exactly "the pointer is not
   * null", and that of a Line is "the address is not 0".
   */
  lemma WrapperTruth(f: Option<DbgFile>, l: DbgLine, t: Option<DbgTag>, s: Option<DbgSymbol>, d: Option<DbgSymDim>)
    ensures File(f).IsTrue() <==> f != None
    ensures Line(l).IsTrue() <==> l.address != 0
    ensures Tag(t).IsTrue() <==> t != None
    ensures Symbol(s).IsTrue() <==> s != None
    ensures SymbolDim(d).IsTrue() <==> d != None
    ensures !NoFile.IsTrue() && !NoTag.IsTrue() && !NoSymbol.IsTrue() && !NoSymbolDim.IsTrue()
  {
  }

  /**
   * Table<EntryT, EntryClassT>: the first `size` entries of an array of raw
   * entries, each read through the wrapper constructor `wrap`.
   */
  datatype Table<!E, W> = Table(entries: seq<E>, size: nat, wrap: E -> W)
  {
    /** The table does not claim more entries than its storage holds. */
    ghost predicate Valid()
    {
      size <= |entries|
    }

    function Size(): (n: nat)
      ensures n == size
    {
      size
    }

    /** operator[]: entry `index`, wrapped; indexes at or beyond the size are refused. */
    function At(index: nat): (w: W)
      requires Valid() && index < size
      ensures w == wrap(entries[index])
    {
      wrap(entries[index])
    }

    /** The wrapped entries in table order. */
    function Contents(): (c: seq<W>)
      requires Valid()
      ensures |c| == size
      ensures forall i :: 0 <= i < size ==> c[i] == At(i)
    {
      seq(size, i requires 0 <= i < size && size <= |entries| => wrap(entries[i]))
    }
  }

  /** The default Table: no storage and size 0. */
  function EmptyTable<E, W>(wrap: E -> W): (t: Table<E, W>)
    ensures t.Valid() && t.Size() == 0 && t.Contents() == []
  {
    Table([], 0, wrap)
  }

  /**
   * The table iterator, with the dereference of the current entry made when
   * the wrapper is read rather than when the position moves; see
   * `RawIterator` for the iterator as the header writes it.
   */
  class Iterator<E, W> {
    const table: Table<E, W>
    var cur: nat

    ghost predicate Valid()
      reads this
    {
      table.Valid() && cur <= table.size
    }

    constructor (table: Table<E, W>, position: nat)
      requires table.Valid() && position <= table.size
      ensures Valid() && this.table == table && cur == position
    {
      this.table := table;
      cur := position;
    }

    /** operator*: the wrapped current entry; only a position before end() has one. */
    function Current(): (w: W)
      reads this
      requires Valid() && cur < table.size
      ensures w == table.At(cur)
    {
      table.At(cur)
    }

    /** operator++. */
    method Next()
      requires Valid() && cur < table.size
      modifies this
      ensures Valid() && cur == old(cur) + 1
    {
      cur := cur + 1;
    }

    /**
     * operator==: two iterators are equal when they are at the same position.
     * The header compares entry pointers; iterators of one table are meant,
     * and the position stands for the pointer.
     */
    function Equals(other: Iterator<E, W>): (b: bool)
      reads this, other
      ensures b <==> cur == other.cur
    {
      cur == other.cur
    }
  }

  /** Table::begin(). */
  method Begin<E, W>(t: Table<E, W>) returns (it: Iterator<E, W>)
    requires t.Valid()
    ensures fresh(it) && it.Valid() && it.table == t && it.cur == 0
  {
    it := new Iterator(t, 0);
  }

  /** Table::end(). */
  method End<E, W>(t: Table<E, W>) returns (it: Iterator<E, W>)
    requires t.Valid()
    ensures fresh(it) && it.Valid() && it.table == t && it.cur == t.size
  {
    it := new Iterator(t, t.size);
  }

  /**
   * The loop `for (it = t.begin(); it != t.end(); ++it)`: it visits every
   * entry of the table exactly once, in table order.
   */
  method Traverse<E, W>(t: Table<E, W>) returns (visited: seq<W>)
    requires t.Valid()
    ensures visited == t.Contents()
  {
    var it := Begin(t);
    var end := End(t);
    visited := [];
    while !it.Equals(end)
      invariant it.Valid() && it.table == t && end.cur == t.size
      invariant visited == t.Contents()[..it.cur]
      decreases t.size - it.cur
    {
      visited := visited + [it.Current()];
      it.Next();
    }
  }

  /**
   * The iterator as the header writes it: the constructor and operator++
   * both read the entry at the new position into the wrapper at once, so
   * every position they reach must be inside the storage.
   */
  class RawIterator<E, W> {
    const entries: seq<E>
    const wrap: E -> W
    var cur: nat
    var curw: W

    constructor (entries: seq<E>, wrap: E -> W, position: nat)
      requires ReadableAt(entries, position)
      ensures this.entries == entries && this.wrap == wrap && cur == position
      ensures curw == wrap(entries[position])
    {
      this.entries, this.wrap := entries, wrap;
      cur := position;
      curw := wrap(entries[position]);
    }

    method Next()
      requires ReadableAt(entries, cur + 1)
      modifies this
      ensures cur == old(cur) + 1 && curw == wrap(entries[cur])
    {
      cur := cur + 1;
      curw := wrap(entries[cur]);
    }
  }

  /** Whether `*cur_` may be read at `position` of the storage. */
  predicate ReadableAt<E>(entries: seq<E>, position: nat)
  {
    position < |entries|
  }

  /**
   * For every table whose storage holds exactly `size` entries, as the
   * tables of a loaded debug section do, end() cannot be built without
   * reading one entry past the storage, and neither can the last ++ of a
   * traversal; when the table is empty, neither can begin().
   * The lemma itself is only about positions: that these positions are
   * actually read is what the `ReadableAt` requires of RawIterator's
   * constructor and of its Next say.
   */
  lemma RawEndReadsPastStorage<E, W>(t: Table<E, W>)
    requires |t.entries| == t.size
    ensures !ReadableAt(t.entries, t.size)
    ensures t.size > 0 ==> !ReadableAt(t.entries, (t.size - 1) + 1)
    ensures t.size == 0 ==> !ReadableAt(t.entries, 0)
  {
  }

  /** A concrete case: the line table of a script with a single line record. */
  lemma RawEndOfOneLine()
    ensures var t := Table([DbgLine(4, 1)], 1, (l: DbgLine) => Line(l));
      t.Valid() && ReadableAt(t.entries, 0) && !ReadableAt(t.entries, t.size)
  {
  }

  /** The tables of the debug section (AMX_DBG), each with as many entries as its header count. */
  datatype AmxDbg = AmxDbg(files: seq<Option<DbgFile>>, lines: seq<DbgLine>,
                           tags: seq<Option<DbgTag>>, symbols: seq<Option<DbgSymbol>>)

  /** AMXDebugInfo: the debug section, when one was loaded. */
  datatype DebugInfo = DebugInfo(dbg: Option<AmxDbg>)
  {
    predicate IsLoaded() { dbg.Some? }

    function GetFiles(): (t: Table<Option<DbgFile>, File>)
      requires IsLoaded()
      ensures t.Valid() && t.entries == dbg.value.files && t.size == |dbg.value.files|
      ensures forall i :: 0 <= i < t.size ==> t.At(i) == File(dbg.value.files[i])
    {
      Table(dbg.value.files, |dbg.value.files|, (p: Option<DbgFile>) => File(p))
    }

    function GetLines(): (t: Table<DbgLine, Line>)
      requires IsLoaded()
      ensures t.Valid() && t.entries == dbg.value.lines && t.size == |dbg.value.lines|
      ensures forall i :: 0 <= i < t.size ==> t.At(i) == Line(dbg.value.lines[i])
    {
      Table(dbg.value.lines, |dbg.value.lines|, (l: DbgLine) => Line(l))
    }

    function GetTags(): (t: Table<Option<DbgTag>, Tag>)
      requires IsLoaded()
      ensures t.Valid() && t.entries == dbg.value.tags && t.size == |dbg.value.tags|
      ensures forall i :: 0 <= i < t.size ==> t.At(i) == Tag(dbg.value.tags[i])
    {
      Table(dbg.value.tags, |dbg.value.tags|, (p: Option<DbgTag>) => Tag(p))
    }

    function GetSymbols(): (t: Table<Option<DbgSymbol>, Symbol>)
      requires IsLoaded()
      ensures t.Valid() && t.entries == dbg.value.symbols && t.size == |dbg.value.symbols|
      ensures forall i :: 0 <= i < t.size ==> t.At(i) == Symbol(dbg.value.symbols[i])
    {
      Table(dbg.value.symbols, |dbg.value.symbols|, (p: Option<DbgSymbol>) => Symbol(p))
    }
  }

  /** The default AMXDebugInfo holds nothing. */
  const NoDebugInfo: DebugInfo := DebugInfo(None)

  /**
   * The lookups AMXDebugInfo declares, as opaque functions of the address,
   * tag or name they are given; how they search the tables is not part of
   * this model.
   */
  datatype Queries = Queries(
    getLine: nat -> Line,
    getFile: nat -> File,
    getFunction: nat -> Symbol,
    getTag: int -> Tag,
    getLineNumber: nat -> int,
    getFileName: nat -> string,
    getFunctionName: nat -> string,
    getTagName: nat -> string,
    getFunctionAddress: (string, string) -> nat,
    getFunctionStartAddress: nat -> nat,
    getLineAddress: (int, string) -> nat)
}
