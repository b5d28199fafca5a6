/**
 * The detour primitive: a hook overwrites the first bytes of a function with
 * an x86 near relative jump ("JMP rel32", opcode E9 followed by a 32-bit
 * displacement counted from the end of the instruction) to a replacement,
 * remembering the bytes it overwrote so that it can put them back.
 *
 * Process memory is an array of bytes indexed by address, in a 32-bit
 * address space; it is assumed to be writable (the page-protection call is
 * not modelled).
 */
module Hooks {
  import opened Cstdint

  /** Length of the jump instruction: one opcode byte and four displacement bytes. */
  const JmpInstrSize: nat := 5

  /** The opcode of the near relative jump. */
  const JmpOpcode: byte := 0xE9

  /**
   * The displacement Install stores: `(int32)dst - ((int32)src + 5)` in
   * 32-bit arithmetic, kept as the low 32 bits of a size_t. It is the
   * distance from the end of the jump instruction to `dst`, modulo 2^32.
   */
  function JumpOffset(src: int, dst: int): (off: nat)
    ensures off < TWO_32
    ensures off == U32(dst - (src + JmpInstrSize))
  {
    var next := S32(S32(src) + JmpInstrSize);
    U32OfSum(S32(src), JmpInstrSize, src, JmpInstrSize);
    U32OfDiff(S32(dst), next, dst, src + JmpInstrSize);
    U32(S32(S32(dst) - next))
  }

  /** The five bytes Install writes at `src`: opcode, then the displacement, lowest byte first. */
  function JumpBytes(src: int, dst: int): (bs: seq<byte>)
    ensures |bs| == JmpInstrSize && bs[0] == JmpOpcode
    ensures FromLE32(bs[1..]) == JumpOffset(src, dst)
  {
    var off := LE32(JumpOffset(src, dst));
    FromLE32OfLE32(JumpOffset(src, dst));
    assert ([JmpOpcode] + off)[1..] == off;
    [JmpOpcode] + off
  }

  /** Memory after a jump from `src` to `dst` is written into `m`. */
  function Patched(m: seq<byte>, src: nat, dst: int): (r: seq<byte>)
    requires src + JmpInstrSize <= |m|
    ensures |r| == |m| && r[src..src + JmpInstrSize] == JumpBytes(src, dst)
    ensures forall i :: 0 <= i < |m| && !(src <= i < src + JmpInstrSize) ==> r[i] == m[i]
  {
    m[..src] + JumpBytes(src, dst) + m[src + JmpInstrSize..]
  }

  /** Memory after the saved bytes `saved` are copied back to `src`. */
  function Restored(m: seq<byte>, src: nat, saved: seq<byte>): (r: seq<byte>)
    requires src + JmpInstrSize <= |m| && |saved| == JmpInstrSize
    ensures |r| == |m| && r[src..src + JmpInstrSize] == saved
    ensures forall i :: 0 <= i < |m| && !(src <= i < src + JmpInstrSize) ==> r[i] == m[i]
  {
    m[..src] + saved + m[src + JmpInstrSize..]
  }

  /** Whether a jump can be decoded at `jmp`: the opcode byte exists, and so does the displacement after an E9. */
  predicate Decodable(m: seq<byte>, jmp: nat)
  {
    jmp < |m| && (m[jmp] == JmpOpcode ==> jmp + JmpInstrSize <= |m|)
  }

  /**
   * Hook::GetTargetAddress: the address a jump at `jmp` leads to, computed as
   * displacement plus address of the next instruction in 32-bit arithmetic;
   * 0 when the byte at `jmp` is not the jump opcode.
   */
  function GetTargetAddress(m: seq<byte>, jmp: nat): (target: nat)
    requires Decodable(m, jmp)
    ensures target < TWO_32
    ensures m[jmp] != JmpOpcode ==> target == 0
    ensures m[jmp] == JmpOpcode ==> target == U32(FromLE32(m[jmp + 1..jmp + JmpInstrSize]) + jmp + JmpInstrSize)
  {
    if m[jmp] == JmpOpcode then
      var next := S32(jmp + JmpInstrSize);
      var rel := S32(FromLE32(m[jmp + 1..jmp + JmpInstrSize]));
      U32OfSum(rel, next, FromLE32(m[jmp + 1..jmp + JmpInstrSize]), jmp + JmpInstrSize);
      U32(S32(rel + next))
    else
      0
  }

  /** Decoding the jump Install writes gives back its destination, modulo 2^32. */
  lemma {:induction false} TargetOfPatched(m: seq<byte>, src: nat, dst: int)
    requires src + JmpInstrSize <= |m|
    ensures Decodable(Patched(m, src, dst), src)
    ensures GetTargetAddress(Patched(m, src, dst), src) == U32(dst)
  {
    var p := Patched(m, src, dst);
    var off := JumpOffset(src, dst);
    assert p[src + 1..src + JmpInstrSize] == JumpBytes(src, dst)[1..];
    assert FromLE32(p[src + 1..src + JmpInstrSize]) == off;
    assert GetTargetAddress(p, src) == U32(off + (src + JmpInstrSize));
    assert U32(off) == U32(dst - (src + JmpInstrSize)) by {
      U32Idempotent(dst - (src + JmpInstrSize));
    }
    U32OfSum(off, src + JmpInstrSize, dst - (src + JmpInstrSize), src + JmpInstrSize);
  }

  /** A destination in the 32-bit address space is decoded exactly. */
  lemma TargetOfPatchedExact(m: seq<byte>, src: nat, dst: nat)
    requires src + JmpInstrSize <= |m| && dst < TWO_32
    ensures Decodable(Patched(m, src, dst), src)
    ensures GetTargetAddress(Patched(m, src, dst), src) == dst
  {
    TargetOfPatched(m, src, dst);
    U32OfSmall(dst);
  }

  /** Copying the overwritten bytes back over the jump restores the memory exactly. */
  lemma {:induction false} RestoreUndoesPatch(m: seq<byte>, src: nat, dst: int)
    requires src + JmpInstrSize <= |m|
    ensures Restored(Patched(m, src, dst), src, m[src..src + JmpInstrSize]) == m
  {
    var r := Restored(Patched(m, src, dst), src, m[src..src + JmpInstrSize]);
    assert forall i :: 0 <= i < |m| ==> r[i] == m[i] by {
      forall i | 0 <= i < |m|
        ensures r[i] == m[i]
      {
        if src <= i < src + JmpInstrSize {
          assert r[i] == r[src..src + JmpInstrSize][i - src];
        }
      }
    }
  }

  /**
   * Hook: one detour, with the address it patches, the destination, the
   * five bytes it saved and whether the jump is currently in place. `mem`
   * is the memory of the process, shared by every hook; `code` is the
   * hook's own buffer.
   */
  class Hook {
    const mem: array<byte>
    const code: array<byte>
    var src: nat
    var dst: nat
    var installed: bool

    /**
     * The buffer has room for one instruction, and while the hook is
     * installed the jump is in place at `src` and `code` holds what it
     * replaced.
     */
    ghost predicate Valid()
      reads this, mem
    {
      code.Length == JmpInstrSize && code != mem
      && (installed ==> src + JmpInstrSize <= mem.Length
                        && mem[src..src + JmpInstrSize] == JumpBytes(src, dst))
    }

    /** Hook::Hook(): nothing to patch yet. */
    constructor (mem: array<byte>)
      ensures Valid() && fresh(code) && this.mem == mem
      ensures src == 0 && dst == 0 && !installed
    {
      this.mem := mem;
      code := new byte[JmpInstrSize];
      src, dst, installed := 0, 0, false;
    }

    /** Hook::Hook(src, dst): a hook that installs itself at once. */
    constructor Attach(mem: array<byte>, src: nat, dst: nat)
      requires src + JmpInstrSize <= mem.Length
      modifies mem
      ensures Valid() && fresh(code) && this.mem == mem
      ensures installed && this.src == src && this.dst == dst
      ensures code[..] == old(mem[src..src + JmpInstrSize])
      ensures mem[..] == Patched(old(mem[..]), src, dst)
    {
      this.mem := mem;
      code := new byte[JmpInstrSize];
      this.src, this.dst, installed := 0, 0, false;
      new;
      var ok := Install2(src, dst);
    }

    /** Hook::IsInstalled. */
    function IsInstalled(): (b: bool)
      reads this, mem
      requires Valid()
      ensures b <==> installed
      ensures b ==> Decodable(mem[..], src) && GetTargetAddress(mem[..], src) == U32(dst)
    {
      if installed then
        assert mem[..] == Patched(mem[..], src, dst);
        TargetOfPatched(mem[..], src, dst);
        true
      else
        false
    }

    /**
     * Hook::Install(): refused (false, nothing written) when already
     * installed; otherwise saves the five bytes at `src` into `code` and
     * writes the jump to `dst` over them.
     */
    method Install() returns (ok: bool)
      requires Valid()
      requires !installed ==> src + JmpInstrSize <= mem.Length
      modifies this`installed, mem, code
      ensures Valid() && installed && ok == !old(installed)
      ensures old(installed) ==> mem[..] == old(mem[..]) && code[..] == old(code[..])
      ensures !old(installed) ==> code[..] == old(mem[src..src + JmpInstrSize])
      ensures !old(installed) ==> mem[..] == Patched(old(mem[..]), src, dst)
    {
      if installed {
        return false;
      }
      Copy(code, 0, mem, src, JmpInstrSize);
      var bytes := JumpBytes(src, dst);
      Write(mem, src, bytes);
      installed := true;
      return true;
    }

    /**
     * Hook::Install(src, dst): refused when already installed (nothing
     * changes); otherwise records the two addresses and installs.
     */
    method Install2(src: nat, dst: nat) returns (ok: bool)
      requires Valid()
      requires !installed ==> src + JmpInstrSize <= mem.Length
      modifies this`src, this`dst, this`installed, mem, code
      ensures Valid() && installed && ok == !old(installed)
      ensures old(installed) ==> this.src == old(this.src) && this.dst == old(this.dst)
      ensures old(installed) ==> mem[..] == old(mem[..]) && code[..] == old(code[..])
      ensures !old(installed) ==> this.src == src && this.dst == dst
      ensures !old(installed) ==> code[..] == old(mem[src..src + JmpInstrSize])
      ensures !old(installed) ==> mem[..] == Patched(old(mem[..]), src, dst)
    {
      if installed {
        return false;
      }
      this.src, this.dst := src, dst;
      ok := Install();
    }

    /**
     * Hook::Remove: refused (false, nothing written) when not installed;
     * otherwise copies the saved bytes back to `src`.
     */
    method Remove() returns (ok: bool)
      requires Valid()
      modifies this`installed, mem
      ensures Valid() && !installed && ok == old(installed)
      ensures !old(installed) ==> mem[..] == old(mem[..])
      ensures old(installed) ==> src + JmpInstrSize <= mem.Length
      ensures old(installed) ==> mem[..] == Restored(old(mem[..]), src, code[..])
    {
      if !installed {
        return false;
      }
      Write(mem, src, code[..]);
      installed := false;
      return true;
    }

    /** Hook::~Hook: removes the jump if it is in place. */
    method Destroy()
      requires Valid()
      modifies this`installed, mem
      ensures Valid() && !installed
      ensures !old(installed) ==> mem[..] == old(mem[..])
      ensures old(installed) ==> src + JmpInstrSize <= mem.Length
      ensures old(installed) ==> mem[..] == Restored(old(mem[..]), src, code[..])
    {
      var _ := Remove();
    }
  }

  /** memcpy from memory into a buffer: `dst[at..at+n]` becomes `src[from..from+n]`. */
  method Copy(dst: array<byte>, at: nat, src: array<byte>, from: nat, n: nat)
    requires at + n <= dst.Length && from + n <= src.Length && dst != src
    modifies dst
    ensures dst[..] == old(dst[..at]) + old(src[from..from + n]) + old(dst[at + n..])
  {
    forall i | 0 <= i < n {
      dst[at + i] := src[from + i];
    }
  }

  /** memcpy of a sequence of bytes into memory at `at`. */
  method Write(dst: array<byte>, at: nat, bytes: seq<byte>)
    requires at + |bytes| <= dst.Length
    modifies dst
    ensures dst[..] == old(dst[..at]) + bytes + old(dst[at + |bytes|..])
  {
    forall i | 0 <= i < |bytes| {
      dst[at + i] := bytes[i];
    }
  }

  /**
   * A hook installed and then removed leaves the memory byte for byte as it
   * was, and is not installed any more.
   */
  method InstallThenRemove(mem: array<byte>, src: nat, dst: nat) returns (h: Hook)
    requires src + JmpInstrSize <= mem.Length
    modifies mem
    ensures fresh(h) && h.Valid() && !h.installed
    ensures mem[..] == old(mem[..])
  {
    h := new Hook.Attach(mem, src, dst);
    var ok := h.Remove();
    RestoreUndoesPatch(old(mem[..]), src, dst);
  }

  /** A second Install on an installed hook is refused and changes nothing. */
  method InstallTwice(mem: array<byte>, src: nat, dst: nat) returns (h: Hook, first: bool, second: bool)
    requires src + JmpInstrSize <= mem.Length
    modifies mem
    ensures fresh(h) && h.Valid() && h.installed
    ensures first && !second
    ensures mem[..] == Patched(old(mem[..]), src, dst)
  {
    h := new Hook(mem);
    first := h.Install2(src, dst);
    second := h.Install();
  }
}
