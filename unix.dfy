/**
 * Image introspection on Unix-like hosts (src/os/unix.rs): the header-size
 * decoder over the first bytes of a loaded image, the choice of the name
 * handed to dlopen, and the snapshot of loaded objects taken from the
 * program-header iteration.
 */
module UnixImage {
  import opened Wrappers
  import opened Common

  /** An octet of the image. */
  newtype byte = x: int | 0 <= x < 0x100

  type Bytes = seq<byte>

  // ---------------------------------------------------------------------
  // Little-endian fields
  // ---------------------------------------------------------------------

  /** The unsigned 16-bit little-endian field at `off`. */
  function LeU16(b: Bytes, off: nat): (v: nat)
    requires off + 2 <= |b|
    ensures v < 0x1_0000
  {
    b[off] as nat + 0x100 * b[off + 1] as nat
  }

  /** The unsigned 32-bit little-endian field at `off`. */
  function LeU32(b: Bytes, off: nat): (v: nat)
    requires off + 4 <= |b|
    ensures v < 0x1_0000_0000
  {
    LeU16(b, off) + 0x1_0000 * LeU16(b, off + 2)
  }

  /** `v.to_le_bytes()` for a `u16`. */
  function LeBytes16(v: nat): (b: Bytes)
    requires v < 0x1_0000
    ensures |b| == 2
  {
    [(v % 0x100) as byte, (v / 0x100) as byte]
  }

  /** `v.to_le_bytes()` for a `u32`. */
  function LeBytes32(v: nat): (b: Bytes)
    requires v < 0x1_0000_0000
    ensures |b| == 4
  {
    LeBytes16(v % 0x1_0000) + LeBytes16(v / 0x1_0000)
  }

  lemma LeU16OfLeBytes16(b: Bytes, off: nat, v: nat)
    requires v < 0x1_0000 && off + 2 <= |b|
    requires b[off..off + 2] == LeBytes16(v)
    ensures LeU16(b, off) == v
  {
    assert b[off] == LeBytes16(v)[0] && b[off + 1] == LeBytes16(v)[1];
  }

  /** Reading back what `LeBytes32` wrote gives the value that was written. */
  lemma LeU32OfLeBytes32(b: Bytes, off: nat, v: nat)
    requires v < 0x1_0000_0000 && off + 4 <= |b|
    requires b[off..off + 4] == LeBytes32(v)
    ensures LeU32(b, off) == v
  {
    assert b[off..off + 2] == b[off..off + 4][..2] == LeBytes16(v % 0x1_0000);
    assert b[off + 2..off + 4] == b[off..off + 4][2..] == LeBytes16(v / 0x1_0000);
    LeU16OfLeBytes16(b, off, v % 0x1_0000);
    LeU16OfLeBytes16(b, off + 2, v / 0x1_0000);
  }

  // ---------------------------------------------------------------------
  // Header formats (System V gABI "ELF Header"; Apple mach-o/loader.h)
  // ---------------------------------------------------------------------

  /** 0x7f 'E' 'L' 'F' */
  const ELF_MAGIC: Bytes := [0x7f, 0x45, 0x4c, 0x46]
  /** `0xfeedface_u32.to_le_bytes()` */
  const MH_MAGIC: Bytes := LeBytes32(0xfeed_face)
  /** `0xfeedfacf_u32.to_le_bytes()` */
  const MH_MAGIC_64: Bytes := LeBytes32(0xfeed_facf)

  const EI_CLASS: nat := 4
  const ELFCLASS32: byte := 1
  const ELFCLASS64: byte := 2

  /** Offsets of `e_ehsize` in Elf32_Ehdr and Elf64_Ehdr, and of `sizeofcmds` in both Mach-O headers. */
  const ELF32_EHSIZE_OFFSET: nat := 40
  const ELF64_EHSIZE_OFFSET: nat := 52
  const SIZEOFCMDS_OFFSET: nat := 20

  /** `size_of` the four header structs. */
  const ELF32_EHDR_SIZE: nat := 52
  const ELF64_EHDR_SIZE: nat := 64
  const MACH_HEADER_SIZE: nat := 28
  const MACH_HEADER_64_SIZE: nat := 32

  /**
   * The bytes `hdr_size` reads are there: the 4-byte magic, and the whole
   * header struct of the format that magic (and, for ELF, the class byte)
   * selects. The source reads raw memory at the image base; this is what it
   * demands of the pointer it is given.
   */
  predicate Mapped(hdr: Bytes)
  {
    && |hdr| >= 4
    && (hdr[..4] == MH_MAGIC ==> |hdr| >= MACH_HEADER_SIZE)
    && (hdr[..4] == MH_MAGIC_64 ==> |hdr| >= MACH_HEADER_64_SIZE)
    && (hdr[..4] == ELF_MAGIC ==>
          && |hdr| > EI_CLASS
          && (hdr[EI_CLASS] == ELFCLASS32 ==> |hdr| >= ELF32_EHDR_SIZE)
          && (hdr[EI_CLASS] == ELFCLASS64 ==> |hdr| >= ELF64_EHDR_SIZE))
  }

  lemma MagicsDistinct()
    ensures MH_MAGIC != ELF_MAGIC && MH_MAGIC_64 != ELF_MAGIC && MH_MAGIC != MH_MAGIC_64
  {
    assert MH_MAGIC[0] == 0xce && MH_MAGIC_64[0] == 0xcf && ELF_MAGIC[0] == 0x7f;
  }

  /**
   * `hdr_size`: the size of the image's header. The first four bytes select
   * the format; ELF then branches on the class byte.
   */
  function HdrSize(hdr: Bytes): (r: Result<nat, IoError>)
    requires Mapped(hdr)
    ensures r.Err? && r.error.kind == Other <==>
              hdr[..4] != MH_MAGIC && hdr[..4] != MH_MAGIC_64 && hdr[..4] != ELF_MAGIC
    ensures r.Err? && r.error.kind == InvalidData <==>
              hdr[..4] == ELF_MAGIC && hdr[EI_CLASS] != ELFCLASS32 && hdr[EI_CLASS] != ELFCLASS64
    ensures r.Ok? ==> r.value < 0x1_0000_0000 + MACH_HEADER_64_SIZE
  {
    MagicsDistinct();
    var magic := hdr[..4];
    if magic == MH_MAGIC then
      Ok(MACH_HEADER_SIZE + LeU32(hdr, SIZEOFCMDS_OFFSET))
    else if magic == MH_MAGIC_64 then
      Ok(MACH_HEADER_64_SIZE + LeU32(hdr, SIZEOFCMDS_OFFSET))
    else if magic == ELF_MAGIC then
      if hdr[EI_CLASS] == ELFCLASS32 then
        Ok(LeU16(hdr, ELF32_EHSIZE_OFFSET))
      else if hdr[EI_CLASS] == ELFCLASS64 then
        Ok(LeU16(hdr, ELF64_EHSIZE_OFFSET))
      else
        Err(IoError(InvalidData, "invalid ELF file"))
    else
      Err(IoError(Other, "unknown header detected"))
  }

  // ---------------------------------------------------------------------
  // Reference encoder: headers laid out field by field
  // ---------------------------------------------------------------------

  /** The fields `hdr_size` looks at, per format. */
  datatype Header =
    | Elf32(ehsize: nat)
    | Elf64(ehsize: nat)
    | MachO32(sizeofcmds: nat)
    | MachO64(sizeofcmds: nat)
  {
    predicate WellFormed()
    {
      if Elf32? || Elf64? then ehsize < 0x1_0000 else sizeofcmds < 0x1_0000_0000
    }

    /** Size of the header struct of this format. */
    function StructSize(): nat
    {
      match this
      case Elf32(_) => ELF32_EHDR_SIZE
      case Elf64(_) => ELF64_EHDR_SIZE
      case MachO32(_) => MACH_HEADER_SIZE
      case MachO64(_) => MACH_HEADER_64_SIZE
    }

    /** What the header says its size is: `e_ehsize`, or the struct plus its load commands. */
    function Size(): nat
    {
      match this
      case Elf32(n) => n
      case Elf64(n) => n
      case MachO32(n) => MACH_HEADER_SIZE + n
      case MachO64(n) => MACH_HEADER_64_SIZE + n
    }
  }

  /** `b` with `v` written over it at `off`. */
  function Put(b: Bytes, off: nat, v: Bytes): (r: Bytes)
    requires off + |v| <= |b|
    ensures |r| == |b| && r[off..off + |v|] == v
    ensures forall i :: 0 <= i < |b| && !(off <= i < off + |v|) ==> r[i] == b[i]
  {
    b[..off] + v + b[off + |v|..]
  }

  /**
   * An image header of format `h`: the bytes of `pad` with the magic, the
   * ELF class byte and the size field of `h` written at their offsets.
   */
  function Encode(h: Header, pad: Bytes): (b: Bytes)
    requires h.WellFormed() && |pad| >= h.StructSize()
    ensures |b| == |pad|
  {
    match h
    case Elf32(n) => Put(Put(Put(pad, 0, ELF_MAGIC), EI_CLASS, [ELFCLASS32]), ELF32_EHSIZE_OFFSET, LeBytes16(n))
    case Elf64(n) => Put(Put(Put(pad, 0, ELF_MAGIC), EI_CLASS, [ELFCLASS64]), ELF64_EHSIZE_OFFSET, LeBytes16(n))
    case MachO32(n) => Put(Put(pad, 0, MH_MAGIC), SIZEOFCMDS_OFFSET, LeBytes32(n))
    case MachO64(n) => Put(Put(pad, 0, MH_MAGIC_64), SIZEOFCMDS_OFFSET, LeBytes32(n))
  }

  /**
   * Decoding an encoded header gives the size it was built with, whatever
   * the other bytes hold: `hdr_size` reads exactly the magic, the class
   * byte and the one size field.
   */
  lemma {:induction false} HdrSizeOfEncode(h: Header, pad: Bytes)
    requires h.WellFormed() && |pad| >= h.StructSize()
    ensures Mapped(Encode(h, pad))
    ensures HdrSize(Encode(h, pad)) == Ok(h.Size())
  {
    MagicsDistinct();
    var b := Encode(h, pad);
    match h
    case Elf32(n) =>
      assert b[..4] == ELF_MAGIC;
      assert b[EI_CLASS] == ELFCLASS32;
      assert b[ELF32_EHSIZE_OFFSET..ELF32_EHSIZE_OFFSET + 2] == LeBytes16(n);
      LeU16OfLeBytes16(b, ELF32_EHSIZE_OFFSET, n);
    case Elf64(n) =>
      assert b[..4] == ELF_MAGIC;
      assert b[EI_CLASS] == ELFCLASS64;
      assert b[ELF64_EHSIZE_OFFSET..ELF64_EHSIZE_OFFSET + 2] == LeBytes16(n);
      LeU16OfLeBytes16(b, ELF64_EHSIZE_OFFSET, n);
    case MachO32(n) =>
      assert b[..4] == MH_MAGIC;
      assert b[SIZEOFCMDS_OFFSET..SIZEOFCMDS_OFFSET + 4] == LeBytes32(n);
      LeU32OfLeBytes32(b, SIZEOFCMDS_OFFSET, n);
    case MachO64(n) =>
      assert b[..4] == MH_MAGIC_64;
      assert b[SIZEOFCMDS_OFFSET..SIZEOFCMDS_OFFSET + 4] == LeBytes32(n);
      LeU32OfLeBytes32(b, SIZEOFCMDS_OFFSET, n);
  }

  /** An unrecognised magic is an error whatever follows it: no size is ever guessed. */
  lemma UnknownMagicRejected(hdr: Bytes, rest: Bytes)
    requires Mapped(hdr)
    requires hdr[..4] != MH_MAGIC && hdr[..4] != MH_MAGIC_64 && hdr[..4] != ELF_MAGIC
    ensures Mapped(hdr[..4] + rest)
    ensures HdrSize(hdr) == HdrSize(hdr[..4] + rest) == Err(IoError(Other, "unknown header detected"))
  {
    assert (hdr[..4] + rest)[..4] == hdr[..4];
  }

  // ---------------------------------------------------------------------
  // dlopen_fname and load_objects
  // ---------------------------------------------------------------------

  /**
   * `dlopen_fname`: the file name to give dlopen. The running executable's
   * own path becomes null (`None`), so that dlopen returns the handle of
   * the main program; any other name is passed unchanged.
   */
  function DlopenFname(fname: Bytes, currentExe: Bytes): (p: Option<Bytes>)
    ensures p.None? <==> fname == currentExe
    ensures p.Some? ==> p.value == fname
  {
    if fname == currentExe then None else Some(fname)
  }

  /** The bytes of a C string before its terminating NUL: none of them is 0. */
  type CBytes = b: Bytes | forall k :: 0 <= k < |b| ==> b[k] != 0

  /** `dlpi_name`: a null pointer, or a NUL-terminated string (its bytes before the NUL). */
  datatype CName = Null | CStr(bytes: CBytes)

  /** The fields of `dl_phdr_info` that `load_objects` reads. */
  datatype PhdrInfo = PhdrInfo(dlpiAddr: nat, dlpiName: CName)

  /** `weak::Weak`: an image's base address and, when known, its path. */
  datatype Weak = Weak(baseAddr: nat, pathName: Option<Bytes>)

  /**
   * `load_objects` (GNU variant): one entry per image the program-header
   * iteration visits, in visiting order. A null name gives no path, an
   * empty name is the main program and gives the executable's path
   * (`currentExe`, itself absent when it cannot be found), any other name is
   * the path.
   */
  method LoadObjects(images: seq<PhdrInfo>, currentExe: Option<Bytes>) returns (data: seq<Weak>)
    ensures |data| == |images|
    ensures forall i :: 0 <= i < |images| ==> data[i].baseAddr == images[i].dlpiAddr
    ensures forall i :: 0 <= i < |images| && images[i].dlpiName.Null? ==> data[i].pathName.None?
    ensures forall i :: 0 <= i < |images| && images[i].dlpiName == CStr([]) ==> data[i].pathName == currentExe
    ensures forall i :: 0 <= i < |images| && images[i].dlpiName.CStr? && images[i].dlpiName.bytes != [] ==>
              data[i].pathName == Some(images[i].dlpiName.bytes)
  {
    data := [];
    var i := 0;
    while i < |images|
      invariant 0 <= i <= |images| && |data| == i
      invariant forall j :: 0 <= j < i ==> data[j].baseAddr == images[j].dlpiAddr
      invariant forall j :: 0 <= j < i && images[j].dlpiName.Null? ==> data[j].pathName.None?
      invariant forall j :: 0 <= j < i && images[j].dlpiName == CStr([]) ==> data[j].pathName == currentExe
      invariant forall j :: 0 <= j < i && images[j].dlpiName.CStr? && images[j].dlpiName.bytes != [] ==>
                  data[j].pathName == Some(images[j].dlpiName.bytes)
    {
      var info := images[i];
      var pathName: Option<Bytes>;
      if info.dlpiName.Null? {
        pathName := None;
      } else if info.dlpiName.bytes == [] {
        pathName := currentExe;
      } else {
        pathName := Some(info.dlpiName.bytes);
      }
      data := data + [Weak(info.dlpiAddr, pathName)];
      i := i + 1;
    }
  }
}
