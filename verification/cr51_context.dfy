/** The validation context the caller owns and the library updates. */
module Cr51Context {
  import opened Bytes
  import opened Options
  import opened Cr51Format

  datatype ValidationState = Unspecified | Invalid | Valid

  function Read(f: Flash, offset: nat, count: nat): Option<seq<byte>> {
    if CanRead(f, offset, count) then Some(f.data[offset..offset + count]) else None
  }

  class Context {
    const flash: Flash
    const intf: Intf
    const startOffset: u32
    const endOffset: u32
    const family: u32
    var descriptor: Descriptor
    var state: ValidationState
    var hashType: byte
    var hashed: seq<byte>  // the bytes fed to the hash engine since it was last initialised
    var stored: Option<seq<byte>>  // the MAUV kept by the system behind the store callbacks

    constructor (flash: Flash, intf: Intf, startOffset: u32, endOffset: u32, family: u32,
                 descriptor: Descriptor, stored: Option<seq<byte>>)
      ensures this.flash == flash && this.intf == intf
      ensures this.startOffset == startOffset && this.endOffset == endOffset && this.family == family
      ensures this.descriptor == descriptor && this.stored == stored && state == Unspecified
    {
      this.flash, this.intf := flash, intf;
      this.startOffset, this.endOffset, this.family := startOffset, endOffset, family;
      this.descriptor, this.stored, this.state := descriptor, stored, Unspecified;
      this.hashType, this.hashed := 0, [];
    }

    method HashInit(hashType: byte)
      modifies this`hashType, this`hashed
      ensures this.hashType == hashType && hashed == []
    {
      this.hashType, hashed := hashType, [];
    }

    method HashUpdate(bytes: seq<byte>)
      modifies this`hashed
      ensures hashed == old(hashed) + bytes
    {
      hashed := hashed + bytes;
    }
  }
}
