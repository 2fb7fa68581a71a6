/** The windows of src/window.c: a range of addresses backed by a part of the code buffer. */
module Windows {
  import opened Words
  import opened Instrs

  predicate Inside(orig: u64, length: u64, address: u64): (b: bool)
    ensures b <==> orig <= address < orig + length < WORD
  {
    Contains(address, orig, Add(orig, length))
  }

  /** The place in the code buffer that backs an address, None for no place. A window whose data
      pointer is null backs nothing. */
  function Locate(orig: u64, data: Option<nat>, length: u64, address: u64): (place: Option<nat>)
    ensures place.Some? <==> data.Some? && orig <= address < orig + length < WORD
    ensures place.Some? ==> place.value == data.value + (address - orig)
  {
    if !Inside(orig, length, address) || data.None? then None
    else Some(data.value + Sub(address, orig))
  }

  /** data is an index into the code buffer. */
  class Window {
    var orig: u64
    var data: Option<nat>
    var length: u64

    constructor (orig: u64, data: Option<nat>, length: u64)
      ensures this.orig == orig && this.data == data && this.length == length
    {
      this.orig, this.data, this.length := orig, data, length;
    }

    method Init(orig: u64, data: Option<nat>, length: u64)
      modifies this
      ensures this.orig == orig && this.data == data && this.length == length
    {
      this.orig, this.data, this.length := orig, data, length;
    }

    predicate ContainsAddress(address: u64)
      reads this
    {
      Inside(orig, length, address)
    }

    /** The place of an address and the bytes left in the window from there. */
    method View(address: u64) returns (place: Option<nat>, left: u64)
      ensures place == Locate(orig, data, length, address)
      ensures ContainsAddress(address) ==> left == length - (address - orig) > 0
    {
      if !ContainsAddress(address) {
        return None, 0;
      }
      left := Sub(length, Sub(address, orig));
      place := if data.None? then None else Some(data.value + Sub(address, orig));
    }
  }

  /** A window that reaches the top of the address space holds no address at all: its end wraps
      to an address below its start. */
  lemma InsideWrapped(orig: u64, length: u64, address: u64)
    requires orig + length >= WORD
    ensures !Inside(orig, length, address)
  {
  }
}
