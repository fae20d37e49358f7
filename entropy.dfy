/**
  The generator's cryptographic random source (an RNGCryptoServiceProvider
  shared by every call). Its bytes are not computed here: the source is
  a supply of bytes fixed in advance, which `GetBytes` hands out in order from
  a read position. The real provider never runs dry; this one is finite, and
  a request it cannot fill is reported instead of answered.
*/
module Entropy {
  import opened DotNet

  class EntropySource {
    /** Every byte the source will ever hand out, in order. */
    const supply: seq<byte>
    /** How many of them have been handed out. */
    var position: nat

    ghost predicate Valid()
      reads this
    {
      position <= |supply|
    }

    constructor (supply: seq<byte>)
      ensures Valid() && this.supply == supply && position == 0
    {
      this.supply := supply;
      position := 0;
    }

    /**
      RandomNumberGenerator.GetBytes(data): fills `data` with the next
      `data.Length` bytes of the supply. When fewer are left, it reports
      `false` and neither `data` nor the position changes.
    */
    method GetBytes(data: array<byte>) returns (filled: bool)
      requires Valid()
      modifies this, data
      ensures Valid()
      ensures filled <==> old(position) + data.Length <= |supply|
      ensures filled ==> data[..] == supply[old(position)..old(position) + data.Length]
      ensures filled ==> position == old(position) + data.Length
      ensures !filled ==> position == old(position) && data[..] == old(data[..])
    {
      if position + data.Length <= |supply| {
        forall i | 0 <= i < data.Length {
          data[i] := supply[position + i];
        }
        position := position + data.Length;
        filled := true;
      } else {
        filled := false;
      }
    }
  }
}
