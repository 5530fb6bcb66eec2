/** Which physical frames are in use, by which address space and for which page. */
module Coremaps {
  import opened Bitmaps

  class Coremap {
    const size: nat
    const framesMap: Bitmap
    const addrSpaces: array<nat>
    const vpns: array<nat>

    ghost predicate Valid() {
      && framesMap.Valid() && framesMap.numBits == size
      && addrSpaces.Length == size && vpns.Length == size
      && addrSpaces != vpns
    }

    ghost function Repr(): set<object> {
      {framesMap.words as object, addrSpaces as object, vpns as object}
    }

    constructor (nitems: nat)
      requires nitems > 0
      ensures Valid() && size == nitems && fresh(Repr())
      ensures forall k :: 0 <= k < nitems ==> !framesMap.Bits()[k]
    {
      size := nitems;
      framesMap := new Bitmap(nitems);
      addrSpaces := new nat[nitems];
      vpns := new nat[nitems];
    }

    method Mark(which: nat, space: nat, vpn: nat)
      requires Valid() && which < size
      modifies Repr()
      ensures framesMap.Bits() == old(framesMap.Bits())[which := true]
      ensures addrSpaces[..] == old(addrSpaces[..])[which := space]
      ensures vpns[..] == old(vpns[..])[which := vpn]
    {
      framesMap.Mark(which);
      addrSpaces[which] := space;
      vpns[which] := vpn;
    }

    /** Takes the least free frame for page `vpn` of `space`; -1 when every frame is used. */
    method Find(space: nat, vpn: nat) returns (which: int)
      requires Valid()
      modifies Repr()
      ensures var k := FirstClear(old(framesMap.Bits()), 0);
              if k < size then
                && which == k
                && framesMap.Bits() == old(framesMap.Bits())[k := true]
                && addrSpaces[..] == old(addrSpaces[..])[k := space]
                && vpns[..] == old(vpns[..])[k := vpn]
              else
                && which == -1
                && framesMap.Bits() == old(framesMap.Bits())
                && addrSpaces[..] == old(addrSpaces[..]) && vpns[..] == old(vpns[..])
    {
      which := framesMap.Find();
      if which != -1 {
        addrSpaces[which] := space;
        vpns[which] := vpn;
      }
    }

    /** The page in a used frame; -1 for a free one. */
    method GetVpn(frame: nat) returns (vpn: int)
      requires Valid() && frame < size
      ensures vpn == if framesMap.Bits()[frame] then vpns[frame] else -1
    {
      var used := framesMap.Test(frame);
      vpn := if used then vpns[frame] else -1;
    }
  }
}
