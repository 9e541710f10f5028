/** Words carried by nets, least significant first, and the numbers they stand for. */
module Nets {
  import opened Bits

  ghost function Bus<Net>(nets: seq<Net>, w: Net -> bool): (bs: seq<bool>)
    ensures |bs| == |nets|
  {
    seq(|nets|, k requires 0 <= k < |nets| => w(nets[k]))
  }

  ghost function Number<Net>(nets: seq<Net>, w: Net -> bool): nat {
    Val(Bus(nets, w))
  }
}
