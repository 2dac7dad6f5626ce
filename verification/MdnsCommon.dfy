/** What the parts of the mDNS component share. */
module MdnsCommon {
  import opened Options

  /** Network interface and IP protocol. */
  datatype Link = Link(netif: int, protocol: int)

  /** mdns_txt_linked_item_t; no value is not the same as an empty one. */
  datatype TxtItem = TxtItem(key: string, value: Option<string>)

  /** An item as it is handed out: an empty value is no value. */
  function Delivered(item: TxtItem): TxtItem {
    if item.value == Some("") then TxtItem(item.key, None) else item
  }

  function AllDelivered(items: seq<TxtItem>): (r: seq<TxtItem>)
    ensures |r| == |items| && forall i :: 0 <= i < |items| ==> r[i] == Delivered(items[i])
  {
    seq(|items|, i requires 0 <= i < |items| => Delivered(items[i]))
  }
}
