/** M.2 slots of a device tree: internal/dtb/nvme.go. */
module NvmeSlots {
  import opened GoStrings
  import opened FlatTree
  import opened Slots

  const NVME_PREFIX: Bytes := Ascii("nvme_slot@")
  const PORT_TYPE: Bytes := Ascii("port_type")
  const POWER_LIMIT: Bytes := Ascii("power_limit")
  const NVME_POWER_LIMIT: Bytes := Ascii("14.85")
  const SSDCACHE: Bytes := Ascii("ssdcache")
  const COMMA: Bytes := Ascii(",")

  function WithoutNvme(cs: seq<Node>): seq<Node> {
    if cs == [] then []
    else
      var c := cs[|cs| - 1];
      WithoutNvme(cs[..|cs| - 1]) + if HasPrefix(c.name, NVME_PREFIX) then [] else [c]
  }

  function NvmeNode(i: nat, root: Bytes): Node {
    SetString(SetString(Node(NVME_PREFIX + Itoa(i + 1), [], []), PCIE_ROOT, root), PORT_TYPE, SSDCACHE)
  }

  function NvmeNodes(roots: seq<Bytes>): (r: seq<Node>)
    ensures |r| == |roots|
  {
    seq(|roots|, i requires 0 <= i < |roots| => NvmeNode(i, roots[i]))
  }

  function Limits(n: nat): seq<Bytes> { seq(n, _ => NVME_POWER_LIMIT) }

  function WithNvmeSlots(root: Node, roots: seq<Bytes>): Node {
    if roots == [] then root
    else
      SetString(root.(children := WithoutNvme(root.children) + NvmeNodes(roots)),
                POWER_LIMIT, Join(Limits(|roots|), COMMA))
  }
}
