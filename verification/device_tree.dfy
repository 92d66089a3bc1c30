/** The flattened device tree as the mach-mvebu code sees it: a sequence of
    nodes in the kernel's all-nodes order, and the lookups the code uses
    (of_find_matching_node, of_find_node_by_name, of_iomap,
    of_address_to_resource); of_get_child_count is the node's `childCount`. */
module DeviceTree {
  import opened Kernel

  /** One `reg` entry: its physical start, and the virtual address that
      ioremap hands out for it (NULL when the mapping fails). */
  datatype Reg = Reg(phys: nat, virt: Addr)

  datatype Node = Node(name: string, compatible: seq<string>, regs: seq<Reg>, childCount: nat)

  type Tree = seq<Node>

  /** The node is compatible with at least one string of a match table. */
  predicate Matches(n: Node, compats: seq<string>)
  {
    exists c :: c in compats && c in n.compatible
  }

  /** Index of the first node at or after `k` that satisfies `p`. */
  function FirstFrom(t: Tree, p: Node -> bool, k: nat): (r: Option<nat>)
    requires k <= |t|
    ensures r.Some? ==> k <= r.value < |t| && p(t[r.value])
    ensures r.Some? ==> forall j :: k <= j < r.value ==> !p(t[j])
    ensures r.None? ==> forall j :: k <= j < |t| ==> !p(t[j])
    decreases |t| - k
  {
    if k == |t| then None
    else if p(t[k]) then Some(k)
    else FirstFrom(t, p, k + 1)
  }

  /** of_find_matching_node(NULL, table): the first node in tree order that is
      compatible with some entry of the table. */
  function FindMatchingNode(t: Tree, compats: seq<string>): (r: Option<nat>)
    ensures r.Some? ==> r.value < |t| && Matches(t[r.value], compats)
    ensures r.Some? ==> forall j :: 0 <= j < r.value ==> !Matches(t[j], compats)
    ensures r.None? <==> forall j :: 0 <= j < |t| ==> !Matches(t[j], compats)
  {
    FirstFrom(t, (n: Node) => Matches(n, compats), 0)
  }

  /** of_find_node_by_name(NULL, name): the first node with that name. */
  function FindNodeByName(t: Tree, name: string): (r: Option<nat>)
    ensures r.Some? ==> r.value < |t| && t[r.value].name == name
    ensures r.Some? ==> forall j :: 0 <= j < r.value ==> t[j].name != name
    ensures r.None? <==> forall j :: 0 <= j < |t| ==> t[j].name != name
  {
    FirstFrom(t, (n: Node) => n.name == name, 0)
  }

  /** of_iomap(np, index): the mapped address of that `reg` entry, or NULL when
      the node has no such entry. */
  function OfIomap(n: Node, index: nat): Addr
  {
    if index < |n.regs| then n.regs[index].virt else NULL
  }

  /** The `start` that of_address_to_resource(np, index, &res) stores; a
      missing entry leaves 0. */
  function ResourceStart(n: Node, index: nat): nat
  {
    if index < |n.regs| then n.regs[index].phys else 0
  }
}
