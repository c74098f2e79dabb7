/**
 * Cell ownership across simulation nodes (Go file
 * `backend/internal/sim/node_registry.go`): a table of known nodes and a
 * table from cell to owning node, where an unassigned cell belongs to the
 * local node.
 */
module NodeRegistry {
  import opened Wrappers
  import opened Spatial

  datatype NodeInfo = NodeInfo(id: string, address: string, port: int)

  /** The owner of `cell`: its assigned node, or `local` when nothing is assigned. */
  function Owner(owners: map<CellKey, string>, local: string, cell: CellKey): (r: string)
    ensures cell in owners ==> r == owners[cell]
    ensures cell !in owners ==> r == local
  {
    if cell in owners then owners[cell] else local
  }

  /** The assignments that remain once every cell owned by `nodeId` is released. */
  function WithoutOwner(owners: map<CellKey, string>, nodeId: string): (r: map<CellKey, string>)
    ensures forall c :: c in r <==> c in owners && owners[c] != nodeId
    ensures forall c :: c in r ==> r[c] == owners[c]
  {
    map c | c in owners && owners[c] != nodeId :: owners[c]
  }

  /** Assigning a cell changes the owner of that cell only. */
  lemma OwnerAfterAssign(owners: map<CellKey, string>, local: string, cell: CellKey, nodeId: string, c: CellKey)
    ensures Owner(owners[cell := nodeId], local, c) == if c == cell then nodeId else Owner(owners, local, c)
  {
  }

  /**
   * Releasing a node hands exactly the cells it owned back to the local node;
   * every other cell keeps its owner.
   */
  lemma OwnerAfterUnregister(owners: map<CellKey, string>, local: string, nodeId: string, c: CellKey)
    ensures Owner(WithoutOwner(owners, nodeId), local, c) ==
      if Owner(owners, local, c) == nodeId then local else Owner(owners, local, c)
  {
  }

  /** After releasing a node, no cell other than the local default names it as owner. */
  lemma UnregisteredOwnsNothing(owners: map<CellKey, string>, local: string, nodeId: string, c: CellKey)
    requires nodeId != local
    ensures Owner(WithoutOwner(owners, nodeId), local, c) != nodeId
  {
    OwnerAfterUnregister(owners, local, nodeId, c);
  }

  class NodeRegistry {
    const localNodeId: string
    var nodes: map<string, NodeInfo>
    var cellOwners: map<CellKey, string>

    constructor(localNodeId: string)
      ensures this.localNodeId == localNodeId
      ensures nodes == map[] && cellOwners == map[]
    {
      this.localNodeId := localNodeId;
      nodes := map[];
      cellOwners := map[];
    }

    /** Adds or replaces the node with `info`'s ID. */
    method RegisterNode(info: NodeInfo)
      modifies this`nodes
      ensures nodes == old(nodes)[info.id := info]
    {
      nodes := nodes[info.id := info];
    }

    /** Forgets the node and every cell assignment that names it. */
    method UnregisterNode(nodeId: string)
      modifies this`nodes, this`cellOwners
      ensures nodes == old(nodes) - {nodeId}
      ensures cellOwners == WithoutOwner(old(cellOwners), nodeId)
    {
      nodes := nodes - {nodeId};
      var pending := cellOwners.Keys;
      while pending != {}
        invariant nodes == old(nodes) - {nodeId}
        invariant pending <= old(cellOwners).Keys
        invariant forall c :: c in cellOwners <==> c in old(cellOwners) && (c in pending || old(cellOwners)[c] != nodeId)
        invariant forall c :: c in cellOwners ==> cellOwners[c] == old(cellOwners)[c]
        decreases pending
      {
        var c :| c in pending;
        if cellOwners[c] == nodeId {
          cellOwners := cellOwners - {c};
        }
        pending := pending - {c};
      }
    }

    /** Assigns `cell` to `nodeId`, registered or not, replacing any previous owner. */
    method AssignCell(cell: CellKey, nodeId: string)
      modifies this`cellOwners
      ensures cellOwners == old(cellOwners)[cell := nodeId]
    {
      cellOwners := cellOwners[cell := nodeId];
    }

    /** The node that owns `cell`: the one assigned to it, or this node when none is. */
    function GetCellOwner(cell: CellKey): (r: string)
      reads this
      ensures cell in cellOwners ==> r == cellOwners[cell]
      ensures cell !in cellOwners ==> r == localNodeId
    {
      Owner(cellOwners, localNodeId, cell)
    }

    /** The cell is local when nothing is assigned to it or it is assigned to the local node. */
    function IsLocalCell(cell: CellKey): (r: bool)
      reads this
      ensures r <==> cell !in cellOwners || cellOwners[cell] == localNodeId
    {
      GetCellOwner(cell) == localNodeId
    }

    /** The registered node with this ID, if any. */
    function GetNodeInfo(nodeId: string): (r: Option<NodeInfo>)
      reads this
      ensures r.Some? <==> nodeId in nodes
      ensures r.Some? ==> r.value == nodes[nodeId]
    {
      if nodeId in nodes then Some(nodes[nodeId]) else None
    }

    /** A fresh copy of the node table, entry by entry. */
    method ListNodes() returns (result: map<string, NodeInfo>)
      ensures result == nodes
    {
      result := map[];
      var pending := nodes.Keys;
      while pending != {}
        invariant pending <= nodes.Keys
        invariant result.Keys == nodes.Keys - pending
        invariant forall id :: id in result ==> result[id] == nodes[id]
        decreases pending
      {
        var id :| id in pending;
        result := result[id := nodes[id]];
        pending := pending - {id};
      }
    }
  }
}
