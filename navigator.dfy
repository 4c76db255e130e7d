/**
 * `StationLinkedList`: a doubly-linked list of stations with a cursor.
 * The nodes are real objects linked by `next`/`prev`; the ghost sequence
 * `Nodes` lists them in order, `Contents()` lists their stations and `Cursor`
 * is the 0-based index of the current node.
 */
module Navigator {
  import opened Wrappers

  /** `models.station.Station`: a dataset id and the city it was listed under. */
  datatype Station = Station(datasetId: string, city: string)

  /** `StationNode`: one station and its two neighbour links. */
  class StationNode {
    const station: Station
    var next: StationNode?
    var prev: StationNode?

    constructor (station: Station)
      ensures this.station == station && next == null && prev == null
    {
      this.station := station;
      next := null;
      prev := null;
    }
  }

  /** The stations held by `nodes`, in order. */
  function StationsOf(nodes: seq<StationNode>): (r: seq<Station>)
    ensures |r| == |nodes|
    ensures forall i :: 0 <= i < |nodes| ==> r[i] == nodes[i].station
  {
    if nodes == [] then [] else StationsOf(nodes[..|nodes| - 1]) + [nodes[|nodes| - 1].station]
  }

  /** Every two neighbours in `nodes` point at each other. */
  ghost predicate Chain(nodes: seq<StationNode>)
    reads nodes
  {
    forall i {:trigger nodes[i].prev} :: 0 < i < |nodes| ==> nodes[i].prev == nodes[i - 1] && nodes[i - 1].next == nodes[i]
  }

  /** Proof helper: one instance of `Chain`, so that callers need not match its trigger. */
  lemma ChainAt(nodes: seq<StationNode>, i: int)
    requires Chain(nodes) && 0 < i < |nodes|
    ensures nodes[i].prev == nodes[i - 1] && nodes[i - 1].next == nodes[i]
  {
  }

  /** In a chain whose last node has no successor, no node appears twice. */
  lemma {:induction false} ChainDistinct(nodes: seq<StationNode>, i: int, j: int)
    requires Chain(nodes) && 0 <= i < j < |nodes| && nodes[|nodes| - 1].next == null
    ensures nodes[i] != nodes[j]
    decreases |nodes| - j
  {
    ChainAt(nodes, i + 1);
    if j + 1 < |nodes| {
      ChainAt(nodes, j + 1);
      ChainDistinct(nodes, i + 1, j + 1);
    }
  }

  /**
   * The two link updates of `add_station` on a non-empty list: the last
   * node points forward to `node`, which points back to it. Appending to
   * a chain this way gives a chain one node longer.
   */
  method LinkAfter(last: StationNode, node: StationNode, ghost nodes: seq<StationNode>)
    requires nodes != [] && last == nodes[|nodes| - 1] && Chain(nodes)
    requires last.next == null && node !in nodes
    modifies last, node
    ensures Chain(nodes + [node])
    ensures last.next == node && node.prev == last
    ensures last.prev == old(last.prev) && node.next == old(node.next)
  {
    var n := |nodes|;
    forall k | 0 <= k < n - 1 ensures nodes[k] != last {
      ChainAt(nodes, k + 1);
    }
    last.next := node;
    node.prev := last;
    var r := nodes + [node];
    forall i | 0 < i < |r| ensures r[i].prev == r[i - 1] && r[i - 1].next == r[i] {
      if i < n {
        assert r[i] == nodes[i] && r[i - 1] == nodes[i - 1];
        assert old(nodes[i].prev) == nodes[i - 1] && old(nodes[i - 1].next) == nodes[i];
      }
    }
  }

  class StationLinkedList {
    var head: StationNode?
    var tail: StationNode?
    var current: StationNode?
    var size: int

    ghost var Nodes: seq<StationNode>
    ghost var Cursor: nat

    /** The list invariant: the links follow `Nodes` both ways, and `current` is the node at `Cursor`. */
    ghost predicate Valid()
      reads this, Nodes
    {
      && size == |Nodes|
      && Chain(Nodes)
      && (|Nodes| == 0 ==> head == null && tail == null && current == null && Cursor == 0)
      && (|Nodes| > 0 ==> head == Nodes[0] && tail == Nodes[|Nodes| - 1] && head.prev == null && tail.next == null
                          && Cursor < |Nodes| && current == Nodes[Cursor])
    }

    /** The neighbours of the current node are those of `Cursor` in `Nodes`. */
    lemma CurrentLinks()
      requires Valid()
      ensures current != null ==> current.next == (if Cursor + 1 < |Nodes| then Nodes[Cursor + 1] else null)
      ensures current != null ==> current.prev == (if Cursor == 0 then null else Nodes[Cursor - 1])
    {
      if current != null && Cursor + 1 < |Nodes| {
        ChainAt(Nodes, Cursor + 1);
      }
      if current != null && Cursor > 0 {
        ChainAt(Nodes, Cursor);
      }
    }

    /** The stations of the nodes, in list order. */
    ghost function Contents(): seq<Station>
      reads this
    {
      StationsOf(Nodes)
    }

    /** The 1-indexed position the list reports; 0 when empty. */
    ghost function Position(): nat
      reads this
    {
      if |Contents()| == 0 then 0 else Cursor + 1
    }

    /** `__init__`: an empty list, no current station. */
    constructor ()
      ensures Valid() && Nodes == []
      ensures Contents() == [] && Position() == 0
    {
      head, tail, current := null, null, null;
      size := 0;
      Nodes, Cursor := [], 0;
    }

    /** `add_station`: appends at the tail; the first station added becomes current. */
    method AddStation(station: Station)
      requires Valid()
      modifies this, tail
      ensures Valid() && fresh(tail)
      ensures Contents() == old(Contents()) + [station]
      ensures Cursor == old(Cursor)
      ensures Position() == if old(Contents()) == [] then 1 else old(Position())
    {
      ghost var before := Nodes;
      var node := new StationNode(station);
      if head == null {
        head, tail, current := node, node, node;
      } else {
        LinkAfter(tail, node, before);
        tail := node;
      }
      size := size + 1;
      Nodes := Nodes + [node];
      assert (before + [node])[..|before|] == before;
    }

    /** `next`: moves forward and returns the new current station; at the last station (or empty) returns `None` and stays. */
    method Next() returns (r: Option<Station>)
      requires Valid()
      modifies this
      ensures Valid() && Nodes == old(Nodes) && Contents() == old(Contents())
      ensures old(Position()) < |Contents()| ==> Cursor == old(Cursor) + 1 && r == Some(Contents()[Cursor])
      ensures old(Position()) >= |Contents()| ==> Cursor == old(Cursor) && r == None
    {
      CurrentLinks();
      if current == null || current.next == null {
        return None;
      }
      current := current.next;
      Cursor := Cursor + 1;
      r := Some(current.station);
    }

    /** `previous`: moves back and returns the new current station; at the first station (or empty) returns `None` and stays. */
    method Previous() returns (r: Option<Station>)
      requires Valid()
      modifies this
      ensures Valid() && Nodes == old(Nodes) && Contents() == old(Contents())
      ensures old(Position()) > 1 ==> Cursor == old(Cursor) - 1 && r == Some(Contents()[Cursor])
      ensures old(Position()) <= 1 ==> Cursor == old(Cursor) && r == None
    {
      CurrentLinks();
      if current == null || current.prev == null {
        return None;
      }
      current := current.prev;
      Cursor := Cursor - 1;
      r := Some(current.station);
    }

    /** `get_current`: the station at position `get_position()`, or `None` when empty. */
    function GetCurrent(): (r: Option<Station>)
      reads this, Nodes
      requires Valid()
      ensures r.None? <==> Contents() == []
      ensures r.Some? ==> 1 <= Position() <= |Contents()| && r.value == Contents()[Position() - 1]
    {
      if current == null then None else Some(current.station)
    }

    /** `has_next`: non-empty and not at the last position. */
    function HasNext(): (b: bool)
      reads this, Nodes
      requires Valid()
      ensures b <==> Contents() != [] && Position() < |Contents()|
    {
      CurrentLinks();
      current != null && current.next != null
    }

    /** `has_previous`: non-empty and above the first position. */
    function HasPrevious(): (b: bool)
      reads this, Nodes
      requires Valid()
      ensures b <==> Contents() != [] && Position() > 1
    {
      CurrentLinks();
      current != null && current.prev != null
    }

    /** `reset`: back to the first station (position 1), or position 0 when empty. */
    method Reset()
      requires Valid()
      modifies this
      ensures Valid() && Nodes == old(Nodes) && Contents() == old(Contents())
      ensures Cursor == 0
      ensures Position() == if Contents() == [] then 0 else 1
    {
      current := head;
      Cursor := 0;
    }

    /** `get_position`: walks from the head counting nodes until it meets the current one. */
    method GetPosition() returns (p: int)
      requires Valid()
      ensures p == Position()
      ensures Contents() != [] ==> 1 <= p <= |Contents()|
    {
      if current == null {
        return 0;
      }
      p := 1;
      var node := head;
      while node != null && node != current
        invariant 1 <= p <= Cursor + 1
        invariant node == Nodes[p - 1]
        decreases |Nodes| - p
      {
        ChainAt(Nodes, p);
        p := p + 1;
        node := node.next;
      }
      if p - 1 < Cursor {
        ChainDistinct(Nodes, p - 1, Cursor);
      }
    }

    /** `get_total`: the number of stations added. */
    function GetTotal(): (n: int)
      reads this, Nodes
      requires Valid()
      ensures n == |Contents()|
    {
      size
    }
  }
}
